/** What the operator's answers can and cannot do to the port plan, whatever they are. */
module NodePortPlan {
  import opened Options
  import opened NodePorts

  // ---- The run as a loop ----

  method PromptOneConflict(item: Planned, cluster: Cluster, planned: seq<Planned>, remap: map<int, int>, jobId: string,
                           answers: seq<Answer>) returns (choice: Choice, rest: seq<Answer>)
    ensures (choice, rest) == Prompt(item, cluster, planned, remap, jobId, answers)
  {
    var n := 0;
    while n < |answers|
      invariant 0 <= n <= |answers|
      invariant Prompt(item, cluster, planned, remap, jobId, answers) ==
                Prompt(item, cluster, planned, remap, jobId, answers[n..])
    {
      assert answers[n..][0] == answers[n] && answers[n..][1..] == answers[n + 1..];
      match answers[n] {
        case Keep => return Declined, answers[n + 1..];
        case Auto =>
          var free := AllocateFreePort(item.port, cluster, planned, remap.Values);
          return if free.Some? then Chosen(free.value) else Exhausted, answers[n + 1..];
        case Port(p) =>
          if ValidUserPort(p, item.port, cluster, planned, remap, jobId) { return Chosen(p), answers[n + 1..]; }
        case Unclear =>
      }
      n := n + 1;
    }
    return Declined, [];
  }

  method ResolveConflicts(conflicts: seq<Planned>, cluster: Cluster, planned: seq<Planned>, jobId: string,
                          answers: seq<Answer>)
    returns (r: Outcome)
    ensures r == Resolve(conflicts, cluster, planned, jobId, answers, map[], [])
  {
    var remap: map<int, int> := map[];
    var declined: seq<Planned> := [];
    var left := answers;
    for n := 0 to |conflicts|
      invariant Resolve(conflicts, cluster, planned, jobId, answers, map[], []) ==
                Resolve(conflicts[n..], cluster, planned, jobId, left, remap, declined)
    {
      assert conflicts[n..][0] == conflicts[n] && conflicts[n..][1..] == conflicts[n + 1..];
      var choice;
      choice, left := PromptOneConflict(conflicts[n], cluster, planned, remap, jobId, left);
      match choice {
        case Exhausted => return NoFreePort;
        case Declined => declined := declined + [conflicts[n]];
        case Chosen(p) => remap := remap[conflicts[n].port := p];
      }
    }
    return Resolved(remap, declined);
  }

  // ---- Accepted ports ----

  /** What every accepted answer guarantees about the new port. */
  ghost predicate Accepted(port: int, item: Planned, cluster: Cluster, planned: seq<Planned>, remap: map<int, int>,
                           jobId: string) {
    && port !in remap.Values
    && (forall other :: other in planned && other.port != item.port ==> port != Final(remap, other.port))
    && (port in cluster ==> FirstWithPort(planned, item.port).Some? &&
                            IsSelfOwned(FirstWithPort(planned, item.port).value.service, cluster[port], jobId))
  }

  lemma {:induction false} CandidatePositive(busy: int, n: nat)
    requires busy >= 0
    ensures Candidate(busy, n) >= 1
    decreases n
  {
    if n > 0 { CandidatePositive(busy, n - 1); }
  }

  lemma {:induction false} PromptAccepts(item: Planned, cluster: Cluster, planned: seq<Planned>, remap: map<int, int>,
                                         jobId: string, answers: seq<Answer>)
    requires item.port >= 0
    ensures var choice := Prompt(item, cluster, planned, remap, jobId, answers).0;
            choice.Chosen? ==> Accepted(choice.port, item, cluster, planned, remap, jobId) && choice.port >= 1
    decreases |answers|
  {
    if answers != [] {
      match answers[0]
      case Keep =>
      case Auto =>
        var m := FirstFreeIsFirst(item.port, Reserved(cluster, planned, remap.Values), 0);
        CandidatePositive(item.port, m);
        forall other | other in planned ensures Final(remap, other.port) in PortsOf(planned) + remap.Values {}
      case Port(p) =>
        if !ValidUserPort(p, item.port, cluster, planned, remap, jobId) {
          PromptAccepts(item, cluster, planned, remap, jobId, answers[1..]);
        }
      case Unclear => PromptAccepts(item, cluster, planned, remap, jobId, answers[1..]);
    }
  }

  // ---- The remapping as a whole ----

  /** Services planned on different ports end on different ports. */
  ghost predicate KeepsApart(planned: seq<Planned>, remap: map<int, int>) {
    forall a, b :: a in planned && b in planned && a.port != b.port ==> Final(remap, a.port) != Final(remap, b.port)
  }

  /** Every new port is free in the cluster or already belongs to the service asked about. */
  ghost predicate FreeOrOwn(planned: seq<Planned>, remap: map<int, int>, cluster: Cluster, jobId: string) {
    forall k :: k in remap && remap[k] in cluster ==>
                  FirstWithPort(planned, k).Some? &&
                  IsSelfOwned(FirstWithPort(planned, k).value.service, cluster[remap[k]], jobId)
  }

  ghost predicate Sound(planned: seq<Planned>, remap: map<int, int>, cluster: Cluster, jobId: string) {
    && KeepsApart(planned, remap)
    && FreeOrOwn(planned, remap, cluster, jobId)
    && (forall k :: k in remap ==> remap[k] >= 1)
    && remap.Keys <= PortsOf(planned)
  }

  ghost predicate ConflictList(conflicts: seq<Planned>, planned: seq<Planned>) {
    && DistinctPorts(conflicts)
    && (forall c :: c in conflicts ==> c in planned && c.port >= 0)
  }

  lemma ChoiceKeepsSound(item: Planned, port: int, cluster: Cluster, planned: seq<Planned>, remap: map<int, int>,
                         jobId: string)
    requires Sound(planned, remap, cluster, jobId) && item in planned && item.port !in remap
    requires Accepted(port, item, cluster, planned, remap, jobId) && port >= 1
    ensures Sound(planned, remap[item.port := port], cluster, jobId)
  {
    var remap' := remap[item.port := port];
    forall a, b | a in planned && b in planned && a.port != b.port
      ensures Final(remap', a.port) != Final(remap', b.port)
    {
      assert a.port == item.port || Final(remap', a.port) == Final(remap, a.port);
      assert b.port == item.port || Final(remap', b.port) == Final(remap, b.port);
    }
  }

  /** The declined conflicts are those whose port was not remapped, in their order. */
  function NotRemapped(conflicts: seq<Planned>, remap: map<int, int>): seq<Planned> {
    if conflicts == [] then []
    else (if conflicts[0].port in remap then [] else [conflicts[0]]) + NotRemapped(conflicts[1..], remap)
  }

  /** A finished run, relative to the remapping and the declined list it started from. */
  ghost predicate Finished(r: Outcome, conflicts: seq<Planned>, cluster: Cluster, planned: seq<Planned>, jobId: string,
                           remap: map<int, int>, declined: seq<Planned>) {
    r.Resolved? ==>
      && Sound(planned, r.remap, cluster, jobId)
      && r.declined == declined + NotRemapped(conflicts, r.remap)
      && (forall k :: k in r.remap ==> k in remap || exists c :: c in conflicts && c.port == k)
      && (forall k :: k in remap ==> k in r.remap)
  }

  lemma FinishedDeclined(r: Outcome, conflicts: seq<Planned>, cluster: Cluster, planned: seq<Planned>, jobId: string,
                         remap: map<int, int>, declined: seq<Planned>)
    requires conflicts != [] && (forall c :: c in conflicts[1..] ==> c.port != conflicts[0].port)
    requires conflicts[0].port !in remap
    requires Finished(r, conflicts[1..], cluster, planned, jobId, remap, declined + [conflicts[0]])
    ensures Finished(r, conflicts, cluster, planned, jobId, remap, declined)
  {
    var item, rest := conflicts[0], conflicts[1..];
    assert conflicts == [item] + rest;
    if r.Resolved? {
      assert item.port !in r.remap;
      assert declined + [item] + NotRemapped(rest, r.remap) == declined + ([item] + NotRemapped(rest, r.remap));
    }
  }

  lemma FinishedChosen(r: Outcome, conflicts: seq<Planned>, cluster: Cluster, planned: seq<Planned>, jobId: string,
                       remap: map<int, int>, declined: seq<Planned>, port: int)
    requires conflicts != []
    requires Finished(r, conflicts[1..], cluster, planned, jobId, remap[conflicts[0].port := port], declined)
    ensures Finished(r, conflicts, cluster, planned, jobId, remap, declined)
  {
    var item, rest := conflicts[0], conflicts[1..];
    assert conflicts == [item] + rest && item in conflicts;
    if r.Resolved? {
      assert item.port in r.remap;
      assert NotRemapped(conflicts, r.remap) == NotRemapped(rest, r.remap);
    }
  }

  lemma {:induction false} ResolveSound(conflicts: seq<Planned>, cluster: Cluster, planned: seq<Planned>, jobId: string,
                                        answers: seq<Answer>, remap: map<int, int>, declined: seq<Planned>)
    requires ConflictList(conflicts, planned) && Sound(planned, remap, cluster, jobId)
    requires forall c :: c in conflicts ==> c.port !in remap
    ensures Finished(Resolve(conflicts, cluster, planned, jobId, answers, remap, declined),
                     conflicts, cluster, planned, jobId, remap, declined)
    decreases |conflicts|
  {
    if conflicts != [] {
      var item, rest := conflicts[0], conflicts[1..];
      assert item in conflicts && forall c :: c in rest ==> c in conflicts;
      assert ConflictList(rest, planned) && forall c :: c in rest ==> c.port != item.port;
      PromptAccepts(item, cluster, planned, remap, jobId, answers);
      var (choice, left) := Prompt(item, cluster, planned, remap, jobId, answers);
      var r := Resolve(conflicts, cluster, planned, jobId, answers, remap, declined);
      match choice
      case Exhausted =>
      case Declined =>
        ResolveSound(rest, cluster, planned, jobId, left, remap, declined + [item]);
        FinishedDeclined(r, conflicts, cluster, planned, jobId, remap, declined);
      case Chosen(p) =>
        ChoiceKeepsSound(item, p, cluster, planned, remap, jobId);
        ResolveSound(rest, cluster, planned, jobId, left, remap[item.port := p], declined);
        FinishedChosen(r, conflicts, cluster, planned, jobId, remap, declined, p);
    }
  }

  /** For every plan, cluster and answer script: distinct services stay distinct, new ports are free
      or the service's own, and exactly the conflicts without a new port are reported as declined. */
  lemma AnswersKeepPlanSound(planned: seq<Planned>, cluster: Cluster, jobId: string, answers: seq<Answer>)
    requires forall p :: p in cluster ==> p >= 0
    ensures var conflicts := ConflictsFrom(planned, cluster, jobId, {});
            var r := Resolve(conflicts, cluster, planned, jobId, answers, map[], []);
            r.Resolved? ==>
              && Sound(planned, r.remap, cluster, jobId)
              && r.declined == NotRemapped(conflicts, r.remap)
              && (forall k :: k in r.remap ==> exists c :: c in conflicts && c.port == k)
  {
    var conflicts := ConflictsFrom(planned, cluster, jobId, {});
    ConflictsDistinct(planned, cluster, jobId, {});
    ResolveSound(conflicts, cluster, planned, jobId, answers, map[], []);
    var r := Resolve(conflicts, cluster, planned, jobId, answers, map[], []);
    if r.Resolved? { assert [] + NotRemapped(conflicts, r.remap) == NotRemapped(conflicts, r.remap); }
  }

  // ---- Conflicts after the renaming ----

  function Renamed(planned: seq<Planned>, remap: map<int, int>): (r: seq<Planned>)
    ensures |r| == |planned|
    ensures forall i :: 0 <= i < |planned| ==> r[i] == planned[i].(port := Final(remap, planned[i].port))
  {
    seq(|planned|, i requires 0 <= i < |planned| => planned[i].(port := Final(remap, planned[i].port)))
  }

  /** No new port belongs to somebody else from the point of view of any service that receives it. */
  ghost predicate NoForeignTarget(planned: seq<Planned>, remap: map<int, int>, cluster: Cluster, jobId: string) {
    forall item :: item in planned && item.port in remap && remap[item.port] in cluster ==>
                     IsSelfOwned(item.service, cluster[remap[item.port]], jobId)
  }

  lemma {:induction false} RenamedConflicts(planned: seq<Planned>, remap: map<int, int>, cluster: Cluster,
                                            jobId: string, seen: set<int>, seen': set<int>)
    requires NoForeignTarget(planned, remap, cluster, jobId)
    requires forall p :: p !in remap ==> (p in seen <==> p in seen')
    ensures ConflictsFrom(Renamed(planned, remap), cluster, jobId, seen') ==
            NotRemapped(ConflictsFrom(planned, cluster, jobId, seen), remap)
    decreases |planned|
  {
    if planned != [] {
      var item, rest := planned[0], planned[1..];
      assert item in planned && forall x :: x in rest ==> x in planned;
      var renamed := Renamed(planned, remap);
      assert renamed[1..] == Renamed(rest, remap);
      if Conflicting(item, cluster, jobId) && item.port !in seen {
        var more := ConflictsFrom(rest, cluster, jobId, seen + {item.port});
        assert ([item] + more)[1..] == more;
        if item.port in remap {
          assert !Conflicting(renamed[0], cluster, jobId);
          RenamedConflicts(rest, remap, cluster, jobId, seen + {item.port}, seen');
        } else {
          assert renamed[0] == item;
          RenamedConflicts(rest, remap, cluster, jobId, seen + {item.port}, seen' + {item.port});
        }
      } else {
        assert item.port !in remap ==> renamed[0] == item;
        assert item.port in remap ==> !Conflicting(renamed[0], cluster, jobId);
        RenamedConflicts(rest, remap, cluster, jobId, seen, seen');
      }
    }
  }

  lemma {:induction false} NotRemappedMembers(conflicts: seq<Planned>, remap: map<int, int>)
    ensures forall c :: c in NotRemapped(conflicts, remap) <==> c in conflicts && c.port !in remap
    decreases |conflicts|
  {
    if conflicts != [] {
      NotRemappedMembers(conflicts[1..], remap);
      assert conflicts == [conflicts[0]] + conflicts[1..];
    }
  }

  /** A foreign new port shows up as a conflict of the renamed plan. */
  lemma ForeignTargetReported(planned: seq<Planned>, remap: map<int, int>, cluster: Cluster, jobId: string,
                              item: Planned)
      returns (c: Planned)
    requires item in planned && item.port in remap && remap[item.port] in cluster
    requires !IsSelfOwned(item.service, cluster[remap[item.port]], jobId)
    ensures c in ConflictsFrom(Renamed(planned, remap), cluster, jobId, {}) && c.port == remap[item.port]
  {
    var i :| 0 <= i < |planned| && planned[i] == item;
    var moved := Renamed(planned, remap)[i];
    assert moved in Renamed(planned, remap) && Conflicting(moved, cluster, jobId);
    ConflictsComplete(Renamed(planned, remap), cluster, jobId, {}, moved);
    c :| c in ConflictsFrom(Renamed(planned, remap), cluster, jobId, {}) && c.port == moved.port;
  }

  /** A new port is never the port of a declined conflict. */
  lemma TargetNotDeclined(planned: seq<Planned>, remap: map<int, int>, cluster: Cluster, jobId: string, item: Planned,
                          c: Planned)
    requires KeepsApart(planned, remap) && item in planned && item.port in remap && c.port == remap[item.port]
    ensures c !in NotRemapped(ConflictsFrom(planned, cluster, jobId, {}), remap)
  {
    var conflicts := ConflictsFrom(planned, cluster, jobId, {});
    NotRemappedMembers(conflicts, remap);
    if c in conflicts && c.port !in remap {
      ConflictsDistinct(planned, cluster, jobId, {});
    }
  }

  /** Checking the renamed plan again finds exactly the declined conflicts if and only if no new port
      is foreign to a service that shares the renamed port. */
  lemma RecheckFindsDeclinedIff(planned: seq<Planned>, remap: map<int, int>, cluster: Cluster, jobId: string)
    requires KeepsApart(planned, remap)
    ensures ConflictsFrom(Renamed(planned, remap), cluster, jobId, {}) ==
            NotRemapped(ConflictsFrom(planned, cluster, jobId, {}), remap)
            <==> NoForeignTarget(planned, remap, cluster, jobId)
  {
    if NoForeignTarget(planned, remap, cluster, jobId) {
      RenamedConflicts(planned, remap, cluster, jobId, {}, {});
    } else {
      var item :| item in planned && item.port in remap && remap[item.port] in cluster &&
                  !IsSelfOwned(item.service, cluster[remap[item.port]], jobId);
      var c := ForeignTargetReported(planned, remap, cluster, jobId, item);
      TargetNotDeclined(planned, remap, cluster, jobId, item, c);
    }
  }

  /** Two services planned on one busy port, where another port already belongs to the first of them: the
      prompt accepts that port, and the recheck reports it for the second although nothing was declined. */
  lemma SharedPortRecheck(a: ServiceRef, b: ServiceRef, jobId: string, stranger: Owner)
    requires a.namespace == b.namespace == jobId && jobId != [] && a.inferSet == b.inferSet == [] && a.name != b.name
    requires stranger.namespace != jobId
    ensures
      var planned := [Planned(30001, a), Planned(30001, b)];
      var cluster := map[30001 := stranger, 30002 := Owner(jobId, a.name)];
      var remap := map[30001 := 30002];
      && ConflictsFrom(planned, cluster, jobId, {}) == [planned[0]]
      && Resolve([planned[0]], cluster, planned, jobId, [Port(30002)], map[], []) == Resolved(remap, [])
      && ConflictsFrom(Renamed(planned, remap), cluster, jobId, {}) == [Planned(30002, b)]
  {
    var i, j := Planned(30001, a), Planned(30001, b);
    var planned, cluster, remap := [i, j], map[30001 := stranger, 30002 := Owner(jobId, a.name)], map[30001 := 30002];
    assert planned[1..] == [j] && [j][1..] == [] && [i][1..] == [];
    var none: set<int> := {};
    assert none + {30001} == {30001};
    assert ConflictsFrom([j], cluster, jobId, {30001}) == [];
    assert [i] + [] == [i];
    var answers: seq<Answer> := [Port(30002)];
    assert answers[1..] == [];
    assert FirstWithPort(planned, 30001) == Some(i);
    assert ValidUserPort(30002, 30001, cluster, planned, map[], jobId);
    assert Prompt(i, cluster, planned, map[], jobId, answers) == (Chosen(30002), []);
    var i', j' := Planned(30002, a), Planned(30002, b);
    assert Renamed(planned, remap) == [i', j'] && [i', j'][1..] == [j'] && [j'][1..] == [];
    assert ConflictsFrom([j'], cluster, jobId, {}) == [j'] + [] == [j'];
  }

  lemma {:induction false} FirstIsOnly(planned: seq<Planned>, item: Planned)
    requires item in planned
    requires forall a, b :: a in planned && b in planned && a.port == b.port ==> a.service == b.service
    ensures FirstWithPort(planned, item.port) == Some(item)
    decreases |planned|
  {
    if planned[0].port == item.port {
      assert planned[0] in planned && planned[0] == item;
    } else {
      assert forall x :: x in planned[1..] ==> x in planned;
      FirstIsOnly(planned[1..], item);
    }
  }

  /** With one service per planned port, the recheck finds exactly the declined conflicts, whatever
      the operator answered. */
  lemma DistinctPlanRechecks(planned: seq<Planned>, cluster: Cluster, jobId: string, answers: seq<Answer>)
    requires forall p :: p in cluster ==> p >= 0
    requires forall a, b :: a in planned && b in planned && a.port == b.port ==> a.service == b.service
    ensures var r := Resolve(ConflictsFrom(planned, cluster, jobId, {}), cluster, planned, jobId, answers, map[], []);
            r.Resolved? ==> ConflictsFrom(Renamed(planned, r.remap), cluster, jobId, {}) == r.declined
  {
    AnswersKeepPlanSound(planned, cluster, jobId, answers);
    var r := Resolve(ConflictsFrom(planned, cluster, jobId, {}), cluster, planned, jobId, answers, map[], []);
    if r.Resolved? {
      forall item | item in planned && item.port in r.remap && r.remap[item.port] in cluster
        ensures IsSelfOwned(item.service, cluster[r.remap[item.port]], jobId)
      {
        FirstIsOnly(planned, item);
      }
      RecheckFindsDeclinedIff(planned, r.remap, cluster, jobId);
    }
  }

  // ---- The dry-run proposal ----

  /** allocate_free_ports: automatic replacements for all conflicts at once. */
  function Proposal(conflicts: seq<Planned>, cluster: Cluster, planned: seq<Planned>,
                    remap: map<int, int>): Option<map<int, int>>
    decreases |conflicts|
  {
    if conflicts == [] then Some(remap)
    else if conflicts[0].port in remap then Proposal(conflicts[1..], cluster, planned, remap)
    else
      match FirstFree(conflicts[0].port, Reserved(cluster, planned, remap.Values), 0)
      case None => None
      case Some(p) => Proposal(conflicts[1..], cluster, planned, remap[conflicts[0].port := p])
  }

  /** The proposal a dry run prints is what answering y to every prompt produces. */
  lemma {:induction false} ProposalIsAllAuto(conflicts: seq<Planned>, cluster: Cluster, planned: seq<Planned>,
                                             jobId: string, answers: seq<Answer>, remap: map<int, int>)
    requires DistinctPorts(conflicts)
    requires forall c :: c in conflicts ==> c.port !in remap
    requires |answers| >= |conflicts| && forall i :: 0 <= i < |answers| ==> answers[i] == Auto
    ensures Resolve(conflicts, cluster, planned, jobId, answers, remap, []) ==
            match Proposal(conflicts, cluster, planned, remap)
            case Some(m) => Resolved(m, [])
            case None => NoFreePort
    decreases |conflicts|
  {
    if conflicts != [] {
      assert conflicts[0] in conflicts;
      var free := FirstFree(conflicts[0].port, Reserved(cluster, planned, remap.Values), 0);
      if free.Some? {
        ProposalIsAllAuto(conflicts[1..], cluster, planned, jobId, answers[1..],
                          remap[conflicts[0].port := free.value]);
      }
    }
  }
}
