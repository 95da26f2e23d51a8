/** Who owns a port, which conflicts are asked about, and how the operator's answers are read. */
module NodePortAnswers {
  import opened Options
  import opened NodePorts

  // ---- Ownership ----

  /** The same letter, or the two cases of one. */
  predicate SameLetter(a: char, b: char) {
    || a == b
    || ('A' <= a <= 'Z' && b as int == a as int + 32)
    || ('A' <= b <= 'Z' && a as int == b as int + 32)
  }

  ghost predicate SameUpToCase(s: string, t: string) {
    |s| == |t| && forall i :: 0 <= i < |s| ==> SameLetter(s[i], t[i])
  }

  lemma LowerIff(s: string, t: string)
    ensures Lower(s) == Lower(t) <==> SameUpToCase(s, t)
  {
    if Lower(s) == Lower(t) {
      forall i | 0 <= i < |s| ensures SameLetter(s[i], t[i]) { assert Lower(s)[i] == Lower(t)[i]; }
    }
    if SameUpToCase(s, t) {
      forall i | 0 <= i < |s| ensures Lower(s)[i] == Lower(t)[i] { assert SameLetter(s[i], t[i]); }
    }
  }

  predicate Digits(s: string) {
    s != [] && forall i :: 0 <= i < |s| ==> '0' <= s[i] <= '9'
  }

  /** The name that the InferServiceSet controller gives the service, in any letter case. */
  ghost predicate CrdName(service: ServiceRef, owner: string) {
    exists index :: Digits(index) &&
      SameUpToCase(owner, service.name + "-" + service.inferSet + "-" + index + "-" + service.role)
  }

  lemma LowerConcat(a: string, b: string)
    ensures Lower(a + b) == Lower(a) + Lower(b)
  {
  }

  lemma LowerDigits(d: string)
    requires Digits(d)
    ensures Lower(d) == d
  {
  }

  lemma NameInParts(head: string, index: string, tail: string)
    requires Digits(index)
    ensures Lower(head + index + tail) == Lower(head) + index + Lower(tail)
  {
    LowerConcat(head + index, tail);
    LowerConcat(head, index);
    LowerDigits(index);
  }

  lemma CrdNameIff(service: ServiceRef, owner: string)
    ensures MatchesCrdName(service, owner) <==> service.inferSet != [] && service.role != [] && CrdName(service, owner)
  {
    var head, tail := service.name + "-" + service.inferSet + "-", "-" + service.role;
    var name := Lower(owner);
    if service.inferSet != [] && service.role != [] {
      if MatchesCrdName(service, owner) {
        var index := name[|head|..|name| - |tail|];
        assert name == Lower(head) + index + Lower(tail);
        NameInParts(head, index, tail);
        LowerIff(owner, head + index + tail);
        assert head + index + tail == service.name + "-" + service.inferSet + "-" + index + "-" + service.role;
      }
      if CrdName(service, owner) {
        var index :| Digits(index) &&
          SameUpToCase(owner, service.name + "-" + service.inferSet + "-" + index + "-" + service.role);
        assert head + index + tail == service.name + "-" + service.inferSet + "-" + index + "-" + service.role;
        NameInParts(head, index, tail);
        LowerIff(owner, head + index + tail);
        InnerDigits(Lower(head), index, Lower(tail), name);
      }
    }
  }

  lemma InnerDigits(a: string, index: string, b: string, name: string)
    requires name == a + index + b && Digits(index)
    ensures |a| + |b| < |name| && name[..|a|] == a && name[|name| - |b|..] == b
    ensures forall i :: |a| <= i < |name| - |b| ==> '0' <= name[i] <= '9'
  {
    forall i | |a| <= i < |name| - |b| ensures '0' <= name[i] <= '9' { assert name[i] == index[i - |a|]; }
  }

  /** A port is the deployment's own if its owner has the service's namespace, or the job's when the service
      names none, and the service's name or the generated one. */
  lemma OwnIff(service: ServiceRef, owner: Owner, jobId: string)
    ensures IsSelfOwned(service, owner, jobId) <==>
            && (service.namespace != [] ==> owner.namespace == service.namespace)
            && (service.namespace == [] ==> owner.namespace == jobId)
            && (|| owner.name == service.name
                || (service.inferSet != [] && service.role != [] && CrdName(service, owner.name)))
  {
    CrdNameIff(service, owner.name);
  }

  // ---- Which conflicts are asked about, and in which order ----

  ghost predicate Increasing(idx: seq<nat>) {
    forall i, j :: 0 <= i < j < |idx| ==> idx[i] < idx[j]
  }

  /** The item conflicts, and no earlier item of the plan with its port does. */
  ghost predicate FirstOfPort(planned: seq<Planned>, cluster: Cluster, jobId: string, seen: set<int>, i: nat) {
    && i < |planned| && Conflicting(planned[i], cluster, jobId) && planned[i].port !in seen
    && forall j :: 0 <= j < i && planned[j].port == planned[i].port ==> !Conflicting(planned[j], cluster, jobId)
  }

  /** The indexes are those of the first conflicting items of their ports, in order. */
  ghost predicate FirstsAt(planned: seq<Planned>, cluster: Cluster, jobId: string, seen: set<int>, idx: seq<nat>) {
    Increasing(idx) && forall i: nat :: i in idx <==> FirstOfPort(planned, cluster, jobId, seen, i)
  }

  ghost predicate Picks(c: seq<Planned>, planned: seq<Planned>, idx: seq<nat>) {
    |idx| == |c| && forall k :: 0 <= k < |idx| ==> idx[k] < |planned| && c[k] == planned[idx[k]]
  }

  function Shift(idx: seq<nat>): (r: seq<nat>)
    ensures |r| == |idx| && forall k :: 0 <= k < |idx| ==> r[k] == idx[k] + 1
  {
    seq(|idx|, k requires 0 <= k < |idx| => idx[k] + 1)
  }

  lemma ShiftMembers(idx: seq<nat>, i: nat)
    ensures i in Shift(idx) <==> i > 0 && i - 1 in idx
  {
    if i > 0 && i - 1 in idx {
      var k :| 0 <= k < |idx| && idx[k] == i - 1;
      assert Shift(idx)[k] == i;
    }
    if i in Shift(idx) {
      var k :| 0 <= k < |idx| && Shift(idx)[k] == i;
      assert idx[k] == i - 1;
    }
  }

  /** The conflicts are, in the order of the plan, the first conflicting item of each port. */
  lemma {:induction false} ConflictsListed(planned: seq<Planned>, cluster: Cluster, jobId: string, seen: set<int>)
      returns (idx: seq<nat>)
    ensures Picks(ConflictsFrom(planned, cluster, jobId, seen), planned, idx)
    ensures FirstsAt(planned, cluster, jobId, seen, idx)
    decreases |planned|
  {
    if planned == [] {
      idx := [];
    } else {
      var taken := Conflicting(planned[0], cluster, jobId) && planned[0].port !in seen;
      var seen' := if taken then seen + {planned[0].port} else seen;
      var rest := ConflictsListed(planned[1..], cluster, jobId, seen');
      idx := (if taken then [0] else []) + Shift(rest);
      var later := ConflictsFrom(planned[1..], cluster, jobId, seen');
      assert ConflictsFrom(planned, cluster, jobId, seen) == (if taken then [planned[0]] else []) + later;
      PicksMore(later, planned, rest, taken);
      FirstsMore(planned, cluster, jobId, seen, rest);
    }
  }

  lemma PicksMore(c: seq<Planned>, planned: seq<Planned>, rest: seq<nat>, taken: bool)
    requires planned != [] && Picks(c, planned[1..], rest)
    ensures Picks((if taken then [planned[0]] else []) + c, planned, (if taken then [0] else []) + Shift(rest))
  {
  }

  lemma FirstsMore(planned: seq<Planned>, cluster: Cluster, jobId: string, seen: set<int>, rest: seq<nat>)
    requires planned != []
    requires
      var taken := Conflicting(planned[0], cluster, jobId) && planned[0].port !in seen;
      FirstsAt(planned[1..], cluster, jobId, if taken then seen + {planned[0].port} else seen, rest)
    ensures
      var taken := Conflicting(planned[0], cluster, jobId) && planned[0].port !in seen;
      FirstsAt(planned, cluster, jobId, seen, (if taken then [0] else []) + Shift(rest))
  {
    var taken := Conflicting(planned[0], cluster, jobId) && planned[0].port !in seen;
    var idx: seq<nat> := (if taken then [0] else []) + Shift(rest);
    forall i: nat ensures i in idx <==> FirstOfPort(planned, cluster, jobId, seen, i) {
      ShiftedFirst(planned, cluster, jobId, seen, i);
      ShiftMembers(rest, i);
      assert i in idx <==> (taken && i == 0) || i in Shift(rest);
    }
  }

  lemma ShiftedFirst(planned: seq<Planned>, cluster: Cluster, jobId: string, seen: set<int>, i: nat)
    requires planned != []
    ensures
      var taken := Conflicting(planned[0], cluster, jobId) && planned[0].port !in seen;
      FirstOfPort(planned, cluster, jobId, seen, i) <==>
      if i == 0 then taken
      else FirstOfPort(planned[1..], cluster, jobId, if taken then seen + {planned[0].port} else seen, i - 1)
  {
    if i > 0 {
      var taken := Conflicting(planned[0], cluster, jobId) && planned[0].port !in seen;
      var rest, seen' := planned[1..], if taken then seen + {planned[0].port} else seen;
      if FirstOfPort(planned, cluster, jobId, seen, i) {
        forall j | 0 <= j < i - 1 && rest[j].port == rest[i - 1].port ensures !Conflicting(rest[j], cluster, jobId) {
          assert planned[j + 1] == rest[j];
        }
      }
      if FirstOfPort(rest, cluster, jobId, seen', i - 1) {
        forall j | 0 <= j < i && planned[j].port == planned[i].port ensures !Conflicting(planned[j], cluster, jobId) {
          if j > 0 { assert planned[j] == rest[j - 1]; }
        }
      }
    }
  }

  // ---- Typed and automatic ports ----

  ghost predicate IsFirst(planned: seq<Planned>, port: int, i: nat) {
    i < |planned| && planned[i].port == port && forall j :: 0 <= j < i ==> planned[j].port != port
  }

  /** A typed port that the prompt takes: a NodePort, nobody else's in the cluster, no earlier choice, and no
      other service's final port. */
  ghost predicate Takes(p: int, item: Planned, cluster: Cluster, planned: seq<Planned>, remap: map<int, int>,
                        jobId: string) {
    && 30000 <= p <= 32767
    && (p in cluster ==>
          exists i: nat :: IsFirst(planned, item.port, i) && IsSelfOwned(planned[i].service, cluster[p], jobId))
    && p !in remap.Values
    && forall other :: other in planned && other.port != item.port ==>
                         p != (if other.port in remap then remap[other.port] else other.port)
  }

  lemma {:induction false} FirstWithPortAt(planned: seq<Planned>, port: int) returns (i: nat)
    ensures i <= |planned| && (forall j :: 0 <= j < i ==> planned[j].port != port)
    ensures i < |planned| ==> planned[i].port == port && FirstWithPort(planned, port) == Some(planned[i])
    ensures i == |planned| ==> FirstWithPort(planned, port) == None
    decreases |planned|
  {
    if planned == [] || planned[0].port == port {
      i := 0;
    } else {
      var k := FirstWithPortAt(planned[1..], port);
      i := k + 1;
      forall j | 0 <= j < i ensures planned[j].port != port {
        if j > 0 { assert planned[1..][j - 1] == planned[j]; }
      }
    }
  }

  lemma FirstOwns(planned: seq<Planned>, port: int, owner: Owner, jobId: string)
    ensures
      var matching := FirstWithPort(planned, port);
      matching.Some? && IsSelfOwned(matching.value.service, owner, jobId) <==>
      exists i: nat :: IsFirst(planned, port, i) && IsSelfOwned(planned[i].service, owner, jobId)
  {
    var i := FirstWithPortAt(planned, port);
    if m: nat :| IsFirst(planned, port, m) && IsSelfOwned(planned[m].service, owner, jobId) {
      assert m == i;
    }
    if i < |planned| { assert IsFirst(planned, port, i); }
  }

  lemma ValidIff(p: int, item: Planned, cluster: Cluster, planned: seq<Planned>, remap: map<int, int>, jobId: string)
    ensures ValidUserPort(p, item.port, cluster, planned, remap, jobId) <==>
            Takes(p, item, cluster, planned, remap, jobId)
  {
    if p in cluster { FirstOwns(planned, item.port, cluster[p], jobId); }
  }

  /** An answer that settles nothing: unclear, or a port that the prompt does not take. */
  ghost predicate Skipped(a: Answer, item: Planned, cluster: Cluster, planned: seq<Planned>, remap: map<int, int>,
                          jobId: string) {
    a.Unclear? || (a.Port? && !Takes(a.port, item, cluster, planned, remap, jobId))
  }

  /** Skipped answers are read over. The next one decides: N keeps the port, y takes the allocator's, a port
      takes that port. Without one the port is kept. */
  lemma {:induction false} AnswersRead(item: Planned, cluster: Cluster, planned: seq<Planned>, remap: map<int, int>,
                                       jobId: string, answers: seq<Answer>, k: nat)
    requires k <= |answers|
    requires forall i :: 0 <= i < k ==> Skipped(answers[i], item, cluster, planned, remap, jobId)
    requires k < |answers| ==> !Skipped(answers[k], item, cluster, planned, remap, jobId)
    ensures
      Prompt(item, cluster, planned, remap, jobId, answers) ==
      if k == |answers| then (Declined, [])
      else
        (match answers[k]
         case Port(p) => Chosen(p)
         case Auto =>
           (match FirstFree(item.port, Reserved(cluster, planned, remap.Values), 0)
            case Some(p) => Chosen(p)
            case None => Exhausted)
         case _ => Declined,
         answers[k + 1..])
    decreases k
  {
    if answers != [] {
      if answers[0].Port? { ValidIff(answers[0].port, item, cluster, planned, remap, jobId); }
      if k > 0 {
        forall i | 0 <= i < k - 1 ensures Skipped(answers[1..][i], item, cluster, planned, remap, jobId) {
          assert answers[1..][i] == answers[i + 1];
        }
        AnswersRead(item, cluster, planned, remap, jobId, answers[1..], k - 1);
        if k < |answers| { assert answers[1..][k - 1] == answers[k] && answers[1..][k..] == answers[k + 1..]; }
      }
    }
  }

  /** Every new port is a NodePort if the old one is at least 29999. */
  lemma ChosenInRange(item: Planned, cluster: Cluster, planned: seq<Planned>, remap: map<int, int>, jobId: string,
                      answers: seq<Answer>)
    requires item.port >= 29999
    ensures var choice := Prompt(item, cluster, planned, remap, jobId, answers).0;
            choice.Chosen? ==> 30000 <= choice.port <= 32767
    decreases |answers|
  {
    AllocatorComplete(item.port, Reserved(cluster, planned, remap.Values));
    if answers != [] && (answers[0].Port? || answers[0].Unclear?) {
      ChosenInRange(item, cluster, planned, remap, jobId, answers[1..]);
    }
  }

  // ---- What is recorded ----

  /** The port chosen for the first conflict stays recorded for it, and a declined one gets none. */
  lemma ResolveRecords(conflicts: seq<Planned>, cluster: Cluster, planned: seq<Planned>, jobId: string,
                       answers: seq<Answer>, remap: map<int, int>, declined: seq<Planned>)
    requires conflicts != [] && DistinctPorts(conflicts) && conflicts[0].port !in remap
    ensures
      var r := Resolve(conflicts, cluster, planned, jobId, answers, remap, declined);
      var choice := Prompt(conflicts[0], cluster, planned, remap, jobId, answers).0;
      && (choice.Exhausted? ==> r.NoFreePort?)
      && (r.Resolved? && choice.Chosen? ==> Final(r.remap, conflicts[0].port) == choice.port &&
                                            conflicts[0].port in r.remap)
      && (r.Resolved? && choice.Declined? ==> conflicts[0].port !in r.remap)
  {
    var (choice, rest) := Prompt(conflicts[0], cluster, planned, remap, jobId, answers);
    var port := conflicts[0].port;
    assert forall c :: c in conflicts[1..] ==> c.port != port;
    match choice
    case Chosen(p) =>
      ResolveKeeps(conflicts[1..], cluster, planned, jobId, rest, remap[port := p], declined, port);
    case Declined =>
      ResolveKeeps(conflicts[1..], cluster, planned, jobId, rest, remap, declined + [conflicts[0]], port);
    case Exhausted =>
  }

  lemma {:induction false} ResolveKeeps(conflicts: seq<Planned>, cluster: Cluster, planned: seq<Planned>,
                                        jobId: string, answers: seq<Answer>, remap: map<int, int>,
                                        declined: seq<Planned>, port: int)
    requires forall c :: c in conflicts ==> c.port != port
    ensures
      var r := Resolve(conflicts, cluster, planned, jobId, answers, remap, declined);
      r.Resolved? ==> (port in r.remap <==> port in remap) && (port in remap ==> r.remap[port] == remap[port])
    decreases |conflicts|
  {
    if conflicts != [] {
      var (choice, rest) := Prompt(conflicts[0], cluster, planned, remap, jobId, answers);
      match choice
      case Chosen(p) =>
        ResolveKeeps(conflicts[1..], cluster, planned, jobId, rest, remap[conflicts[0].port := p], declined, port);
      case Declined =>
        ResolveKeeps(conflicts[1..], cluster, planned, jobId, rest, remap, declined + [conflicts[0]], port);
      case Exhausted =>
    }
  }
}
