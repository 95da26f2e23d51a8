/** Whole runs of the scaling command: retries toward one target, the exact progress of each run,
    the books of live jobs, and the one starting point that breaks the saved indexes. */
module SlurmRuns {
  import opened Options
  import opened SlurmState
  import opened SlurmScaling

  // ---- Distance to the target ----

  function Gap(saved: Saved, user: DeployConfig, role: Role): nat {
    Abs(JobCount(saved, role) - Expected(user, role))
  }

  /** How many instances still have to be cancelled or submitted. */
  function Distance(saved: Saved, user: DeployConfig): nat {
    Gap(saved, user, Encode) + Gap(saved, user, Prefill) + Gap(saved, user, Decode) + Gap(saved, user, Union)
  }

  lemma SameCountOutside(a: Saved, b: Saved, role: Role, other: Role)
    requires SameOutside(a, b, role) && other != role
    ensures JobCount(a, other) == JobCount(b, other)
  {
    forall i ensures i in Indexes(a, other) <==> i in Indexes(b, other) {
      IndexOf(a, other, i);
      IndexOf(b, other, i);
    }
    assert Indexes(a, other) == Indexes(b, other);
  }

  lemma DistanceStep(a: Saved, b: Saved, user: DeployConfig, role: Role, k: int)
    requires SameOutside(a, b, role) && Gap(b, user, role) == Gap(a, user, role) - k
    ensures Distance(b, user) == Distance(a, user) - k
  {
    forall other | other != role ensures Gap(a, user, other) == Gap(b, user, other) {
      SameCountOutside(a, b, role, other);
    }
    match role case Encode => case Prefill => case Decode => case Union =>
  }

  /** The requested changes lead to the counts of the user configuration. */
  ghost predicate Toward(changes: seq<Change>, user: DeployConfig) {
    forall c :: c in changes ==> c.current >= 0 && c.target == Expected(user, c.role)
  }

  lemma {:induction false} ScaleRolesDistance(w: World, o: Oracle, changes: seq<Change>, user: DeployConfig)
    requires AllReady(w.saved, changes) && Toward(changes, user)
    ensures var r := ScaleRoles(w, o, changes);
            Distance(r.w.saved, user) == Distance(w.saved, user) - Completed(w.tick, r)
    decreases |changes|
  {
    if changes != [] {
      var c := changes[0];
      assert c in changes;
      var hi := ScaleRoleSpan(w, o, c);
      var first := ScaleRole(w, o, c);
      assert Counts(w.saved, c.role, c.current) && Counts(first.w.saved, c.role, hi);
      CountIsLength(w.saved, c.role, c.current);
      CountIsLength(first.w.saved, c.role, hi);
      DistanceStep(w.saved, first.w.saved, user, c.role, Completed(w.tick, first));
      if first.Done? {
        ReadyOutside(w.saved, first.w.saved, changes);
        assert Toward(changes[1..], user);
        ScaleRolesDistance(first.w, o, changes[1..], user);
      }
    }
  }

  /** Successful subprocess calls made by one command. */
  function CallsDone(w: World, o: Oracle, user: DeployConfig): int {
    var (w', verdict) := UpdateInstanceNum(w, o, user);
    w'.tick - w.tick - (if verdict == ScaleFailed then 1 else 0)
  }

  /** Every successful call brings the deployment one instance closer to the target, and a failing
      run keeps all the ground it gained. */
  lemma UpdateProgress(w: World, o: Oracle, user: DeployConfig)
    requires Aligned(w)
    ensures Distance(UpdateInstanceNum(w, o, user).0.saved, user) == Distance(w.saved, user) - CallsDone(w, o, user)
    ensures CallsDone(w, o, user) >= 0
  {
    if SameExceptCounts(user, w.prepared) && Readable(w.saved) {
      var changes := Changes(w.prepared, user, ENGINE_ROLES);
      if changes.Some? && changes.value != [] {
        AcceptedChanges(w, user, changes.value);
        assert Toward(changes.value, user) by {
          forall c | c in changes.value ensures c.current >= 0 && c.target == Expected(user, c.role) {
            assert Enabled(w.prepared, c.role) && Enabled(user, c.role);
          }
        }
        ScaleRolesDistance(w.(prepared := user), o, changes.value, user);
        TickForward(w.(prepared := user), o, changes.value);
      }
    }
  }

  lemma {:induction false} TickForward(w: World, o: Oracle, changes: seq<Change>)
    requires AllReady(w.saved, changes)
    ensures Completed(w.tick, ScaleRoles(w, o, changes)) >= 0
    decreases |changes|
  {
    if changes != [] {
      assert changes[0] in changes;
      var hi := ScaleRoleSpan(w, o, changes[0]);
      var first := ScaleRole(w, o, changes[0]);
      if first.Done? {
        ReadyOutside(w.saved, first.w.saved, changes);
        TickForward(first.w, o, changes[1..]);
      }
    }
  }

  // ---- Failure-free runs ----

  /** From call t on, every submission is accepted and every cancel succeeds. */
  ghost predicate Reliable(o: Oracle, t: nat) {
    && (forall n: nat :: n >= t ==> o.submit(n).Accepted?)
    && (forall n: nat, id :: n >= t ==> o.cancel(n, id))
  }

  lemma {:induction false} ScaleDownFinishes(w: World, o: Oracle, role: Role, index: int, target: int)
    requires Reliable(o, w.tick) && Span(w.saved, role, 0, index + 1) && target >= 0
    ensures ScaleDown(w, o, role, index, target).Done? && ScaleDown(w, o, role, index, target).w.tick >= w.tick
    decreases index - target
  {
    if index >= target {
      assert Eng(role, index) in w.saved;
      var (w1, ok) := Cancel(w, o, w.saved[Eng(role, index)]);
      ScaleDownFinishes(Forget(w1, Eng(role, index)), o, role, index - 1, target);
    }
  }

  lemma {:induction false} ScaleUpFinishes(w: World, o: Oracle, role: Role, index: int, target: int)
    requires Reliable(o, w.tick)
    ensures ScaleUp(w, o, role, index, target).Done? && ScaleUp(w, o, role, index, target).w.tick >= w.tick
    decreases target - index
  {
    if index < target {
      var (w1, id) := Submit(w, o);
      ScaleUpFinishes(Record(w1, Eng(role, index), id.value), o, role, index + 1, target);
    }
  }

  lemma {:induction false} ScaleRolesFinishes(w: World, o: Oracle, changes: seq<Change>)
    requires Reliable(o, w.tick) && AllReady(w.saved, changes)
    ensures ScaleRoles(w, o, changes).Done?
    decreases |changes|
  {
    if changes != [] {
      var c := changes[0];
      assert c in changes;
      if c.current >= 0 { ScaleDownFinishes(w, o, c.role, c.current - 1, c.target); }
      var down := ScaleDown(w, o, c.role, c.current - 1, c.target);
      assert down.Done?;
      ScaleUpFinishes(down.w, o, c.role, c.current, c.target);
      var hi := ScaleRoleSpan(w, o, c);
      ReadyOutside(w.saved, ScaleRole(w, o, c).w.saved, changes);
      ScaleRolesFinishes(ScaleRole(w, o, c).w, o, changes[1..]);
    }
  }

  /** The user configuration is acceptable as a scaling target for this deployment. */
  ghost predicate Acceptable(user: DeployConfig, w: World) {
    && SameExceptCounts(user, w.prepared)
    && forall role :: Instances(user, role) >= 0 &&
                      (Instances(w.prepared, role) != Instances(user, role) ==> Enabled(w.prepared, role))
  }

  lemma AlignedIsReadable(w: World)
    requires Aligned(w)
    ensures Readable(w.saved)
  {
    MatchesIsCounts(w.prepared, w.saved);
    forall slot | slot in w.saved && slot.Eng? ensures slot.index >= 0 {
      assert Counts(w.saved, slot.role, Expected(w.prepared, slot.role));
      assert slot == Eng(slot.role, slot.index);
    }
  }

  /** A run without failures ends exactly at the target. */
  lemma ReliableRunArrives(w: World, o: Oracle, user: DeployConfig)
    requires Aligned(w) && Acceptable(user, w) && Reliable(o, w.tick)
    ensures var (w', verdict) := UpdateInstanceNum(w, o, user);
            && verdict in {Unchanged, Scaled}
            && (forall role :: Counts(w'.saved, role, Expected(user, role)))
            && (forall role :: Instances(w'.prepared, role) == Instances(user, role))
  {
    EveryRole();
    AlignedIsReadable(w);
    ChangesDescribe(w.prepared, user, ENGINE_ROLES);
    MatchesIsCounts(w.prepared, w.saved);
    var changes := Changes(w.prepared, user, ENGINE_ROLES).value;
    UpdateKeepsAligned(w, o, user);
    var w' := UpdateInstanceNum(w, o, user).0;
    if changes != [] {
      AcceptedChanges(w, user, changes);
      ScaleRolesFinishes(w.(prepared := user), o, changes);
      ScaleRolesSpan(w.(prepared := user), o, changes);
      MatchesIsCounts(w'.prepared, w'.saved);
    } else {
      forall role ensures Instances(w.prepared, role) == Instances(user, role) {
        assert role in ENGINE_ROLES;
      }
      forall role ensures Counts(w'.saved, role, Expected(user, role)) {
        assert Counts(w.saved, role, Expected(w.prepared, role));
      }
    }
  }

  // ---- Retries ----

  function Retries(w: World, o: Oracle, user: DeployConfig, n: nat): World
    decreases n
  {
    if n == 0 then w else Retries(UpdateInstanceNum(w, o, user).0, o, user, n - 1)
  }

  lemma UpdateKeepsAcceptable(w: World, o: Oracle, user: DeployConfig)
    requires Aligned(w) && Acceptable(user, w)
    ensures Acceptable(user, UpdateInstanceNum(w, o, user).0)
  {
    EveryRole();
    UpdateKeepsAligned(w, o, user);
    var changes := Changes(w.prepared, user, ENGINE_ROLES);
    var w' := UpdateInstanceNum(w, o, user).0;
    if changes.Some? && changes.value != [] && Readable(w.saved) {
      AcceptedChanges(w, user, changes.value);
      var r := ScaleRoles(w.(prepared := user), o, changes.value);
      ScaleRolesSpan(w.(prepared := user), o, changes.value);
      RepairedCounts(w.prepared, changes.value, r.w.saved);
      forall role | Instances(w'.prepared, role) != Instances(user, role) ensures Enabled(w'.prepared, role) {
        if c :| c in changes.value && c.role == role { }
        else { assert Instances(w'.prepared, role) == Instances(w.prepared, role); }
      }
    }
  }

  lemma AcceptedAgain(w: World, o: Oracle, user: DeployConfig)
    requires Aligned(w) && Acceptable(user, w)
    ensures UpdateInstanceNum(w, o, user).1 != Invalid
  {
    EveryRole();
    AlignedIsReadable(w);
    ChangesDescribe(w.prepared, user, ENGINE_ROLES);
  }

  lemma ReliableRunCloses(w: World, o: Oracle, user: DeployConfig)
    requires Aligned(w) && Acceptable(user, w) && Reliable(o, w.tick)
    ensures Distance(UpdateInstanceNum(w, o, user).0.saved, user) == 0
  {
    ReliableRunArrives(w, o, user);
    var saved := UpdateInstanceNum(w, o, user).0.saved;
    forall role ensures Gap(saved, user, role) == 0 {
      CountIsLength(saved, role, Expected(user, role));
    }
  }

  /** After any number of runs toward one target, failed or not, the next run is accepted again, the
      distance has not grown, and one run without failures arrives. */
  lemma {:induction false} RetriesArrive(w: World, o: Oracle, user: DeployConfig, n: nat)
    requires Aligned(w) && Acceptable(user, w)
    ensures var w' := Retries(w, o, user, n);
            && Aligned(w') && Acceptable(user, w')
            && UpdateInstanceNum(w', o, user).1 != Invalid
            && Distance(w'.saved, user) <= Distance(w.saved, user)
            && (Reliable(o, w'.tick) ==> Distance(UpdateInstanceNum(w', o, user).0.saved, user) == 0)
    decreases n
  {
    if n == 0 {
      AcceptedAgain(w, o, user);
      if Reliable(o, w.tick) { ReliableRunCloses(w, o, user); }
    } else {
      UpdateKeepsAligned(w, o, user);
      UpdateKeepsAcceptable(w, o, user);
      UpdateProgress(w, o, user);
      RetriesArrive(UpdateInstanceNum(w, o, user).0, o, user, n - 1);
    }
  }

  // ---- The books of live jobs ----

  lemma {:induction false} ScaleDownInOrder(w: World, o: Oracle, role: Role, index: int, target: int,
                                            foreign: set<JobId>)
    requires InOrder(w, o, foreign)
    ensures InOrder(ScaleDown(w, o, role, index, target).w, o, foreign)
    decreases index - target
  {
    if index >= target && Eng(role, index) in w.saved {
      var slot := Eng(role, index);
      CancelInOrder(w, o, slot, foreign);
      var (w1, ok) := Cancel(w, o, w.saved[slot]);
      if ok { ScaleDownInOrder(Forget(w1, slot), o, role, index - 1, target, foreign); }
    }
  }

  lemma {:induction false} ScaleUpInOrder(w: World, o: Oracle, role: Role, lo: int, index: int, target: int,
                                          foreign: set<JobId>)
    requires InOrder(w, o, foreign) && lo <= index && Span(w.saved, role, lo, index)
    ensures InOrder(ScaleUp(w, o, role, index, target).w, o, foreign)
    decreases target - index
  {
    if index < target {
      var slot := Eng(role, index);
      SubmitInOrder(w, o, slot, foreign);
      var (w1, id) := Submit(w, o);
      if id.Some? { ScaleUpInOrder(Record(w1, slot, id.value), o, role, lo, index + 1, target, foreign); }
    }
  }

  lemma ScaleRoleInOrder(w: World, o: Oracle, c: Change, foreign: set<JobId>)
    requires InOrder(w, o, foreign) && Ready(w.saved, c)
    ensures InOrder(ScaleRole(w, o, c).w, o, foreign)
  {
    ScaleDownInOrder(w, o, c.role, c.current - 1, c.target, foreign);
    var down := ScaleDown(w, o, c.role, c.current - 1, c.target);
    if c.current < 0 {
      ScaleUpInOrder(w, o, c.role, c.current, c.current, c.target, foreign);
    } else if down.Done? {
      var hi := ScaleDownSpan(w, o, c.role, c.current - 1, c.target);
      if c.current < c.target { ScaleUpInOrder(down.w, o, c.role, 0, c.current, c.target, foreign); }
    }
  }

  lemma {:induction false} ScaleRolesInOrder(w: World, o: Oracle, changes: seq<Change>, foreign: set<JobId>)
    requires InOrder(w, o, foreign) && AllReady(w.saved, changes)
    ensures InOrder(ScaleRoles(w, o, changes).w, o, foreign)
    decreases |changes|
  {
    if changes != [] {
      assert changes[0] in changes;
      ScaleRoleInOrder(w, o, changes[0], foreign);
      var hi := ScaleRoleSpan(w, o, changes[0]);
      var first := ScaleRole(w, o, changes[0]);
      if first.Done? {
        ReadyOutside(w.saved, first.w.saved, changes);
        ScaleRolesInOrder(first.w, o, changes[1..], foreign);
      }
    }
  }

  /** Scaling, finished or failed, never loses track of a job: the live jobs stay the recorded ones,
      the ones whose id sbatch garbled, and the jobs of others. */
  lemma UpdateInOrder(w: World, o: Oracle, user: DeployConfig, foreign: set<JobId>)
    requires InOrder(w, o, foreign) && EngineStateMatches(w.prepared, w.saved)
    ensures InOrder(UpdateInstanceNum(w, o, user).0, o, foreign)
  {
    var changes := Changes(w.prepared, user, ENGINE_ROLES);
    if changes.Some? && changes.value != [] {
      AcceptedChanges(w, user, changes.value);
      var start := w.(prepared := user);
      ScaleRolesInOrder(start, o, changes.value, foreign);
    }
  }

  // ---- The exact condition on the starting counts ----

  /** A completed run matches its configuration exactly when no changed role started below zero. */
  lemma ScaledMatchesIff(w: World, o: Oracle, user: DeployConfig, changes: seq<Change>)
    requires UpdateInstanceNum(w, o, user).1 == Scaled
    requires Changes(w.prepared, user, ENGINE_ROLES) == Some(changes)
    ensures var w' := UpdateInstanceNum(w, o, user).0;
            EngineStateMatches(w'.prepared, w'.saved) <==> forall c :: c in changes ==> c.current >= 0
  {
    EveryRole();
    AcceptedChanges(w, user, changes);
    MatchesIsCounts(w.prepared, w.saved);
    var w' := UpdateInstanceNum(w, o, user).0;
    ScaleRolesSpan(w.(prepared := user), o, changes);
    MatchesIsCounts(w'.prepared, w'.saved);
    if c :| c in changes && c.current < 0 {
      assert Reached(w'.saved, c, c.target);
      assert Eng(c.role, c.current) in w'.saved;
      assert !Counts(w'.saved, c.role, Expected(w'.prepared, c.role));
    } else {
      forall role ensures Counts(w'.saved, role, Expected(user, role)) {
        if c :| c in changes && c.role == role {
          assert Reached(w'.saved, c, c.target);
        } else {
          assert Instances(w.prepared, role) == Instances(user, role);
          assert Counts(w.saved, role, Expected(w.prepared, role));
          UntouchedCounts(w.saved, w'.saved, changes, role, Expected(w.prepared, role));
        }
      }
    }
  }

  // ---- Runs that start from a negative count ----

  ghost predicate NoNegative(saved: Saved, role: Role) {
    forall i :: Eng(role, i) in saved ==> i >= 0
  }

  /** A changed role is in order again exactly when none of its indexes is negative. */
  lemma ChangedRoleMatches(saved: Saved, c: Change, hi: int, n: int)
    requires Reached(saved, c, hi) && c.target >= 0 && c.current != c.target
    requires (n == hi && hi == c.target) || n == JobCount(saved, c.role)
    ensures Counts(saved, c.role, n) <==> NoNegative(saved, c.role)
    ensures NoNegative(saved, c.role) <==> c.current >= 0 || hi == c.current
  {
    if c.current >= 0 || hi == c.current {
      var m := if c.current >= 0 then hi else 0;
      assert Counts(saved, c.role, m);
      CountIsLength(saved, c.role, m);
    } else {
      assert Eng(c.role, c.current) in saved;
    }
  }

  /** Finished or broken, from whatever counts: the state matches its configuration again if and only if no
      instance was recorded under a negative index. */
  lemma RunMatchesIff(w: World, o: Oracle, user: DeployConfig)
    requires UpdateInstanceNum(w, o, user).1 in {Scaled, ScaleFailed}
    ensures var w' := UpdateInstanceNum(w, o, user).0;
            EngineStateMatches(w'.prepared, w'.saved) <==> Readable(w'.saved)
  {
    var changes := Changes(w.prepared, user, ENGINE_ROLES).value;
    AcceptedChanges(w, user, changes);
    MatchesIsCounts(w.prepared, w.saved);
    var w' := UpdateInstanceNum(w, o, user).0;
    ScaleRolesSpan(w.(prepared := user), o, changes);
    MatchesIsCounts(w'.prepared, w'.saved);
    forall role ensures Counts(w'.saved, role, Expected(w'.prepared, role)) <==> NoNegative(w'.saved, role) {
      RoleMatches(w, o, user, changes, role);
    }
    if forall role :: NoNegative(w'.saved, role) {
      forall slot | slot in w'.saved && slot.Eng? ensures slot.index >= 0 {
        assert slot == Eng(slot.role, slot.index) && NoNegative(w'.saved, slot.role);
      }
    }
    if Readable(w'.saved) {
      forall role, i | Eng(role, i) in w'.saved ensures i >= 0 { assert Eng(role, i).Eng?; }
    }
  }

  lemma RoleMatches(w: World, o: Oracle, user: DeployConfig, changes: seq<Change>, role: Role)
    requires EngineStateMatches(w.prepared, w.saved) && SameExceptCounts(user, w.prepared)
    requires Describes(changes, w.prepared, user, ENGINE_ROLES) && AllReady(w.saved, changes)
    ensures var w' := ApplyChanges(w, o, user, changes).0;
            Counts(w'.saved, role, Expected(w'.prepared, role)) <==> NoNegative(w'.saved, role)
  {
    EveryRole();
    MatchesIsCounts(w.prepared, w.saved);
    var r := ScaleRoles(w.(prepared := user), o, changes);
    ScaleRolesSpan(w.(prepared := user), o, changes);
    var w' := ApplyChanges(w, o, user, changes).0;
    RepairedCounts(w.prepared, changes, r.w.saved);
    assert Enabled(w'.prepared, role) == Enabled(w.prepared, role);
    if c :| c in changes && c.role == role {
      var hi :| Reached(w'.saved, c, hi);
      if r.Done? {
        assert Reached(w'.saved, c, c.target);
        ChangedRoleMatches(w'.saved, c, c.target, c.target);
      } else {
        ChangedRoleMatches(w'.saved, c, hi, JobCount(w'.saved, role));
      }
    } else {
      assert Counts(w.saved, role, Expected(w.prepared, role));
      UntouchedCounts(w.saved, w'.saved, changes, role, Expected(w.prepared, role));
      assert Instances(w'.prepared, role) == Instances(w.prepared, role);
    }
  }

  /** In particular it does, however the calls answer, when no changed role started below zero. */
  lemma NonNegativeStartMatches(w: World, o: Oracle, user: DeployConfig, changes: seq<Change>)
    requires EngineStateMatches(w.prepared, w.saved) && Changes(w.prepared, user, ENGINE_ROLES) == Some(changes)
    requires forall c :: c in changes ==> c.current >= 0
    ensures var w' := UpdateInstanceNum(w, o, user).0; EngineStateMatches(w'.prepared, w'.saved)
  {
    if UpdateInstanceNum(w, o, user).1 in {Scaled, ScaleFailed} {
      AcceptedChanges(w, user, changes);
      MatchesIsCounts(w.prepared, w.saved);
      var w' := UpdateInstanceNum(w, o, user).0;
      ScaleRolesSpan(w.(prepared := user), o, changes);
      forall slot | slot in w'.saved && slot.Eng? ensures slot.index >= 0 {
        assert slot == Eng(slot.role, slot.index);
        if c :| c in changes && c.role == slot.role {
          var hi :| Reached(w'.saved, c, hi);
        } else {
          assert Counts(w.saved, slot.role, Expected(w.prepared, slot.role));
          UntouchedCounts(w.saved, w'.saved, changes, slot.role, Expected(w.prepared, slot.role));
        }
      }
      RunMatchesIff(w, o, user);
    }
  }

  /** What a caller can check beforehand: an accepted change leaves a matching state, however the calls
      answer, if and only if no changed role starts below zero. */
  lemma AlwaysMatchesIff(w: World, user: DeployConfig, changes: seq<Change>)
    requires SameExceptCounts(user, w.prepared) && Readable(w.saved) && EngineStateMatches(w.prepared, w.saved)
    requires Changes(w.prepared, user, ENGINE_ROLES) == Some(changes)
    ensures (forall o :: MatchesAfter(w, o, user)) <==> forall c :: c in changes ==> c.current >= 0
  {
    if forall c :: c in changes ==> c.current >= 0 {
      forall o ensures MatchesAfter(w, o, user) { NonNegativeStartMatches(w, o, user, changes); }
    } else {
      var o := NegativeStartFails(w, user, changes);
      assert !MatchesAfter(w, o, user);
    }
  }

  lemma NegativeStartFails(w: World, user: DeployConfig, changes: seq<Change>) returns (o: Oracle)
    requires SameExceptCounts(user, w.prepared) && Readable(w.saved) && EngineStateMatches(w.prepared, w.saved)
    requires Changes(w.prepared, user, ENGINE_ROLES) == Some(changes)
    requires exists c :: c in changes && c.current < 0
    ensures !MatchesAfter(w, o, user)
  {
    o := Oracle(n => Accepted(n), (n, id) => true);
    AcceptedChanges(w, user, changes);
    ScaleRolesFinishes(w.(prepared := user), o, changes);
    assert UpdateInstanceNum(w, o, user).1 == Scaled;
    ScaledMatchesIff(w, o, user, changes);
  }

  ghost predicate MatchesAfter(w: World, o: Oracle, user: DeployConfig) {
    var w' := UpdateInstanceNum(w, o, user).0;
    EngineStateMatches(w'.prepared, w'.saved)
  }

  /** A deployment prepared with e_instances_num = -1, scaled to 1 by calls that all succeed: instances -1 and
      0 are recorded, and the next check refuses the state. */
  lemma NegativeStartExample()
    ensures
      var prepared := DeployConfig(map[Encode := -1], map[], map[Encode := 1], 0);
      var user := prepared.(instances := map[Encode := 1]);
      var o := Oracle(n => Accepted(n), (n, id) => true);
      var (w, verdict) := UpdateInstanceNum(World(prepared, map[], {}, {}, 0), o, user);
      verdict == Scaled && !EngineStateMatches(w.prepared, w.saved)
  {
    var prepared := DeployConfig(map[Encode := -1], map[], map[Encode := 1], 0);
    var user := prepared.(instances := map[Encode := 1]);
    var o := Oracle(n => Accepted(n), (n, id) => true);
    var w := World(prepared, map[], {}, {}, 0);
    var c := Change(Encode, -1, 1);
    EmptyMatches(prepared, w.saved);
    OnlyEncodeChanges(prepared, user);
    var w1 := Record(Submit(w.(prepared := user), o).0, Eng(Encode, -1), 0);
    var w2 := Record(Submit(w1, o).0, Eng(Encode, 0), 1);
    assert ScaleUp(w2, o, Encode, 1, 1) == Done(w2);
    assert ScaleUp(w1, o, Encode, 0, 1) == Done(w2);
    assert ScaleUp(w.(prepared := user), o, Encode, -1, 1) == Done(w2);
    assert ScaleRole(w.(prepared := user), o, c) == Done(w2);
    assert [c][1..] == [] && ScaleRoles(w2, o, []) == Done(w2);
    assert ScaleRoles(w.(prepared := user), o, [c]) == Done(w2);
    ScaledMatchesIff(w, o, user, [c]);
    assert c in [c];
  }

  lemma EmptyMatches(c: DeployConfig, saved: Saved)
    requires saved == map[] && forall role :: Expected(c, role) <= 0
    ensures EngineStateMatches(c, saved)
  {
    forall role ensures Counts(saved, role, Expected(c, role)) {}
    MatchesIsCounts(c, saved);
  }

  lemma OnlyEncodeChanges(prepared: DeployConfig, user: DeployConfig)
    requires prepared == DeployConfig(map[Encode := -1], map[], map[Encode := 1], 0)
    requires user == prepared.(instances := map[Encode := 1])
    ensures Changes(prepared, user, ENGINE_ROLES) == Some([Change(Encode, -1, 1)])
  {
    var r1, r2, r3 := ENGINE_ROLES[1..], ENGINE_ROLES[2..], ENGINE_ROLES[3..];
    var none: seq<Change> := [];
    assert r1[1..] == r2 && r2[1..] == r3 && r3[1..] == [] && none + none == none;
    assert r1[0] == Prefill && r2[0] == Decode && r3[0] == Union && ENGINE_ROLES[0] == Encode;
    assert Changes(prepared, user, r3) == Some([]);
    assert Changes(prepared, user, r2) == Some([]);
    assert Changes(prepared, user, r1) == Some([]);
    assert [Change(Encode, -1, 1)] + none == [Change(Encode, -1, 1)];
  }
}
