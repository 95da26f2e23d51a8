/** Scaling the engine instances of a Slurm deployment: the change loops, the handler that repairs
    the prepared configuration, and what every run keeps whatever sbatch and scancel answer. */
module SlurmScaling {
  import opened Options
  import opened SlurmState

  datatype Change = Change(role: Role, current: int, target: int)

  /** The change loops ended, or an exception left them. */
  datatype Run = Done(w: World) | Broken(w: World)

  // ---- The change loops ----

  /** Cancelling instances index, index-1, .. target. */
  function ScaleDown(w: World, o: Oracle, role: Role, index: int, target: int): Run
    decreases index - target
  {
    if index < target then Done(w)
    else if Eng(role, index) !in w.saved then Broken(w)
    else
      var (w1, ok) := Cancel(w, o, w.saved[Eng(role, index)]);
      if !ok then Broken(w1)
      else ScaleDown(Forget(w1, Eng(role, index)), o, role, index - 1, target)
  }

  /** Submitting instances index, index+1, .. target-1. */
  function ScaleUp(w: World, o: Oracle, role: Role, index: int, target: int): Run
    decreases target - index
  {
    if index >= target then Done(w)
    else
      var (w1, id) := Submit(w, o);
      match id
      case None => Broken(w1)
      case Some(job) => ScaleUp(Record(w1, Eng(role, index), job), o, role, index + 1, target)
  }

  function ScaleRole(w: World, o: Oracle, c: Change): Run {
    match ScaleDown(w, o, c.role, c.current - 1, c.target)
    case Done(w1) => ScaleUp(w1, o, c.role, c.current, c.target)
    case Broken(w1) => Broken(w1)
  }

  function ScaleRoles(w: World, o: Oracle, changes: seq<Change>): Run
    decreases |changes|
  {
    if changes == [] then Done(w)
    else
      match ScaleRole(w, o, changes[0])
      case Done(w1) => ScaleRoles(w1, o, changes[1..])
      case Broken(w1) => Broken(w1)
  }

  // ---- The command ----

  /** _validate_scale_config: only instance counts may differ. */
  predicate SameExceptCounts(user: DeployConfig, baseline: DeployConfig) {
    user.pods == baseline.pods && user.npus == baseline.npus && user.other == baseline.other
  }

  /** The count changes, or nothing when the target is negative or a disabled role would change. */
  function Changes(baseline: DeployConfig, target: DeployConfig, roles: seq<Role>): Option<seq<Change>> {
    if roles == [] then Some([])
    else
      var role := roles[0];
      var from, to := Instances(baseline, role), Instances(target, role);
      if to < 0 || (from != to && !Enabled(baseline, role)) then None
      else
        match Changes(baseline, target, roles[1..])
        case None => None
        case Some(rest) => Some((if from != to then [Change(role, from, to)] else []) + rest)
  }

  /** The handler: changed roles get the number of instances that are actually recorded. */
  function Repaired(c: DeployConfig, changes: seq<Change>, saved: Saved): DeployConfig
    decreases |changes|
  {
    if changes == [] then c
    else
      var role := changes[0].role;
      Repaired(c.(instances := c.instances[role := JobCount(saved, role)]), changes[1..], saved)
  }

  datatype Verdict = Invalid | Unchanged | Scaled | ScaleFailed

  /** The state file's engine indexes are digit strings. */
  predicate Readable(s: Saved) {
    forall slot :: slot in s && slot.Eng? ==> slot.index >= 0
  }

  function ApplyChanges(w: World, o: Oracle, user: DeployConfig, changes: seq<Change>): (World, Verdict) {
    match ScaleRoles(w.(prepared := user), o, changes)
    case Done(w1) => (w1, Scaled)
    case Broken(w1) => (w1.(prepared := Repaired(w.prepared, changes, w1.saved)), ScaleFailed)
  }

  function UpdateInstanceNum(w: World, o: Oracle, user: DeployConfig): (World, Verdict) {
    if !SameExceptCounts(user, w.prepared) || !Readable(w.saved) || !EngineStateMatches(w.prepared, w.saved) then
      (w, Invalid)
    else
      match Changes(w.prepared, user, ENGINE_ROLES)
      case None => (w, Invalid)
      case Some(changes) => if changes == [] then (w, Unchanged) else ApplyChanges(w, o, user, changes)
  }

  // ---- One role ----

  /** The role's saved indexes are exactly lo .. hi-1. */
  ghost predicate Span(saved: Saved, role: Role, lo: int, hi: int) {
    forall i :: Eng(role, i) in saved <==> lo <= i < hi
  }

  /** Two state files agree outside one role's engine slots. */
  ghost predicate SameOutside(a: Saved, b: Saved, role: Role) {
    forall s: Slot :: !(s.Eng? && s.role == role) ==> (s in a <==> s in b) && (s in a && s in b ==> a[s] == b[s])
  }

  /** Successful calls of a run that started at call t. */
  function Completed(t: nat, r: Run): int {
    r.w.tick - t - (if r.Broken? then 1 else 0)
  }

  lemma {:induction false} ScaleDownSpan(w: World, o: Oracle, role: Role, index: int, target: int)
      returns (hi: int)
    requires Span(w.saved, role, 0, index + 1) && target >= 0
    ensures var r := ScaleDown(w, o, role, index, target);
            && Span(r.w.saved, role, 0, hi)
            && (index < target ==> hi == index + 1 && r == Done(w))
            && (index >= target ==> target <= hi <= index + 1)
            && (index >= target && r.Done? ==> hi == target)
            && Completed(w.tick, r) == index + 1 - hi
            && SameOutside(w.saved, r.w.saved, role) && r.w.prepared == w.prepared
    decreases index - target
  {
    hi := index + 1;
    if index >= target {
      var slot := Eng(role, index);
      assert slot in w.saved;
      var (w1, ok) := Cancel(w, o, w.saved[slot]);
      if ok {
        hi := ScaleDownSpan(Forget(w1, slot), o, role, index - 1, target);
      }
    }
  }

  lemma {:induction false} ScaleUpSpan(w: World, o: Oracle, role: Role, lo: int, index: int, target: int)
      returns (hi: int)
    requires lo <= index && Span(w.saved, role, lo, index)
    ensures var r := ScaleUp(w, o, role, index, target);
            && Span(r.w.saved, role, lo, hi)
            && (index >= target ==> hi == index && r == Done(w))
            && (index < target ==> index <= hi <= target)
            && (index < target && r.Done? ==> hi == target)
            && Completed(w.tick, r) == hi - index
            && SameOutside(w.saved, r.w.saved, role) && r.w.prepared == w.prepared
    decreases target - index
  {
    hi := index;
    if index < target {
      var (w1, id) := Submit(w, o);
      if id.Some? {
        hi := ScaleUpSpan(Record(w1, Eng(role, index), id.value), o, role, lo, index + 1, target);
      }
    }
  }

  function Lo(c: Change): int {
    if c.current < 0 then c.current else 0
  }

  predicate Between(c: Change, hi: int) {
    c.current <= hi <= c.target || c.target <= hi <= c.current
  }

  function Abs(n: int): nat {
    if n < 0 then -n else n
  }

  /** The role stands somewhere between its old and its requested count. */
  ghost predicate Reached(saved: Saved, c: Change, hi: int) {
    Span(saved, c.role, Lo(c), hi) && Between(c, hi)
  }

  /** A change that the command accepts for a matching state file. */
  ghost predicate Ready(saved: Saved, c: Change) {
    Counts(saved, c.role, c.current) && c.target >= 0 && c.current != c.target
  }

  lemma ScaleRoleSpan(w: World, o: Oracle, c: Change) returns (hi: int)
    requires Ready(w.saved, c)
    ensures var r := ScaleRole(w, o, c);
            && Reached(r.w.saved, c, hi)
            && (r.Done? ==> hi == c.target)
            && Completed(w.tick, r) == Abs(c.current - hi)
            && SameOutside(w.saved, r.w.saved, c.role) && r.w.prepared == w.prepared
  {
    if c.current < 0 {
      assert ScaleDown(w, o, c.role, c.current - 1, c.target) == Done(w);
      hi := ScaleUpSpan(w, o, c.role, c.current, c.current, c.target);
    } else {
      hi := ScaleDownSpan(w, o, c.role, c.current - 1, c.target);
      var down := ScaleDown(w, o, c.role, c.current - 1, c.target);
      if down.Done? && c.current < c.target {
        hi := ScaleUpSpan(w, o, c.role, 0, c.current, c.target);
      }
    }
  }

  // ---- All roles ----

  ghost predicate DistinctRoles(changes: seq<Change>) {
    forall i, j :: 0 <= i < j < |changes| ==> changes[i].role != changes[j].role
  }

  ghost predicate AllReady(saved: Saved, changes: seq<Change>) {
    DistinctRoles(changes) && forall c :: c in changes ==> Ready(saved, c)
  }

  ghost predicate Touched(changes: seq<Change>, s: Slot) {
    s.Eng? && exists c :: c in changes && c.role == s.role
  }

  /** Every changed role is under way, and nothing else in the state file has moved. */
  ghost predicate Progressed(before: Saved, after: Saved, changes: seq<Change>) {
    && (forall c :: c in changes ==> exists hi :: Reached(after, c, hi))
    && (forall s: Slot :: !Touched(changes, s) ==>
                            (s in before <==> s in after) && (s in before && s in after ==> before[s] == after[s]))
  }

  lemma SpanOutside(a: Saved, b: Saved, role: Role, other: Role, lo: int, hi: int)
    requires SameOutside(a, b, role) && other != role && Span(a, other, lo, hi)
    ensures Span(b, other, lo, hi)
  {
    forall i ensures Eng(other, i) in a <==> Eng(other, i) in b {}
  }

  lemma ReadyOutside(a: Saved, b: Saved, changes: seq<Change>)
    requires changes != [] && AllReady(a, changes) && SameOutside(a, b, changes[0].role)
    ensures AllReady(b, changes[1..])
  {
    forall c | c in changes[1..] ensures Ready(b, c) {
      var j :| 0 <= j < |changes[1..]| && changes[1..][j] == c;
      assert changes[j + 1] == c && c in changes;
      assert Span(a, c.role, 0, c.current);
      SpanOutside(a, b, changes[0].role, c.role, 0, c.current);
    }
  }

  lemma {:induction false} ScaleRolesSpan(w: World, o: Oracle, changes: seq<Change>)
    requires AllReady(w.saved, changes)
    ensures var r := ScaleRoles(w, o, changes);
            && Progressed(w.saved, r.w.saved, changes)
            && (r.Done? ==> forall c :: c in changes ==> Reached(r.w.saved, c, c.target))
            && r.w.prepared == w.prepared
    decreases |changes|
  {
    if changes != [] {
      var c := changes[0];
      assert c in changes && changes == [c] + changes[1..];
      var hi := ScaleRoleSpan(w, o, c);
      var first := ScaleRole(w, o, c);
      ReadyOutside(w.saved, first.w.saved, changes);
      if first.Done? {
        ScaleRolesSpan(first.w, o, changes[1..]);
      }
      ProgressStep(w.saved, first.w.saved, ScaleRoles(w, o, changes).w.saved, changes, hi);
    }
  }

  lemma ProgressStep(before: Saved, mid: Saved, after: Saved, changes: seq<Change>, hi: int)
    requires changes != [] && AllReady(before, changes)
    requires SameOutside(before, mid, changes[0].role) && Reached(mid, changes[0], hi)
    requires after == mid || Progressed(mid, after, changes[1..])
    ensures Progressed(before, after, changes)
    ensures Reached(after, changes[0], hi)
  {
    var c := changes[0];
    assert changes == [c] + changes[1..];
    assert forall d :: d in changes[1..] ==> d.role != c.role;
    assert Reached(after, c, hi) by {
      forall i ensures Eng(c.role, i) in after <==> Eng(c.role, i) in mid {
        assert !Touched(changes[1..], Eng(c.role, i));
      }
    }
    ReadyOutside(before, mid, changes);
    forall d | d in changes ensures exists hi :: Reached(after, d, hi) {
      if d != c {
        assert d in changes[1..];
        if after == mid { assert Reached(after, d, d.current); }
      }
    }
    forall s: Slot | !Touched(changes, s)
      ensures (s in before <==> s in after) && (s in before && s in after ==> before[s] == after[s])
    {
      assert !Touched(changes[1..], s);
      assert !(s.Eng? && s.role == c.role);
    }
  }

  // ---- The command: which changes it accepts ----

  ghost predicate DistinctSeq(roles: seq<Role>) {
    forall i, j :: 0 <= i < j < |roles| ==> roles[i] != roles[j]
  }

  /** The change list holds exactly the roles whose counts differ, all of them enabled. */
  ghost predicate Describes(changes: seq<Change>, baseline: DeployConfig, target: DeployConfig, roles: seq<Role>) {
    && DistinctRoles(changes)
    && (forall c :: c in changes ==>
          && c.role in roles && Enabled(baseline, c.role)
          && c == Change(c.role, Instances(baseline, c.role), Instances(target, c.role))
          && c.current != c.target)
    && (forall role :: role in roles ==> Instances(target, role) >= 0)
    && (forall role :: role in roles && Instances(baseline, role) != Instances(target, role) ==>
                         exists c :: c in changes && c.role == role)
  }

  lemma {:induction false} ChangesDescribe(baseline: DeployConfig, target: DeployConfig, roles: seq<Role>)
    requires DistinctSeq(roles)
    ensures var changes := Changes(baseline, target, roles);
            && (changes.Some? ==> Describes(changes.value, baseline, target, roles))
            && (changes.None? <==> exists role :: role in roles && (Instances(target, role) < 0 ||
                                     (Instances(baseline, role) != Instances(target, role) &&
                                      !Enabled(baseline, role))))
    decreases |roles|
  {
    if roles != [] {
      var role := roles[0];
      ChangesDescribe(baseline, target, roles[1..]);
      assert role in roles && roles == [role] + roles[1..];
      var from, to := Instances(baseline, role), Instances(target, role);
      var rest := Changes(baseline, target, roles[1..]);
      if rest.Some? && from != to {
        var all := [Change(role, from, to)] + rest.value;
        assert Change(role, from, to) in all;
        assert forall c :: c in all <==> c == Change(role, from, to) || c in rest.value;
      }
    }
  }

  lemma EveryRole()
    ensures DistinctSeq(ENGINE_ROLES) && forall role :: role in ENGINE_ROLES
  {
    forall role: Role ensures role in ENGINE_ROLES {
      assert ENGINE_ROLES[0] == Encode && ENGINE_ROLES[1] == Prefill && ENGINE_ROLES[2] == Decode &&
             ENGINE_ROLES[3] == Union;
      match role case Encode => case Prefill => case Decode => case Union =>
    }
  }

  lemma AcceptedChanges(w: World, user: DeployConfig, changes: seq<Change>)
    requires EngineStateMatches(w.prepared, w.saved) && Changes(w.prepared, user, ENGINE_ROLES) == Some(changes)
    ensures Describes(changes, w.prepared, user, ENGINE_ROLES) && AllReady(w.saved, changes)
  {
    EveryRole();
    ChangesDescribe(w.prepared, user, ENGINE_ROLES);
    MatchesIsCounts(w.prepared, w.saved);
    forall c | c in changes ensures Ready(w.saved, c) {
      assert Counts(w.saved, c.role, Expected(w.prepared, c.role));
    }
  }

  lemma {:induction false} RepairedCounts(c: DeployConfig, changes: seq<Change>, saved: Saved)
    ensures var r := Repaired(c, changes, saved);
            && SameExceptCounts(r, c)
            && (forall d :: d in changes ==> Instances(r, d.role) == JobCount(saved, d.role))
            && (forall role :: !(exists d :: d in changes && d.role == role) ==>
                Instances(r, role) == Instances(c, role))
    decreases |changes|
  {
    if changes != [] {
      var role := changes[0].role;
      var c' := c.(instances := c.instances[role := JobCount(saved, role)]);
      RepairedCounts(c', changes[1..], saved);
      assert changes == [changes[0]] + changes[1..];
      var r := Repaired(c, changes, saved);
      forall d | d in changes ensures Instances(r, d.role) == JobCount(saved, d.role) {
        if d !in changes[1..] && !exists e :: e in changes[1..] && e.role == d.role {
          assert Instances(c', d.role) == JobCount(saved, d.role);
        }
      }
      forall other | !exists d :: d in changes && d.role == other
        ensures Instances(r, other) == Instances(c, other)
      {
        assert other != role by { assert changes[0] in changes; }
        assert !exists d :: d in changes[1..] && d.role == other;
      }
    }
  }

  // ---- What every run keeps ----

  /** Enabled roles never have a negative count. */
  ghost predicate NonNegative(c: DeployConfig) {
    forall role :: Enabled(c, role) ==> Instances(c, role) >= 0
  }

  /** The state that a command can start from: the prepared configuration describes the saved jobs. */
  ghost predicate Aligned(w: World) {
    EngineStateMatches(w.prepared, w.saved) && NonNegative(w.prepared)
  }

  lemma UntouchedCounts(before: Saved, after: Saved, changes: seq<Change>, role: Role, n: int)
    requires Progressed(before, after, changes) && !(exists c :: c in changes && c.role == role)
    requires Counts(before, role, n)
    ensures Counts(after, role, n)
  {
    forall i ensures Eng(role, i) in after <==> Eng(role, i) in before {
      assert !Touched(changes, Eng(role, i));
    }
  }

  /** After the loops, finished or not, each role's indexes are 0 .. n-1 and match the configuration
      that is left behind. */
  lemma ChangesLeaveAligned(w: World, o: Oracle, user: DeployConfig, changes: seq<Change>)
    requires Aligned(w) && SameExceptCounts(user, w.prepared)
    requires Describes(changes, w.prepared, user, ENGINE_ROLES) && AllReady(w.saved, changes)
    ensures Aligned(ApplyChanges(w, o, user, changes).0)
    ensures SameExceptCounts(user, ApplyChanges(w, o, user, changes).0.prepared)
  {
    EveryRole();
    MatchesIsCounts(w.prepared, w.saved);
    var r := ScaleRoles(w.(prepared := user), o, changes);
    ScaleRolesSpan(w.(prepared := user), o, changes);
    var w' := ApplyChanges(w, o, user, changes).0;
    RepairedCounts(w.prepared, changes, r.w.saved);
    forall role ensures Counts(w'.saved, role, Expected(w'.prepared, role)) {
      assert Enabled(w'.prepared, role) == Enabled(w.prepared, role);
      if c :| c in changes && c.role == role {
        var hi :| Reached(w'.saved, c, hi);
        if r.Done? { assert Reached(w'.saved, c, c.target); } else { CountIsLength(w'.saved, role, hi); }
      } else {
        assert Counts(w.saved, role, Expected(w.prepared, role));
        UntouchedCounts(w.saved, w'.saved, changes, role, Expected(w.prepared, role));
        assert Instances(w'.prepared, role) == Instances(w.prepared, role);
      }
    }
    MatchesIsCounts(w'.prepared, w'.saved);
    forall role | Enabled(w'.prepared, role) ensures Instances(w'.prepared, role) >= 0 {
      if c :| c in changes && c.role == role { }
    }
  }

  /** Whatever sbatch and scancel answer, scaling leaves a state that the next check accepts, with
      nothing but instance counts changed. */
  lemma UpdateKeepsAligned(w: World, o: Oracle, user: DeployConfig)
    requires Aligned(w)
    ensures Aligned(UpdateInstanceNum(w, o, user).0)
    ensures SameExceptCounts(user, UpdateInstanceNum(w, o, user).0.prepared) <==> SameExceptCounts(user, w.prepared)
  {
    if SameExceptCounts(user, w.prepared) && Readable(w.saved) {
      var changes := Changes(w.prepared, user, ENGINE_ROLES);
      if changes.Some? && changes.value != [] {
        AcceptedChanges(w, user, changes.value);
        ChangesLeaveAligned(w, o, user, changes.value);
      }
    }
  }
}
