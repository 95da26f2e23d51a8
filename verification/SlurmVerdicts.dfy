/** When the scaling command refuses, and what it writes into the prepared configuration, in terms of the
    raw settings. */
module SlurmVerdicts {
  import opened Options
  import opened SlurmState
  import opened SlurmScaling

  // ---- The settings of a role ----

  /** A missing instance count is 1. */
  function Wanted(c: DeployConfig, role: Role): int {
    if role in c.instances then c.instances[role] else 1
  }

  /** A role runs with an explicit positive NPU count and no pod count below 1. */
  predicate Runs(c: DeployConfig, role: Role) {
    role in c.npus && c.npus[role] > 0 && (role in c.pods ==> c.pods[role] > 0)
  }

  lemma RawSettings(c: DeployConfig, role: Role)
    ensures Instances(c, role) == Wanted(c, role) && (Enabled(c, role) <==> Runs(c, role))
    ensures Expected(c, role) == if Runs(c, role) then Wanted(c, role) else 0
  {
  }

  /** The saved instances are those that the configuration asks for. */
  ghost predicate StateFits(c: DeployConfig, saved: Saved) {
    forall role, i :: Eng(role, i) in saved <==> Runs(c, role) && 0 <= i < Wanted(c, role)
  }

  lemma StateCheckIff(c: DeployConfig, saved: Saved)
    ensures EngineStateMatches(c, saved) <==> StateFits(c, saved)
  {
    MatchesIsCounts(c, saved);
    forall role ensures Counts(saved, role, Expected(c, role)) <==>
        forall i :: Eng(role, i) in saved <==> Runs(c, role) && 0 <= i < Wanted(c, role)
    {
      RawSettings(c, role);
    }
  }

  // ---- Refusals ----

  /** A setting other than the instance counts differs, the saved instances do not fit the prepared
      configuration, a count is negative, or a role that does not run would change. */
  ghost predicate Refuses(w: World, user: DeployConfig) {
    || user.(instances := w.prepared.instances) != w.prepared
    || (exists role, i :: Eng(role, i) in w.saved && i < 0)
    || !StateFits(w.prepared, w.saved)
    || exists role :: Wanted(user, role) < 0 ||
                      (Wanted(user, role) != Wanted(w.prepared, role) && !Runs(w.prepared, role))
  }

  lemma SettingsCompared(user: DeployConfig, baseline: DeployConfig)
    ensures SameExceptCounts(user, baseline) <==> user.(instances := baseline.instances) == baseline
  {
  }

  lemma ReadableIff(saved: Saved)
    ensures Readable(saved) <==> !exists role, i :: Eng(role, i) in saved && i < 0
  {
    if !exists role, i :: Eng(role, i) in saved && i < 0 {
      forall slot | slot in saved && slot.Eng? ensures slot.index >= 0 {
        assert slot == Eng(slot.role, slot.index);
      }
    }
  }

  lemma ChangesRefused(w: World, user: DeployConfig)
    ensures Changes(w.prepared, user, ENGINE_ROLES).None? <==>
            exists role :: Wanted(user, role) < 0 ||
                           (Wanted(user, role) != Wanted(w.prepared, role) && !Runs(w.prepared, role))
  {
    EveryRole();
    ChangesDescribe(w.prepared, user, ENGINE_ROLES);
    forall role ensures Instances(user, role) == Wanted(user, role) && role in ENGINE_ROLES &&
                        Instances(w.prepared, role) == Wanted(w.prepared, role) &&
                        (Enabled(w.prepared, role) <==> Runs(w.prepared, role))
    {
      RawSettings(user, role);
      RawSettings(w.prepared, role);
    }
  }

  /** The command refuses exactly then, whatever sbatch and scancel would answer, and touches nothing. */
  lemma InvalidIff(w: World, o: Oracle, user: DeployConfig)
    ensures UpdateInstanceNum(w, o, user).1 == Invalid <==> Refuses(w, user)
    ensures Refuses(w, user) ==> UpdateInstanceNum(w, o, user).0 == w
  {
    SettingsCompared(user, w.prepared);
    ReadableIff(w.saved);
    StateCheckIff(w.prepared, w.saved);
    ChangesRefused(w, user);
  }

  /** Otherwise it leaves everything alone exactly when all counts are as they were. */
  lemma UnchangedIff(w: World, o: Oracle, user: DeployConfig)
    requires !Refuses(w, user)
    ensures UpdateInstanceNum(w, o, user).1 == Unchanged <==>
            forall role :: Wanted(user, role) == Wanted(w.prepared, role)
    ensures UpdateInstanceNum(w, o, user).1 == Unchanged ==> UpdateInstanceNum(w, o, user).0 == w
  {
    InvalidIff(w, o, user);
    var changes := Changes(w.prepared, user, ENGINE_ROLES).value;
    EveryRole();
    ChangesDescribe(w.prepared, user, ENGINE_ROLES);
    forall role ensures Instances(user, role) == Wanted(user, role) && role in ENGINE_ROLES &&
                        Instances(w.prepared, role) == Wanted(w.prepared, role)
    {
      RawSettings(user, role);
      RawSettings(w.prepared, role);
    }
    if changes != [] { assert changes[0] in changes; }
  }

  // ---- The prepared configuration ----

  /** The handler writes the counts of the changed roles and no other entry. */
  lemma {:induction false} RepairedEntries(c: DeployConfig, changes: seq<Change>, saved: Saved)
    ensures
      var r := Repaired(c, changes, saved);
      && r == c.(instances := r.instances)
      && forall role :: if Named(changes, role) then role in r.instances && r.instances[role] == JobCount(saved, role)
                        else (role in r.instances <==> role in c.instances) &&
                             (role in c.instances ==> r.instances[role] == c.instances[role])
    decreases |changes|
  {
    if changes != [] {
      var role := changes[0].role;
      var next := c.(instances := c.instances[role := JobCount(saved, role)]);
      RepairedEntries(next, changes[1..], saved);
      forall other ensures Named(changes, other) <==> other == role || Named(changes[1..], other) {
        NamedStep(changes, other);
      }
    }
  }

  ghost predicate Named(changes: seq<Change>, role: Role) {
    exists c :: c in changes && c.role == role
  }

  lemma NamedStep(changes: seq<Change>, role: Role)
    requires changes != []
    ensures Named(changes, role) <==> role == changes[0].role || Named(changes[1..], role)
  {
    if c :| c in changes && c.role == role {
      if c != changes[0] { assert c in changes[1..]; }
    }
    assert changes[0] in changes && forall c :: c in changes[1..] ==> c in changes;
  }

  lemma {:induction false} LoopsKeepPrepared(w: World, o: Oracle, changes: seq<Change>)
    ensures ScaleRoles(w, o, changes).w.prepared == w.prepared
    decreases |changes|
  {
    if changes != [] {
      var c := changes[0];
      DownKeepsPrepared(w, o, c.role, c.current - 1, c.target);
      var down := ScaleDown(w, o, c.role, c.current - 1, c.target);
      UpKeepsPrepared(down.w, o, c.role, c.current, c.target);
      LoopsKeepPrepared(ScaleRole(w, o, c).w, o, changes[1..]);
    }
  }

  lemma {:induction false} DownKeepsPrepared(w: World, o: Oracle, role: Role, index: int, target: int)
    ensures ScaleDown(w, o, role, index, target).w.prepared == w.prepared
    decreases index - target
  {
    if index >= target && Eng(role, index) in w.saved {
      var w1 := Cancel(w, o, w.saved[Eng(role, index)]).0;
      DownKeepsPrepared(Forget(w1, Eng(role, index)), o, role, index - 1, target);
    }
  }

  lemma {:induction false} UpKeepsPrepared(w: World, o: Oracle, role: Role, index: int, target: int)
    ensures ScaleUp(w, o, role, index, target).w.prepared == w.prepared
    decreases target - index
  {
    if index < target {
      var (w1, id) := Submit(w, o);
      if id.Some? { UpKeepsPrepared(Record(w1, Eng(role, index), id.value), o, role, index + 1, target); }
    }
  }

  /** A completed run has stored the user's configuration; a broken one the old one with the recorded
      numbers of the changed roles. No run changes a setting other than the counts. */
  lemma PreparedAfter(w: World, o: Oracle, user: DeployConfig)
    ensures
      var (w', verdict) := UpdateInstanceNum(w, o, user);
      && w'.prepared.(instances := w.prepared.instances) == w.prepared
      && (verdict == Scaled ==> w'.prepared == user)
      && (verdict == ScaleFailed ==> forall role ::
            if Wanted(user, role) != Wanted(w.prepared, role)
            then role in w'.prepared.instances && w'.prepared.instances[role] == JobCount(w'.saved, role)
            else (role in w'.prepared.instances <==> role in w.prepared.instances) &&
                 (role in w.prepared.instances ==> w'.prepared.instances[role] == w.prepared.instances[role]))
  {
    SettingsCompared(user, w.prepared);
    var planned := Changes(w.prepared, user, ENGINE_ROLES);
    if UpdateInstanceNum(w, o, user).1 in {Scaled, ScaleFailed} {
      LoopsKeepPrepared(w.(prepared := user), o, planned.value);
      var r := ScaleRoles(w.(prepared := user), o, planned.value);
      RepairedEntries(w.prepared, planned.value, r.w.saved);
      forall role ensures Named(planned.value, role) <==> Wanted(user, role) != Wanted(w.prepared, role) {
        ChangedIff(w, user, planned.value, role);
      }
    }
  }

  lemma ChangedIff(w: World, user: DeployConfig, changes: seq<Change>, role: Role)
    requires Changes(w.prepared, user, ENGINE_ROLES) == Some(changes)
    ensures Named(changes, role) <==> Wanted(user, role) != Wanted(w.prepared, role)
  {
    EveryRole();
    ChangesDescribe(w.prepared, user, ENGINE_ROLES);
    RawSettings(user, role);
    RawSettings(w.prepared, role);
  }

  // ---- The order of the changes ----

  function Rank(role: Role): nat {
    match role case Encode => 0 case Prefill => 1 case Decode => 2 case Union => 3
  }

  /** Roles are scaled in the order encode, prefill, decode, union. */
  lemma {:induction false} ChangesInOrder(baseline: DeployConfig, target: DeployConfig, roles: seq<Role>)
    requires forall i, j :: 0 <= i < j < |roles| ==> Rank(roles[i]) < Rank(roles[j])
    requires Changes(baseline, target, roles).Some?
    ensures
      var changes := Changes(baseline, target, roles).value;
      && (forall c :: c in changes ==> c.role in roles)
      && forall i, j :: 0 <= i < j < |changes| ==> Rank(changes[i].role) < Rank(changes[j].role)
    decreases |roles|
  {
    if roles != [] {
      ChangesInOrder(baseline, target, roles[1..]);
      var rest := Changes(baseline, target, roles[1..]).value;
      forall c | c in rest ensures Rank(roles[0]) < Rank(c.role) && c.role in roles {
        var i :| 0 <= i < |roles[1..]| && roles[1..][i] == c.role;
        assert roles[i + 1] == c.role;
      }
    }
  }

  lemma CommandOrder(baseline: DeployConfig, target: DeployConfig)
    requires Changes(baseline, target, ENGINE_ROLES).Some?
    ensures
      var changes := Changes(baseline, target, ENGINE_ROLES).value;
      forall i, j :: 0 <= i < j < |changes| ==> Rank(changes[i].role) < Rank(changes[j].role)
  {
    ChangesInOrder(baseline, target, ENGINE_ROLES);
  }
}
