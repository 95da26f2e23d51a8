/** Starting and stopping a Slurm deployment. */
module SlurmStart {
  import opened SlurmState
  import opened SlurmScaling
  import opened SlurmRuns

  // ---- Start ----

  function SubmitServices(w: World, o: Oracle, services: seq<Service>): Run
    decreases |services|
  {
    if services == [] then Done(w)
    else
      var (w1, id) := Submit(w, o);
      match id
      case None => Broken(w1)
      case Some(job) => SubmitServices(Record(w1, Svc(services[0]), job), o, services[1..])
  }

  function SubmitEngines(w: World, o: Oracle, config: DeployConfig, roles: seq<Role>): Run
    decreases |roles|
  {
    if roles == [] then Done(w)
    else if !Enabled(config, roles[0]) then SubmitEngines(w, o, config, roles[1..])
    else
      match ScaleUp(w, o, roles[0], 0, Instances(config, roles[0]))
      case Done(w1) => SubmitEngines(w1, o, config, roles[1..])
      case Broken(w1) => Broken(w1)
  }

  /** The configuration is prepared and the state file emptied; running jobs become nobody's. */
  function Fresh(w: World, config: DeployConfig): World {
    w.(prepared := config, saved := map[], leaked := {})
  }

  function SubmitAll(w: World, o: Oracle, config: DeployConfig, services: seq<Service>): Run {
    match SubmitServices(Fresh(w, config), o, services)
    case Done(w1) => SubmitEngines(w1, o, config, ENGINE_ROLES)
    case Broken(w1) => Broken(w1)
  }

  // ---- Stop ----

  /** Cancelling every listed job; the state file is kept. */
  function CancelAll(w: World, o: Oracle, ids: seq<JobId>): World
    decreases |ids|
  {
    if ids == [] then w else CancelAll(Cancel(w, o, ids[0]).0, o, ids[1..])
  }

  /** The jobs whose own cancel failed. */
  function Surviving(w: World, o: Oracle, ids: seq<JobId>): set<JobId>
    decreases |ids|
  {
    if ids == [] then {}
    else
      var (w1, ok) := Cancel(w, o, ids[0]);
      (if ok then {} else {ids[0]}) + Surviving(w1, o, ids[1..])
  }

  /** The saved jobs in some order, each once. */
  ghost predicate Lists(ids: seq<JobId>, saved: Saved) {
    && (forall id :: id in ids <==> id in saved.Values)
    && (forall i, j :: 0 <= i < j < |ids| ==> ids[i] != ids[j])
  }

  /** Stopping removes exactly the listed jobs whose cancel succeeded. */
  lemma {:induction false} CancelAllRemoves(w: World, o: Oracle, ids: seq<JobId>)
    requires forall i, j :: 0 <= i < j < |ids| ==> ids[i] != ids[j]
    ensures var w' := CancelAll(w, o, ids);
            && w'.saved == w.saved && w'.prepared == w.prepared && w'.leaked == w.leaked
            && (forall id :: id in Surviving(w, o, ids) ==> id in ids)
            && (forall id :: id in w'.live <==> id in w.live && (id in ids ==> id in Surviving(w, o, ids)))
    decreases |ids|
  {
    if ids != [] {
      var (w1, ok) := Cancel(w, o, ids[0]);
      CancelAllRemoves(w1, o, ids[1..]);
      assert ids == [ids[0]] + ids[1..];
      assert ids[0] !in ids[1..];
    }
  }

  // ---- What start leaves behind ----

  ghost predicate DistinctServices(services: seq<Service>) {
    forall i, j :: 0 <= i < j < |services| ==> services[i] != services[j]
  }

  lemma {:induction false} ServicesInOrder(w: World, o: Oracle, services: seq<Service>, foreign: set<JobId>)
    requires InOrder(w, o, foreign) && DistinctServices(services)
    requires forall s :: s in services ==> Svc(s) !in w.saved
    ensures var r := SubmitServices(w, o, services);
            && InOrder(r.w, o, foreign) && r.w.prepared == w.prepared
            && (r.Done? ==> r.w.leaked == w.leaked)
            && (forall slot :: slot in r.w.saved ==> slot in w.saved || (slot.Svc? && slot.service in services))
            && (r.Done? ==> forall slot :: slot in w.saved || (slot.Svc? && slot.service in services) ==>
                slot in r.w.saved)
    decreases |services|
  {
    if services != [] {
      var slot := Svc(services[0]);
      assert services[0] in services && services == [services[0]] + services[1..];
      SubmitInOrder(w, o, slot, foreign);
      var (w1, id) := Submit(w, o);
      if id.Some? {
        ServicesInOrder(Record(w1, slot, id.value), o, services[1..], foreign);
      }
    }
  }

  lemma {:induction false} ScaleUpLeaks(w: World, o: Oracle, role: Role, index: int, target: int)
    ensures ScaleUp(w, o, role, index, target).Done? ==> ScaleUp(w, o, role, index, target).w.leaked == w.leaked
    decreases target - index
  {
    if index < target {
      var (w1, id) := Submit(w, o);
      if id.Some? { ScaleUpLeaks(Record(w1, Eng(role, index), id.value), o, role, index + 1, target); }
    }
  }

  /** Engine slots of the listed roles are still empty. */
  ghost predicate NoEngines(saved: Saved, roles: seq<Role>) {
    forall role, i :: role in roles ==> Eng(role, i) !in saved
  }

  /** Engine slots outside the listed roles, and service slots, agree. */
  ghost predicate SameApart(a: Saved, b: Saved, roles: seq<Role>) {
    forall s: Slot :: !(s.Eng? && s.role in roles) ==> (s in a <==> s in b) && (s in a && s in b ==> a[s] == b[s])
  }

  lemma {:induction false} EnginesInOrder(w: World, o: Oracle, config: DeployConfig, roles: seq<Role>,
                                          foreign: set<JobId>)
    requires InOrder(w, o, foreign) && DistinctSeq(roles) && NoEngines(w.saved, roles)
    ensures var r := SubmitEngines(w, o, config, roles);
            && InOrder(r.w, o, foreign) && r.w.prepared == w.prepared
            && (r.Done? ==> r.w.leaked == w.leaked)
            && SameApart(w.saved, r.w.saved, roles)
            && (r.Done? ==> forall role :: role in roles ==> Counts(r.w.saved, role, Expected(config, role)))
    decreases |roles|
  {
    if roles != [] {
      var role := roles[0];
      assert role in roles && roles == [role] + roles[1..] && role !in roles[1..];
      if !Enabled(config, role) {
        EnginesInOrder(w, o, config, roles[1..], foreign);
        var r := SubmitEngines(w, o, config, roles);
        assert Counts(r.w.saved, role, 0) by {
          forall i ensures Eng(role, i) !in r.w.saved { assert Eng(role, i) !in w.saved; }
        }
      } else {
        OneRoleInOrder(w, o, config, roles, foreign);
      }
    }
  }

  lemma OneRoleInOrder(w: World, o: Oracle, config: DeployConfig, roles: seq<Role>, foreign: set<JobId>)
    requires roles != [] && Enabled(config, roles[0])
    requires InOrder(w, o, foreign) && DistinctSeq(roles) && NoEngines(w.saved, roles)
    ensures var r := SubmitEngines(w, o, config, roles);
            && InOrder(r.w, o, foreign) && r.w.prepared == w.prepared
            && (r.Done? ==> r.w.leaked == w.leaked)
            && SameApart(w.saved, r.w.saved, roles)
            && (r.Done? ==> forall role :: role in roles ==> Counts(r.w.saved, role, Expected(config, role)))
    decreases |roles|, 0
  {
    var role, n := roles[0], Instances(config, roles[0]);
    assert role in roles && roles == [role] + roles[1..] && role !in roles[1..];
    assert Span(w.saved, role, 0, 0);
    ScaleUpInOrder(w, o, role, 0, 0, n, foreign);
    ScaleUpLeaks(w, o, role, 0, n);
    var hi := ScaleUpSpan(w, o, role, 0, 0, n);
    var first := ScaleUp(w, o, role, 0, n);
    if first.Done? {
      EnginesInOrder(first.w, o, config, roles[1..], foreign);
      var r := SubmitEngines(w, o, config, roles);
      if r.Done? {
        forall i ensures Eng(role, i) in r.w.saved <==> Eng(role, i) in first.w.saved {}
        assert Counts(r.w.saved, role, Expected(config, role));
      }
    }
  }

  /** The services a start submits: coordinator and controller always, the others when enabled. */
  function StartServices(kvStore: bool, kvConductor: bool, mfStore: bool): (r: seq<Service>)
    ensures DistinctServices(r) && |r| >= 2 && r[0] == Coordinator && r[1] == Controller
    ensures (KvStore in r <==> kvStore) && (KvConductor in r <==> kvConductor) && (MfStore in r <==> mfStore)
  {
    [Coordinator, Controller]
    + (if kvStore then [KvStore] else [])
    + (if kvConductor then [KvConductor] else [])
    + (if mfStore then [MfStore] else [])
  }

  /** A completed start records every job it submitted and matches its configuration; an
      interrupted one has recorded every job that is still its own. */
  lemma SubmitAllInOrder(w: World, o: Oracle, config: DeployConfig, services: seq<Service>)
    requires FreshIds(o, w.tick, w.live) && DistinctServices(services)
    ensures var r := SubmitAll(w, o, config, services);
            && InOrder(r.w, o, w.live) && r.w.prepared == config
            && (r.Done? ==> r.w.live == r.w.saved.Values + w.live)
            && (r.Done? ==> EngineStateMatches(config, r.w.saved))
            && (r.Done? ==> forall s :: Svc(s) in r.w.saved <==> s in services)
  {
    var w0 := Fresh(w, config);
    assert Accounted(w0, w.live);
    ServicesInOrder(w0, o, services, w.live);
    var first := SubmitServices(w0, o, services);
    if first.Done? {
      EveryRole();
      EnginesInOrder(first.w, o, config, ENGINE_ROLES, w.live);
      var r := SubmitEngines(first.w, o, config, ENGINE_ROLES);
      MatchesIsCounts(config, r.w.saved);
    }
  }

  /** After a failed start and its cleanup, the only live jobs besides those of others and those
      whose id sbatch garbled are the recorded ones whose own cancel failed. */
  lemma FailedStartCleansUp(w: World, o: Oracle, config: DeployConfig, services: seq<Service>, ids: seq<JobId>)
    requires FreshIds(o, w.tick, w.live) && DistinctServices(services)
    requires SubmitAll(w, o, config, services).Broken?
    requires Lists(ids, SubmitAll(w, o, config, services).w.saved)
    ensures var w1 := SubmitAll(w, o, config, services).w;
            var w2 := CancelAll(w1, o, ids);
            w2.live == w.live + w1.leaked + Surviving(w1, o, ids)
  {
    var w1 := SubmitAll(w, o, config, services).w;
    SubmitAllInOrder(w, o, config, services);
    CancelAllRemoves(w1, o, ids);
    var w2 := CancelAll(w1, o, ids);
    forall id ensures id in w2.live <==> id in w.live + w1.leaked + Surviving(w1, o, ids) {
      assert id in ids <==> id in w1.saved.Values;
    }
  }
}
