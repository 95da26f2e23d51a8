/** The deployer as it runs: files and cluster are updated in place, one subprocess call at a time. */
module SlurmDeployer {
  import opened Options
  import opened SlurmState
  import opened SlurmScaling
  import opened SlurmRuns
  import opened SlurmVerdicts
  import opened SlurmStart

  lemma SlotsList(saved: Saved, slots: seq<Slot>, ids: seq<JobId>)
    requires RecordedOnce(saved) && |slots| == |ids|
    requires forall s :: s in slots <==> s in saved
    requires forall i :: 0 <= i < |ids| ==> ids[i] == saved[slots[i]]
    requires forall i, j :: 0 <= i < j < |slots| ==> slots[i] != slots[j]
    ensures Lists(ids, saved)
  {
    forall i, j | 0 <= i < j < |ids| ensures ids[i] != ids[j] {
      assert slots[i] in saved && slots[j] in saved;
    }
    forall id: JobId ensures id in ids <==> id in saved.Values {
      if id in saved.Values {
        var s :| s in saved && saved[s] == id;
        var i :| 0 <= i < |slots| && slots[i] == s;
        assert ids[i] == id;
      }
    }
  }

  class Deployer {
    const oracle: Oracle
    var prepared: DeployConfig
    var saved: Saved
    var live: set<JobId>
    var leaked: set<JobId>
    var tick: nat

    ghost function View(): World
      reads this
    {
      World(prepared, saved, live, leaked, tick)
    }

    constructor (oracle: Oracle, config: DeployConfig, live: set<JobId>)
      ensures View() == World(config, map[], live, {}, 0) && this.oracle == oracle
    {
      this.oracle := oracle;
      prepared := config;
      saved := map[];
      this.live := live;
      leaked := {};
      tick := 0;
    }

    method SubmitJob() returns (id: Option<JobId>)
      modifies this`live, this`leaked, this`tick
      ensures (View(), id) == Submit(old(View()), oracle)
    {
      var answer := oracle.submit(tick);
      tick := tick + 1;
      match answer {
        case Refused => id := None;
        case Garbled(job) =>
          live := live + {job};
          leaked := leaked + {job};
          id := None;
        case Accepted(job) =>
          live := live + {job};
          id := Some(job);
      }
    }

    method CancelJob(id: JobId) returns (ok: bool)
      modifies this`live, this`tick
      ensures (View(), ok) == Cancel(old(View()), oracle, id)
    {
      ok := oracle.cancel(tick, id);
      tick := tick + 1;
      if ok { live := live - {id}; }
    }

    /** Both loops for one role; false when an exception leaves them. */
    method ChangeRole(c: Change) returns (done: bool)
      modifies this`saved, this`live, this`leaked, this`tick
      ensures ScaleRole(old(View()), oracle, c) == if done then Done(View()) else Broken(View())
    {
      ghost var start := View();
      var index := c.current - 1;
      while index >= c.target
        invariant ScaleDown(start, oracle, c.role, c.current - 1, c.target) ==
                  ScaleDown(View(), oracle, c.role, index, c.target)
        decreases index - c.target
      {
        if Eng(c.role, index) !in saved { return false; }
        var ok := CancelJob(saved[Eng(c.role, index)]);
        if !ok { return false; }
        saved := saved - {Eng(c.role, index)};
        index := index - 1;
      }
      ghost var middle := View();
      index := c.current;
      while index < c.target
        invariant ScaleUp(middle, oracle, c.role, c.current, c.target) ==
                  ScaleUp(View(), oracle, c.role, index, c.target)
        decreases c.target - index
      {
        var id := SubmitJob();
        if id.None? { return false; }
        saved := saved[Eng(c.role, index) := id.value];
        index := index + 1;
      }
      return true;
    }

    /** The scaling command. */
    method UpdateInstances(user: DeployConfig) returns (verdict: Verdict)
      modifies this
      ensures (View(), verdict) == UpdateInstanceNum(old(View()), oracle, user)
      ensures old(Aligned(View())) ==> Aligned(View())
      ensures prepared.(instances := old(prepared).instances) == old(prepared)
      ensures verdict == Invalid <==> old(Refuses(View(), user))
      ensures old(EngineStateMatches(prepared, saved)) ==>
                forall foreign :: old(InOrder(View(), oracle, foreign)) ==> InOrder(View(), oracle, foreign)
    {
      ghost var before := View();
      PreparedAfter(before, oracle, user);
      InvalidIff(before, oracle, user);
      if Aligned(before) { UpdateKeepsAligned(before, oracle, user); }
      if EngineStateMatches(prepared, saved) {
        forall foreign | InOrder(before, oracle, foreign)
          ensures InOrder(UpdateInstanceNum(before, oracle, user).0, oracle, foreign)
        {
          UpdateInOrder(before, oracle, user, foreign);
        }
      }
      if !SameExceptCounts(user, prepared) || !Readable(saved) || !EngineStateMatches(prepared, saved) {
        return Invalid;
      }
      var baseline := prepared;
      var planned := Changes(baseline, user, ENGINE_ROLES);
      if planned.None? { return Invalid; }
      var changes := planned.value;
      if changes == [] { return Unchanged; }

      prepared := user;
      ghost var start := View();
      for n := 0 to |changes|
        invariant ScaleRoles(start, oracle, changes) == ScaleRoles(View(), oracle, changes[n..])
      {
        assert changes[n..][0] == changes[n] && changes[n..][1..] == changes[n + 1..];
        var done := ChangeRole(changes[n]);
        if !done {
          prepared := Repaired(baseline, changes, saved);
          return ScaleFailed;
        }
      }
      return Scaled;
    }

    /** Cancels the listed jobs and reports whether any cancel failed. */
    method StopJobs(ids: seq<JobId>) returns (failed: bool)
      modifies this`live, this`tick
      ensures View() == CancelAll(old(View()), oracle, ids)
      ensures failed <==> old(Surviving(View(), oracle, ids)) != {}
    {
      failed := false;
      ghost var start := View();
      for n := 0 to |ids|
        invariant CancelAll(start, oracle, ids) == CancelAll(View(), oracle, ids[n..])
        invariant Surviving(start, oracle, ids) != {} <==> failed || Surviving(View(), oracle, ids[n..]) != {}
        invariant saved == old(saved) && prepared == old(prepared) && leaked == old(leaked)
      {
        assert ids[n..][0] == ids[n] && ids[n..][1..] == ids[n + 1..];
        var ok := CancelJob(ids[n]);
        if !ok { failed := true; }
      }
    }

    /** The saved job ids, each once. */
    method JobList() returns (ids: seq<JobId>)
      requires RecordedOnce(saved)
      ensures Lists(ids, saved)
    {
      ids := [];
      var todo := saved.Keys;
      ghost var slots: seq<Slot> := [];
      while todo != {}
        invariant todo <= saved.Keys && |slots| == |ids|
        invariant forall s :: s in slots <==> s in saved && s !in todo
        invariant forall i :: 0 <= i < |ids| ==> ids[i] == saved[slots[i]]
        invariant forall i, j :: 0 <= i < j < |slots| ==> slots[i] != slots[j]
        decreases todo
      {
        var s :| s in todo;
        ids := ids + [saved[s]];
        slots := slots + [s];
        todo := todo - {s};
      }
      SlotsList(saved, slots, ids);
    }

    /** The start command: submit everything, or cancel what was recorded and fail. */
    method Start(config: DeployConfig, services: seq<Service>) returns (ok: bool)
      requires FreshIds(oracle, tick, live) && DistinctServices(services)
      modifies this
      ensures ok <==> SubmitAll(old(View()), oracle, config, services).Done?
      ensures ok ==> View() == SubmitAll(old(View()), oracle, config, services).w
      ensures ok ==> live == saved.Values + old(live) && EngineStateMatches(config, saved)
      ensures !ok ==>
                exists ids :: Lists(ids, saved) &&
                              View() == old(CancelAll(SubmitAll(View(), oracle, config, services).w, oracle, ids)) &&
                              live == old(live) + leaked +
                                      old(Surviving(SubmitAll(View(), oracle, config, services).w, oracle, ids))
    {
      ghost var before := View();
      SubmitAllInOrder(before, oracle, config, services);
      var done := SubmitEverything(config, services);
      if done { return true; }
      ghost var broken := View();
      var ids := JobList();
      FailedStartCleansUp(before, oracle, config, services, ids);
      CancelAllRemoves(broken, oracle, ids);
      var _ := StopJobs(ids);
      return false;
    }

    method SubmitEverything(config: DeployConfig, services: seq<Service>) returns (done: bool)
      modifies this
      ensures SubmitAll(old(View()), oracle, config, services) == if done then Done(View()) else Broken(View())
    {
      prepared, saved, leaked := config, map[], {};
      ghost var start := View();
      for n := 0 to |services|
        invariant SubmitServices(start, oracle, services) == SubmitServices(View(), oracle, services[n..])
      {
        assert services[n..][0] == services[n] && services[n..][1..] == services[n + 1..];
        var id := SubmitJob();
        if id.None? { return false; }
        saved := saved[Svc(services[n]) := id.value];
      }
      ghost var engines := View();
      for n := 0 to |ENGINE_ROLES|
        invariant SubmitEngines(engines, oracle, config, ENGINE_ROLES) ==
                  SubmitEngines(View(), oracle, config, ENGINE_ROLES[n..])
      {
        var role := ENGINE_ROLES[n];
        assert ENGINE_ROLES[n..][0] == role && ENGINE_ROLES[n..][1..] == ENGINE_ROLES[n + 1..];
        if Enabled(config, role) {
          done := SubmitRole(role, Instances(config, role));
          if !done { return false; }
        }
      }
      return true;
    }

    method SubmitRole(role: Role, instances: int) returns (done: bool)
      modifies this`saved, this`live, this`leaked, this`tick
      ensures ScaleUp(old(View()), oracle, role, 0, instances) == if done then Done(View()) else Broken(View())
    {
      ghost var start := View();
      var index := 0;
      while index < instances
        invariant ScaleUp(start, oracle, role, 0, instances) == ScaleUp(View(), oracle, role, index, instances)
        decreases instances - index
      {
        var id := SubmitJob();
        if id.None? { return false; }
        saved := saved[Eng(role, index) := id.value];
        index := index + 1;
      }
      return true;
    }
  }
}
