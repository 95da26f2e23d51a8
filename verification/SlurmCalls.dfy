/** Which calls a start makes, and what it records for each. */
module SlurmCalls {
  import opened Options
  import opened SlurmState
  import opened SlurmScaling
  import opened SlurmStart
  import opened SlurmVerdicts

  function SubmitSlots(w: World, o: Oracle, slots: seq<Slot>): Run
    decreases |slots|
  {
    if slots == [] then Done(w)
    else
      var (w1, id) := Submit(w, o);
      match id
      case None => Broken(w1)
      case Some(job) => SubmitSlots(Record(w1, slots[0], job), o, slots[1..])
  }

  function ServiceSlots(services: seq<Service>): (r: seq<Slot>)
    ensures |r| == |services| && forall i :: 0 <= i < |r| ==> r[i] == Svc(services[i])
  {
    seq(|services|, i requires 0 <= i < |services| => Svc(services[i]))
  }

  /** Instances from..n-1 of a role. */
  function RoleSlots(role: Role, from: nat, n: int): (r: seq<Slot>)
    ensures |r| == if n <= from then 0 else n - from
    ensures forall i :: 0 <= i < |r| ==> r[i] == Eng(role, from + i)
  {
    seq(if n <= from then 0 else n - from, i => Eng(role, from + i))
  }

  /** All instances of all roles that run, role by role. */
  function EngineSlots(config: DeployConfig, roles: seq<Role>): seq<Slot> {
    if roles == [] then []
    else (if Runs(config, roles[0]) then RoleSlots(roles[0], 0, Wanted(config, roles[0])) else [])
         + EngineSlots(config, roles[1..])
  }

  /** Everything that a start submits, in order. */
  function Plan(config: DeployConfig, services: seq<Service>): seq<Slot> {
    ServiceSlots(services) + EngineSlots(config, [Encode, Prefill, Decode, Union])
  }

  lemma {:induction false} SlotsAppend(w: World, o: Oracle, a: seq<Slot>, b: seq<Slot>)
    ensures SubmitSlots(w, o, a + b) ==
            match SubmitSlots(w, o, a) case Done(w1) => SubmitSlots(w1, o, b) case Broken(w1) => Broken(w1)
    decreases |a|
  {
    if a == [] {
      assert a + b == b;
    } else {
      assert (a + b)[0] == a[0] && (a + b)[1..] == a[1..] + b;
      var (w1, id) := Submit(w, o);
      if id.Some? { SlotsAppend(Record(w1, a[0], id.value), o, a[1..], b); }
    }
  }

  lemma {:induction false} ServicesAreSlots(w: World, o: Oracle, services: seq<Service>)
    ensures SubmitServices(w, o, services) == SubmitSlots(w, o, ServiceSlots(services))
    decreases |services|
  {
    if services != [] {
      assert ServiceSlots(services)[1..] == ServiceSlots(services[1..]);
      var (w1, id) := Submit(w, o);
      if id.Some? { ServicesAreSlots(Record(w1, Svc(services[0]), id.value), o, services[1..]); }
    }
  }

  lemma {:induction false} RoleIsSlots(w: World, o: Oracle, role: Role, from: nat, n: int)
    ensures ScaleUp(w, o, role, from, n) == SubmitSlots(w, o, RoleSlots(role, from, n))
    decreases n - from
  {
    if from < n {
      assert RoleSlots(role, from, n)[1..] == RoleSlots(role, from + 1, n);
      var (w1, id) := Submit(w, o);
      if id.Some? { RoleIsSlots(Record(w1, Eng(role, from), id.value), o, role, from + 1, n); }
    }
  }

  lemma {:induction false} EnginesAreSlots(w: World, o: Oracle, config: DeployConfig, roles: seq<Role>)
    ensures SubmitEngines(w, o, config, roles) == SubmitSlots(w, o, EngineSlots(config, roles))
    decreases |roles|
  {
    if roles != [] {
      RawSettings(config, roles[0]);
      if Runs(config, roles[0]) {
        var first := RoleSlots(roles[0], 0, Wanted(config, roles[0]));
        RoleIsSlots(w, o, roles[0], 0, Wanted(config, roles[0]));
        SlotsAppend(w, o, first, EngineSlots(config, roles[1..]));
        var up := ScaleUp(w, o, roles[0], 0, Instances(config, roles[0]));
        if up.Done? { EnginesAreSlots(up.w, o, config, roles[1..]); }
      } else {
        EnginesAreSlots(w, o, config, roles[1..]);
        assert [] + EngineSlots(config, roles[1..]) == EngineSlots(config, roles[1..]);
      }
    }
  }

  lemma StartIsPlan(w: World, o: Oracle, config: DeployConfig, services: seq<Service>)
    ensures SubmitAll(w, o, config, services) == SubmitSlots(Fresh(w, config), o, Plan(config, services))
  {
    ServicesAreSlots(Fresh(w, config), o, services);
    SlotsAppend(Fresh(w, config), o, ServiceSlots(services), EngineSlots(config, ENGINE_ROLES));
    var first := SubmitServices(Fresh(w, config), o, services);
    if first.Done? { EnginesAreSlots(first.w, o, config, ENGINE_ROLES); }
  }

  ghost predicate NoRepeats(slots: seq<Slot>) {
    forall i, j :: 0 <= i < j < |slots| ==> slots[i] != slots[j]
  }

  /** The first k slots got the ids of the first k calls; the next call, if any, failed. */
  ghost predicate Recorded(w: World, o: Oracle, slots: seq<Slot>, r: Run, k: nat) {
    && k <= |slots| && (r.Done? <==> k == |slots|)
    && r.w.tick == w.tick + k + (if r.Broken? then 1 else 0)
    && (k < |slots| ==> !o.submit(w.tick + k).Accepted?)
    && (forall s :: s in r.w.saved <==> s in w.saved || s in slots[..k])
    && (forall s :: s in w.saved ==> s in r.w.saved && r.w.saved[s] == w.saved[s])
    && forall j: nat :: j < k ==> GotId(o, w.tick, slots, r.w.saved, j)
  }

  /** The j-th call from t on returned the id that is recorded for the j-th slot. */
  ghost predicate GotId(o: Oracle, t: nat, slots: seq<Slot>, saved: Saved, j: nat) {
    j < |slots| && slots[j] in saved && o.submit(t + j) == Accepted(saved[slots[j]])
  }

  lemma {:induction false} SlotsRecord(w: World, o: Oracle, slots: seq<Slot>) returns (k: nat)
    requires NoRepeats(slots) && forall s :: s in slots ==> s !in w.saved
    ensures Recorded(w, o, slots, SubmitSlots(w, o, slots), k)
    decreases |slots|
  {
    if slots == [] {
      k := 0;
    } else {
      var (w1, id) := Submit(w, o);
      if id.None? {
        k := 0;
      } else {
        var next := Record(w1, slots[0], id.value);
        assert forall s :: s in slots[1..] ==> s in slots && s != slots[0];
        var m := SlotsRecord(next, o, slots[1..]);
        k := m + 1;
        RecordedMore(w, o, slots, SubmitSlots(w, o, slots), next, m);
      }
    }
  }

  lemma RecordedMore(w: World, o: Oracle, slots: seq<Slot>, r: Run, next: World, m: nat)
    requires slots != [] && o.submit(w.tick).Accepted? && NoRepeats(slots) && forall s :: s in slots ==> s !in w.saved
    requires next == Record(Submit(w, o).0, slots[0], o.submit(w.tick).id)
    requires Recorded(next, o, slots[1..], r, m)
    ensures Recorded(w, o, slots, r, m + 1)
  {
    assert slots[..m + 1] == [slots[0]] + slots[1..][..m];
    assert slots[0] in next.saved;
    forall j: nat | j < m + 1 ensures GotId(o, w.tick, slots, r.w.saved, j) {
      if j > 0 {
        assert GotId(o, next.tick, slots[1..], r.w.saved, j - 1);
        assert slots[1..][j - 1] == slots[j] && next.tick + (j - 1) == w.tick + j;
      }
    }
    assert next.tick + m == w.tick + (m + 1);
  }

  lemma {:induction false} EngineSlotsDistinct(config: DeployConfig, roles: seq<Role>)
    requires DistinctSeq(roles)
    ensures NoRepeats(EngineSlots(config, roles))
    ensures forall s :: s in EngineSlots(config, roles) ==> s.Eng? && s.role in roles
    decreases |roles|
  {
    if roles != [] {
      EngineSlotsDistinct(config, roles[1..]);
      var first := if Runs(config, roles[0]) then RoleSlots(roles[0], 0, Wanted(config, roles[0])) else [];
      var rest := EngineSlots(config, roles[1..]);
      forall s | s in first ensures s.Eng? && s.role == roles[0] {
        var i :| 0 <= i < |first| && first[i] == s;
      }
      forall i, j | 0 <= i < j < |first + rest| ensures (first + rest)[i] != (first + rest)[j] {
        if i < |first| <= j { assert (first + rest)[i] in first && (first + rest)[j] in rest; }
      }
    }
  }

  lemma PlanDistinct(config: DeployConfig, services: seq<Service>)
    requires DistinctServices(services)
    ensures NoRepeats(Plan(config, services))
  {
    EveryRole();
    EngineSlotsDistinct(config, ENGINE_ROLES);
    var a, b := ServiceSlots(services), EngineSlots(config, ENGINE_ROLES);
    forall i, j | 0 <= i < j < |a + b| ensures (a + b)[i] != (a + b)[j] {
      if i < |a| <= j { assert (a + b)[i] in a && (a + b)[j] in b; }
    }
  }

  /** A start goes through its plan, services first and then the instances of each role that runs: each
      call's id is recorded under the slot of its turn, up to the first call that fails. */
  lemma StartRecords(w: World, o: Oracle, config: DeployConfig, services: seq<Service>) returns (k: nat)
    requires DistinctServices(services)
    ensures Recorded(Fresh(w, config), o, Plan(config, services), SubmitAll(w, o, config, services), k)
  {
    StartIsPlan(w, o, config, services);
    PlanDistinct(config, services);
    k := SlotsRecord(Fresh(w, config), o, Plan(config, services));
  }
}
