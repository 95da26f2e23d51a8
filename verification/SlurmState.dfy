/** The saved deployment, the prepared configuration and the live cluster, and the single
    sbatch / scancel calls that change them. Subprocess results come from an arbitrary oracle. */
module SlurmState {
  import opened Options

  type JobId = int

  datatype Role = Encode | Prefill | Decode | Union

  const ENGINE_ROLES: seq<Role> := [Encode, Prefill, Decode, Union]

  datatype Service = Coordinator | Controller | KvStore | KvConductor | MfStore

  /** The deploy section of a user configuration. A missing entry takes the default; everything
      that scaling must not touch besides the pod layout is folded into one value. */
  datatype DeployConfig = DeployConfig(
    instances: map<Role, int>, pods: map<Role, int>, npus: map<Role, int>, other: int)

  function GetOr(m: map<Role, int>, role: Role, default: int): int {
    if role in m then m[role] else default
  }

  function Instances(c: DeployConfig, role: Role): int { GetOr(c.instances, role, 1) }

  /** A role runs only with a positive pod and NPU count. */
  predicate Enabled(c: DeployConfig, role: Role) {
    GetOr(c.pods, role, 1) > 0 && GetOr(c.npus, role, 0) > 0
  }

  /** An entry of the deployment state file. */
  datatype Slot = Svc(service: Service) | Eng(role: Role, index: int)

  type Saved = map<Slot, JobId>

  /** Everything a command can see or change. `leaked` are jobs whose sbatch succeeded but whose
      printed id could not be parsed; `tick` counts the subprocess calls made so far. */
  datatype World = World(prepared: DeployConfig, saved: Saved, live: set<JobId>, leaked: set<JobId>, tick: nat)

  datatype Submission = Refused | Garbled(id: JobId) | Accepted(id: JobId)

  /** What the n-th subprocess call answers. */
  datatype Oracle = Oracle(submit: nat -> Submission, cancel: (nat, JobId) -> bool)

  /** The role's saved indexes are exactly 0 .. n-1. */
  ghost predicate Counts(saved: Saved, role: Role, n: int) {
    forall i :: Eng(role, i) in saved <==> 0 <= i < n
  }

  function Expected(c: DeployConfig, role: Role): int {
    if Enabled(c, role) then Instances(c, role) else 0
  }

  // ---- The length of one role's dictionary ----

  function Indexes(saved: Saved, role: Role): set<int> {
    set s | s in saved && s.Eng? && s.role == role :: s.index
  }

  function JobCount(saved: Saved, role: Role): nat {
    |Indexes(saved, role)|
  }

  function Range(n: int): (r: set<int>)
    ensures forall i :: i in r <==> 0 <= i < n
    ensures |r| == if n < 0 then 0 else n
  {
    if n <= 0 then {} else Range(n - 1) + {n - 1}
  }

  lemma IndexOf(saved: Saved, role: Role, i: int)
    ensures i in Indexes(saved, role) <==> Eng(role, i) in saved
  {
    if Eng(role, i) in saved { assert Eng(role, i).index in Indexes(saved, role); }
  }

  /** _check_engine_state: the saved indexes of every role match the configuration. */
  predicate EngineStateMatches(c: DeployConfig, saved: Saved) {
    forall role :: Indexes(saved, role) == Range(Expected(c, role))
  }

  lemma MatchesIsCounts(c: DeployConfig, saved: Saved)
    ensures EngineStateMatches(c, saved) <==> forall role :: Counts(saved, role, Expected(c, role))
  {
    forall role ensures Indexes(saved, role) == Range(Expected(c, role)) <==> Counts(saved, role, Expected(c, role)) {
      forall i ensures i in Indexes(saved, role) <==> Eng(role, i) in saved { IndexOf(saved, role, i); }
      if Counts(saved, role, Expected(c, role)) {
        assert forall i :: i in Indexes(saved, role) <==> i in Range(Expected(c, role));
      }
      if Indexes(saved, role) == Range(Expected(c, role)) {
        assert forall i :: Eng(role, i) in saved <==> i in Range(Expected(c, role));
      }
    }
  }

  lemma CountIsLength(saved: Saved, role: Role, n: int)
    requires Counts(saved, role, n)
    ensures JobCount(saved, role) == if n < 0 then 0 else n
  {
    forall i ensures i in Indexes(saved, role) <==> Eng(role, i) in saved { IndexOf(saved, role, i); }
    assert Indexes(saved, role) == Range(n);
  }

  // ---- Single calls ----

  function Submit(w: World, o: Oracle): (World, Option<JobId>) {
    match o.submit(w.tick)
    case Refused => (w.(tick := w.tick + 1), None)
    case Garbled(id) => (w.(tick := w.tick + 1, live := w.live + {id}, leaked := w.leaked + {id}), None)
    case Accepted(id) => (w.(tick := w.tick + 1, live := w.live + {id}), Some(id))
  }

  function Cancel(w: World, o: Oracle, id: JobId): (World, bool) {
    var ok := o.cancel(w.tick, id);
    (w.(tick := w.tick + 1, live := if ok then w.live - {id} else w.live), ok)
  }

  function Record(w: World, slot: Slot, id: JobId): World {
    w.(saved := w.saved[slot := id])
  }

  function Forget(w: World, slot: Slot): World {
    w.(saved := w.saved - {slot})
  }

  // ---- Accounting ----

  /** No job id is recorded twice. */
  ghost predicate RecordedOnce(s: Saved) {
    forall a, b :: a in s && b in s && a != b ==> s[a] != s[b]
  }

  /** The live jobs are the recorded ones, the leaked ones and those of other deployments. */
  ghost predicate Accounted(w: World, foreign: set<JobId>) {
    && RecordedOnce(w.saved)
    && w.saved.Values !! w.leaked && w.saved.Values !! foreign
    && w.live == w.saved.Values + w.leaked + foreign
  }

  function SubmittedId(s: Submission): Option<JobId> {
    match s
    case Refused => None
    case Garbled(id) => Some(id)
    case Accepted(id) => Some(id)
  }

  /** From call t on, Slurm hands out ids that nobody in `used` has, and never the same id twice. */
  ghost predicate FreshIds(o: Oracle, t: nat, used: set<JobId>) {
    && (forall n: nat :: n >= t && SubmittedId(o.submit(n)).Some? ==> SubmittedId(o.submit(n)).value !in used)
    && (forall n: nat, m: nat :: t <= n < m && SubmittedId(o.submit(n)).Some? && SubmittedId(o.submit(m)).Some? ==>
          SubmittedId(o.submit(n)).value != SubmittedId(o.submit(m)).value)
  }

  /** Books and fresh ids together: what every call keeps. */
  ghost predicate InOrder(w: World, o: Oracle, foreign: set<JobId>) {
    Accounted(w, foreign) && FreshIds(o, w.tick, w.live)
  }

  lemma ValuesAfterAdd(m: Saved, slot: Slot, id: JobId)
    requires slot !in m
    ensures m[slot := id].Values == m.Values + {id}
  {
    var m' := m[slot := id];
    assert m'[slot] == id;
    forall s | s in m ensures m[s] in m'.Values { assert m'[s] == m[s]; }
  }

  lemma ValuesAfterRemove(m: Saved, slot: Slot)
    requires RecordedOnce(m) && slot in m
    ensures (m - {slot}).Values == m.Values - {m[slot]}
  {
    var m' := m - {slot};
    forall s | s in m && s != slot ensures m[s] in m'.Values { assert m'[s] == m[s]; }
  }

  lemma SubmitKeepsFresh(w: World, o: Oracle)
    requires FreshIds(o, w.tick, w.live)
    ensures FreshIds(o, w.tick + 1, Submit(w, o).0.live)
    ensures SubmittedId(o.submit(w.tick)).Some? ==> SubmittedId(o.submit(w.tick)).value !in w.live
  {
    var (w1, id) := Submit(w, o);
    var s := SubmittedId(o.submit(w.tick));
    forall n: nat | n >= w.tick + 1 && SubmittedId(o.submit(n)).Some?
      ensures SubmittedId(o.submit(n)).value !in w1.live
    {
      assert w1.live == if s.Some? then w.live + {s.value} else w.live;
    }
  }

  /** A submission keeps the books when its id is written down under a free slot. */
  lemma SubmitInOrder(w: World, o: Oracle, slot: Slot, foreign: set<JobId>)
    requires InOrder(w, o, foreign) && slot !in w.saved
    ensures var (w1, id) := Submit(w, o);
            InOrder(if id.Some? then Record(w1, slot, id.value) else w1, o, foreign)
  {
    var (w1, id) := Submit(w, o);
    SubmitKeepsFresh(w, o);
    if id.Some? { ValuesAfterAdd(w.saved, slot, id.value); }
  }

  /** A cancelled job that is forgotten keeps the books, and so does a failed cancel. */
  lemma CancelInOrder(w: World, o: Oracle, slot: Slot, foreign: set<JobId>)
    requires InOrder(w, o, foreign) && slot in w.saved
    ensures var (w1, ok) := Cancel(w, o, w.saved[slot]);
            InOrder(if ok then Forget(w1, slot) else w1, o, foreign)
  {
    var id := w.saved[slot];
    ValuesAfterRemove(w.saved, slot);
    assert id in w.saved.Values;
  }
}
