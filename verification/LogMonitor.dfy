/** Backoff between failed pulls. */
module LogBackoff {
  import opened Options

  const BACKOFF_WINDOW_SECONDS: real := 60.0
  const BACKOFF_BASE_SECONDS: real := 2.0
  const BACKOFF_MAX_SECONDS: real := 120.0

  datatype Backoff = Backoff(count: nat, first: real)

  function Pow2(n: nat): (r: real)
    ensures r >= 1.0
  {
    if n == 0 then 1.0 else 2.0 * Pow2(n - 1)
  }

  function NextBackoff(prev: Option<Backoff>, now: real): Backoff {
    match prev
    case None => Backoff(0, now)
    case Some(b) => if now - b.first > BACKOFF_WINDOW_SECONDS then Backoff(0, now) else Backoff(b.count + 1, b.first)
  }

  function Delay(b: Backoff): real {
    var d := BACKOFF_BASE_SECONDS * Pow2(b.count);
    if d < BACKOFF_MAX_SECONDS then d else BACKOFF_MAX_SECONDS
  }

  /** The first failure, and any more than a minute after the first one counted, waits 2 seconds; every other
      one waits twice as long as the one before, up to 2 minutes. */
  lemma BackoffDelays(prev: Option<Backoff>, now: real)
    ensures
      var b := NextBackoff(prev, now);
      if prev.None? || now - prev.value.first > 60.0 then Delay(b) == 2.0 && b == Backoff(0, now)
      else
        && b == Backoff(prev.value.count + 1, prev.value.first)
        && Delay(b) == if 2.0 * Delay(prev.value) < 120.0 then 2.0 * Delay(prev.value) else 120.0
  {
    assert Pow2(0) == 1.0;
    if prev.Some? { assert Pow2(prev.value.count + 1) == 2.0 * Pow2(prev.value.count); }
  }

  /** The states after each of a series of failures. */
  function Failures(prev: Option<Backoff>, times: seq<real>): (r: seq<Backoff>)
    ensures |r| == |times|
    decreases |times|
  {
    if times == [] then []
    else var b := NextBackoff(prev, times[0]); [b] + Failures(Some(b), times[1..])
  }

  /** Every failure comes no sooner than the previous delay has been slept. */
  predicate Slept(prev: Option<Backoff>, last: real, times: seq<real>)
    decreases |times|
  {
    times != [] ==>
      && (prev.Some? ==> times[0] >= last + Delay(prev.value))
      && Slept(Some(NextBackoff(prev, times[0])), times[0], times[1..])
  }

  /** Having counted n restarts takes at least 2 + 4 + .. + 2^n seconds of sleep. */
  ghost predicate Elapsed(b: Backoff, last: real) {
    b.count <= 4 && last - b.first >= 2.0 * (Pow2(b.count) - 1.0)
  }

  lemma PowersOfTwo()
    ensures Pow2(0) == 1.0 && Pow2(1) == 2.0 && Pow2(2) == 4.0 && Pow2(3) == 8.0 && Pow2(4) == 16.0 && Pow2(5) == 32.0
  {
    assert Pow2(2) == 2.0 * Pow2(1);
    assert Pow2(3) == 2.0 * Pow2(2);
    assert Pow2(4) == 2.0 * Pow2(3);
  }

  lemma BackoffStep(b: Backoff, last: real, now: real)
    requires Elapsed(b, last) && now >= last + Delay(b)
    ensures Elapsed(NextBackoff(Some(b), now), now)
  {
    PowersOfTwo();
    assert b.count in {0, 1, 2, 3, 4};
  }

  /** When every delay is slept, the restart count never exceeds 4 and the delay never exceeds 32
      seconds, so the 120-second cap is never reached. */
  lemma {:induction false} BackoffBounded(prev: Option<Backoff>, last: real, times: seq<real>)
    requires prev.Some? ==> Elapsed(prev.value, last)
    requires Slept(prev, last, times)
    ensures forall b :: b in Failures(prev, times) ==>
                          b.count <= 4 && Delay(b) <= 32.0 && Delay(b) == BACKOFF_BASE_SECONDS * Pow2(b.count)
    decreases |times|
  {
    if times != [] {
      var b := NextBackoff(prev, times[0]);
      PowersOfTwo();
      if prev.Some? { BackoffStep(prev.value, last, times[0]); }
      assert b.count in {0, 1, 2, 3, 4};
      BackoffBounded(Some(b), times[0], times[1..]);
    }
  }

  /** The bound is reached: failures as soon as each delay has been slept count up to 4. */
  lemma BackoffReachesFour()
    ensures var times := [0.0, 2.0, 6.0, 14.0, 30.0];
            Slept(None, 0.0, times) && Failures(None, times)[4] == Backoff(4, 0.0)
  {
    PowersOfTwo();
    var t1, t2, t3, t4 := [2.0, 6.0, 14.0, 30.0], [6.0, 14.0, 30.0], [14.0, 30.0], [30.0];
    var b0, b1, b2, b3, b4 := Backoff(0, 0.0), Backoff(1, 0.0), Backoff(2, 0.0), Backoff(3, 0.0), Backoff(4, 0.0);
    assert [0.0, 2.0, 6.0, 14.0, 30.0][1..] == t1 && t1[1..] == t2 && t2[1..] == t3 && t3[1..] == t4 && t4[1..] == [];
    assert Slept(Some(b4), 30.0, []) && Slept(Some(b3), 14.0, t4) && Slept(Some(b2), 6.0, t3) &&
           Slept(Some(b1), 2.0, t2);
    assert Slept(Some(b0), 0.0, t1);
    assert Failures(Some(b3), t4) == [b4];
    assert Failures(Some(b2), t3) == [b3, b4];
    assert Failures(Some(b1), t2) == [b2, b3, b4];
    assert Failures(Some(b0), t1) == [b1, b2, b3, b4];
  }
}

/** The monitor object that a pod's collector threads share. */
module LogMonitor {
  import opened Options
  import opened LogCollector
  import opened LogBackoff

  lemma RunLifeUnfolds(p: Pod, life: Life, events: seq<Event>, pulls: seq<Record>)
    requires events != []
    ensures var s := Advance(p, life, events[0]);
            var (q, rs) := RunLife(p, life, events);
            var (q', rs') := RunLife(s.pod, s.life, events[1..]);
            var pulls' := if s.record.Some? then pulls + [s.record.value] else pulls;
            && (s.alive ==> q == q' && pulls + rs == pulls' + rs')
            && (!s.alive ==> q == s.pod && pulls + rs == pulls')
  {
    var s := Advance(p, life, events[0]);
    var rs' := RunLife(s.pod, s.life, events[1..]).1;
    if s.record.Some? {
      assert pulls + ([s.record.value] + rs') == pulls + [s.record.value] + rs';
    } else {
      assert [] + rs' == rs';
    }
  }

  class Monitor {
    var pod: Pod
    var backoff: Option<Backoff>
    ghost var records: seq<Record>

    /** The monitor's books are in order and no pull so far has re-dumped a history. */
    ghost predicate Valid()
      reads this
    {
      && OneLifePerFile(pod.disk, pod.generation)
      && (forall r :: r in records ==>
            NoRedump(r) && r.life < pod.generation && (r.wrote ==> r.path.index < pod.nextSlot))
    }

    /** A monitor over the log directory it finds, with the files that earlier processes left there. */
    constructor (disk: Disk)
      requires forall p :: p in disk ==> forall i :: 0 <= i < |disk[p]| ==> disk[p][i] == disk[p][0] && disk[p][i] < 0
      ensures Valid() && pod == Pod(0, 0, disk) && backoff == None && records == []
    {
      pod := Pod(0, 0, disk);
      backoff := None;
      records := [];
    }

    method BackoffSleep(now: real) returns (delay: real)
      modifies this`backoff
      ensures backoff == Some(NextBackoff(old(backoff), now)) && delay == Delay(backoff.value)
    {
      var count, first := 0, now;
      if backoff.Some? && !(now - backoff.value.first > BACKOFF_WINDOW_SECONDS) {
        count, first := backoff.value.count + 1, backoff.value.first;
      }
      backoff := Some(Backoff(count, first));
      delay := BACKOFF_BASE_SECONDS * Pow2(count);
      if delay >= BACKOFF_MAX_SECONDS { delay := BACKOFF_MAX_SECONDS; }
    }

    method AllocateUniqueLogPath(node: string, start: nat) returns (path: LogPath)
      ensures path == LogPath(node, FreeIndex(pod.disk, node, start))
    {
      var candidate := start;
      while LogPath(node, candidate) in pod.disk
        invariant FreeIndex(pod.disk, node, start) == FreeIndex(pod.disk, node, candidate)
        decreases TakenFrom(pod.disk, node, candidate)
      {
        assert LogPath(node, candidate) in TakenFrom(pod.disk, node, candidate);
        assert LogPath(node, candidate) !in TakenFrom(pod.disk, node, candidate + 1);
        candidate := candidate + 1;
      }
      return LogPath(node, candidate);
    }

    /** One loop iteration: follow the pod to its node, pick a file, pull, and act on the outcome. */
    method Iterate(life: Life, e: Event) returns (next: Life, ghost record: Option<Record>, alive: bool)
      modifies this`pod
      ensures Advance(old(pod), life, e) == Step(pod, next, record, alive)
    {
      if e.NotRunning? { return life, None, true; }
      var index, node, file, since := life.index, life.node, life.file, life.since;
      pod := pod.(disk := pod.disk - e.deleted);
      if e.node != node {
        node := e.node;
        if file.Some? { index := Max(index, file.value.index + 1); }
        file, since := None, false;
      }
      if file.None? {
        var path := AllocateUniqueLogPath(node, index);
        file, index := Some(path), path.index;
      }
      var path := file.value;
      var existed, before := path in pod.disk, Lines(pod.disk, path);
      record := Some(Record(path, since, before, pod.generation, e.pull.Wrote?));
      alive := true;
      match e.pull {
        case Wrote(lines) =>
          pod := pod.(disk := pod.disk[path := before + Repeat(pod.generation, lines + 1)],
                      nextSlot := Max(pod.nextSlot, path.index + 1));
          since := true;
        case Quiet =>
          pod := pod.(disk := pod.disk[path := before]);
        case Failed(leftover) =>
          if !existed {
            if leftover { pod := pod.(disk := pod.disk[path := []]); }
            file, since := None, false;
          }
        case Crashed(lines) =>
          pod := pod.(disk := pod.disk[path := before + Repeat(pod.generation, lines)]);
          alive := false;
      }
      next := Life(index, node, file, since);
    }

    /** One collector thread, from its start to the end of its script or a crash. */
    method PullLogAndSave(node: string, events: seq<Event>) returns (ghost pulls: seq<Record>)
      requires Valid()
      modifies this`pod, this`records
      ensures Valid()
      ensures var (after, rs) := RunLife(old(pod), StartLife(old(pod), node), events);
              pod == after.(generation := after.generation + 1) && pulls == rs
      ensures records == old(records) + pulls
      ensures forall r, r' :: r in old(records) && r.wrote && r' in pulls ==> r.path.index < r'.path.index
    {
      var life := StartLife(pod, node);
      RunLifeOk(pod, life, events, life.index);
      ghost var whole := RunLife(pod, life, events);
      pulls := [];
      var n := 0;
      var alive := true;
      assert events[0..] == events && pulls + whole.1 == whole.1;
      while alive && n < |events|
        invariant 0 <= n <= |events| && records == old(records)
        invariant alive ==>
                    whole.0 == RunLife(pod, life, events[n..]).0 && whole.1 == pulls + RunLife(pod, life, events[n..]).1
        invariant !alive ==> whole == (pod, pulls)
        decreases |events| - n, alive
      {
        assert events[n..][0] == events[n] && events[n..][1..] == events[n + 1..];
        RunLifeUnfolds(pod, life, events[n..], pulls);
        ghost var record;
        life, record, alive := Iterate(life, events[n]);
        if record.Some? { pulls := pulls + [record.value]; }
        n := n + 1;
      }
      assert pulls + [] == pulls;
      records := records + pulls;
      pod := pod.(generation := pod.generation + 1);
    }
  }
}
