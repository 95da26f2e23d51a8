/** What the log collector does when a stream ends and is opened again. */
module LogReconnects {
  import opened Options
  import opened LogCollector

  // ---- One pull ----

  /** The life stays where it is: same node, and a file is open. */
  predicate Stays(life: Life, node: string) {
    node == life.node && life.file.Some?
  }

  /** The index from which a new file is searched: behind the old file after a move. */
  function SearchFrom(life: Life, node: string): nat {
    if node != life.node && life.file.Some? && life.file.value.index >= life.index then life.file.value.index + 1
    else life.index
  }

  /** A pull goes on in the open file with its cursor. Without one, or on another node, it takes the first
      file of that node from the search index on that does not exist, and no cursor. */
  lemma PullTarget(pod: Pod, life: Life, node: string, deleted: set<LogPath>, pull: Pull)
    requires life.file.None? ==> !life.since
    ensures
      var s, disk := Advance(pod, life, Session(node, deleted, pull)), pod.disk - deleted;
      && s.record.Some?
      && (Stays(life, node) ==> s.record.value.path == life.file.value && s.record.value.since == life.since)
      && (!Stays(life, node) ==>
            && !s.record.value.since && s.record.value.path.node == node && s.record.value.path !in disk
            && s.record.value.path.index >= SearchFrom(life, node)
            && forall i :: SearchFrom(life, node) <= i < s.record.value.path.index ==> LogPath(node, i) in disk)
  {
  }

  /** Only the target changes, by the lines that were written, all of this life. A written file reserves the
      next index. The file and the cursor are kept, a cursor is set once lines were written, and both are
      dropped only after a failed pull into a file that did not exist. */
  lemma PullEffect(pod: Pod, life: Life, node: string, deleted: set<LogPath>, pull: Pull)
    ensures
      var s, disk := Advance(pod, life, Session(node, deleted, pull)), pod.disk - deleted;
      && s.record.Some? && s.pod.generation == pod.generation
      && var path := s.record.value.path;
      && s.record.value.before == Lines(disk, path)
      && (forall p :: p != path ==> (p in s.pod.disk <==> p in disk) && Lines(s.pod.disk, p) == Lines(disk, p))
      && (pull.Wrote? ==>
            && Lines(s.pod.disk, path) == Lines(disk, path) + Repeat(pod.generation, pull.lines + 1)
            && s.pod.nextSlot >= path.index + 1 && (pod.nextSlot > path.index ==> s.pod.nextSlot == pod.nextSlot)
            && s.alive && s.life.file == Some(path) && s.life.since && s.life.node == node)
      && (pull.Quiet? ==>
            && path in s.pod.disk && Lines(s.pod.disk, path) == Lines(disk, path) && s.pod.nextSlot == pod.nextSlot
            && s.alive && s.life.file == Some(path) && s.life.since == s.record.value.since && s.life.node == node)
      && (pull.Failed? ==>
            && Lines(s.pod.disk, path) == Lines(disk, path) && s.pod.nextSlot == pod.nextSlot && s.alive
            && s.life.node == node
            && s.life.file == (if path in disk then Some(path) else None)
            && s.life.since == (path in disk && s.record.value.since))
      && (pull.Crashed? ==>
            && Lines(s.pod.disk, path) == Lines(disk, path) + Repeat(pod.generation, pull.lines)
            && s.pod.nextSlot == pod.nextSlot && !s.alive)
  {
  }

  /** A pod that does not run is waited for. */
  lemma WaitingChangesNothing(pod: Pod, life: Life)
    ensures Advance(pod, life, NotRunning) == Step(pod, life, None, true)
  {
  }

  // ---- Reconnects on one node ----

  /** Streams on one node that end, having written lines or not. */
  predicate Reconnecting(events: seq<Event>, node: string) {
    forall e :: e in events ==> e.Session? && e.node == node && (e.pull.Wrote? || e.pull.Quiet?)
  }

  ghost predicate WroteBefore(events: seq<Event>, i: int) {
    exists j :: 0 <= j < i && j < |events| && events[j].Session? && events[j].pull.Wrote?
  }

  /** However often the stream ends on one node, all pulls go into one file, and with a cursor from the first
      one on that wrote lines. */
  lemma {:induction false} ReconnectsAppend(pod: Pod, life: Life, events: seq<Event>, node: string)
    requires (life.file.None? ==> !life.since) && Reconnecting(events, node)
    ensures
      var rs := RunLife(pod, life, events).1;
      && |rs| == |events|
      && (forall i :: 0 <= i < |rs| ==> rs[i].path == rs[0].path)
      && (rs != [] && Stays(life, node) ==> rs[0].path == life.file.value)
      && forall i :: 0 <= i < |rs| ==>
           (rs[i].since <==> (Stays(life, node) && life.since) || WroteBefore(events, i))
    decreases |events|
  {
    if events != [] {
      var e, rest := events[0], events[1..];
      assert e in events && forall x :: x in rest ==> x in events;
      PullTarget(pod, life, node, e.deleted, e.pull);
      PullEffect(pod, life, node, e.deleted, e.pull);
      var s := Advance(pod, life, e);
      ReconnectsAppend(s.pod, s.life, rest, node);
      var rs, later := RunLife(pod, life, events).1, RunLife(s.pod, s.life, rest).1;
      assert rs == [s.record.value] + later;
      forall i | 0 <= i < |rs|
        ensures rs[i].path == rs[0].path
        ensures rs[i].since <==> (Stays(life, node) && life.since) || WroteBefore(events, i)
      {
        WroteShift(events, i);
        if i > 0 { assert rs[i] == later[i - 1]; }
      }
    }
  }

  lemma WroteShift(events: seq<Event>, i: int)
    requires events != [] && 0 <= i
    ensures WroteBefore(events, i) <==>
            i > 0 && ((events[0].Session? && events[0].pull.Wrote?) || WroteBefore(events[1..], i - 1))
  {
    if WroteBefore(events, i) {
      var j :| 0 <= j < i && j < |events| && events[j].Session? && events[j].pull.Wrote?;
      if j > 0 { assert events[1..][j - 1] == events[j]; }
    }
    if i > 0 && WroteBefore(events[1..], i - 1) {
      var j :| 0 <= j < i - 1 && j < |events[1..]| && events[1..][j].Session? && events[1..][j].pull.Wrote?;
      assert events[j + 1] == events[1..][j];
    }
  }

  // ---- Full dumps over a whole life ----

  /** Pulls of the whole history that found lines. */
  function FullDumps(rs: seq<Record>): nat {
    if rs == [] then 0 else (if rs[0].wrote && !rs[0].since then 1 else 0) + FullDumps(rs[1..])
  }

  /** Moves to another node. */
  function Moves(node: string, events: seq<Event>): nat
    decreases |events|
  {
    if events == [] then 0
    else if events[0].NotRunning? then Moves(node, events[1..])
    else (if events[0].node != node then 1 else 0) + Moves(events[0].node, events[1..])
  }

  /** Failed pulls whose file did not exist before. */
  function Losses(pod: Pod, life: Life, events: seq<Event>): nat
    decreases |events|
  {
    if events == [] then 0
    else
      var s := Advance(pod, life, events[0]);
      var lost := events[0].Session? && events[0].pull.Failed? && s.record.value.path !in pod.disk - events[0].deleted;
      (if lost then 1 else 0) + if s.alive then Losses(s.pod, s.life, events[1..]) else 0
  }

  /** Over a whole life the history is dumped at most once, and once more for each move and for each failed
      pull that left no file. */
  lemma {:induction false} DumpsBounded(pod: Pod, life: Life, events: seq<Event>)
    requires life.file.None? ==> !life.since
    ensures FullDumps(RunLife(pod, life, events).1) <=
            (if life.since then 0 else 1) + Moves(life.node, events) + Losses(pod, life, events)
    decreases |events|
  {
    if events != [] {
      var e := events[0];
      var s := Advance(pod, life, e);
      if e.Session? {
        PullTarget(pod, life, e.node, e.deleted, e.pull);
        PullEffect(pod, life, e.node, e.deleted, e.pull);
        var rs := RunLife(pod, life, events).1;
        assert rs[0] == s.record.value;
        if s.alive {
          DumpsBounded(s.pod, s.life, events[1..]);
          assert rs[1..] == RunLife(s.pod, s.life, events[1..]).1;
        } else {
          assert rs[1..] == [];
        }
      } else {
        DumpsBounded(pod, life, events[1..]);
        assert RunLife(pod, life, events).1 == RunLife(pod, life, events[1..]).1;
      }
    }
  }

  // ---- Indexes of later lives ----

  /** The n-th collector of a pod, counted from 0, never goes below index n. */
  lemma {:induction false} IndexAboveGeneration(pod: Pod, lives: seq<Script>)
    requires OneLifePerFile(pod.disk, pod.generation)
    ensures forall r :: r in RunLives(pod, lives).1 ==> r.life >= pod.generation && r.path.index >= r.life
    decreases |lives|
  {
    if lives != [] {
      var life := StartLife(pod, lives[0].node);
      RunLifeOk(pod, life, lives[0].events, life.index);
      var (after, records) := RunLife(pod, life, lives[0].events);
      IndexAboveGeneration(after.(generation := after.generation + 1), lives[1..]);
    }
  }
}
