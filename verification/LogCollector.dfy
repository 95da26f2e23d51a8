/** The per-pod log collector: one state machine step per loop iteration, lives that begin and end,
    and the files they write. Files may be deleted from outside at any time. */
module LogCollector {
  import opened Options

  /** {pod}_{node}_{index}.log for a fixed pod. */
  datatype LogPath = LogPath(node: string, index: nat)

  /** Existing files; each line is tagged with the collector life that wrote it, below zero for lives of
      earlier monitor processes. */
  type Disk = map<LogPath, seq<int>>

  /** What one `kubectl logs -f` session did. A failed pull may leave its empty file behind. */
  datatype Pull = Wrote(lines: nat) | Quiet | Failed(leftover: bool) | Crashed(lines: nat)

  datatype Event =
    | NotRunning
    | Session(node: string, deleted: set<LogPath>, pull: Pull)

  /** The monitor's memory of the pod across lives. */
  datatype Pod = Pod(generation: nat, nextSlot: nat, disk: Disk)

  /** The local variables of a running collector; `since` says whether a --since-time cursor is set. */
  datatype Life = Life(index: nat, node: string, file: Option<LogPath>, since: bool)

  /** One pull as it happened: target, cursor, lines already in the target, life, and whether it
      finished having written lines. */
  datatype Record = Record(path: LogPath, since: bool, before: seq<int>, life: nat, wrote: bool)

  // ---- Choosing a file ----

  /** Files of the node from an index on; shrinks with every index passed over. */
  function TakenFrom(disk: Disk, node: string, from: nat): set<LogPath> {
    set p | p in disk && p.node == node && p.index >= from
  }

  function FreeIndex(disk: Disk, node: string, from: nat): (k: nat)
    ensures k >= from && LogPath(node, k) !in disk
    ensures forall i :: from <= i < k ==> LogPath(node, i) in disk
    decreases TakenFrom(disk, node, from)
  {
    if LogPath(node, from) in disk then
      assert LogPath(node, from) in TakenFrom(disk, node, from);
      assert LogPath(node, from) !in TakenFrom(disk, node, from + 1);
      FreeIndex(disk, node, from + 1)
    else from
  }

  function Max(a: nat, b: nat): nat {
    if a > b then a else b
  }

  // ---- One loop iteration ----

  function StartLife(pod: Pod, node: string): Life {
    Life(Max(pod.generation, pod.nextSlot), node, None, false)
  }

  /** A move to another node drops the file and the cursor. */
  function Relocated(life: Life, node: string): Life {
    if node == life.node then life
    else Life(if life.file.Some? then Max(life.index, life.file.value.index + 1) else life.index, node, None, false)
  }

  function Placed(life: Life, disk: Disk): Life {
    if life.file.Some? then life
    else var k := FreeIndex(disk, life.node, life.index); life.(file := Some(LogPath(life.node, k)), index := k)
  }

  function Lines(disk: Disk, path: LogPath): seq<int> {
    if path in disk then disk[path] else []
  }

  function Repeat(life: int, n: nat): (r: seq<int>)
    ensures |r| == n && forall i :: 0 <= i < n ==> r[i] == life
  {
    seq(n, _ => life)
  }

  datatype Step = Step(pod: Pod, life: Life, record: Option<Record>, alive: bool)

  function Advance(pod: Pod, life: Life, e: Event): Step {
    match e
    case NotRunning => Step(pod, life, None, true)
    case Session(node, deleted, pull) =>
      var disk := pod.disk - deleted;
      var here := Placed(Relocated(life, node), disk);
      var path := here.file.value;
      var before := Lines(disk, path);
      var record := Record(path, here.since, before, pod.generation, pull.Wrote?);
      match pull
      case Wrote(n) =>
        Step(pod.(disk := disk[path := before + Repeat(pod.generation, n + 1)],
                  nextSlot := Max(pod.nextSlot, path.index + 1)),
             here.(since := true), Some(record), true)
      case Quiet =>
        Step(pod.(disk := disk[path := before]), here, Some(record), true)
      case Failed(leftover) =>
        if path in disk then Step(pod.(disk := disk), here, Some(record), true)
        else Step(pod.(disk := if leftover then disk[path := []] else disk),
                  here.(file := None, since := false), Some(record), true)
      case Crashed(n) =>
        Step(pod.(disk := disk[path := before + Repeat(pod.generation, n)]), here, Some(record), false)
  }

  /** A whole life from its first iteration to the end of its script or a crash. */
  function RunLife(pod: Pod, life: Life, events: seq<Event>): (Pod, seq<Record>)
    decreases |events|
  {
    if events == [] then (pod, [])
    else
      var s := Advance(pod, life, events[0]);
      var here := if s.record.Some? then [s.record.value] else [];
      if !s.alive then (s.pod, here)
      else var (pod', rest) := RunLife(s.pod, s.life, events[1..]); (pod', here + rest)
  }

  datatype Script = Script(node: string, events: seq<Event>)

  /** Lives one after another; each ends by bumping the generation. */
  function RunLives(pod: Pod, lives: seq<Script>): (Pod, seq<Record>)
    decreases |lives|
  {
    if lives == [] then (pod, [])
    else
      var (after, records) := RunLife(pod, StartLife(pod, lives[0].node), lives[0].events);
      var (pod', rest) := RunLives(after.(generation := after.generation + 1), lives[1..]);
      (pod', records + rest)
  }

  // ---- What every step keeps ----

  /** No file holds lines of two lives, and no line comes from a life that has not begun. */
  ghost predicate OneLifePerFile(disk: Disk, current: nat) {
    forall p :: p in disk ==> (forall i :: 0 <= i < |disk[p]| ==> disk[p][i] == disk[p][0] && disk[p][i] <= current)
  }

  /** The life's own file holds only its own lines, and none while no cursor is set. */
  ghost predicate OwnFile(disk: Disk, life: Life, id: nat) {
    life.file.Some? ==>
      && (forall i :: 0 <= i < |Lines(disk, life.file.value)| ==> Lines(disk, life.file.value)[i] == id)
      && (!life.since ==> Lines(disk, life.file.value) == [])
  }

  /** The life works at or above the slot it started from. */
  ghost predicate AtOrAbove(life: Life, slot: nat) {
    life.index >= slot && (life.file.Some? ==> life.file.value.index >= slot)
  }

  /** A pull without a cursor never targets a file that already holds lines. */
  predicate NoRedump(r: Record) {
    !r.since ==> r.before == []
  }

  ghost predicate StepOk(pod: Pod, slot: nat, s: Step) {
    && s.pod.generation == pod.generation && s.pod.nextSlot >= pod.nextSlot
    && OneLifePerFile(s.pod.disk, pod.generation)
    && (s.alive ==> OwnFile(s.pod.disk, s.life, pod.generation) && AtOrAbove(s.life, slot))
    && (s.record.Some? ==>
          && NoRedump(s.record.value) && s.record.value.life == pod.generation
          && s.record.value.path.index >= slot
          && (s.record.value.wrote ==> s.record.value.path.index < s.pod.nextSlot))
  }

  lemma PlacedOk(pod: Pod, life: Life, node: string, deleted: set<LogPath>, slot: nat)
    requires OneLifePerFile(pod.disk, pod.generation) && OwnFile(pod.disk, life, pod.generation) &&
             AtOrAbove(life, slot)
    ensures var disk := pod.disk - deleted;
            var here := Placed(Relocated(life, node), disk);
            && here.file.Some? && OneLifePerFile(disk, pod.generation)
            && OwnFile(disk, here, pod.generation) && AtOrAbove(here, slot)
  {
    var disk := pod.disk - deleted;
    assert forall p :: Lines(disk, p) == Lines(pod.disk, p) || Lines(disk, p) == [];
  }

  lemma AdvanceOk(pod: Pod, life: Life, e: Event, slot: nat)
    requires OneLifePerFile(pod.disk, pod.generation) && OwnFile(pod.disk, life, pod.generation) &&
             AtOrAbove(life, slot)
    ensures StepOk(pod, slot, Advance(pod, life, e))
  {
    if e.Session? {
      PlacedOk(pod, life, e.node, e.deleted, slot);
    }
  }

  // ---- Whole lives ----

  /** Records of one life: no redump, all at or above its first slot, slots of written files reserved. */
  ghost predicate LifeRecords(records: seq<Record>, id: nat, slot: nat, nextSlot: nat) {
    forall r :: r in records ==>
                  && NoRedump(r) && r.life == id && r.path.index >= slot
                  && (r.wrote ==> r.path.index < nextSlot)
  }

  lemma {:induction false} RunLifeOk(pod: Pod, life: Life, events: seq<Event>, slot: nat)
    requires OneLifePerFile(pod.disk, pod.generation) && OwnFile(pod.disk, life, pod.generation) &&
             AtOrAbove(life, slot)
    ensures var (pod', records) := RunLife(pod, life, events);
            && pod'.generation == pod.generation && pod'.nextSlot >= pod.nextSlot
            && OneLifePerFile(pod'.disk, pod.generation)
            && LifeRecords(records, pod.generation, slot, pod'.nextSlot)
    decreases |events|
  {
    if events != [] {
      AdvanceOk(pod, life, events[0], slot);
      var s := Advance(pod, life, events[0]);
      if s.alive { RunLifeOk(s.pod, s.life, events[1..], slot); }
    }
  }

  /** Records of many lives: no redump anywhere, and once a life has finished writing a file, every
      later life uses a higher index. */
  ghost predicate RunRecords(records: seq<Record>, first: nat) {
    && (forall r :: r in records ==> NoRedump(r) && r.life >= first)
    && (forall i, j :: 0 <= i < |records| && 0 <= j < |records| && records[i].wrote &&
                       records[i].life < records[j].life ==>
                         records[i].path.index < records[j].path.index)
  }

  lemma RecordsJoin(a: seq<Record>, b: seq<Record>, id: nat, slot: nat, nextSlot: nat)
    requires LifeRecords(a, id, slot, nextSlot) && RunRecords(b, id + 1)
    requires forall r :: r in b ==> r.path.index >= nextSlot
    ensures RunRecords(a + b, id)
  {
    var all := a + b;
    forall i, j | 0 <= i < |all| && 0 <= j < |all| && all[i].wrote && all[i].life < all[j].life
      ensures all[i].path.index < all[j].path.index
    {
      assert (all[i] in a || all[i] in b) && (all[j] in a || all[j] in b);
    }
  }

  /** Across every run of lives: a pull without --since-time never targets a file that already holds
      lines, no file ever holds lines of two lives, and a later life never reuses an index that an
      earlier one finished writing, even if its file was deleted meanwhile. */
  lemma {:induction false} RunsNeverRedump(pod: Pod, lives: seq<Script>)
    requires OneLifePerFile(pod.disk, pod.generation)
    ensures var (pod', records) := RunLives(pod, lives);
            && OneLifePerFile(pod'.disk, pod'.generation)
            && RunRecords(records, pod.generation)
            && (forall r :: r in records ==> r.path.index >= pod.nextSlot)
    decreases |lives|
  {
    if lives != [] {
      var life := StartLife(pod, lives[0].node);
      RunLifeOk(pod, life, lives[0].events, life.index);
      var (after, records) := RunLife(pod, life, lives[0].events);
      var next := after.(generation := after.generation + 1);
      RunsNeverRedump(next, lives[1..]);
      var (pod', rest) := RunLives(next, lives[1..]);
      RecordsJoin(records, rest, pod.generation, life.index, after.nextSlot);
    }
  }
}
