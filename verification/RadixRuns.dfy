/** Runs of store and remove events of any number of workers, in any order. */
module RadixRuns {
  import opened Options
  import opened RadixGraph
  import opened RadixEvents

  // ---- Removing ----

  /** The blocks a Removed event drops, in order; hashes that are not in the table are skipped. */
  function Dropped(l: Lookup, hashes: seq<SequenceHash>): seq<Id> {
    if hashes == [] then []
    else if hashes[0] in l then [l[hashes[0]]] + Dropped(l - {hashes[0]}, hashes[1..])
    else Dropped(l, hashes[1..])
  }

  function HashSet(hashes: seq<SequenceHash>): set<SequenceHash> {
    set h | h in hashes
  }

  /** Some of the hashes leads to the block. */
  ghost predicate LedTo(l: Lookup, hashes: seq<SequenceHash>, b: Id) {
    exists hash: SequenceHash :: hash in hashes && Leads(l, hash, b)
  }

  lemma {:induction false} DroppedIff(l: Lookup, hashes: seq<SequenceHash>, b: Id)
    ensures b in Dropped(l, hashes) <==> LedTo(l, hashes, b)
    decreases |hashes|
  {
    if hashes != [] {
      var h, rest := hashes[0], hashes[1..];
      var m := if h in l then l - {h} else l;
      DroppedIff(m, rest, b);
      if LedTo(l, hashes, b) {
        var k: SequenceHash :| k in hashes && Leads(l, k, b);
        if k != h { assert k in rest && Leads(m, k, b); }
      }
      if LedTo(m, rest, b) {
        var k: SequenceHash :| k in rest && Leads(m, k, b);
        assert k in hashes && Leads(l, k, b);
      }
      if h in l && b == l[h] { assert h in hashes && Leads(l, h, b); }
    }
  }

  lemma DroppedSound(g: Graph, l: Lookup, hashes: seq<SequenceHash>)
    requires SoundTable(g, l)
    ensures forall b: Id :: b in Dropped(l, hashes) ==> b in g && b != ROOT
  {
    forall b: Id | b in Dropped(l, hashes) ensures b in g && b != ROOT {
      DroppedIff(l, hashes, b);
      var k: SequenceHash :| k in hashes && Leads(l, k, b);
    }
  }

  lemma {:induction false} DropAllSound(g: Graph, next: Id, dropped: seq<Id>, w: Worker)
    requires Sound(g, next) && forall b: Id :: b in dropped ==> b in g
    ensures Sound(DropAll(g, dropped, w), next)
    decreases dropped
  {
    if dropped != [] {
      var h := DropWorker(g, dropped[0], w);
      forall c: Id, k: LocalHash | HasChild(h, c, k) ensures HasChild(g, c, k) && Child(h, c, k) == Child(g, c, k) {
      }
      assert Sound(h, next);
      DropAllSound(h, next, dropped[1..], w);
    }
  }

  /** Exactly the dropped blocks lose exactly this worker. */
  lemma {:induction false} DropAllHolds(g: Graph, dropped: seq<Id>, w: Worker, b: Id, v: Worker)
    requires forall d: Id :: d in dropped ==> d in g
    ensures Holds(DropAll(g, dropped, w), b, v) <==> Holds(g, b, v) && !(v == w && b in dropped)
    decreases dropped
  {
    if dropped != [] {
      DropAllHolds(DropWorker(g, dropped[0], w), dropped[1..], w, b, v);
      assert dropped == [dropped[0]] + dropped[1..];
    }
  }

  // ---- States and events ----

  datatype State = State(blocks: Graph, next: Id, tables: map<Worker, Lookup>)

  function Table(s: State, w: Worker): Lookup {
    if w in s.tables then s.tables[w] else map[]
  }

  /** `Clear` is remove_worker, with the order in which the table lists its entries. */
  datatype Event =
    | Keep(worker: Worker, parent: Option<SequenceHash>, data: seq<StoredBlock>)
    | Remove(worker: Worker, hashes: seq<SequenceHash>)
    | Clear(worker: Worker, order: seq<SequenceHash>)

  ghost predicate Good(s: State) {
    Sound(s.blocks, s.next) && forall w: Worker :: SoundTable(s.blocks, Table(s, w))
  }

  ghost predicate Covered(s: State) {
    forall w: Worker :: Covers(s.blocks, Table(s, w), w)
  }

  const EMPTY := State(map[ROOT := Block(map[], {}, None)], 1, map[])

  lemma EmptyIsGood()
    ensures Good(EMPTY) && Covered(EMPTY)
  {
  }

  predicate Possible(s: State, e: Event) {
    e.Clear? ==> HashSet(e.order) == Table(s, e.worker).Keys
  }

  function Step(s: State, e: Event): State
    requires Good(s)
  {
    var l := Table(s, e.worker);
    match e
    case Keep(w, parent, data) =>
      var r := Store(s.blocks, s.next, l, w, parent, data);
      State(r.blocks, r.next, s.tables[w := r.table])
    case Remove(w, hashes) =>
      DroppedSound(s.blocks, l, hashes);
      State(DropAll(s.blocks, Dropped(l, hashes), w), s.next, s.tables[w := l - HashSet(hashes)])
    case Clear(w, order) =>
      DroppedSound(s.blocks, l, order);
      State(DropAll(s.blocks, Dropped(l, order), w), s.next, s.tables[w := map[]])
  }

  /** The cursor a store starts from, if its parent is known. */
  function StartOf(s: State, e: Event): Option<Cursor>
    requires e.Keep?
  {
    var l := Table(s, e.worker);
    match e.parent
    case None => Some(Cursor(s.blocks, s.next, l, ROOT, false))
    case Some(hash) => if hash in l then Some(Cursor(s.blocks, s.next, l, l[hash], false)) else None
  }

  lemma StartIsSound(s: State, e: Event)
    requires Good(s) && e.Keep? && StartOf(s, e).Some?
    ensures SoundCursor(StartOf(s, e).value)
  {
    var l := Table(s, e.worker);
    assert SoundTable(s.blocks, l);
    if e.parent.Some? { assert Leads(l, e.parent.value, l[e.parent.value]); }
  }

  /** A stored hash of the event already leads elsewhere. */
  ghost predicate EventRemaps(s: State, e: Event)
    requires Good(s)
  {
    e.Keep? && StartOf(s, e).Some? && (StartIsSound(s, e); Remaps(StartOf(s, e).value, e.worker, e.data))
  }

  lemma StoreStep(s: State, e: Event)
    requires Good(s) && e.Keep?
    ensures
      var t := Step(s, e);
      && Sound(t.blocks, t.next) && SoundTable(t.blocks, Table(t, e.worker)) && Grows(s.blocks, t.blocks, e.worker)
  {
    if StartOf(s, e).Some? {
      StartIsSound(s, e);
      StoreFromGrows(StartOf(s, e).value, e.worker, e.data);
    }
  }

  lemma RemoveStep(s: State, e: Event)
    requires Good(s) && !e.Keep?
    ensures
      var t := Step(s, e);
      var hashes := if e.Remove? then e.hashes else e.order;
      && Sound(t.blocks, t.next) && SoundTable(t.blocks, Table(t, e.worker)) && t.blocks.Keys == s.blocks.Keys
      && (forall b: Id, v: Worker ::
            Holds(t.blocks, b, v) <==>
              Holds(s.blocks, b, v) && !(v == e.worker && LedTo(Table(s, e.worker), hashes, b)))
  {
    var t, l, w := Step(s, e), Table(s, e.worker), e.worker;
    var hashes := if e.Remove? then e.hashes else e.order;
    DroppedSound(s.blocks, l, hashes);
    DropAllSound(s.blocks, s.next, Dropped(l, hashes), w);
    forall b: Id, v: Worker
      ensures Holds(t.blocks, b, v) <==> Holds(s.blocks, b, v) && !(v == w && LedTo(l, hashes, b))
    {
      DropAllHolds(s.blocks, Dropped(l, hashes), w, b, v);
      DroppedIff(l, hashes, b);
    }
    var m := Table(t, w);
    assert forall hash: SequenceHash, b: Id :: Leads(m, hash, b) ==> Leads(l, hash, b);
  }

  lemma StepIsGood(s: State, e: Event)
    requires Good(s)
    ensures Good(Step(s, e))
  {
    var t := Step(s, e);
    if e.Keep? { StoreStep(s, e); } else { RemoveStep(s, e); }
    forall v: Worker ensures SoundTable(t.blocks, Table(t, v)) {
      if v != e.worker { assert Table(t, v) == Table(s, v) && SoundTable(s.blocks, Table(s, v)); }
    }
  }

  // ---- Tables keep covering ----

  lemma StepCovers(s: State, e: Event)
    requires Good(s) && Covered(s) && Possible(s, e) && !EventRemaps(s, e)
    ensures Covered(Step(s, e))
  {
    var t := Step(s, e);
    if e.Keep? {
      StoreStep(s, e);
      OwnStoreCovers(s, e);
    } else {
      RemoveStep(s, e);
      OwnRemoveCovers(s, e);
    }
    forall v: Worker ensures Covers(t.blocks, Table(t, v), v) {
      if v != e.worker {
        assert Covers(s.blocks, Table(s, v), v) && Table(t, v) == Table(s, v);
        assert forall b: Id :: Holds(t.blocks, b, v) ==> Holds(s.blocks, b, v);
      }
    }
  }

  lemma OwnStoreCovers(s: State, e: Event)
    requires Good(s) && e.Keep? && Covers(s.blocks, Table(s, e.worker), e.worker) && !EventRemaps(s, e)
    ensures Covers(Step(s, e).blocks, Table(Step(s, e), e.worker), e.worker)
  {
    if StartOf(s, e).Some? {
      StartIsSound(s, e);
      StoreKeepsCover(StartOf(s, e).value, e.worker, e.data);
    }
  }

  lemma OwnRemoveCovers(s: State, e: Event)
    requires Good(s) && !e.Keep? && Covers(s.blocks, Table(s, e.worker), e.worker) && Possible(s, e)
    requires
      var hashes := if e.Remove? then e.hashes else e.order;
      forall b: Id :: Holds(Step(s, e).blocks, b, e.worker) ==>
        Holds(s.blocks, b, e.worker) && !LedTo(Table(s, e.worker), hashes, b)
    ensures Covers(Step(s, e).blocks, Table(Step(s, e), e.worker), e.worker)
  {
    var t, l := Step(s, e), Table(s, e.worker);
    var m := Table(t, e.worker);
    var hashes := if e.Remove? then e.hashes else e.order;
    forall b: Id | Holds(t.blocks, b, e.worker) ensures Listed(m, b) {
      assert Listed(l, b);
      var k: SequenceHash :| Leads(l, k, b);
      assert k !in hashes;
      if e.Clear? { assert k in HashSet(e.order); }
      assert Leads(m, k, b);
    }
  }

  // ---- Runs ----

  function Run(s: State, events: seq<Event>): State
    requires Good(s)
    decreases |events|
  {
    if events == [] then s
    else
      StepIsGood(s, events[0]);
      Run(Step(s, events[0]), events[1..])
  }

  lemma {:induction false} RunIsGood(s: State, events: seq<Event>)
    requires Good(s)
    ensures Good(Run(s, events))
    decreases |events|
  {
    if events != [] {
      StepIsGood(s, events[0]);
      RunIsGood(Step(s, events[0]), events[1..]);
    }
  }

  /** Every event can happen and no store remaps a hash. */
  ghost predicate Orderly(s: State, events: seq<Event>)
    requires Good(s)
    decreases |events|
  {
    events != [] ==>
      && Possible(s, events[0]) && !EventRemaps(s, events[0])
      && (StepIsGood(s, events[0]); Orderly(Step(s, events[0]), events[1..]))
  }

  /** After every orderly run each worker's table lists every block it holds. */
  lemma {:induction false} RunCovers(s: State, events: seq<Event>)
    requires Good(s) && Covered(s) && Orderly(s, events)
    ensures Covered(Run(s, events))
    decreases |events|
  {
    if events != [] {
      StepIsGood(s, events[0]);
      StepCovers(s, events[0]);
      RunCovers(Step(s, events[0]), events[1..]);
    }
  }

  // ---- Matches over runs ----

  /** What an event does to the query `q`: a store never shortens a match, a removal leaves other workers
      alone and cuts its own worker's match in front of the first dropped block. */
  lemma StepMatches(s: State, e: Event, q: seq<LocalHash>, v: Worker)
    requires Good(s)
    ensures
      var before, t := Depth(s.blocks, ROOT, q, v), Step(s, e);
      && Good(t)
      && (e.Keep? ==> before <= Depth(t.blocks, ROOT, q, v))
      && (!e.Keep? && v != e.worker ==> before == Depth(t.blocks, ROOT, q, v))
      && (!e.Keep? && v == e.worker ==>
            Depth(t.blocks, ROOT, q, v) ==
            DepthOutside(s.blocks, ROOT, q, v, Elements(Dropped(Table(s, v), if e.Remove? then e.hashes else e.order))))
  {
    StepIsGood(s, e);
    var t, l := Step(s, e), Table(s, e.worker);
    if e.Keep? {
      StoreStep(s, e);
      GrowthKeepsMatches(s.blocks, t.blocks, e.worker, ROOT, q, v);
    } else {
      var dropped := Dropped(l, if e.Remove? then e.hashes else e.order);
      DroppedSound(s.blocks, l, if e.Remove? then e.hashes else e.order);
      DropAllMatches(s.blocks, dropped, e.worker, ROOT, q);
    }
  }

  /** Nothing but its own removals ever shortens a worker's match, whatever all workers do. */
  lemma {:induction false} RunNeverShortens(s: State, events: seq<Event>, q: seq<LocalHash>, v: Worker)
    requires Good(s) && forall e :: e in events && e.worker == v ==> e.Keep?
    ensures Good(Run(s, events)) && Depth(s.blocks, ROOT, q, v) <= Depth(Run(s, events).blocks, ROOT, q, v)
    decreases |events|
  {
    RunIsGood(s, events);
    if events != [] {
      assert events[0] in events;
      StepMatches(s, events[0], q, v);
      RunNeverShortens(Step(s, events[0]), events[1..], q, v);
    }
  }

  ghost predicate Cleared(g: Graph, w: Worker)
    requires Closed(g) && ROOT in g
  {
    forall q: seq<LocalHash> :: Depth(g, ROOT, q, w) == 0
  }

  /** A removed worker matches nothing if and only if its table listed every block it held directly below
      the root. */
  lemma ClearedIff(s: State, e: Event)
    requires Good(s) && e.Clear? && Possible(s, e)
    ensures
      var t, w := Step(s, e), e.worker;
      && Good(t)
      && (Cleared(t.blocks, w) <==>
          forall k: LocalHash :: HasChild(s.blocks, ROOT, k) && Holds(s.blocks, Child(s.blocks, ROOT, k), w) ==>
            Listed(Table(s, w), Child(s.blocks, ROOT, k)))
  {
    StepIsGood(s, e);
    var t, g, w, l := Step(s, e), s.blocks, e.worker, Table(s, e.worker);
    var gone := Elements(Dropped(l, e.order));
    forall q: seq<LocalHash> ensures Depth(t.blocks, ROOT, q, w) == DepthOutside(g, ROOT, q, w, gone) {
      StepMatches(s, e, q, w);
    }
    forall b: Id ensures b in gone <==> Listed(l, b) { ListedIsDropped(l, e.order, b); }
    if Cleared(t.blocks, w) {
      forall k: LocalHash | HasChild(g, ROOT, k) && Holds(g, Child(g, ROOT, k), w) ensures Child(g, ROOT, k) in gone {
        assert Depth(t.blocks, ROOT, [k], w) == 0;
        assert DepthOutside(g, ROOT, [k], w, gone) == 0;
      }
    }
  }

  lemma ListedIsDropped(l: Lookup, order: seq<SequenceHash>, b: Id)
    requires HashSet(order) == l.Keys
    ensures b in Elements(Dropped(l, order)) <==> Listed(l, b)
  {
    DroppedIff(l, order, b);
    if Listed(l, b) {
      var k: SequenceHash :| Leads(l, k, b);
      assert k in HashSet(order);
    }
  }

  /** After any orderly interleaving of events of all workers, removing a worker removes it from every
      query. */
  lemma RunThenClear(s: State, events: seq<Event>, e: Event)
    requires Good(s) && Covered(s) && Orderly(s, events) && e.Clear? && Possible(Run(s, events), e)
    ensures Good(Run(s, events)) && Good(Step(Run(s, events), e)) && Cleared(Step(Run(s, events), e).blocks, e.worker)
  {
    RunIsGood(s, events);
    RunCovers(s, events);
    ClearedIff(Run(s, events), e);
  }

  // ---- Chained stores ----

  lemma DropKeepsTrail(g: Graph, dropped: seq<Id>, v: Worker, w: Worker, t: seq<Id>, s: seq<LocalHash>)
    requires v != w && (forall b: Id :: b in dropped ==> b in g) && Trail(g, t, s) && HeldTo(g, t, w, |s|)
    requires t[0] !in dropped
    ensures Trail(DropAll(g, dropped, v), t, s) && HeldTo(DropAll(g, dropped, v), t, w, |s|)
    decreases dropped
  {
    if dropped != [] {
      var h := DropWorker(g, dropped[0], v);
      forall i | 0 <= i <= |s|
        ensures h[t[i]].children == g[t[i]].children && (i > 0 ==> Holds(h, t[i], w))
      {
        if i > 0 { assert Holds(g, t[i], w) && w in g[t[i]].workers - {v}; }
      }
      forall i | 0 <= i < |s| ensures HasChild(h, t[i], s[i]) && Child(h, t[i], s[i]) == t[i + 1] {
        assert HasChild(g, t[i], s[i]);
      }
      DropKeepsTrail(h, dropped[1..], v, w, t, s);
    }
  }

  /** A chain that a worker holds below the root survives every event but its own removals. */
  lemma StepKeepsTrail(s: State, e: Event, w: Worker, t: seq<Id>, q: seq<LocalHash>)
    requires Good(s) && Trail(s.blocks, t, q) && HeldTo(s.blocks, t, w, |q|) && t[0] == ROOT
    requires e.worker == w ==> e.Keep?
    ensures Trail(Step(s, e).blocks, t, q) && HeldTo(Step(s, e).blocks, t, w, |q|)
  {
    if e.Keep? {
      StoreStep(s, e);
      TrailGrows(s.blocks, Step(s, e).blocks, e.worker, t, q, w, |q|);
    } else {
      var l := Table(s, e.worker);
      var hashes := if e.Remove? then e.hashes else e.order;
      DroppedSound(s.blocks, l, hashes);
      DropKeepsTrail(s.blocks, Dropped(l, hashes), e.worker, w, t, q);
    }
  }

  lemma StepKeepsEntry(s: State, e: Event, w: Worker, hash: SequenceHash, b: Id)
    requires Good(s) && Leads(Table(s, w), hash, b) && (e.worker == w ==> e.Keep? && !EventRemaps(s, e))
    ensures Leads(Table(Step(s, e), w), hash, b)
  {
    if e.worker == w && StartOf(s, e).Some? {
      StartIsSound(s, e);
      StoreKeepsEntries(StartOf(s, e).value, w, e.data);
    }
  }

  /** The worker itself neither removes nor remaps during the run; all others may do anything. */
  ghost predicate Undisturbed(s: State, events: seq<Event>, w: Worker)
    requires Good(s)
    decreases |events|
  {
    events != [] ==>
      && (events[0].worker == w ==> events[0].Keep? && !EventRemaps(s, events[0]))
      && (StepIsGood(s, events[0]); Undisturbed(Step(s, events[0]), events[1..], w))
  }

  lemma {:induction false} RunKeepsChain(s: State, events: seq<Event>, w: Worker, t: seq<Id>, q: seq<LocalHash>,
                                         hash: SequenceHash)
    requires Good(s) && Undisturbed(s, events, w)
    requires Trail(s.blocks, t, q) && HeldTo(s.blocks, t, w, |q|) && t[0] == ROOT && Leads(Table(s, w), hash, t[|q|])
    ensures
      var r := Run(s, events);
      && Good(r) && Trail(r.blocks, t, q) && HeldTo(r.blocks, t, w, |q|) && Leads(Table(r, w), hash, t[|q|])
    decreases |events|
  {
    if events != [] {
      StepIsGood(s, events[0]);
      StepKeepsTrail(s, events[0], w, t, q);
      StepKeepsEntry(s, events[0], w, hash, t[|q|]);
      RunKeepsChain(Step(s, events[0]), events[1..], w, t, q, hash);
    }
  }

  /** The outcome of a store. */
  function OutcomeOf(s: State, e: Event): Outcome
    requires Good(s) && e.Keep?
  {
    Store(s.blocks, s.next, Table(s, e.worker), e.worker, e.parent, e.data).outcome
  }

  lemma KeepChains(s: State, e: Event) returns (trail: seq<Id>)
    requires Good(s) && e.Keep? && OutcomeOf(s, e) == Stored
    ensures
      var t := Step(s, e);
      && Trail(t.blocks, trail, Tokens(e.data)) && HeldTo(t.blocks, trail, e.worker, |e.data|)
      && StartOf(s, e).Some? && trail[0] == StartOf(s, e).value.current
      && (e.data != [] ==> Leads(Table(t, e.worker), e.data[|e.data| - 1].blockHash, trail[|e.data|]))
  {
    StartIsSound(s, e);
    trail := StoreTrail(StartOf(s, e).value, e.worker, e.data);
  }

  /** A store from the root, any events of other workers and further stores of this one, then a store
      chained to the last block of the first: the joined sequence matches in full. */
  lemma ChainedStoresMatch(s: State, first: Event, between: seq<Event>, second: Event)
    requires Good(s) && first.Keep? && second.Keep? && first.worker == second.worker
    requires first.parent == None && first.data != [] && OutcomeOf(s, first) == Stored
    requires Good(Step(s, first)) && Undisturbed(Step(s, first), between, first.worker)
    requires second.parent == Some(first.data[|first.data| - 1].blockHash)
    requires Good(Run(Step(s, first), between)) && OutcomeOf(Run(Step(s, first), between), second) == Stored
    ensures
      var t := Step(Run(Step(s, first), between), second);
      Good(t) && Depth(t.blocks, ROOT, Tokens(first.data) + Tokens(second.data), first.worker) ==
                 |first.data| + |second.data|
  {
    var w, q := first.worker, Tokens(first.data);
    var hash := first.data[|first.data| - 1].blockHash;
    var t := KeepChains(s, first);
    var s1 := Step(s, first);
    RunKeepsChain(s1, between, w, t, q, hash);
    var s2 := Run(s1, between);
    var u := KeepChains(s2, second);
    StepKeepsTrail(s2, second, w, t, q);
    StepIsGood(s2, second);
    var g := Step(s2, second).blocks;
    TrailsJoin(g, t, q, u, Tokens(second.data), w);
    TrailMatches(g, t + u[1..], q + Tokens(second.data), w);
  }

  // ---- A run that leaves a worker behind ----

  /** A store of one block below the root. */
  lemma SingleStore(s: State, w: Worker, d: StoredBlock)
    requires Good(s)
    ensures
      var l, child := Table(s, w), ChildFor(s.blocks, s.next, Table(s, w), ROOT, d);
      && child in Link(s.blocks, s.next, l, ROOT, d)
      && Step(s, Keep(w, None, [d])) ==
         State(AddWorker(Link(s.blocks, s.next, l, ROOT, d), child, w),
               if NeedsBlock(s.blocks, l, ROOT, d) then s.next + 1 else s.next,
               s.tables[w := l[d.blockHash := child]])
  {
    var c := Cursor(s.blocks, s.next, Table(s, w), ROOT, false);
    StartIsSound(s, Keep(w, None, [d]));
    AdvanceOk(c, w, d);
    assert [d][1..] == [];
    assert StoreFrom(Advance(c, w, d), w, [d][1..]).outcome == Stored;
  }

  function OneBlock(w: Worker): State {
    State(map[ROOT := Block(map[1 := 1], {}, None), 1 := Block(map[], {w}, Some(100))], 2, map[w := map[100 := 1]])
  }

  function TwoBlocks(w: Worker, l: Lookup): State {
    State(map[ROOT := Block(map[1 := 1, 2 := 2], {}, None), 1 := Block(map[], {w}, Some(100)),
              2 := Block(map[], {w}, Some(200))], 3, map[w := l])
  }

  lemma FirstStore(w: Worker)
    requires Good(EMPTY)
    ensures Step(EMPTY, Keep(w, None, [StoredBlock(100, 1)])) == OneBlock(w)
  {
    SingleStore(EMPTY, w, StoredBlock(100, 1));
    var t := Step(EMPTY, Keep(w, None, [StoredBlock(100, 1)]));
    assert t.blocks[ROOT].children == map[1 := 1] && t.blocks[1].workers == {w};
    assert t.blocks == OneBlock(w).blocks;
    assert t.tables[w] == map[100 := 1];
    assert t.tables == OneBlock(w).tables;
  }

  lemma SecondStore(w: Worker)
    requires Good(OneBlock(w))
    ensures Step(OneBlock(w), Keep(w, None, [StoredBlock(200, 2)])) == TwoBlocks(w, map[100 := 1, 200 := 2])
  {
    SingleStore(OneBlock(w), w, StoredBlock(200, 2));
    var t := Step(OneBlock(w), Keep(w, None, [StoredBlock(200, 2)]));
    assert t.blocks[ROOT].children == map[1 := 1, 2 := 2] && t.blocks[2].workers == {w};
    assert t.blocks == TwoBlocks(w, map[100 := 1, 200 := 2]).blocks;
    assert t.tables[w] == map[100 := 1, 200 := 2];
    assert t.tables == TwoBlocks(w, map[100 := 1, 200 := 2]).tables;
  }

  lemma ThirdStore(w: Worker)
    requires Good(TwoBlocks(w, map[100 := 1, 200 := 2]))
    ensures Step(TwoBlocks(w, map[100 := 1, 200 := 2]), Keep(w, None, [StoredBlock(100, 2)])) ==
            TwoBlocks(w, map[100 := 2, 200 := 2])
  {
    var s := TwoBlocks(w, map[100 := 1, 200 := 2]);
    SingleStore(s, w, StoredBlock(100, 2));
    var t := Step(s, Keep(w, None, [StoredBlock(100, 2)]));
    assert HasChild(s.blocks, ROOT, 2) && Child(s.blocks, ROOT, 2) == 2;
    assert t.blocks[2].workers == {w};
    assert t.blocks == s.blocks;
    assert t.tables[w] == map[100 := 2, 200 := 2];
    assert t.tables == TwoBlocks(w, map[100 := 2, 200 := 2]).tables;
  }

  lemma ThreeStores(w: Worker, events: seq<Event>)
    requires events == [Keep(w, None, [StoredBlock(100, 1)]), Keep(w, None, [StoredBlock(200, 2)]),
                        Keep(w, None, [StoredBlock(100, 2)])]
    ensures Good(EMPTY) && Run(EMPTY, events) == TwoBlocks(w, map[100 := 2, 200 := 2])
  {
    EmptyIsGood();
    var s1, s2, s3 := OneBlock(w), TwoBlocks(w, map[100 := 1, 200 := 2]), TwoBlocks(w, map[100 := 2, 200 := 2]);
    StepIsGood(EMPTY, events[0]);
    FirstStore(w);
    StepIsGood(s1, events[1]);
    SecondStore(w);
    StepIsGood(s2, events[2]);
    ThirdStore(w);
    assert events[2..] == [events[2]] && events[1..] == [events[1], events[2]];
    assert Run(s3, []) == s3 && [events[2]][1..] == [];
    assert Run(s2, events[2..]) == s3;
    assert events[1..][1..] == events[2..];
    assert Run(s1, events[1..]) == s3;
  }

  /** Blocks (100, 1), (200, 2) and then (100, 2), all of one worker: the last store makes 100 lead to the
      block of 200, so that removing the worker leaves it in the first block. */
  lemma StaleWorker(w: Worker, events: seq<Event>)
    requires events == [Keep(w, None, [StoredBlock(100, 1)]), Keep(w, None, [StoredBlock(200, 2)]),
                        Keep(w, None, [StoredBlock(100, 2)])]
    ensures
      var clear := Clear(w, [100, 200]);
      && Good(EMPTY) && Good(Run(EMPTY, events)) && Possible(Run(EMPTY, events), clear)
      && Good(Step(Run(EMPTY, events), clear))
      && Depth(Step(Run(EMPTY, events), clear).blocks, ROOT, [1], w) == 1
  {
    ThreeStores(w, events);
    RunIsGood(EMPTY, events);
    var s, clear := Run(EMPTY, events), Clear(w, [100, 200]);
    var l := Table(s, w);
    StepIsGood(s, clear);
    assert [100, 200][1..] == [200] && [200][1..] == [];
    assert Dropped(l - {100}, [200]) == [2] && Dropped(l, [100, 200]) == [2, 2];
    var g, h := s.blocks, Step(s, clear).blocks;
    assert [2, 2][1..] == [2] && [2][1..] == [];
    assert h == DropAll(DropWorker(g, 2, w), [2], w) == DropWorker(DropWorker(g, 2, w), 2, w);
    assert h[ROOT] == g[ROOT] && h[1] == g[1];
    assert HasChild(h, ROOT, [1][0]) && Child(h, ROOT, 1) == 1 && Holds(h, 1, w);
    assert [1][1..] == [];
  }
}
