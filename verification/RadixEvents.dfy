/** Store and remove events of many workers on one radix tree. */
module RadixEvents {
  import opened Options
  import opened RadixGraph

  const ROOT: Id := 0

  datatype StoredBlock = StoredBlock(blockHash: SequenceHash, tokensHash: LocalHash)

  datatype Outcome = Stored | ParentBlockNotFound | InvalidBlockSequence

  /** A worker's own table from sequence hashes to blocks. */
  type Lookup = map<SequenceHash, Id>

  predicate Leads(l: Lookup, hash: SequenceHash, b: Id) {
    hash in l && l[hash] == b
  }

  // ---- Storing ----

  function AddWorker(g: Graph, b: Id, w: Worker): Graph
    requires b in g
  {
    g[b := g[b].(workers := g[b].workers + {w})]
  }

  function AddEdge(g: Graph, b: Id, k: LocalHash, c: Id): Graph
    requires b in g
  {
    g[b := g[b].(children := g[b].children[k := c])]
  }

  function AddBlock(g: Graph, b: Id, hash: SequenceHash): Graph {
    g[b := Block(map[], {}, Some(hash))]
  }

  /** The child of `current` for a stored block: the existing one, else the worker's own block of that
      hash, else the new one `next`. */
  function ChildFor(g: Graph, next: Id, l: Lookup, current: Id, d: StoredBlock): Id {
    if HasChild(g, current, d.tokensHash) then Child(g, current, d.tokensHash)
    else if d.blockHash in l then l[d.blockHash]
    else next
  }

  predicate NeedsBlock(g: Graph, l: Lookup, current: Id, d: StoredBlock) {
    !HasChild(g, current, d.tokensHash) && d.blockHash !in l
  }

  /** The graph with that child in place. */
  function Link(g: Graph, next: Id, l: Lookup, current: Id, d: StoredBlock): Graph
    requires current in g
  {
    if HasChild(g, current, d.tokensHash) then g
    else
      var g1 := if d.blockHash in l then g else AddBlock(g, next, d.blockHash);
      AddEdge(g1, current, d.tokensHash, ChildFor(g, next, l, current, d))
  }

  // ---- Sound graphs and tables ----

  /** Block identities are below `next`; nothing points at the root. */
  ghost predicate Sound(g: Graph, next: Id) {
    && Closed(g) && ROOT in g && (forall b: Id :: b in g ==> b < next)
    && forall b: Id, k: LocalHash :: HasChild(g, b, k) ==> Child(g, b, k) != ROOT
  }

  ghost predicate SoundTable(g: Graph, l: Lookup) {
    forall hash: SequenceHash, b: Id :: Leads(l, hash, b) ==> b in g && b != ROOT
  }

  /** Every block the worker holds is in its table. */
  ghost predicate Covers(g: Graph, l: Lookup, w: Worker) {
    forall b: Id :: Holds(g, b, w) ==> Listed(l, b)
  }

  ghost predicate Listed(l: Lookup, b: Id) {
    exists hash: SequenceHash :: Leads(l, hash, b)
  }

  lemma WorkerAdded(g: Graph, next: Id, b: Id, w: Worker)
    requires Sound(g, next) && b in g
    ensures Sound(AddWorker(g, b, w), next) && Grows(g, AddWorker(g, b, w), w)
    ensures forall c: Id :: Holds(AddWorker(g, b, w), c, w) <==> Holds(g, c, w) || c == b
    ensures forall c: Id, k: LocalHash :: HasChild(AddWorker(g, b, w), c, k) <==> HasChild(g, c, k)
  {
    var h := AddWorker(g, b, w);
    forall c: Id, k: LocalHash | HasChild(h, c, k) ensures HasChild(g, c, k) && Child(h, c, k) == Child(g, c, k) {
    }
  }

  lemma BlockAdded(g: Graph, next: Id, hash: SequenceHash, w: Worker)
    requires Sound(g, next)
    ensures Sound(AddBlock(g, next, hash), next + 1) && Grows(g, AddBlock(g, next, hash), w)
    ensures forall c: Id :: Holds(AddBlock(g, next, hash), c, w) <==> Holds(g, c, w)
    ensures forall c: Id, k: LocalHash :: HasChild(AddBlock(g, next, hash), c, k) <==> HasChild(g, c, k)
  {
    var h := AddBlock(g, next, hash);
    forall c: Id, k: LocalHash | HasChild(h, c, k) ensures HasChild(g, c, k) && Child(h, c, k) == Child(g, c, k) {
    }
  }

  lemma EdgeAdded(g: Graph, next: Id, b: Id, k: LocalHash, c: Id, w: Worker)
    requires Sound(g, next) && b in g && c in g && c != ROOT && !HasChild(g, b, k)
    ensures Sound(AddEdge(g, b, k, c), next) && Grows(g, AddEdge(g, b, k, c), w)
    ensures forall d: Id :: Holds(AddEdge(g, b, k, c), d, w) <==> Holds(g, d, w)
    ensures OnlyEdge(g, AddEdge(g, b, k, c), b, k)
    ensures HasChild(AddEdge(g, b, k, c), b, k) && Child(AddEdge(g, b, k, c), b, k) == c
  {
    var h := AddEdge(g, b, k, c);
    forall d: Id, j: LocalHash | HasChild(h, d, j)
      ensures Child(h, d, j) == if d == b && j == k then c else Child(g, d, j)
    {
    }
  }

  /** The only new edge can be the one from `b` under `k`. */
  ghost predicate OnlyEdge(g: Graph, h: Graph, b: Id, k: LocalHash) {
    forall c: Id, j: LocalHash :: HasChild(h, c, j) ==> HasChild(g, c, j) || (c == b && j == k)
  }

  lemma Linked(g: Graph, next: Id, l: Lookup, w: Worker, current: Id, d: StoredBlock)
    requires Sound(g, next) && SoundTable(g, l) && current in g
    ensures
      var h, child := Link(g, next, l, current, d), ChildFor(g, next, l, current, d);
      && Sound(h, if NeedsBlock(g, l, current, d) then next + 1 else next) && Grows(g, h, w)
      && HasChild(h, current, d.tokensHash) && Child(h, current, d.tokensHash) == child && child in h && child != ROOT
      && OnlyEdge(g, h, current, d.tokensHash) && (forall b: Id :: Holds(h, b, w) <==> Holds(g, b, w))
  {
    if !HasChild(g, current, d.tokensHash) {
      var child := ChildFor(g, next, l, current, d);
      if d.blockHash in l {
        assert Leads(l, d.blockHash, child);
        EdgeAdded(g, next, current, d.tokensHash, child, w);
      } else {
        var g1 := AddBlock(g, next, d.blockHash);
        BlockAdded(g, next, d.blockHash, w);
        EdgeAdded(g1, next + 1, current, d.tokensHash, child, w);
        GrowsTransitive(g, g1, AddEdge(g1, current, d.tokensHash, child), w);
      }
    }
  }

  lemma TableGrows(g: Graph, h: Graph, w: Worker, l: Lookup, hash: SequenceHash, b: Id)
    requires SoundTable(g, l) && Grows(g, h, w) && b in h && b != ROOT
    ensures SoundTable(h, l) && SoundTable(h, l[hash := b])
  {
    var m := l[hash := b];
    forall k: SequenceHash, c: Id | Leads(m, k, c) ensures c in h && c != ROOT {
      if k != hash { assert Leads(l, k, c); }
    }
  }

  /** The loop of apply_store: `current` gets the worker one step later when `insert` is set. */
  datatype Cursor = Cursor(blocks: Graph, next: Id, table: Lookup, current: Id, insert: bool)

  ghost predicate SoundCursor(c: Cursor) {
    Sound(c.blocks, c.next) && SoundTable(c.blocks, c.table) && c.current in c.blocks
  }

  /** The graph after the deferred insertion. */
  function Marked(c: Cursor, w: Worker): Graph
    requires c.current in c.blocks
  {
    if c.insert then AddWorker(c.blocks, c.current, w) else c.blocks
  }

  function NextChild(c: Cursor, w: Worker, d: StoredBlock): Id
    requires c.current in c.blocks
  {
    ChildFor(Marked(c, w), c.next, c.table, c.current, d)
  }

  /** One stored block. A block that would be its own child ends the loop. */
  function Advance(c: Cursor, w: Worker, d: StoredBlock): Cursor
    requires c.current in c.blocks
  {
    var g := Marked(c, w);
    var child := NextChild(c, w, d);
    var next := if NeedsBlock(g, c.table, c.current, d) then c.next + 1 else c.next;
    var h := Link(g, c.next, c.table, c.current, d);
    if child == c.current then Cursor(h, next, c.table, child, c.insert)
    else Cursor(h, next, c.table[d.blockHash := child], child, true)
  }

  /** What a store leaves behind. */
  datatype Stores = Stores(blocks: Graph, next: Id, table: Lookup, outcome: Outcome)

  function StoreFrom(c: Cursor, w: Worker, data: seq<StoredBlock>): Stores
    requires SoundCursor(c)
    decreases |data|
  {
    if data == [] then Stores(Marked(c, w), c.next, c.table, Stored)
    else
      AdvanceOk(c, w, data[0]);
      var c2 := Advance(c, w, data[0]);
      if c2.current == c.current then Stores(c2.blocks, c2.next, c2.table, InvalidBlockSequence)
      else StoreFrom(c2, w, data[1..])
  }

  /** apply_store */
  function Store(g: Graph, next: Id, l: Lookup, w: Worker, parent: Option<SequenceHash>, data: seq<StoredBlock>): Stores
    requires Sound(g, next) && SoundTable(g, l)
  {
    match parent
    case None => StoreFrom(Cursor(g, next, l, ROOT, false), w, data)
    case Some(hash) =>
      if hash !in l then Stores(g, next, l, ParentBlockNotFound)
      else
        assert Leads(l, hash, l[hash]);
        StoreFrom(Cursor(g, next, l, l[hash], false), w, data)
  }

  /** One step: the worker's chain grows by one edge, and nothing else is new but the worker in the block
      left behind. */
  ghost predicate Stepped(c: Cursor, d: Cursor, w: Worker, block: StoredBlock) {
    && SoundCursor(d) && d.current != ROOT && Grows(c.blocks, d.blocks, w)
    && HasChild(d.blocks, c.current, block.tokensHash) && Child(d.blocks, c.current, block.tokensHash) == d.current
    && OnlyEdge(c.blocks, d.blocks, c.current, block.tokensHash)
    && (forall b: Id :: Holds(d.blocks, b, w) <==> Holds(c.blocks, b, w) || (c.insert && b == c.current))
  }

  lemma AdvanceOk(c: Cursor, w: Worker, block: StoredBlock)
    requires SoundCursor(c)
    ensures Stepped(c, Advance(c, w, block), w, block)
  {
    var g := Marked(c, w);
    if c.insert { WorkerAdded(c.blocks, c.next, c.current, w); }
    assert SoundTable(g, c.table);
    Linked(g, c.next, c.table, w, c.current, block);
    var h := Link(g, c.next, c.table, c.current, block);
    GrowsTransitive(c.blocks, g, h, w);
    TableGrows(c.blocks, h, w, c.table, block.blockHash, NextChild(c, w, block));
  }

  /** A store keeps graph and table sound and only grows the graph, for its worker alone. */
  lemma {:induction false} StoreFromGrows(c: Cursor, w: Worker, data: seq<StoredBlock>)
    requires SoundCursor(c)
    ensures
      var r := StoreFrom(c, w, data);
      Sound(r.blocks, r.next) && SoundTable(r.blocks, r.table) && Grows(c.blocks, r.blocks, w)
    decreases |data|
  {
    if data == [] {
      if c.insert {
        WorkerAdded(c.blocks, c.next, c.current, w);
        assert SoundTable(Marked(c, w), c.table);
      }
    } else {
      AdvanceOk(c, w, data[0]);
      var d := Advance(c, w, data[0]);
      if d.current != c.current {
        StoreFromGrows(d, w, data[1..]);
        GrowsTransitive(c.blocks, d.blocks, StoreFrom(c, w, data).blocks, w);
      }
    }
  }

  // ---- The chain of a store ----

  function Tokens(data: seq<StoredBlock>): (s: seq<LocalHash>)
    ensures |s| == |data| && forall i :: 0 <= i < |data| ==> s[i] == data[i].tokensHash
  {
    if data == [] then [] else [data[0].tokensHash] + Tokens(data[1..])
  }

  ghost predicate OnTrail(t: seq<Id>, s: seq<LocalHash>, b: Id, k: LocalHash) {
    exists i :: 0 <= i < |s| && i + 1 < |t| && t[i] == b && s[i] == k
  }

  /** New edges lie on the trail, and the worker is new only in blocks of the trail. */
  ghost predicate OnlyTrail(g: Graph, h: Graph, w: Worker, t: seq<Id>, s: seq<LocalHash>) {
    && (forall b: Id, k: LocalHash :: HasChild(h, b, k) ==> HasChild(g, b, k) || OnTrail(t, s, b, k))
    && forall b: Id :: Holds(h, b, w) ==> Holds(g, b, w) || b in t
  }

  /** The trail carries the stored blocks, the worker holds it after its first block, and the table leads
      to its end. */
  ghost predicate Chained(r: Stores, trail: seq<Id>, w: Worker, data: seq<StoredBlock>) {
    && Trail(r.blocks, trail, Tokens(data)) && HeldTo(r.blocks, trail, w, |data|)
    && (data != [] ==> Leads(r.table, data[|data| - 1].blockHash, trail[|data|]))
  }

  /** Every store runs along a trail below its parent: a full chain when it succeeds, and nothing new off
      the trail in any case. */
  lemma {:induction false} StoreTrail(c: Cursor, w: Worker, data: seq<StoredBlock>) returns (trail: seq<Id>)
    requires SoundCursor(c)
    ensures trail != [] && trail[0] == c.current
    ensures
      var r := StoreFrom(c, w, data);
      && OnlyTrail(c.blocks, r.blocks, w, trail, Tokens(data))
      && (r.outcome == Stored ==> Chained(r, trail, w, data) && (c.insert ==> Holds(r.blocks, c.current, w)))
    decreases |data|
  {
    if data == [] {
      trail := [c.current];
      if c.insert { WorkerAdded(c.blocks, c.next, c.current, w); }
    } else {
      AdvanceOk(c, w, data[0]);
      var d := Advance(c, w, data[0]);
      if d.current == c.current {
        trail := [c.current, c.current];
        StopTrail(c, d, w, data);
      } else {
        var rest := StoreTrail(d, w, data[1..]);
        StoreFromGrows(d, w, data[1..]);
        trail := [c.current] + rest;
        var r := StoreFrom(c, w, data);
        OnlyTrailCons(c, d, r.blocks, w, data, rest);
        if r.outcome == Stored { ChainCons(c, d, r, w, data, rest); }
      }
    }
  }

  lemma StopTrail(c: Cursor, d: Cursor, w: Worker, data: seq<StoredBlock>)
    requires data != [] && Stepped(c, d, w, data[0])
    ensures OnlyTrail(c.blocks, d.blocks, w, [c.current, c.current], Tokens(data))
  {
    var t := [c.current, c.current];
    assert t[0] == c.current && Tokens(data)[0] == data[0].tokensHash;
    assert OnTrail(t, Tokens(data), c.current, data[0].tokensHash);
  }

  lemma OnlyTrailCons(c: Cursor, d: Cursor, h: Graph, w: Worker, data: seq<StoredBlock>, rest: seq<Id>)
    requires data != [] && Stepped(c, d, w, data[0]) && rest != []
    requires OnlyTrail(d.blocks, h, w, rest, Tokens(data[1..]))
    ensures OnlyTrail(c.blocks, h, w, [c.current] + rest, Tokens(data))
  {
    var t, s, s1 := [c.current] + rest, Tokens(data), Tokens(data[1..]);
    forall b: Id, k: LocalHash | HasChild(h, b, k) ensures HasChild(c.blocks, b, k) || OnTrail(t, s, b, k) {
      if HasChild(d.blocks, b, k) {
        assert t[0] == c.current && s[0] == data[0].tokensHash && 0 + 1 < |t|;
      } else {
        var i :| 0 <= i < |s1| && i + 1 < |rest| && rest[i] == b && s1[i] == k;
        assert t[i + 1] == b && s[i + 1] == k && i + 1 + 1 < |t|;
      }
    }
  }

  lemma ChainCons(c: Cursor, d: Cursor, r: Stores, w: Worker, data: seq<StoredBlock>, rest: seq<Id>)
    requires data != [] && Stepped(c, d, w, data[0]) && Grows(d.blocks, r.blocks, w)
    requires rest != [] && rest[0] == d.current && Chained(r, rest, w, data[1..]) && Holds(r.blocks, d.current, w)
    requires |data| == 1 ==> Leads(r.table, data[0].blockHash, d.current)
    ensures Chained(r, [c.current] + rest, w, data) && (c.insert ==> Holds(r.blocks, c.current, w))
  {
    var t, s := [c.current] + rest, Tokens(data);
    assert HasChild(r.blocks, t[0], s[0]) && Child(r.blocks, t[0], s[0]) == t[1];
    assert c.current in r.blocks;
    forall i | 0 <= i < |s| ensures HasChild(r.blocks, t[i], s[i]) && Child(r.blocks, t[i], s[i]) == t[i + 1] {
      if i > 0 { assert t[i] == rest[i - 1] && s[i] == Tokens(data[1..])[i - 1]; }
    }
  }

  // ---- Tables ----

  /** Some stored hash already leads to another block than the one it now gets. */
  predicate Remaps(c: Cursor, w: Worker, data: seq<StoredBlock>)
    requires SoundCursor(c)
    decreases |data|
  {
    data != [] &&
    (AdvanceOk(c, w, data[0]);
     var d, hash := Advance(c, w, data[0]), data[0].blockHash;
     d.current != c.current && ((hash in c.table && c.table[hash] != d.current) || Remaps(d, w, data[1..])))
  }

  lemma {:induction false} StoreKeepsEntries(c: Cursor, w: Worker, data: seq<StoredBlock>)
    requires SoundCursor(c) && !Remaps(c, w, data)
    ensures forall hash: SequenceHash, b: Id :: Leads(c.table, hash, b) ==> Leads(StoreFrom(c, w, data).table, hash, b)
    decreases |data|
  {
    if data != [] {
      AdvanceOk(c, w, data[0]);
      var d := Advance(c, w, data[0]);
      if d.current != c.current { StoreKeepsEntries(d, w, data[1..]); }
    }
  }

  lemma {:induction false} StoreKeepsCover(c: Cursor, w: Worker, data: seq<StoredBlock>)
    requires SoundCursor(c) && !Remaps(c, w, data)
    requires Covers(c.blocks, c.table, w) && (c.insert ==> Listed(c.table, c.current))
    ensures Covers(StoreFrom(c, w, data).blocks, StoreFrom(c, w, data).table, w)
    decreases |data|
  {
    if data == [] {
      if c.insert { WorkerAdded(c.blocks, c.next, c.current, w); }
    } else {
      AdvanceOk(c, w, data[0]);
      var d := Advance(c, w, data[0]);
      if d.current != c.current {
        CoverAdvances(c, d, w, data[0].blockHash);
        StoreKeepsCover(d, w, data[1..]);
      }
    }
  }

  lemma CoverAdvances(c: Cursor, d: Cursor, w: Worker, hash: SequenceHash)
    requires Covers(c.blocks, c.table, w) && (c.insert ==> Listed(c.table, c.current))
    requires forall b: Id :: Holds(d.blocks, b, w) <==> Holds(c.blocks, b, w) || (c.insert && b == c.current)
    requires d.table == c.table[hash := d.current] && (hash in c.table ==> c.table[hash] == d.current)
    ensures Covers(d.blocks, d.table, w) && Listed(d.table, d.current)
  {
    assert Leads(d.table, hash, d.current);
    forall b: Id | Holds(d.blocks, b, w) ensures Listed(d.table, b) {
      assert Listed(c.table, b);
      var k: SequenceHash :| Leads(c.table, k, b);
      assert Leads(d.table, k, b);
    }
  }
}
