/** Single blocks of the radix tree: which one a store reuses or creates, what a removal leaves, and when a
    store is refused. */
module RadixBlocks {
  import opened Options
  import opened RadixGraph
  import opened RadixEvents
  import opened RadixRuns

  // ---- Matches ----

  /** A match has length n exactly when n blocks follow and the worker holds each of them. */
  lemma {:induction false} DepthIff(g: Graph, b: Id, s: seq<LocalHash>, w: Worker, n: nat)
    requires Closed(g) && b in g
    ensures Depth(g, b, s, w) >= n <==>
            Follows(g, b, s, n) && forall i: nat :: 1 <= i <= n ==> HeldAt(g, b, s, w, i)
    decreases n
  {
    if n > 0 {
      if s != [] && HasChild(g, b, s[0]) {
        var c := Child(g, b, s[0]);
        DepthIff(g, c, s[1..], w, n - 1);
        if Follows(g, b, s, n) {
          forall i: nat | 1 <= i < n ensures HeldAt(g, c, s[1..], w, i) <==> HeldAt(g, b, s, w, i + 1) {
            FollowsLess(g, b, s, n, i + 1);
          }
          FollowsLess(g, b, s, n, 1);
          assert HeldAt(g, b, s, w, 1) <==> Holds(g, c, w);
          forall i: nat | 1 < i <= n ensures HeldAt(g, b, s, w, i) <==> HeldAt(g, c, s[1..], w, i - 1) {
            FollowsLess(g, b, s, n, i);
          }
        }
      }
    }
  }

  ghost predicate HeldAt(g: Graph, b: Id, s: seq<LocalHash>, w: Worker, i: nat)
    requires Closed(g) && b in g
  {
    Follows(g, b, s, i) && Holds(g, End(g, b, s, i), w)
  }

  lemma {:induction false} FollowsLess(g: Graph, b: Id, s: seq<LocalHash>, n: nat, m: nat)
    requires Closed(g) && b in g && Follows(g, b, s, n) && m <= n
    ensures Follows(g, b, s, m)
    decreases m
  {
    if m > 0 { FollowsLess(g, Child(g, b, s[0]), s[1..], n - 1, m - 1); }
  }

  // ---- Storing one block ----

  /** An existing child is used as it is. Otherwise the worker's own block of that hash becomes the child, or a
      new block that carries the hash and nothing else. No other block changes. */
  lemma LinkedBlock(g: Graph, next: Id, l: Lookup, current: Id, d: StoredBlock)
    requires Sound(g, next) && SoundTable(g, l) && current in g
    ensures
      var h, child := Link(g, next, l, current, d), ChildFor(g, next, l, current, d);
      && (HasChild(g, current, d.tokensHash) ==> h == g && child == Child(g, current, d.tokensHash))
      && (!HasChild(g, current, d.tokensHash) ==>
            && current in h && h[current] == g[current].(children := g[current].children[d.tokensHash := child])
            && (forall b: Id :: b in g && b != current ==> b in h && h[b] == g[b])
            && (d.blockHash in l ==> child == l[d.blockHash] && h.Keys == g.Keys)
            && (d.blockHash !in l ==>
                  && child == next && child !in g && h.Keys == g.Keys + {child}
                  && h[child] == Block(map[], {}, Some(d.blockHash))))
  {
    if d.blockHash in l { assert Leads(l, d.blockHash, l[d.blockHash]); }
  }

  /** The block would become its own child. */
  ghost predicate OwnChild(c: Cursor, d: StoredBlock) {
    if HasChild(c.blocks, c.current, d.tokensHash) then Child(c.blocks, c.current, d.tokensHash) == c.current
    else Leads(c.table, d.blockHash, c.current)
  }

  lemma AdvanceStops(c: Cursor, w: Worker, d: StoredBlock)
    requires SoundCursor(c)
    ensures Advance(c, w, d).current == c.current <==> OwnChild(c, d)
  {
    assert c.current < c.next;
  }

  /** Which outcome a store has: the parent must be in the worker's table, and the chain ends in an error
      exactly at a block that would become its own child. */
  lemma StoreOutcome(g: Graph, next: Id, l: Lookup, w: Worker, parent: Option<SequenceHash>, data: seq<StoredBlock>)
    requires Sound(g, next) && SoundTable(g, l)
    ensures
      var r := Store(g, next, l, w, parent, data);
      && (r.outcome == ParentBlockNotFound <==> parent.Some? && parent.value !in l)
      && (r.outcome == ParentBlockNotFound ==> r == Stores(g, next, l, ParentBlockNotFound))
      && (parent.None? ==> r == StoreFrom(Cursor(g, next, l, ROOT, false), w, data))
      && (parent.Some? && parent.value in l ==>
            l[parent.value] in g && r == StoreFrom(Cursor(g, next, l, l[parent.value], false), w, data))
  {
    if parent.Some? && parent.value in l {
      assert Leads(l, parent.value, l[parent.value]);
      FromOutcome(Cursor(g, next, l, l[parent.value], false), w, data);
    }
    FromOutcome(Cursor(g, next, l, ROOT, false), w, data);
  }

  lemma {:induction false} FromOutcome(c: Cursor, w: Worker, data: seq<StoredBlock>)
    requires SoundCursor(c)
    ensures StoreFrom(c, w, data).outcome != ParentBlockNotFound
    decreases |data|
  {
    if data != [] {
      AdvanceOk(c, w, data[0]);
      var d := Advance(c, w, data[0]);
      if d.current != c.current { FromOutcome(d, w, data[1..]); }
    }
  }

  /** The chain: an empty one is stored; otherwise the first block decides, and then the rest. A block that
      would become its own child has become it when the error is raised, and the table is as before. */
  lemma ChainOutcome(c: Cursor, w: Worker, data: seq<StoredBlock>)
    requires SoundCursor(c)
    ensures data == [] ==> StoreFrom(c, w, data).outcome == Stored
    ensures data != [] ==>
              SoundCursor(Advance(c, w, data[0])) &&
              (OwnChild(c, data[0]) ==> SelfLinked(c, w, data[0], StoreFrom(c, w, data))) &&
              (!OwnChild(c, data[0]) ==>
                 StoreFrom(c, w, data).outcome == StoreFrom(Advance(c, w, data[0]), w, data[1..]).outcome)
  {
    if data != [] {
      AdvanceOk(c, w, data[0]);
      AdvanceStops(c, w, data[0]);
      if OwnChild(c, data[0]) { OwnChildLinks(c, w, data[0]); }
    }
  }

  ghost predicate SelfLinked(c: Cursor, w: Worker, d: StoredBlock, r: Stores)
    requires c.current in c.blocks
  {
    && r.outcome == InvalidBlockSequence && r.table == c.table && r.next == c.next
    && r.blocks == c.blocks[c.current := Block(c.blocks[c.current].children[d.tokensHash := c.current],
                                               c.blocks[c.current].workers + (if c.insert then {w} else {}),
                                               c.blocks[c.current].hash)]
  }

  lemma OwnChildLinks(c: Cursor, w: Worker, d: StoredBlock)
    requires SoundCursor(c) && OwnChild(c, d)
    ensures
      var a := Advance(c, w, d);
      SelfLinked(c, w, d, Stores(a.blocks, a.next, a.table, InvalidBlockSequence))
  {
    AdvanceStops(c, w, d);
    var b := c.blocks[c.current];
    var held := b.workers + (if c.insert then {w} else {});
    assert Marked(c, w)[c.current] == b.(workers := held);
    var linked := Block(b.children[d.tokensHash := c.current], held, b.hash);
    if HasChild(c.blocks, c.current, d.tokensHash) {
      assert b.children[d.tokensHash := c.current] == b.children;
    }
    assert Advance(c, w, d).blocks == c.blocks[c.current := linked];
  }

  /** Every block that a store creates carries the hash of a stored block. */
  lemma {:induction false} NewBlocksHashed(c: Cursor, w: Worker, data: seq<StoredBlock>, b: Id)
    requires SoundCursor(c) && b in StoreFrom(c, w, data).blocks && b !in c.blocks
    ensures exists d :: d in data && StoreFrom(c, w, data).blocks[b].hash == Some(d.blockHash)
    decreases |data|
  {
    if data != [] {
      AdvanceOk(c, w, data[0]);
      var d := Advance(c, w, data[0]);
      AdvanceHashes(c, w, data[0], b);
      if d.current != c.current {
        StoreFromGrows(d, w, data[1..]);
        if b !in d.blocks {
          NewBlocksHashed(d, w, data[1..], b);
          var x :| x in data[1..] && StoreFrom(d, w, data[1..]).blocks[b].hash == Some(x.blockHash);
          assert x in data;
        }
      }
    }
  }

  lemma AdvanceHashes(c: Cursor, w: Worker, d: StoredBlock, b: Id)
    requires SoundCursor(c)
    ensures
      var a := Advance(c, w, d);
      b in a.blocks && b !in c.blocks ==> a.blocks[b].hash == Some(d.blockHash)
  {
  }

  // ---- Removing ----

  /** A block loses the worker; one that loses its last worker forgets its children. Nothing else changes. */
  lemma DroppedBlock(g: Graph, b: Id, w: Worker)
    requires b in g
    ensures
      var h := DropWorker(g, b, w);
      && h[b].workers == g[b].workers - {w} && h[b].hash == g[b].hash
      && (g[b].workers <= {w} ==> h[b].children == map[])
      && (!(g[b].workers <= {w}) ==> h[b].children == g[b].children)
      && forall c: Id :: c in g && c != b ==> h[c] == g[c]
  {
  }

  /** After a series of drops, exactly the dropped blocks that nobody holds any more have lost their
      children. */
  lemma {:induction false} DroppedBlocks(g: Graph, dropped: seq<Id>, w: Worker, b: Id)
    requires (forall d: Id :: d in dropped ==> d in g) && b in g
    ensures
      var h := DropAll(g, dropped, w);
      h[b] == if b !in dropped then g[b]
              else Block(if g[b].workers <= {w} then map[] else g[b].children, g[b].workers - {w}, g[b].hash)
    decreases dropped
  {
    if dropped != [] {
      assert dropped == [dropped[0]] + dropped[1..];
      DroppedBlocks(DropWorker(g, dropped[0], w), dropped[1..], w, b);
    }
  }

  // ---- Tables ----

  /** An event changes the table of its worker only: a removal takes the named hashes out, or all of them. */
  lemma StepTables(s: State, e: Event, v: Worker)
    requires Good(s)
    ensures v != e.worker ==> Table(Step(s, e), v) == Table(s, v)
    ensures e.Clear? ==> Table(Step(s, e), e.worker) == map[]
    ensures e.Remove? ==>
              forall hash: SequenceHash, b: Id ::
                Leads(Table(Step(s, e), e.worker), hash, b) <==> Leads(Table(s, e.worker), hash, b) && hash !in e.hashes
  {
  }

  /** A stored block becomes the entry of its hash, and no other entry changes. */
  lemma AdvanceTable(c: Cursor, w: Worker, d: StoredBlock)
    requires SoundCursor(c) && !OwnChild(c, d)
    ensures
      var a := Advance(c, w, d);
      && a.insert && Leads(a.table, d.blockHash, a.current)
      && forall hash: SequenceHash, b: Id ::
           hash != d.blockHash ==> (Leads(a.table, hash, b) <==> Leads(c.table, hash, b))
  {
    AdvanceStops(c, w, d);
  }
}
