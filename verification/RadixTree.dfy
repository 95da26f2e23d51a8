/** The radix index as it runs: prefix queries and the events that change the graph in place. */
module RadixTree {
  import opened Options
  import opened RadixGraph
  import opened RadixEvents
  import opened RadixRuns

  datatype PrefixMatch = PrefixMatch(depth: nat, last: Option<SequenceHash>)

  // ---- Queries ----

  /** The longest match of a worker, and the hash of its last block. */
  ghost predicate MatchOf(g: Graph, b: Id, s: seq<LocalHash>, w: Worker, m: PrefixMatch)
    requires Closed(g) && b in g
  {
    && m.depth == Depth(g, b, s, w)
    && Follows(g, b, s, m.depth) && m.last == g[End(g, b, s, m.depth)].hash
  }

  lemma StepIff(g: Graph, b: Id, s: seq<LocalHash>, w: Worker, n: nat)
    requires Closed(g) && b in g && n < |s| && Follows(g, b, s, n) && n <= Depth(g, b, s, w)
    ensures
      var e := End(g, b, s, n);
      Depth(g, b, s, w) > n <==> HasChild(g, e, s[n]) && Holds(g, Child(g, e, s[n]), w)
  {
    DepthFrom(g, b, s, w, n);
    assert s[n..][0] == s[n];
  }

  /** After `n` levels: `active` holds the workers that match so far, `results` the others' matches. */
  ghost predicate Walked(g: Graph, b: Id, s: seq<LocalHash>, n: nat, active: set<Worker>,
                         results: map<Worker, PrefixMatch>)
    requires Closed(g) && b in g
  {
    && (forall w :: w in active <==> Depth(g, b, s, w) >= n)
    && (forall w :: w in results <==> 0 < Depth(g, b, s, w) < n)
    && forall w :: w in results ==> MatchOf(g, b, s, w, results[w])
  }

  /** Workers in `dropped` end at depth `n`. */
  function Record(results: map<Worker, PrefixMatch>, dropped: set<Worker>, m: PrefixMatch): map<Worker, PrefixMatch> {
    results + map w | w in dropped :: m
  }

  lemma WalkStep(g: Graph, b: Id, s: seq<LocalHash>, n: nat, active: set<Worker>, results: map<Worker, PrefixMatch>,
                 child: Id)
    requires Closed(g) && b in g && 1 <= n < |s| && Follows(g, b, s, n) && Walked(g, b, s, n, active, results)
    requires HasChild(g, End(g, b, s, n), s[n]) && child == Child(g, End(g, b, s, n), s[n])
    ensures
      var m := PrefixMatch(n, g[End(g, b, s, n)].hash);
      var kept := active * g[child].workers;
      Walked(g, b, s, n + 1, kept, Record(results, active - kept, m))
  {
    var kept := active * g[child].workers;
    forall w ensures w in kept <==> Depth(g, b, s, w) >= n + 1 {
      if w in active { StepIff(g, b, s, w, n); }
    }
  }

  /** Once nothing can follow, what is left in `active` ends at depth `n`. */
  lemma WalkEnds(g: Graph, b: Id, s: seq<LocalHash>, n: nat, active: set<Worker>, results: map<Worker, PrefixMatch>)
    requires Closed(g) && b in g && 1 <= n <= |s| && Follows(g, b, s, n) && Walked(g, b, s, n, active, results)
    requires n == |s| || !HasChild(g, End(g, b, s, n), s[n])
    ensures
      var all := Record(results, active, PrefixMatch(n, g[End(g, b, s, n)].hash));
      Answers(g, b, s, all)
  {
    forall w | w in active ensures Depth(g, b, s, w) == n {
      if n < |s| { StepIff(g, b, s, w, n); }
    }
  }

  /** Exactly the workers with a match are listed, each with its longest one. */
  ghost predicate Answers(g: Graph, b: Id, s: seq<LocalHash>, results: map<Worker, PrefixMatch>)
    requires Closed(g) && b in g
  {
    && (forall w :: w in results <==> Depth(g, b, s, w) > 0)
    && forall w :: w in results ==> MatchOf(g, b, s, w, results[w])
  }

  lemma NobodyLeft(g: Graph, b: Id, s: seq<LocalHash>, n: nat, results: map<Worker, PrefixMatch>, m: PrefixMatch)
    requires Closed(g) && b in g && Walked(g, b, s, n, {}, results)
    ensures Answers(g, b, s, Record(results, {}, m))
  {
    assert Record(results, {}, m) == results;
    var nobody: set<Worker> := {};
    forall w ensures Depth(g, b, s, w) < n {
      assert w !in nobody;
    }
  }

  /** One level: workers without the child block leave, a single remaining worker being the short cut. */
  method Reconcile(active: set<Worker>, results: map<Worker, PrefixMatch>, holders: set<Worker>, m: PrefixMatch)
    returns (kept: set<Worker>, all: map<Worker, PrefixMatch>)
    ensures kept == active * holders && all == Record(results, active - kept, m)
  {
    if |active| == 1 {
      var w :| w in active;
      Single(active, w);
      if w in holders {
        kept, all := active, results;
      } else {
        kept, all := {}, results[w := m];
      }
    } else {
      kept := active * holders;
      all := Record(results, active - kept, m);
    }
  }

  lemma Single(active: set<Worker>, w: Worker)
    requires |active| == 1 && w in active
    ensures active == {w}
  {
    assert active == {w} + (active - {w});
    assert |active - {w}| == 0;
  }

  lemma FirstLevel(g: Graph, b: Id, s: seq<LocalHash>)
    requires Closed(g) && b in g && s != [] && HasChild(g, b, s[0])
    ensures Follows(g, b, s, 1) && End(g, b, s, 1) == Child(g, b, s[0])
    ensures Walked(g, b, s, 1, g[Child(g, b, s[0])].workers, map[])
  {
  }

  class RadixTree {
    var blocks: Graph
    var next: Id

    ghost predicate Valid()
      reads this
    {
      Sound(blocks, next)
    }

    constructor ()
      ensures Valid() && blocks == EMPTY.blocks && next == EMPTY.next
    {
      blocks := map[ROOT := Block(map[], {}, None)];
      next := 1;
    }

    /** find_matches_detailed */
    method FindMatchesDetailed(sequence: seq<LocalHash>) returns (results: map<Worker, PrefixMatch>)
      requires Valid()
      ensures Answers(blocks, ROOT, sequence, results)
    {
      results := map[];
      if sequence == [] {
        return;
      }
      if !HasChild(blocks, ROOT, sequence[0]) {
        return;
      }
      var current := Child(blocks, ROOT, sequence[0]);
      var active := blocks[current].workers;
      FirstLevel(blocks, ROOT, sequence);
      if active == {} {
        NobodyLeft(blocks, ROOT, sequence, 1, results, PrefixMatch(0, None));
        return;
      }
      var depth: nat := 1;
      while depth < |sequence|
        invariant 1 <= depth <= |sequence| && Follows(blocks, ROOT, sequence, depth)
        invariant current == End(blocks, ROOT, sequence, depth)
        invariant Walked(blocks, ROOT, sequence, depth, active, results)
      {
        if !HasChild(blocks, current, sequence[depth]) {
          break;
        }
        var child := Child(blocks, current, sequence[depth]);
        var last := blocks[current].hash;
        WalkStep(blocks, ROOT, sequence, depth, active, results, child);
        FollowsNext(blocks, ROOT, sequence, depth);
        active, results := Reconcile(active, results, blocks[child].workers, PrefixMatch(depth, last));
        if active == {} {
          NobodyLeft(blocks, ROOT, sequence, depth + 1, results, PrefixMatch(0, None));
          return;
        }
        current, depth := child, depth + 1;
      }
      WalkEnds(blocks, ROOT, sequence, depth, active, results);
      results := Record(results, active, PrefixMatch(depth, blocks[current].hash));
    }

    /** apply_store */
    method ApplyStore(worker: Worker, lookup: Lookup, parent: Option<SequenceHash>, data: seq<StoredBlock>)
      returns (r: Outcome, all: Lookup)
      requires Valid() && SoundTable(blocks, lookup)
      modifies this
      ensures Stores(blocks, next, all, r) == old(Store(blocks, next, lookup, worker, parent, data))
      ensures Valid() && SoundTable(blocks, all) && Grows(old(blocks), blocks, worker)
    {
      var current := ROOT;
      if parent.Some? {
        if parent.value !in lookup {
          return ParentBlockNotFound, lookup;
        }
        current := lookup[parent.value];
        assert Leads(lookup, parent.value, current);
      }
      StoreFromGrows(Cursor(blocks, next, lookup, current, false), worker, data);
      r, all := StoreBlocks(worker, lookup, current, data);
    }

    /** The loop of apply_store and the insertion after it. */
    method StoreBlocks(worker: Worker, lookup: Lookup, start: Id, data: seq<StoredBlock>)
      returns (r: Outcome, all: Lookup)
      requires SoundCursor(Cursor(blocks, next, lookup, start, false))
      modifies this
      ensures Stores(blocks, next, all, r) == old(StoreFrom(Cursor(blocks, next, lookup, start, false), worker, data))
    {
      ghost var goal := StoreFrom(Cursor(blocks, next, lookup, start, false), worker, data);
      var current, insert, k: nat := start, false, 0;
      all := lookup;
      assert data[0..] == data;
      while k < |data|
        invariant k <= |data| && Ahead(Cursor(blocks, next, all, current, insert), worker, data, k, goal)
      {
        var child := StoreBlock(worker, all, current, insert, data, k, goal);
        if child == current {
          return InvalidBlockSequence, all;
        }
        all := all[data[k].blockHash := child];
        current, insert := child, true;
        k := k + 1;
      }
      Arrived(Cursor(blocks, next, all, current, insert), worker, data, goal);
      if insert {
        blocks := AddWorker(blocks, current, worker);
      }
      r := Stored;
    }

    /** One stored block, up to the check for a block that is its own child. */
    method StoreBlock(worker: Worker, lookup: Lookup, current: Id, insert: bool, data: seq<StoredBlock>, k: nat,
                      ghost goal: Stores) returns (child: Id)
      requires k < |data| && Ahead(Cursor(blocks, next, lookup, current, insert), worker, data, k, goal)
      modifies this
      ensures child == old(Advance(Cursor(blocks, next, lookup, current, insert), worker, data[k])).current
      ensures child == current ==> goal == Stores(blocks, next, lookup, InvalidBlockSequence)
      ensures child != current ==>
                Ahead(Cursor(blocks, next, lookup[data[k].blockHash := child], child, true), worker, data, k + 1, goal)
    {
      Follow(Cursor(blocks, next, lookup, current, insert), worker, data, k, goal);
      if insert {
        blocks := AddWorker(blocks, current, worker);
      }
      child := LinkBlock(lookup, current, data[k]);
    }

    /** The existing child, the worker's own block of that hash, or a new block. */
    method LinkBlock(lookup: Lookup, current: Id, d: StoredBlock) returns (child: Id)
      requires current in blocks
      modifies this
      ensures child == ChildFor(old(blocks), old(next), lookup, current, d)
      ensures blocks == Link(old(blocks), old(next), lookup, current, d)
      ensures next == if NeedsBlock(old(blocks), lookup, current, d) then old(next) + 1 else old(next)
    {
      if HasChild(blocks, current, d.tokensHash) {
        return Child(blocks, current, d.tokensHash);
      }
      if d.blockHash in lookup {
        child := lookup[d.blockHash];
      } else {
        child := next;
        blocks := AddBlock(blocks, child, d.blockHash);
        next := next + 1;
      }
      blocks := AddEdge(blocks, current, d.tokensHash, child);
    }

    /** apply_remove */
    method ApplyRemove(worker: Worker, lookup: Lookup, hashes: seq<SequenceHash>) returns (left: Lookup)
      requires Valid() && SoundTable(blocks, lookup)
      modifies this`blocks
      ensures forall b: Id :: b in Dropped(lookup, hashes) ==> b in old(blocks)
      ensures blocks == DropAll(old(blocks), Dropped(lookup, hashes), worker) && left == lookup - HashSet(hashes)
      ensures Valid()
    {
      DroppedSound(blocks, lookup, hashes);
      DropAllSound(blocks, next, Dropped(lookup, hashes), worker);
      left := lookup;
      var k: nat := 0;
      assert hashes[0..] == hashes;
      while k < |hashes|
        invariant k <= |hashes| && left == lookup - HashSet(hashes[..k])
        invariant forall b: Id :: b in Dropped(left, hashes[k..]) ==> b in blocks
        invariant DropAll(old(blocks), Dropped(lookup, hashes), worker) ==
                  DropAll(blocks, Dropped(left, hashes[k..]), worker)
      {
        NextHash(hashes, k);
        NextDrop(left, hashes[k..]);
        if hashes[k] in left {
          blocks := DropWorker(blocks, left[hashes[k]], worker);
          left := left - {hashes[k]};
        }
        k := k + 1;
      }
      assert hashes[..k] == hashes;
    }

    /** remove_worker; `order` is the order in which the table lists its entries. */
    method RemoveWorker(worker: Worker, lookup: Lookup, order: seq<SequenceHash>) returns (left: Lookup)
      requires Valid() && SoundTable(blocks, lookup) && HashSet(order) == lookup.Keys
      requires forall i, j :: 0 <= i < j < |order| ==> order[i] != order[j]
      modifies this`blocks
      ensures forall b: Id :: b in Dropped(lookup, order) ==> b in old(blocks)
      ensures blocks == DropAll(old(blocks), Dropped(lookup, order), worker) && left == map[] && Valid()
    {
      DroppedSound(blocks, lookup, order);
      DropAllSound(blocks, next, Dropped(lookup, order), worker);
      var k: nat := 0;
      assert order[0..] == order && lookup - HashSet(order[..0]) == lookup;
      while k < |order|
        invariant k <= |order| && DropsLeft(old(blocks), blocks, lookup, order, k, worker)
      {
        DropsNext(old(blocks), blocks, lookup, order, k, worker);
        blocks := DropWorker(blocks, lookup[order[k]], worker);
        k := k + 1;
      }
      left := map[];
    }
  }

  /** Going on from the cursor with the blocks from `k` on leads to the goal. */
  ghost predicate Ahead(c: Cursor, w: Worker, data: seq<StoredBlock>, k: nat, goal: Stores)
    requires k <= |data|
  {
    SoundCursor(c) && StoreFrom(c, w, data[k..]) == goal
  }

  lemma Follow(c: Cursor, w: Worker, data: seq<StoredBlock>, k: nat, goal: Stores)
    requires k < |data| && Ahead(c, w, data, k, goal)
    ensures
      var a := Advance(c, w, data[k]);
      if a.current == c.current then goal == Stores(a.blocks, a.next, c.table, InvalidBlockSequence)
      else a.insert && a.table == c.table[data[k].blockHash := a.current] && Ahead(a, w, data, k + 1, goal)
  {
    AdvanceOk(c, w, data[k]);
    assert data[k..][0] == data[k] && data[k..][1..] == data[k + 1..];
  }

  lemma Arrived(c: Cursor, w: Worker, data: seq<StoredBlock>, goal: Stores)
    requires Ahead(c, w, data, |data|, goal)
    ensures c.current in c.blocks && goal == Stores(Marked(c, w), c.next, c.table, Stored)
  {
  }

  /** What remains to be dropped after `k` entries gives the whole removal. */
  ghost predicate DropsLeft(g: Graph, h: Graph, l: Lookup, order: seq<SequenceHash>, k: nat, w: Worker)
    requires k <= |order|
  {
    var rest := Dropped(l - HashSet(order[..k]), order[k..]);
    && (forall b: Id :: b in Dropped(l, order) ==> b in g) && (forall b: Id :: b in rest ==> b in h)
    && DropAll(g, Dropped(l, order), w) == DropAll(h, rest, w)
  }

  lemma DropsNext(g: Graph, h: Graph, l: Lookup, order: seq<SequenceHash>, k: nat, w: Worker)
    requires k < |order| && HashSet(order) == l.Keys && DropsLeft(g, h, l, order, k, w)
    requires forall i, j :: 0 <= i < j < |order| ==> order[i] != order[j]
    ensures order[k] in l && l[order[k]] in h && DropsLeft(g, DropWorker(h, l[order[k]], w), l, order, k + 1, w)
  {
    var rest := l - HashSet(order[..k]);
    assert order[k] in HashSet(order) && order[k] !in order[..k];
    NextHash(order, k);
    NextDrop(rest, order[k..]);
    assert rest - {order[k]} == l - HashSet(order[..k + 1]);
  }

  lemma NextHash(hashes: seq<SequenceHash>, k: nat)
    requires k < |hashes|
    ensures HashSet(hashes[..k + 1]) == HashSet(hashes[..k]) + {hashes[k]}
    ensures hashes[k..][0] == hashes[k] && hashes[k..][1..] == hashes[k + 1..]
  {
    assert hashes[..k + 1] == hashes[..k] + [hashes[k]];
  }

  lemma NextDrop(l: Lookup, hashes: seq<SequenceHash>)
    requires hashes != []
    ensures hashes[0] in l ==>
              Dropped(l, hashes) != [] && Dropped(l, hashes)[0] == l[hashes[0]] &&
              Dropped(l, hashes)[1..] == Dropped(l - {hashes[0]}, hashes[1..])
    ensures hashes[0] !in l ==> Dropped(l, hashes) == Dropped(l, hashes[1..])
  {
  }
}
