/** The block graph behind the KV-cache radix index. Blocks are shared, so the graph may be any graph,
    cyclic ones included. */
module RadixGraph {
  import opened Options

  type Id = nat
  type LocalHash = int
  type SequenceHash = int

  /** A worker, by instance, data-parallel rank and storage medium. */
  datatype Worker = Worker(instanceId: string, backendId: string, dpRank: nat, medium: Medium)

  datatype Medium = Npu | Cpu | Disk | Unknown

  datatype Block = Block(children: map<LocalHash, Id>, workers: set<Worker>, hash: Option<SequenceHash>)

  type Graph = map<Id, Block>

  predicate HasChild(g: Graph, b: Id, k: LocalHash) {
    b in g && k in g[b].children
  }

  function Child(g: Graph, b: Id, k: LocalHash): Id
    requires HasChild(g, b, k)
  {
    g[b].children[k]
  }

  predicate Holds(g: Graph, b: Id, w: Worker) {
    b in g && w in g[b].workers
  }

  ghost predicate Closed(g: Graph) {
    forall b: Id, k: LocalHash :: HasChild(g, b, k) ==> Child(g, b, k) in g
  }

  /** The number of leading blocks of `s` below `b` that `w` holds without a gap. */
  function Depth(g: Graph, b: Id, s: seq<LocalHash>, w: Worker): (n: nat)
    requires Closed(g) && b in g
    ensures n <= |s|
    decreases |s|
  {
    if s == [] || !HasChild(g, b, s[0]) || !Holds(g, Child(g, b, s[0]), w) then 0
    else 1 + Depth(g, Child(g, b, s[0]), s[1..], w)
  }

  /** `n` blocks of `s` can be followed from `b`. */
  predicate Follows(g: Graph, b: Id, s: seq<LocalHash>, n: nat)
    requires Closed(g) && b in g
    decreases n
  {
    n == 0 || (s != [] && HasChild(g, b, s[0]) && Follows(g, Child(g, b, s[0]), s[1..], n - 1))
  }

  function End(g: Graph, b: Id, s: seq<LocalHash>, n: nat): (e: Id)
    requires Closed(g) && b in g && Follows(g, b, s, n)
    ensures e in g
    decreases n
  {
    if n == 0 then b else End(g, Child(g, b, s[0]), s[1..], n - 1)
  }

  lemma {:induction false} DepthFollows(g: Graph, b: Id, s: seq<LocalHash>, w: Worker, n: nat)
    requires Closed(g) && b in g && n <= Depth(g, b, s, w)
    ensures Follows(g, b, s, n)
    decreases n
  {
    if n > 0 { DepthFollows(g, Child(g, b, s[0]), s[1..], w, n - 1); }
  }

  /** A match of length n goes on exactly as below its last block. */
  lemma {:induction false} DepthFrom(g: Graph, b: Id, s: seq<LocalHash>, w: Worker, n: nat)
    requires Closed(g) && b in g && n <= |s| && Follows(g, b, s, n) && n <= Depth(g, b, s, w)
    ensures Depth(g, b, s, w) == n + Depth(g, End(g, b, s, n), s[n..], w)
    decreases n
  {
    if n == 0 {
      assert s[0..] == s;
    } else {
      DepthFrom(g, Child(g, b, s[0]), s[1..], w, n - 1);
      assert s[1..][n - 1..] == s[n..];
    }
  }

  lemma {:induction false} FollowsNext(g: Graph, b: Id, s: seq<LocalHash>, n: nat)
    requires Closed(g) && b in g && n < |s| && Follows(g, b, s, n)
    requires HasChild(g, End(g, b, s, n), s[n])
    ensures Follows(g, b, s, n + 1) && End(g, b, s, n + 1) == Child(g, End(g, b, s, n), s[n])
    decreases n
  {
    if n > 0 { FollowsNext(g, Child(g, b, s[0]), s[1..], n - 1); }
  }

  // ---- Growing graphs ----

  /** Blocks keep their children and their hash, and only `w` is added to worker sets. */
  ghost predicate Grows(g: Graph, h: Graph, w: Worker) {
    && (forall b: Id :: b in g ==> b in h && h[b].hash == g[b].hash)
    && (forall b: Id, k: LocalHash :: HasChild(g, b, k) ==> HasChild(h, b, k) && Child(h, b, k) == Child(g, b, k))
    && (forall b: Id, v: Worker :: Holds(g, b, v) ==> Holds(h, b, v))
    && (forall b: Id, v: Worker :: Holds(h, b, v) ==> Holds(g, b, v) || v == w)
  }

  lemma GrowsTransitive(g: Graph, h: Graph, i: Graph, w: Worker)
    requires Grows(g, h, w) && Grows(h, i, w)
    ensures Grows(g, i, w)
  {
  }

  /** Growth never shortens a match. */
  lemma {:induction false} GrowthKeepsMatches(g: Graph, h: Graph, w: Worker, b: Id, s: seq<LocalHash>, v: Worker)
    requires Closed(g) && Closed(h) && Grows(g, h, w) && b in g
    ensures Depth(g, b, s, v) <= Depth(h, b, s, v)
    decreases |s|
  {
    if Depth(g, b, s, v) > 0 { GrowthKeepsMatches(g, h, w, Child(g, b, s[0]), s[1..], v); }
  }

  /** Along `t` the edges carry the hashes `s`. */
  ghost predicate Trail(g: Graph, t: seq<Id>, s: seq<LocalHash>) {
    && |t| == |s| + 1 && (forall i :: 0 <= i <= |s| ==> t[i] in g)
    && forall i :: 0 <= i < |s| ==> HasChild(g, t[i], s[i]) && Child(g, t[i], s[i]) == t[i + 1]
  }

  /** The worker holds the blocks after the first, up to the m-th. */
  ghost predicate HeldTo(g: Graph, t: seq<Id>, w: Worker, m: nat) {
    m < |t| && forall i :: 1 <= i <= m ==> Holds(g, t[i], w)
  }

  lemma TrailGrows(g: Graph, h: Graph, w: Worker, t: seq<Id>, s: seq<LocalHash>, v: Worker, m: nat)
    requires Grows(g, h, w) && Trail(g, t, s) && HeldTo(g, t, v, m)
    ensures Trail(h, t, s) && HeldTo(h, t, v, m)
  {
    forall i | 0 <= i < |s| ensures HasChild(h, t[i], s[i]) && Child(h, t[i], s[i]) == t[i + 1] {
      assert t[i] in g && HasChild(g, t[i], s[i]);
    }
  }

  /** A trail held throughout is a match. */
  lemma {:induction false} TrailMatches(g: Graph, t: seq<Id>, s: seq<LocalHash>, w: Worker)
    requires Closed(g) && Trail(g, t, s) && HeldTo(g, t, w, |s|)
    ensures Depth(g, t[0], s, w) == |s| && Follows(g, t[0], s, |s|) && End(g, t[0], s, |s|) == t[|s|]
    decreases |s|
  {
    if s != [] {
      assert HasChild(g, t[0], s[0]) && Child(g, t[0], s[0]) == t[1] && Holds(g, t[1], w);
      TrailMatches(g, t[1..], s[1..], w);
    }
  }

  /** Two trails end to end. */
  lemma TrailsJoin(g: Graph, t: seq<Id>, s: seq<LocalHash>, u: seq<Id>, r: seq<LocalHash>, w: Worker)
    requires Trail(g, t, s) && HeldTo(g, t, w, |s|) && Trail(g, u, r) && HeldTo(g, u, w, |r|) && t[|s|] == u[0]
    ensures Trail(g, t + u[1..], s + r) && HeldTo(g, t + u[1..], w, |s| + |r|)
  {
  }

  // ---- Dropping a worker ----

  /** Block::drop_worker: a block without workers forgets its children. */
  function DropWorker(g: Graph, b: Id, w: Worker): (h: Graph)
    requires b in g
    ensures h.Keys == g.Keys
  {
    var left := g[b].workers - {w};
    g[b := Block(if left == {} then map[] else g[b].children, left, g[b].hash)]
  }

  function DropAll(g: Graph, dropped: seq<Id>, w: Worker): (h: Graph)
    requires forall b: Id :: b in dropped ==> b in g
    ensures h.Keys == g.Keys
  {
    if dropped == [] then g else DropAll(DropWorker(g, dropped[0], w), dropped[1..], w)
  }

  lemma DropCloses(g: Graph, b: Id, w: Worker)
    requires Closed(g) && b in g
    ensures Closed(DropWorker(g, b, w))
  {
    var h := DropWorker(g, b, w);
    forall c: Id, k: LocalHash | HasChild(h, c, k) ensures Child(h, c, k) in h {
      assert HasChild(g, c, k) && Child(h, c, k) == Child(g, c, k);
    }
  }

  /** The leading blocks that `w` holds outside `gone`. */
  function DepthOutside(g: Graph, b: Id, s: seq<LocalHash>, w: Worker, gone: set<Id>): nat
    requires Closed(g) && b in g
    decreases |s|
  {
    if s == [] || !HasChild(g, b, s[0]) || Child(g, b, s[0]) in gone || !Holds(g, Child(g, b, s[0]), w) then 0
    else 1 + DepthOutside(g, Child(g, b, s[0]), s[1..], w, gone)
  }

  /** Other workers do not notice, wherever they look from a block they hold or that is not touched. */
  lemma {:induction false} DropKeepsOthers(g: Graph, d: Id, w: Worker, b: Id, s: seq<LocalHash>, v: Worker)
    requires Closed(g) && d in g && b in g && v != w && (b == d ==> v in g[d].workers)
    ensures Closed(DropWorker(g, d, w))
    ensures Depth(DropWorker(g, d, w), b, s, v) == Depth(g, b, s, v)
    decreases |s|
  {
    DropCloses(g, d, w);
    var h := DropWorker(g, d, w);
    if b == d { assert v in g[d].workers - {w}; }
    assert h[b].children == g[b].children;
    if s != [] && HasChild(g, b, s[0]) {
      var c := Child(g, b, s[0]);
      assert Holds(h, c, v) <==> Holds(g, c, v);
      if Holds(g, c, v) { DropKeepsOthers(g, d, w, c, s[1..], v); }
    }
  }

  /** The worker's own matches end in front of the block. */
  lemma {:induction false} DropEndsOwn(g: Graph, d: Id, w: Worker, b: Id, s: seq<LocalHash>, gone: set<Id>)
    requires Closed(g) && d in g && b in g && b != d
    ensures Closed(DropWorker(g, d, w))
    ensures DepthOutside(DropWorker(g, d, w), b, s, w, gone) == DepthOutside(g, b, s, w, gone + {d})
    decreases |s|
  {
    DropCloses(g, d, w);
    if s != [] && HasChild(g, b, s[0]) && Child(g, b, s[0]) != d {
      DropEndsOwn(g, d, w, Child(g, b, s[0]), s[1..], gone);
    }
  }

  function Elements(s: seq<Id>): set<Id> {
    set x | x in s
  }

  /** Dropping blocks one after the other: others keep every match, the worker keeps what lies in front
      of the first dropped block. */
  lemma {:induction false} DropAllMatches(g: Graph, dropped: seq<Id>, w: Worker, b: Id, s: seq<LocalHash>)
    requires Closed(g) && b in g && b !in dropped && forall d: Id :: d in dropped ==> d in g
    ensures Closed(DropAll(g, dropped, w))
    ensures forall v :: v != w ==> Depth(DropAll(g, dropped, w), b, s, v) == Depth(g, b, s, v)
    ensures Depth(DropAll(g, dropped, w), b, s, w) == DepthOutside(g, b, s, w, Elements(dropped))
    decreases dropped
  {
    if dropped == [] {
      OutsideNothing(g, b, s, w);
      assert Elements(dropped) == {};
    } else {
      var d, h := dropped[0], DropWorker(g, dropped[0], w);
      DropCloses(g, d, w);
      DropAllMatches(h, dropped[1..], w, b, s);
      forall v | v != w ensures Depth(h, b, s, v) == Depth(g, b, s, v) { DropKeepsOthers(g, d, w, b, s, v); }
      DropEndsOwn(g, d, w, b, s, Elements(dropped[1..]));
      assert dropped == [d] + dropped[1..];
      assert Elements(dropped) == Elements(dropped[1..]) + {d};
    }
  }

  lemma {:induction false} OutsideNothing(g: Graph, b: Id, s: seq<LocalHash>, w: Worker)
    requires Closed(g) && b in g
    ensures DepthOutside(g, b, s, w, {}) == Depth(g, b, s, w)
    decreases |s|
  {
    if s != [] && HasChild(g, b, s[0]) { OutsideNothing(g, Child(g, b, s[0]), s[1..], w); }
  }
}
