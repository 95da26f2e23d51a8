/** Process trees over a snapshot of /proc: closure under children, and killing a tree. */
module ProcessTree {
  /** The children of each process that has any. */
  type Children = map<int, seq<int>>

  function ChildrenOf(c: Children, pid: int): seq<int> {
    if pid in c then c[pid] else []
  }

  /** Each process on the path is a child of the one before. */
  predicate IsPath(c: Children, path: seq<int>) {
    forall i :: 0 < i < |path| ==> path[i] in ChildrenOf(c, path[i - 1])
  }

  ghost predicate Connects(c: Children, roots: set<int>, path: seq<int>, pid: int) {
    path != [] && path[0] in roots && path[|path| - 1] == pid && IsPath(c, path)
  }

  ghost predicate Reachable(c: Children, roots: set<int>, pid: int) {
    exists path :: Connects(c, roots, path, pid)
  }

  /** Everything mentioned: a bound for the search. */
  ghost function Universe(c: Children, roots: set<int>): set<int> {
    roots + set p, q | p in c && q in c[p] :: q
  }

  function Elements(s: seq<int>): set<int> {
    set x | x in s
  }

  lemma RootReachable(c: Children, roots: set<int>, pid: int)
    requires pid in roots
    ensures Reachable(c, roots, pid)
  {
    assert Connects(c, roots, [pid], pid);
  }

  lemma ChildReachable(c: Children, roots: set<int>, pid: int, child: int)
    requires Reachable(c, roots, pid) && child in ChildrenOf(c, pid)
    ensures Reachable(c, roots, child)
  {
    var path :| Connects(c, roots, path, pid);
    assert Connects(c, roots, path + [child], child);
  }

  ghost predicate Closed(c: Children, s: set<int>) {
    forall p, q :: p in s && q in ChildrenOf(c, p) ==> q in s
  }

  lemma {:induction false} PathStays(c: Children, s: set<int>, path: seq<int>, i: nat)
    requires Closed(c, s) && i < |path| && path[0] in s && IsPath(c, path)
    ensures path[i] in s
  {
    if i > 0 {
      PathStays(c, s, path, i - 1);
      var p, q := path[i - 1], path[i];
      assert p in s && q in ChildrenOf(c, p);
    }
  }

  /** A closed set of reachable processes that contains the roots is the set of reachable processes. */
  lemma ClosedIsReachable(c: Children, roots: set<int>, s: set<int>)
    requires roots <= s && Closed(c, s) && forall p :: p in s ==> Reachable(c, roots, p)
    ensures forall p :: p in s <==> Reachable(c, roots, p)
  {
    forall p | Reachable(c, roots, p) ensures p in s {
      var path :| Connects(c, roots, path, p);
      PathStays(c, s, path, |path| - 1);
    }
  }

  // ---- The worklist ----

  /** The search between two pops: what is found is reachable, and only processes on the stack may
      still have children that are not found. */
  ghost predicate Searching(c: Children, roots: set<int>, found: set<int>, stack: seq<int>) {
    && roots <= found <= Universe(c, roots)
    && (forall x :: x in stack ==> x in found)
    && (forall p :: p in found ==> Reachable(c, roots, p))
    && forall p, q :: p in found && p !in stack && q in ChildrenOf(c, p) ==> q in found
  }

  /** The search while the children of `pid` are gone through, up to the i-th. */
  ghost predicate Visiting(c: Children, roots: set<int>, found: set<int>, stack: seq<int>, pid: int, i: nat) {
    && i <= |ChildrenOf(c, pid)| && pid in found
    && roots <= found <= Universe(c, roots)
    && (forall x :: x in stack ==> x in found)
    && (forall p :: p in found ==> Reachable(c, roots, p))
    && (forall j :: 0 <= j < i ==> ChildrenOf(c, pid)[j] in found)
    && forall p, q :: p in found && p != pid && p !in stack && q in ChildrenOf(c, p) ==> q in found
  }

  lemma Pop(c: Children, roots: set<int>, found: set<int>, stack: seq<int>, n: nat)
    requires Searching(c, roots, found, stack) && |stack| == n + 1
    ensures Visiting(c, roots, found, stack[..n], stack[n], 0)
  {
    assert stack == stack[..n] + [stack[n]];
  }

  lemma Push(c: Children, roots: set<int>, found: set<int>, stack: seq<int>, pid: int, i: nat)
    requires Visiting(c, roots, found, stack, pid, i) && i < |ChildrenOf(c, pid)|
    ensures
      var child := ChildrenOf(c, pid)[i];
      if child in found then Visiting(c, roots, found, stack, pid, i + 1)
      else Visiting(c, roots, found + {child}, stack + [child], pid, i + 1)
  {
    var child := ChildrenOf(c, pid)[i];
    ChildReachable(c, roots, pid, child);
    assert child in Universe(c, roots);
  }

  lemma Visited(c: Children, roots: set<int>, found: set<int>, stack: seq<int>, pid: int)
    requires Visiting(c, roots, found, stack, pid, |ChildrenOf(c, pid)|)
    ensures Searching(c, roots, found, stack)
  {
  }

  /** _expand_tree; `order` is the order in which the set of roots is listed. */
  method ExpandTree(c: Children, roots: set<int>, order: seq<int>) returns (found: set<int>)
    requires Elements(order) == roots
    ensures forall p :: p in found <==> Reachable(c, roots, p)
  {
    found := roots;
    var stack := order;
    forall p | p in roots ensures Reachable(c, roots, p) { RootReachable(c, roots, p); }
    assert forall x :: x in order <==> x in Elements(order);
    while stack != []
      invariant Searching(c, roots, found, stack)
      decreases Universe(c, roots) - found, |stack|
    {
      var pid := stack[|stack| - 1];
      ghost var before, height := found, |stack|;
      Pop(c, roots, found, stack, |stack| - 1);
      stack := stack[..|stack| - 1];
      var children := ChildrenOf(c, pid);
      for i := 0 to |children|
        invariant Visiting(c, roots, found, stack, pid, i)
        invariant before <= found && (before == found ==> |stack| == height - 1)
      {
        Push(c, roots, found, stack, pid, i);
        if children[i] !in found {
          found := found + {children[i]};
          stack := stack + [children[i]];
        }
      }
      Visited(c, roots, found, stack, pid);
    }
    ClosedIsReachable(c, roots, found);
  }

  predicate NoRepeats(s: seq<int>) {
    forall i, j :: 0 <= i < j < |s| ==> s[i] != s[j]
  }

  /** _descendants: every other reachable process once. */
  method Descendants(c: Children, pid: int) returns (found: seq<int>)
    ensures NoRepeats(found)
    ensures forall p :: p in found <==> Reachable(c, {pid}, p) && p != pid
  {
    found := [];
    var seen, stack := {pid}, [pid];
    RootReachable(c, {pid}, pid);
    while stack != []
      invariant Searching(c, {pid}, seen, stack)
      invariant NoRepeats(found) && seen == Elements(found) + {pid} && pid !in found
      decreases Universe(c, {pid}) - seen, |stack|
    {
      var current := stack[|stack| - 1];
      ghost var before, height := seen, |stack|;
      Pop(c, {pid}, seen, stack, |stack| - 1);
      stack := stack[..|stack| - 1];
      var children := ChildrenOf(c, current);
      for i := 0 to |children|
        invariant Visiting(c, {pid}, seen, stack, current, i)
        invariant before <= seen && (before == seen ==> |stack| == height - 1)
        invariant NoRepeats(found) && seen == Elements(found) + {pid} && pid !in found
      {
        Push(c, {pid}, seen, stack, current, i);
        if children[i] !in seen {
          assert children[i] !in Elements(found);
          seen := seen + {children[i]};
          found := found + [children[i]];
          stack := stack + [children[i]];
        }
      }
      Visited(c, {pid}, seen, stack, current);
    }
    ClosedIsReachable(c, {pid}, seen);
    assert forall p :: p in found <==> p in Elements(found);
  }

  // ---- Killing ----

  /** The processes that a kill of `pid` must hit. */
  ghost predicate Target(c: Children, pid: int, skip: set<int>, p: int) {
    Reachable(c, {pid}, p) && p > 1 && p !in skip
  }

  class Signals {
    /** Every SIGKILL sent, in order. */
    var sent: seq<int>

    /** kill_process_tree: each unprotected process of the tree above 1 is signalled once, the root
        last, and nothing else; nothing at all when the root itself is protected. */
    method KillProcessTree(c: Children, pid: int, skip: set<int>) returns (ghost killed: seq<int>)
      modifies this
      ensures sent == old(sent) + killed && NoRepeats(killed)
      ensures pid <= 1 || pid in skip ==> killed == []
      ensures pid > 1 && pid !in skip ==>
                && killed != [] && killed[|killed| - 1] == pid
                && forall p :: p in killed <==> Target(c, pid, skip, p)
    {
      killed := [];
      if pid <= 1 || pid in skip {
        return;
      }
      var found := Descendants(c, pid);
      for i := 0 to |found|
        invariant sent == old(sent) + killed && NoRepeats(killed)
        invariant forall p :: p in killed <==> p in found[..i] && p > 1 && p !in skip
      {
        var child := found[i];
        assert found[..i + 1] == found[..i] + [child];
        if child > 1 && child !in skip {
          sent := sent + [child];
          killed := killed + [child];
        }
      }
      assert found[..|found|] == found;
      RootReachable(c, {pid}, pid);
      sent := sent + [pid];
      killed := killed + [pid];
    }
  }
}
