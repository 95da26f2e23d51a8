/** Keys in Python's sorted order. */
module SortedKeys {
  /** Code-point order on strings, as Python's sorted uses it. */
  predicate LexLe(a: string, b: string)
    decreases |a|
  {
    a == [] || (b != [] && (a[0] < b[0] || (a[0] == b[0] && LexLe(a[1..], b[1..]))))
  }

  lemma {:induction false} LexTotal(a: string, b: string)
    ensures LexLe(a, b) || LexLe(b, a)
    ensures LexLe(a, b) && LexLe(b, a) ==> a == b
    decreases |a|
  {
    if a != [] && b != [] && a[0] == b[0] {
      LexTotal(a[1..], b[1..]);
      assert a == [a[0]] + a[1..] && b == [b[0]] + b[1..];
    }
  }

  lemma {:induction false} LexTransitive(a: string, b: string, c: string)
    requires LexLe(a, b) && LexLe(b, c)
    ensures LexLe(a, c)
    decreases |a|
  {
    if a != [] && a[0] == b[0] == c[0] {
      LexTransitive(a[1..], b[1..], c[1..]);
    }
  }

  lemma LeastExists(s: set<string>) returns (m: string)
    requires s != {}
    ensures m in s && forall k :: k in s ==> LexLe(m, k)
    decreases s
  {
    var x :| x in s;
    LexTotal(x, x);
    if s == {x} {
      m := x;
    } else {
      var rest := s - {x};
      assert s == rest + {x};
      var n := LeastExists(rest);
      LexTotal(x, n);
      m := if LexLe(x, n) then x else n;
      forall k | k in s ensures LexLe(m, k) {
        if k != x && m == x { LexTransitive(x, n, k); }
      }
    }
  }

  /** The members of s, each once, in ascending order. */
  function Sorted(s: set<string>): (r: seq<string>)
    ensures forall k :: k in r <==> k in s
    ensures forall i, j :: 0 <= i < j < |r| ==> r[i] != r[j] && LexLe(r[i], r[j])
    decreases s
  {
    if s == {} then []
    else
      assert exists m :: m in s && forall k :: k in s ==> LexLe(m, k) by { var _ := LeastExists(s); }
      assert forall m, n :: m in s && n in s && LexLe(m, n) && LexLe(n, m) ==> m == n by {
        forall m, n | m in s && n in s && LexLe(m, n) && LexLe(n, m) ensures m == n { LexTotal(m, n); }
      }
      var m :| m in s && forall k :: k in s ==> LexLe(m, k);
      [m] + Sorted(s - {m})
  }
}

/** Which places of two configuration trees differ. */
module ConfigDiff {
  import opened ConfigTree
  import SortedKeys

  /** Both sides are mappings, or one is and the other is absent. */
  predicate Mappings(u: Json, b: Json) {
    (u.Obj? && (b.Obj? || b.Null?)) || (u.Null? && b.Obj?)
  }

  predicate Sequences(u: Json, b: Json) {
    (u.Arr? && (b.Arr? || b.Null?)) || (u.Null? && b.Arr?)
  }

  /** The comparison continues inside the two values. */
  predicate Descends(u: Json, b: Json) {
    Mappings(u, b) || (Sequences(u, b) && (u.Arr? && b.Arr? ==> |u.items| == |b.items|))
  }

  /** The comparison stops here and finds a difference. */
  predicate Ends(u: Json, b: Json) {
    !Descends(u, b) && !(u.Null? && b.Null?) && !(u.Leaf? && b.Leaf? && ScalarEqual(u.v, b.v))
  }

  function Fields(j: Json): set<string> {
    if j.Obj? then j.fields.Keys else {}
  }

  function Length(j: Json): nat {
    if j.Arr? then |j.items| else 0
  }

  function KeySteps(keys: seq<string>): (r: seq<Step>)
    requires forall i, j :: 0 <= i < j < |keys| ==> keys[i] != keys[j]
    ensures forall i, j :: 0 <= i < j < |r| ==> r[i] != r[j]
    ensures forall k :: Key(k) in r <==> k in keys
    ensures forall s :: s in r ==> s.Key?
  {
    var r := seq(|keys|, i requires 0 <= i < |keys| => Key(keys[i]));
    assert forall k :: k in keys ==> Key(k) in r by {
      forall k | k in keys ensures Key(k) in r { var i :| 0 <= i < |keys| && keys[i] == k; assert r[i] == Key(k); }
    }
    r
  }

  function IndexSteps(n: nat): (r: seq<Step>)
    ensures forall i, j :: 0 <= i < j < |r| ==> r[i] != r[j]
    ensures forall i: nat :: Index(i) in r <==> i < n
    ensures forall s :: s in r ==> s.Index?
  {
    var r := seq(n, i requires 0 <= i < n => Index(i));
    assert forall i: nat :: i < n ==> Index(i) in r by {
      forall i: nat | i < n ensures Index(i) in r { assert r[i] == Index(i); }
    }
    r
  }

  /** The members compared below a pair of containers, in the order they are visited. */
  function Members(u: Json, b: Json): (r: seq<Step>)
    requires Descends(u, b)
    ensures forall i, j :: 0 <= i < j < |r| ==> r[i] != r[j]
    ensures forall s :: s !in r ==> Child(u, s) == Null && Child(b, s) == Null
  {
    if Mappings(u, b) then KeySteps(SortedKeys.Sorted(Fields(u) + Fields(b)))
    else IndexSteps(if Length(u) > Length(b) then Length(u) else Length(b))
  }

  /** Mappings are visited in sorted order of their keys, lists from the first item on. */
  lemma MembersInOrder(u: Json, b: Json)
    requires Descends(u, b)
    ensures
      var r := Members(u, b);
      && (Mappings(u, b) ==> forall i, j :: 0 <= i < j < |r| ==>
                               r[i].Key? && r[j].Key? && r[i].k != r[j].k && SortedKeys.LexLe(r[i].k, r[j].k))
      && (!Mappings(u, b) ==> forall i :: 0 <= i < |r| ==> r[i] == Index(i))
  {
  }

  function Under(s: Step, ps: seq<Path>): (r: seq<Path>)
    ensures |r| == |ps| && forall i :: 0 <= i < |ps| ==> r[i] == [s] + ps[i]
  {
    seq(|ps|, i requires 0 <= i < |ps| => [s] + ps[i])
  }

  /** The changed places, relative to the compared values, in the order they are reported. */
  function Diff(u: Json, b: Json): seq<Path>
    decreases Height(u) + Height(b), 1, 0
  {
    if Descends(u, b) then DiffMembers(u, b, Members(u, b))
    else if Ends(u, b) then [[]]
    else []
  }

  function DiffMembers(u: Json, b: Json, steps: seq<Step>): seq<Path>
    requires Descends(u, b)
    decreases Height(u) + Height(b), 0, |steps|
  {
    if steps == [] then []
    else
      ChildLower(u, steps[0]);
      ChildLower(b, steps[0]);
      Under(steps[0], Diff(Child(u, steps[0]), Child(b, steps[0]))) + DiffMembers(u, b, steps[1..])
  }

  /** Place p is reported: every place above it is a pair of containers, and the comparison
      finds a difference exactly at p. */
  ghost predicate Reported(u: Json, b: Json, p: Path)
    decreases |p|
  {
    if p == [] then Ends(u, b)
    else Descends(u, b) && Reported(Child(u, p[0]), Child(b, p[0]), p[1..])
  }

  lemma {:induction false} DiffMembersReports(u: Json, b: Json, steps: seq<Step>, p: Path)
    requires Descends(u, b)
    ensures p in DiffMembers(u, b, steps) <==>
            p != [] && p[0] in steps && p[1..] in Diff(Child(u, p[0]), Child(b, p[0]))
    decreases |steps|
  {
    if steps != [] {
      DiffMembersReports(u, b, steps[1..], p);
      var below := Diff(Child(u, steps[0]), Child(b, steps[0]));
      var here := Under(steps[0], below);
      assert p in here <==> p != [] && p[0] == steps[0] && p[1..] in below by {
        if p in here {
          var i :| 0 <= i < |here| && here[i] == p;
          assert p[1..] == below[i];
        }
        if p != [] && p[0] == steps[0] && p[1..] in below {
          var i :| 0 <= i < |below| && below[i] == p[1..];
          assert here[i] == p;
        }
      }
    }
  }

  /** Below a pair of containers the diff is that of the children. */
  lemma DiffBelow(u: Json, b: Json, p: Path)
    requires Descends(u, b)
    ensures p in Diff(u, b) <==> p != [] && p[1..] in Diff(Child(u, p[0]), Child(b, p[0]))
  {
    DiffMembersReports(u, b, Members(u, b), p);
    if p != [] && p[0] !in Members(u, b) { assert Diff(Null, Null) == []; }
  }

  /** The diff reports a place exactly when it is the first point at which the two trees part. */
  lemma {:induction false} DiffReports(u: Json, b: Json, p: Path)
    ensures p in Diff(u, b) <==> Reported(u, b, p)
    decreases |p|
  {
    if Descends(u, b) {
      DiffBelow(u, b, p);
      if p != [] { DiffReports(Child(u, p[0]), Child(b, p[0]), p[1..]); }
    }
  }

  // ---- Prefix freedom ----

  lemma {:induction false} ReportedApart(u: Json, b: Json, p: Path, q: Path)
    requires Reported(u, b, p) && Reported(u, b, q) && p <= q
    ensures p == q
    decreases |p|
  {
    if p != [] {
      assert p == [p[0]] + p[1..] && q == [q[0]] + q[1..];
      ReportedApart(Child(u, p[0]), Child(b, p[0]), p[1..], q[1..]);
    }
  }

  ghost predicate PrefixFree(ps: seq<Path>) {
    forall i, j :: 0 <= i < j < |ps| ==> !Comparable(ps[i], ps[j])
  }

  lemma PrefixFreeUnder(s: Step, ps: seq<Path>)
    requires PrefixFree(ps)
    ensures PrefixFree(Under(s, ps))
  {
    var r := Under(s, ps);
    forall i, j | 0 <= i < j < |r| ensures !Comparable(r[i], r[j]) {
      ComparableTails(r[i], r[j]);
      assert r[i][1..] == ps[i] && r[j][1..] == ps[j];
    }
  }

  lemma PrefixFreeConcat(xs: seq<Path>, ys: seq<Path>)
    requires PrefixFree(xs) && PrefixFree(ys)
    requires forall p, q :: p in xs && q in ys ==> !Comparable(p, q)
    ensures PrefixFree(xs + ys)
  {
    var r := xs + ys;
    forall i, j | 0 <= i < j < |r| ensures !Comparable(r[i], r[j]) {
      if i < |xs| <= j { assert r[i] in xs && r[j] in ys; }
    }
  }

  /** No reported place lies above, below or at another reported place. */
  lemma {:induction false} DiffPrefixFree(u: Json, b: Json)
    ensures PrefixFree(Diff(u, b))
    decreases Height(u) + Height(b), 1, 0
  {
    if Descends(u, b) {
      DiffMembersPrefixFree(u, b, Members(u, b));
    }
  }

  lemma {:induction false} DiffMembersPrefixFree(u: Json, b: Json, steps: seq<Step>)
    requires Descends(u, b)
    requires forall i, j :: 0 <= i < j < |steps| ==> steps[i] != steps[j]
    ensures PrefixFree(DiffMembers(u, b, steps))
    decreases Height(u) + Height(b), 0, |steps|
  {
    if steps != [] {
      ChildLower(u, steps[0]);
      ChildLower(b, steps[0]);
      var below, rest := Diff(Child(u, steps[0]), Child(b, steps[0])), DiffMembers(u, b, steps[1..]);
      DiffPrefixFree(Child(u, steps[0]), Child(b, steps[0]));
      PrefixFreeUnder(steps[0], below);
      DiffMembersPrefixFree(u, b, steps[1..]);
      forall p, q | p in Under(steps[0], below) && q in rest ensures !Comparable(p, q) {
        DiffMembersReports(u, b, steps[1..], q);
      }
      PrefixFreeConcat(Under(steps[0], below), rest);
    }
  }

  // ---- Soundness and completeness ----

  lemma {:induction false} ReportedDiffers(u: Json, b: Json, p: Path)
    requires Reported(u, b, p)
    ensures Ends(Lookup(u, p), Lookup(b, p))
    decreases |p|
  {
    if p != [] { ReportedDiffers(Child(u, p[0]), Child(b, p[0]), p[1..]); }
  }

  /** The two values are the same scalar as Python compares them. */
  predicate SameScalar(x: Json, y: Json) {
    x.Leaf? && y.Leaf? && ScalarEqual(x.v, y.v)
  }

  /** Every scalar of either tree that the other tree does not repeat is covered by a report. */
  lemma {:induction false} DiffComplete(u: Json, b: Json, q: Path) returns (p: Path)
    requires Lookup(u, q).Leaf? || Lookup(b, q).Leaf?
    requires !SameScalar(Lookup(u, q), Lookup(b, q))
    ensures p <= q && p in Diff(u, b)
    decreases |q|
  {
    p := [];
    if Descends(u, b) {
      assert q != [];
      var below := DiffComplete(Child(u, q[0]), Child(b, q[0]), q[1..]);
      p := [q[0]] + below;
      assert p[1..] == below && q == [q[0]] + q[1..];
      DiffReports(Child(u, q[0]), Child(b, q[0]), below);
      DiffReports(u, b, p);
    } else if q != [] && !Ends(u, b) {
      LookupNull(q[1..]);
      assert false;
    } else {
      DiffReports(u, b, []);
    }
  }

  /** Some scalar stands at the place in one tree only, or two different ones do. */
  predicate ScalarsDiffer(u: Json, b: Json, q: Path) {
    (Lookup(u, q).Leaf? || Lookup(b, q).Leaf?) && !SameScalar(Lookup(u, q), Lookup(b, q))
  }

  ghost predicate Covered(ps: seq<Path>, q: Path) {
    exists p :: p in ps && p <= q
  }

  /** The report is sound, complete and prefix-free at once. */
  lemma DiffCorrect(u: Json, b: Json)
    ensures PrefixFree(Diff(u, b))
    ensures forall p: Path :: p in Diff(u, b) ==> Ends(Lookup(u, p), Lookup(b, p))
    ensures forall q: Path :: ScalarsDiffer(u, b, q) ==> Covered(Diff(u, b), q)
  {
    DiffPrefixFree(u, b);
    forall p: Path | p in Diff(u, b) ensures Ends(Lookup(u, p), Lookup(b, p)) {
      DiffReports(u, b, p);
      ReportedDiffers(u, b, p);
    }
    forall q: Path | ScalarsDiffer(u, b, q) ensures Covered(Diff(u, b), q) {
      var p := DiffComplete(u, b, q);
      assert p in Diff(u, b) && p <= q;
    }
  }

  // ---- Reported places are writable ----

  /** The baseline can take the user's value at every reported place the user fills in. */
  lemma {:induction false} ReportedFits(u: Json, b: Json, p: Path)
    requires Reported(u, b, p) && Lookup(u, p) != Null
    ensures Fits(b, u, p)
    decreases |p|
  {
    if p != [] {
      if u == Null { LookupNull(p); }
      ReportedFits(Child(u, p[0]), Child(b, p[0]), p[1..]);
    }
  }
}
