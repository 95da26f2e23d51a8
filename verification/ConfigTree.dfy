/** Parsed JSON configuration trees, the places inside them, and reading or writing one place.
    A missing entry and a JSON null are the same thing to the updater, so looking up an absent
    place yields Null. */
module ConfigTree {
  import opened Options

  /** A JSON scalar other than null. */
  datatype Scalar = Flag(b: bool) | Number(n: real) | Text(s: string)

  datatype Json = Null | Leaf(v: Scalar) | Arr(items: seq<Json>) | Obj(fields: map<string, Json>)

  /** One move from a container to a member. */
  datatype Step = Key(k: string) | Index(i: nat)

  type Path = seq<Step>

  /** Python compares True with 1 and False with 0 as equal. */
  function AsNumber(v: Scalar): Option<real> {
    match v
    case Flag(b) => Some(if b then 1.0 else 0.0)
    case Number(n) => Some(n)
    case Text(_) => None
  }

  predicate ScalarEqual(x: Scalar, y: Scalar) {
    if AsNumber(x).Some? || AsNumber(y).Some? then AsNumber(x) == AsNumber(y) else x == y
  }

  function Child(j: Json, s: Step): Json {
    match j
    case Obj(fields) => if s.Key? && s.k in fields then fields[s.k] else Null
    case Arr(items) => if s.Index? && s.i < |items| then items[s.i] else Null
    case _ => Null
  }

  function Lookup(j: Json, p: Path): Json
    decreases |p|
  {
    if p == [] then j else Lookup(Child(j, p[0]), p[1..])
  }

  predicate Comparable(p: Path, q: Path) {
    p <= q || q <= p
  }

  lemma ComparableTails(p: Path, q: Path)
    requires p != [] && q != [] && p[0] == q[0]
    ensures Comparable(p, q) <==> Comparable(p[1..], q[1..])
  {
    assert p == [p[0]] + p[1..] && q == [q[0]] + q[1..];
  }

  predicate SameKind(x: Json, y: Json) {
    (x.Obj? && y.Obj?) || (x.Arr? && y.Arr?)
  }

  /** The container kind a step expects. */
  predicate Holds(j: Json, s: Step) {
    if s.Key? then j.Obj? else j.Arr?
  }

  // ---- Height: the measure that every descent decreases ----

  ghost function Highest(s: set<nat>): (m: nat)
    ensures forall x :: x in s ==> x <= m
  {
    if s == {} then 0
    else
      var x :| x in s;
      var rest := Highest(s - {x});
      assert forall y :: y in s ==> y == x || y in s - {x};
      if x > rest then x else rest
  }

  ghost function Height(j: Json): (h: nat)
    ensures j.Arr? ==> forall c :: c in j.items ==> Height(c) < h
    ensures j.Obj? ==> forall k :: k in j.fields ==> Height(j.fields[k]) < h
  {
    match j
    case Null => 0
    case Leaf(_) => 1
    case Arr(items) =>
      var heights := set c | c in items :: Height(c);
      assert forall c :: c in items ==> Height(c) in heights;
      1 + Highest(heights)
    case Obj(fields) =>
      var heights := set k | k in fields :: Height(fields[k]);
      assert forall k :: k in fields ==> Height(fields[k]) in heights;
      1 + Highest(heights)
  }

  lemma ChildLower(j: Json, s: Step)
    ensures Height(Child(j, s)) <= Height(j)
    ensures j != Null ==> Height(Child(j, s)) < Height(j)
  {
  }

  // ---- Lookup along concatenated paths ----

  lemma {:induction false} LookupAppend(j: Json, p: Path, q: Path)
    ensures Lookup(j, p + q) == Lookup(Lookup(j, p), q)
    decreases |p|
  {
    if p == [] {
      assert p + q == q;
    } else {
      assert (p + q)[1..] == p[1..] + q;
      LookupAppend(Child(j, p[0]), p[1..], q);
    }
  }

  lemma {:induction false} LookupNull(p: Path)
    ensures Lookup(Null, p) == Null
    decreases |p|
  {
    if p != [] { LookupNull(p[1..]); }
  }

  // ---- Writing one place ----

  /** The list grown with nulls until index i exists. */
  function Padded(items: seq<Json>, i: nat): (r: seq<Json>)
    ensures |r| == if i < |items| then |items| else i + 1
    ensures forall n :: 0 <= n < |r| ==> r[n] == if n < |items| then items[n] else Null
  {
    if i < |items| then items else items + seq(i + 1 - |items|, _ => Null)
  }

  /** The tree with value v at place p. Null containers on the way are created; a container of
      another kind on the way makes the write impossible. */
  function SetAt(t: Json, p: Path, v: Json): Option<Json>
    decreases |p|
  {
    if p == [] then Some(v)
    else if t != Null && !Holds(t, p[0]) then None
    else
      match SetAt(Child(t, p[0]), p[1..], v)
      case None => None
      case Some(c) =>
        match p[0]
        case Key(k) =>
          var fields := if t.Obj? then t.fields else map[];
          Some(Obj(fields[k := c]))
        case Index(i) =>
          var items := if t.Arr? then t.items else [];
          Some(Arr(Padded(items, i)[i := c]))
  }

  /** A write is impossible exactly when a present value on the way is not the container that the next
      step needs. */
  lemma {:induction false} SetFailsIff(t: Json, p: Path, v: Json)
    ensures SetAt(t, p, v).None? <==>
            exists m :: 0 <= m < |p| && Lookup(t, p[..m]) != Null &&
                        !(p[m].Key? && Lookup(t, p[..m]).Obj?) && !(p[m].Index? && Lookup(t, p[..m]).Arr?)
    decreases |p|
  {
    if p != [] {
      var c, rest := Child(t, p[0]), p[1..];
      SetFailsIff(c, rest, v);
      assert p[..0] == [] && Lookup(t, p[..0]) == t;
      forall m | 0 <= m < |rest| ensures Lookup(c, rest[..m]) == Lookup(t, p[..m + 1]) && rest[m] == p[m + 1] {
        assert p[..m + 1][1..] == rest[..m] && p[..m + 1][0] == p[0];
      }
      if m :| 0 <= m < |p| && Lookup(t, p[..m]) != Null &&
              !(p[m].Key? && Lookup(t, p[..m]).Obj?) && !(p[m].Index? && Lookup(t, p[..m]).Arr?) {
        if m > 0 { assert Lookup(c, rest[..m - 1]) == Lookup(t, p[..m]); }
      }
    }
  }

  /** One level of SetAt, seen through Child. */
  lemma SetChild(t: Json, p: Path, v: Json, s: Step)
    requires p != [] && SetAt(t, p, v).Some?
    ensures SetAt(Child(t, p[0]), p[1..], v).Some?
    ensures Holds(SetAt(t, p, v).value, p[0])
    ensures Child(SetAt(t, p, v).value, p[0]) == SetAt(Child(t, p[0]), p[1..], v).value
    ensures s != p[0] ==> Child(SetAt(t, p, v).value, s) == Child(t, s)
  {
  }

  lemma {:induction false} SetThenLookupHere(t: Json, p: Path, v: Json)
    requires SetAt(t, p, v).Some?
    ensures Lookup(SetAt(t, p, v).value, p) == v
    decreases |p|
  {
    if p != [] {
      SetChild(t, p, v, p[0]);
      SetThenLookupHere(Child(t, p[0]), p[1..], v);
    }
  }

  /** What was written is what is read back, at the place and everywhere below it. */
  lemma SetThenLookup(t: Json, p: Path, v: Json, below: Path)
    requires SetAt(t, p, v).Some?
    ensures Lookup(SetAt(t, p, v).value, p + below) == Lookup(v, below)
  {
    SetThenLookupHere(t, p, v);
    LookupAppend(SetAt(t, p, v).value, p, below);
  }

  /** A write is invisible from every place that is neither above nor below it. */
  lemma {:induction false} SetFrame(t: Json, p: Path, v: Json, q: Path)
    requires SetAt(t, p, v).Some? && !Comparable(p, q)
    ensures Lookup(SetAt(t, p, v).value, q) == Lookup(t, q)
    decreases |p|
  {
    assert p != [] && q != [];
    SetChild(t, p, v, q[0]);
    if p[0] == q[0] {
      ComparableTails(p, q);
      SetFrame(Child(t, p[0]), p[1..], v, q[1..]);
    }
  }

  /** Tree t can take a write along q where tree u already has containers: wherever t is not null,
      it has the same kind of container as u. */
  ghost predicate Fits(t: Json, u: Json, q: Path)
    decreases |q|
  {
    q != [] ==> (t == Null || SameKind(t, u)) && Fits(Child(t, q[0]), Child(u, q[0]), q[1..])
  }

  lemma {:induction false} FitsWrites(t: Json, u: Json, q: Path, v: Json)
    requires Fits(t, u, q) && Lookup(u, q) != Null
    ensures SetAt(t, q, v).Some?
    decreases |q|
  {
    if q != [] {
      if Child(u, q[0]) == Null { LookupNull(q[1..]); }
      FitsWrites(Child(t, q[0]), Child(u, q[0]), q[1..], v);
    }
  }

  lemma {:induction false} FitsNull(u: Json, q: Path)
    ensures Fits(Null, u, q)
    decreases |q|
  {
    if q != [] { FitsNull(Child(u, q[0]), q[1..]); }
  }

  /** A write along one place of u leaves every other, incomparable place of u writable. */
  lemma {:induction false} SetKeepsFits(t: Json, u: Json, p: Path, v: Json, q: Path)
    requires Fits(t, u, p) && Lookup(u, p) != Null
    requires Fits(t, u, q) && !Comparable(p, q)
    ensures SetAt(t, p, v).Some? && Fits(SetAt(t, p, v).value, u, q)
    decreases |p|
  {
    FitsWrites(t, u, p, v);
    assert p != [] && q != [];
    SetChild(t, p, v, q[0]);
    if Child(u, p[0]) == Null { LookupNull(p[1..]); }
    assert SameKind(SetAt(t, p, v).value, u);
    if p[0] == q[0] {
      ComparableTails(p, q);
      SetKeepsFits(Child(t, p[0]), Child(u, p[0]), p[1..], v, q[1..]);
    }
  }
}
