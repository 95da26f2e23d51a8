/** Configurations on which the whitelisted update fails, or does not settle in one run. */
module WhitelistExamples {
  import opened ConfigTree
  import opened ConfigDiff
  import opened ConfigPaths
  import opened PathAccess
  import opened WhitelistUpdate
  import opened WhitelistConvergence

  const SECTION := "north_config"
  const NAME := "name"

  /** {"north_config": {"name": v}} */
  function NameConfig(v: Json): Json {
    Obj(map[SECTION := Obj(map[NAME := v])])
  }

  const NAME_PATH: Path := [Key(SECTION), Key(NAME)]

  /** Lists and scalars only. */
  predicate OnlyLists(j: Json) {
    match j
    case Arr(items) => forall x :: x in items ==> OnlyLists(x)
    case Obj(_) => false
    case _ => true
  }

  lemma {:induction false} OnlyIndexes(j: Json, p: Path)
    requires OnlyLists(j) && Lookup(j, p) != Null
    ensures forall i :: 0 <= i < |p| ==> p[i].Index?
    decreases |p|
  {
    if p != [] {
      var c := Child(j, p[0]);
      LookupNull(p[1..]);
      OnlyIndexes(c, p[1..]);
    }
  }

  lemma LookupName(v: Json, q: Path)
    ensures Lookup(NameConfig(v), NAME_PATH + q) == Lookup(v, q)
  {
    assert NAME_PATH[1..] == [Key(NAME)] && [Key(NAME)][1..] == [];
    LookupAppend(NameConfig(v), NAME_PATH, q);
    assert Lookup(NameConfig(v), NAME_PATH) == Lookup(Obj(map[NAME := v]), [Key(NAME)]) == Lookup(v, []) == v;
  }

  /** The places that hold something: the section, the name, and places below it. */
  lemma NamePlaces(v: Json, p: Path)
    requires Lookup(NameConfig(v), p) != Null && p != []
    ensures p == [Key(SECTION)] || (NAME_PATH <= p && Lookup(v, p[2..]) != Null)
  {
    var rest := p[1..];
    LookupNull(rest);
    assert p[0] == Key(SECTION);
    if rest != [] {
      LookupNull(rest[1..]);
      assert rest[0] == Key(NAME);
      assert p == NAME_PATH + p[2..];
      LookupName(v, p[2..]);
    }
  }

  lemma NameIsClean(v: Json)
    requires OnlyLists(v)
    ensures CleanTree(NameConfig(v)) && CleanTree(Obj(map[]))
  {
    assert CleanKey(SECTION) && CleanKey(NAME);
    forall p | p != [] && Lookup(NameConfig(v), p) != Null ensures CleanPath(p) {
      NamePlaces(v, p);
      if p != [Key(SECTION)] { OnlyIndexes(v, p[2..]); }
    }
    forall p | p != [] ensures Lookup(Obj(map[]), p) == Null { LookupNull(p[1..]); }
  }

  lemma {:induction false} IndexKeys(q: Path)
    requires forall i :: 0 <= i < |q| ==> q[i].Index?
    ensures KeysOf(q) == []
  {
    if q != [] { IndexKeys(q[1..]); }
  }

  lemma NameIsAllowed(q: Path)
    requires forall i :: 0 <= i < |q| ==> q[i].Index?
    ensures Allowed(UPDATE_CONFIG_WHITELIST, NAME_PATH + q)
  {
    IndexKeys(q);
    var p := NAME_PATH + q;
    assert p[1..] == [Key(NAME)] + q && ([Key(NAME)] + q)[1..] == q;
    assert KeysOf([Key(NAME)] + q) == [NAME] + [] == [NAME];
    assert KeysOf(p) == [SECTION] + [NAME] == [SECTION, NAME];
    assert [SECTION, NAME][1..] == [NAME];
    assert AllowsKeys(Leaves(["name", "ip", "port"]), [NAME]);
  }

  lemma NameIsReported(v: Json, q: Path)
    requires Reported(v, Null, q)
    ensures Reported(NameConfig(v), Obj(map[]), NAME_PATH + q)
  {
    var p := NAME_PATH + q;
    assert p[1..] == [Key(NAME)] + q && p[1..][1..] == q;
    assert Reported(Obj(map[NAME := v]), Null, p[1..]);
  }

  /** The list inside a list is a reported, permitted and unwritable change. */
  lemma NestedIsUnwritable(w: Whitelist)
    requires Allowed(w, NAME_PATH + [Index(0), Index(0)])
    ensures Unwritable(w, NameConfig(Arr([Arr([Leaf(Text("x"))])])), Obj(map[]))
  {
    var inner, i := Arr([Leaf(Text("x"))]), Index(0);
    var v := Arr([inner]);
    var user, p := NameConfig(v), NAME_PATH + [i, i];
    assert [i][1..] == [] && [i, i][1..] == [i];
    assert Reported(inner, Null, [i]);
    assert Reported(v, Null, [i, i]);
    NameIsReported(v, [i, i]);
    assert p[..1] == [Key(SECTION)] && [Key(SECTION)][1..] == [];
    assert Lookup(user, p[..1]) == Obj(map[NAME := v]);
    assert StartsNestedList(user, p, 1);
  }

  lemma NestedRaises(w: Whitelist)
    requires Allowed(w, NAME_PATH + [Index(0), Index(0)])
    ensures Update(w, NameConfig(Arr([Arr([Leaf(Text("x"))])])), Obj(map[])) == ValueError
  {
    var v := Arr([Arr([Leaf(Text("x"))])]);
    NestedIsUnwritable(w);
    NameIsClean(v);
    UpdateCorrect(w, NameConfig(v), Obj(map[]));
  }

  /** {"north_config": {"name": [["x"]]}} over an empty baseline makes the update raise. */
  lemma NestedListFails()
    ensures Update(UPDATE_CONFIG_WHITELIST, NameConfig(Arr([Arr([Leaf(Text("x"))])])), Obj(map[])) == ValueError
  {
    NameIsAllowed([Index(0), Index(0)]);
    NestedRaises(UPDATE_CONFIG_WHITELIST);
  }

  lemma NameIsFlat(v: Json)
    requires v == Arr([Leaf(Text("x")), Null])
    ensures FlatLists(NameConfig(v)) && FlatLists(Obj(map[]))
  {
    forall p | Lookup(NameConfig(v), p).Arr? ensures Lookup(NameConfig(v), p) == v {
      assert p != [];
      NamePlaces(v, p);
      assert [Key(SECTION)][1..] == [];
      var q := p[2..];
      assert p == NAME_PATH + q;
      LookupName(v, q);
      if q != [] { ListInItem(v, q); }
    }
    forall p ensures !Lookup(Obj(map[]), p).Arr? {
      if p != [] { LookupNull(p[1..]); }
    }
  }

  lemma ListInItem(v: Json, q: Path)
    requires v == Arr([Leaf(Text("x")), Null]) && q != []
    ensures !Lookup(v, q).Arr?
  {
    LookupNull(q[1..]);
    if q[1..] != [] { LookupNull(q[1..][1..]); }
  }

  lemma NameIsStale(w: Whitelist, v: Json)
    requires v == Arr([Leaf(Text("x")), Null]) && Allowed(w, NAME_PATH + []) && Allowed(w, NAME_PATH + [Index(0)])
    ensures StaleList(w, NameConfig(v), Obj(map[]), NAME_PATH)
  {
    var user, base, i := NameConfig(v), Obj(map[]), Index(0);
    assert NAME_PATH + [] == NAME_PATH;
    LookupName(v, []);
    LookupNull([Key(NAME)]);
    assert NAME_PATH[1..] == [Key(NAME)];
    var a := NAME_PATH + [i];
    assert [i][1..] == [] && Reported(v, Null, [i]);
    NameIsReported(v, [i]);
    LookupName(v, [i]);
    assert Applied(w, user, base, a) && StrictlyAbove(NAME_PATH, a);
    forall b | Applied(w, user, base, b) ensures !Through(NAME_PATH, b, 1) {
      if Through(NAME_PATH, b, 1) {
        var q := b[2..];
        assert b == NAME_PATH + q;
        LookupName(v, q);
        LookupNull(q[1..]);
      }
    }
    forall r | StrictlyAbove(r, NAME_PATH) ensures !Lookup(user, r).Arr? {
      assert r == NAME_PATH[..|r|];
      assert NAME_PATH[..1] == [Key(SECTION)] && [Key(SECTION)][1..] == [];
    }
  }

  lemma StaleUnder(w: Whitelist)
    requires Allowed(w, NAME_PATH + []) && Allowed(w, NAME_PATH + [Index(0)])
    ensures
      var user := NameConfig(Arr([Leaf(Text("x")), Null]));
      var first := Update(w, user, Obj(map[]));
      first.Ok? && Update(w, user, first.value) != first
  {
    var v, base := Arr([Leaf(Text("x")), Null]), Obj(map[]);
    var user := NameConfig(v);
    NameIsClean(v);
    NameIsFlat(v);
    FlatNeverFails(w, user, base);
    UpdateCorrect(w, user, base);
    NameIsStale(w, v);
    SecondRunIsIdle(w, user, base);
  }

  /** {"north_config": {"name": ["x", null]}} over an empty baseline: the first run writes the list one item
      short, and a second run changes it again. */
  lemma StaleListExample()
    ensures
      var w, user := UPDATE_CONFIG_WHITELIST, NameConfig(Arr([Leaf(Text("x")), Null]));
      var first := Update(w, user, Obj(map[]));
      first.Ok? && Update(w, user, first.value) != first
  {
    NameIsAllowed([]);
    NameIsAllowed([Index(0)]);
    StaleUnder(UPDATE_CONFIG_WHITELIST);
  }
}
