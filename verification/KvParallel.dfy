/** Parallel sizes inside a KV-transfer configuration: finding them per role and stripping them. */
module KvParallel {
  import opened Options

  /** A JSON value. A mapping lists its items in insertion order; `number` is what int() makes of a
      leaf, if anything (nothing for null and booleans). */
  datatype Node =
    | Leaf(shown: string, number: Option<int>)
    | List(items: seq<Node>)
    | Dict(fields: Fields)

  datatype Field = Field(key: string, value: Node)

  type Fields = seq<Field>

  datatype Role = Prefill | Decode

  datatype Axis = DP | TP | PP

  function RoleKey(r: Role): string {
    match r case Prefill => "prefill" case Decode => "decode"
  }

  function SizeKey(a: Axis): string {
    match a case DP => "dp_size" case TP => "tp_size" case PP => "pp_size"
  }

  predicate IsRoleKey(k: string) {
    k == RoleKey(Prefill) || k == RoleKey(Decode)
  }

  predicate IsSizeKey(k: string) {
    k == SizeKey(DP) || k == SizeKey(TP) || k == SizeKey(PP)
  }

  function Get(fields: Fields, k: string): Option<Node> {
    if fields == [] then None else if fields[0].key == k then Some(fields[0].value) else Get(fields[1..], k)
  }

  predicate Distinct(fields: Fields) {
    forall i, j :: 0 <= i < j < |fields| ==> fields[i].key != fields[j].key
  }

  // ---- Finding the role mappings ----

  datatype Extras = Extras(prefill: Fields, decode: Fields)

  const NOTHING := Extras([], [])

  function Of(e: Extras, r: Role): Fields {
    match r case Prefill => e.prefill case Decode => e.decode
  }

  function RoleFields(fields: Fields, r: Role): Option<Fields> {
    match Get(fields, RoleKey(r))
    case Some(Dict(inner)) => Some(inner)
    case _ => None
  }

  predicate HoldsRole(fields: Fields) {
    RoleFields(fields, Prefill).Some? || RoleFields(fields, Decode).Some?
  }

  function OrEmpty(f: Option<Fields>): Fields {
    match f case Some(x) => x case None => []
  }

  /** _find_kv_role_extras */
  function Find(node: Node): Extras
    decreases node, 1
  {
    match node
    case Dict(fields) =>
      if HoldsRole(fields) then
        Extras(OrEmpty(RoleFields(fields, Prefill)), OrEmpty(RoleFields(fields, Decode)))
      else
        FindInFields(fields)
    case List(items) => FindInItems(items)
    case Leaf(_, _) => NOTHING
  }

  function FindInFields(fields: Fields): Extras
    decreases fields, 0
  {
    if fields == [] then
      NOTHING
    else
      var found := Find(fields[0].value);
      if found != NOTHING then found else FindInFields(fields[1..])
  }

  function FindInItems(items: seq<Node>): Extras
    decreases items, 0
  {
    if items == [] then
      NOTHING
    else
      var found := Find(items[0]);
      if found != NOTHING then found else FindInItems(items[1..])
  }

  /** What the key names hold in a mapping: only mappings count. */
  function Under(fields: Fields, key: string): Fields {
    match Get(fields, key)
    case Some(Dict(inner)) => inner
    case _ => []
  }

  predicate HasMapping(fields: Fields, key: string) {
    Get(fields, key).Some? && Get(fields, key).value.Dict?
  }

  /** The first mapping that has a mapping under "prefill" or "decode" gives both roles theirs, the missing one
      nothing. */
  lemma FindHere(fields: Fields)
    requires HasMapping(fields, "prefill") || HasMapping(fields, "decode")
    ensures Find(Dict(fields)).prefill == Under(fields, "prefill")
    ensures Find(Dict(fields)).decode == Under(fields, "decode")
  {
  }

  /** The first field with a non-empty result decides. */
  lemma {:induction false} FindInFieldsFirst(fields: Fields) returns (i: nat)
    ensures i <= |fields| && forall j :: 0 <= j < i ==> Find(fields[j].value) == NOTHING
    ensures i < |fields| ==> Find(fields[i].value) != NOTHING && FindInFields(fields) == Find(fields[i].value)
    ensures i == |fields| ==> FindInFields(fields) == NOTHING
  {
    if fields == [] || Find(fields[0].value) != NOTHING {
      i := 0;
    } else {
      var k := FindInFieldsFirst(fields[1..]);
      i := k + 1;
      forall j | 0 <= j < i ensures Find(fields[j].value) == NOTHING {
        if j > 0 { assert fields[1..][j - 1] == fields[j]; }
      }
    }
  }

  /** The first item with a non-empty result decides. */
  lemma {:induction false} FindInItemsFirst(items: seq<Node>) returns (i: nat)
    ensures i <= |items| && forall j :: 0 <= j < i ==> Find(items[j]) == NOTHING
    ensures i < |items| ==> Find(items[i]) != NOTHING && FindInItems(items) == Find(items[i])
    ensures i == |items| ==> FindInItems(items) == NOTHING
  {
    if items == [] || Find(items[0]) != NOTHING {
      i := 0;
    } else {
      var k := FindInItemsFirst(items[1..]);
      i := k + 1;
      forall j | 0 <= j < i ensures Find(items[j]) == NOTHING {
        if j > 0 { assert items[1..][j - 1] == items[j]; }
      }
    }
  }

  /** Any other mapping is searched field by field, a list item by item; a leaf holds nothing. */
  lemma FindElsewhere(fields: Fields, items: seq<Node>, shown: string, number: Option<int>)
    requires !HasMapping(fields, "prefill") && !HasMapping(fields, "decode")
    ensures Find(Dict(fields)) == FindInFields(fields) && Find(List(items)) == FindInItems(items)
    ensures Find(Leaf(shown, number)) == NOTHING
  {
  }

  // ---- Resolving the sizes of a role ----

  function AsOptionalInt(value: Option<Node>): Option<int> {
    match value
    case Some(Leaf(_, n)) => n
    case _ => None
  }

  function CliFlags(a: Axis): (string, string) {
    match a
    case DP => ("data-parallel-size", "data_parallel_size")
    case TP => ("tensor-parallel-size", "tensor_parallel_size")
    case PP => ("pipeline-parallel-size", "pipeline_parallel_size")
  }

  function PositiveFlag(cli: Fields, flag: string): Option<int> {
    match AsOptionalInt(Get(cli, flag))
    case Some(n) => if n > 0 then Some(n) else None
    case None => None
  }

  /** _cli_parallel_value */
  function CliValue(cli: Fields, a: Axis): Option<int> {
    var first := PositiveFlag(cli, CliFlags(a).0);
    if first.Some? then first else PositiveFlag(cli, CliFlags(a).1)
  }

  /** _resolve_role_parallel, one axis */
  function Resolve(cli: Fields, extra: Fields, a: Axis): Option<int> {
    var value := CliValue(cli, a);
    if value.Some? then value else AsOptionalInt(Get(extra, SizeKey(a)))
  }

  /** A flag that is a positive number on the command line. */
  predicate Flagged(cli: Fields, flag: string, n: int) {
    Get(cli, flag).Some? && Get(cli, flag).value.Leaf? && Get(cli, flag).value.number == Some(n) && n > 0
  }

  predicate Unflagged(cli: Fields, flag: string) {
    !(Get(cli, flag).Some? && Get(cli, flag).value.Leaf? && Get(cli, flag).value.number.Some? &&
      Get(cli, flag).value.number.value > 0)
  }

  /** A size comes from the dashed flag, else from the underscored one, else from the role mapping. */
  lemma ResolveReads(cli: Fields, extra: Fields, a: Axis, n: int)
    ensures
      var (dashed, scored, key) :=
        match a
        case DP => ("data-parallel-size", "data_parallel_size", "dp_size")
        case TP => ("tensor-parallel-size", "tensor_parallel_size", "tp_size")
        case PP => ("pipeline-parallel-size", "pipeline_parallel_size", "pp_size");
      && (Flagged(cli, dashed, n) ==> Resolve(cli, extra, a) == Some(n))
      && (Unflagged(cli, dashed) && Flagged(cli, scored, n) ==> Resolve(cli, extra, a) == Some(n))
      && (Unflagged(cli, dashed) && Unflagged(cli, scored) ==>
            Resolve(cli, extra, a) ==
            match Get(extra, key) case Some(Leaf(_, number)) => number case _ => None)
  {
  }

  // ---- Stripping ----

  function WithoutSizes(fields: Fields): Fields {
    if fields == [] then []
    else (if IsSizeKey(fields[0].key) then [] else [fields[0]]) + WithoutSizes(fields[1..])
  }

  /** What becomes of one item of a mapping. */
  function StripField(f: Field): Fields
    decreases f, 2
  {
    if !IsRoleKey(f.key) then
      [Field(f.key, Strip(f.value))]
    else if f.value.Dict? && WithoutSizes(f.value.fields) != [] then
      [Field(f.key, Dict(WithoutSizes(f.value.fields)))]
    else
      []
  }

  function StripFields(fields: Fields): Fields
    decreases fields, 0
  {
    if fields == [] then [] else StripField(fields[0]) + StripFields(fields[1..])
  }

  function StripItems(items: seq<Node>): seq<Node>
    decreases items, 0
  {
    if items == [] then [] else [Strip(items[0])] + StripItems(items[1..])
  }

  function Strip(node: Node): Node
    decreases node, 1
  {
    match node
    case List(items) => List(StripItems(items))
    case Leaf(_, _) => node
    case Dict(fields) => Dict(StripFields(fields))
  }

  /** _strip_parallel_from_tree, filling a fresh mapping item by item. */
  method StripParallelFromTree(node: Node) returns (r: Node)
    ensures r == Strip(node)
    decreases node
  {
    match node
    case Leaf(_, _) => return node;
    case List(items) =>
      var out: seq<Node>, k := [], 0;
      while k < |items|
        invariant k <= |items| && out + StripItems(items[k..]) == StripItems(items)
      {
        var item := StripParallelFromTree(items[k]);
        assert items[k..][1..] == items[k + 1..];
        out := out + [item];
        k := k + 1;
      }
      return List(out);
    case Dict(fields) =>
      var stripped: Fields, k := [], 0;
      while k < |fields|
        invariant k <= |fields| && stripped + StripFields(fields[k..]) == StripFields(fields)
      {
        var f := fields[k];
        assert fields[k..][1..] == fields[k + 1..];
        Regroup(stripped, StripField(f), StripFields(fields[k + 1..]));
        if IsRoleKey(f.key) {
          if f.value.Dict? {
            var extra := KeepOthers(f.value.fields);
            if extra != [] {
              stripped := stripped + [Field(f.key, Dict(extra))];
            }
          }
        } else {
          var value := StripParallelFromTree(f.value);
          stripped := stripped + [Field(f.key, value)];
        }
        k := k + 1;
      }
      return Dict(stripped);
  }

  method KeepOthers(fields: Fields) returns (extra: Fields)
    ensures extra == WithoutSizes(fields)
  {
    extra := [];
    for k := 0 to |fields|
      invariant extra + WithoutSizes(fields[k..]) == WithoutSizes(fields)
    {
      NextField(fields, k, extra);
      if !IsSizeKey(fields[k].key) {
        extra := extra + [fields[k]];
      }
    }
  }

  lemma NextField(fields: Fields, k: nat, extra: Fields)
    requires k < |fields|
    ensures extra + WithoutSizes(fields[k..]) ==
            (if IsSizeKey(fields[k].key) then extra else extra + [fields[k]]) + WithoutSizes(fields[k + 1..])
  {
    assert fields[k..][1..] == fields[k + 1..];
    Regroup(extra, [fields[k]], WithoutSizes(fields[k + 1..]));
  }

  lemma Regroup<T>(a: seq<T>, b: seq<T>, c: seq<T>)
    ensures a + (b + c) == (a + b) + c
  {
  }

  // ---- Stripping is idempotent ----

  lemma {:induction false} WithoutSizesTwice(fields: Fields)
    ensures WithoutSizes(WithoutSizes(fields)) == WithoutSizes(fields)
  {
    if fields != [] {
      WithoutSizesTwice(fields[1..]);
      var rest := WithoutSizes(fields[1..]);
      assert ([fields[0]] + rest)[1..] == rest && [] + rest == rest;
    }
  }

  lemma StripTwice(node: Node)
    ensures Strip(Strip(node)) == Strip(node)
    decreases node, 1
  {
    match node
    case List(items) => StripItemsTwice(items);
    case Leaf(_, _) =>
    case Dict(fields) => StripFieldsTwice(fields);
  }

  lemma {:induction false} StripItemsTwice(items: seq<Node>)
    ensures StripItems(StripItems(items)) == StripItems(items)
    decreases items, 0
  {
    if items != [] {
      StripTwice(items[0]);
      StripItemsTwice(items[1..]);
      assert StripItems(items)[1..] == StripItems(items[1..]);
    }
  }

  lemma {:induction false} StripFieldsTwice(fields: Fields)
    ensures StripFields(StripFields(fields)) == StripFields(fields)
    decreases fields, 0
  {
    if fields != [] {
      StripFieldsTwice(fields[1..]);
      var f := fields[0];
      var head := StripField(f);
      if head != [] {
        if IsRoleKey(f.key) { WithoutSizesTwice(f.value.fields); } else { StripTwice(f.value); }
        assert StripField(head[0]) == head;
        assert (head + StripFields(fields[1..]))[1..] == StripFields(fields[1..]);
      } else {
        assert [] + StripFields(fields[1..]) == StripFields(fields[1..]);
      }
    }
  }

  // ---- Nothing to find afterwards ----

  predicate NoSizes(fields: Fields) {
    forall f :: f in fields ==> !IsSizeKey(f.key)
  }

  lemma {:induction false} WithoutSizesNone(fields: Fields)
    ensures NoSizes(WithoutSizes(fields))
  {
    if fields != [] { WithoutSizesNone(fields[1..]); }
  }

  /** Every role mapping directly below these items is free of sizes. */
  predicate CleanRoles(fields: Fields) {
    forall f :: f in fields && IsRoleKey(f.key) && f.value.Dict? ==> NoSizes(f.value.fields)
  }

  lemma {:induction false} StripFieldsClean(fields: Fields)
    ensures CleanRoles(StripFields(fields))
  {
    if fields != [] {
      StripFieldsClean(fields[1..]);
      if fields[0].value.Dict? { WithoutSizesNone(fields[0].value.fields); }
    }
  }

  lemma {:induction false} GetIn(fields: Fields, k: string)
    ensures Get(fields, k).Some? ==> Field(k, Get(fields, k).value) in fields
  {
    if fields != [] && fields[0].key != k { GetIn(fields[1..], k); }
  }

  predicate CleanExtras(e: Extras) {
    NoSizes(e.prefill) && NoSizes(e.decode)
  }

  predicate NoRoles(fields: Fields) {
    forall f :: f in fields ==> !IsRoleKey(f.key)
  }

  lemma {:induction false} GetFinds(fields: Fields, f: Field)
    requires f in fields
    ensures Get(fields, f.key).Some?
  {
    if fields[0].key != f.key { GetFinds(fields[1..], f); }
  }

  lemma {:induction false} RolesAreDicts(fields: Fields)
    ensures forall f :: f in StripFields(fields) && IsRoleKey(f.key) ==> f.value.Dict?
  {
    if fields != [] { RolesAreDicts(fields[1..]); }
  }

  /** A stripped mapping in which the search finds no role has no item under a role key. */
  lemma NoRoleLeft(fields: Fields)
    requires !HoldsRole(StripFields(fields))
    ensures NoRoles(StripFields(fields))
  {
    var s := StripFields(fields);
    RolesAreDicts(fields);
    forall f | f in s ensures !IsRoleKey(f.key) {
      GetFinds(s, f);
      GetIn(s, f.key);
    }
  }

  /** The search in a stripped tree yields role mappings without sizes. */
  lemma FindStripped(node: Node)
    ensures CleanExtras(Find(Strip(node)))
    decreases node, 1
  {
    match node
    case Leaf(_, _) =>
    case List(items) => FindStrippedItems(items);
    case Dict(fields) =>
      var s := StripFields(fields);
      if HoldsRole(s) {
        StripFieldsClean(fields);
        GetIn(s, RoleKey(Prefill));
        GetIn(s, RoleKey(Decode));
      } else {
        NoRoleLeft(fields);
        FindStrippedFields(fields);
      }
  }

  lemma {:induction false} FindStrippedItems(items: seq<Node>)
    ensures CleanExtras(FindInItems(StripItems(items)))
    decreases items, 0
  {
    if items != [] {
      FindStripped(items[0]);
      FindStrippedItems(items[1..]);
      assert StripItems(items)[1..] == StripItems(items[1..]);
    }
  }

  lemma {:induction false} FindStrippedFields(fields: Fields)
    requires NoRoles(StripFields(fields))
    ensures CleanExtras(FindInFields(StripFields(fields)))
    decreases fields, 0
  {
    if fields != [] {
      var f, rest := fields[0], StripFields(fields[1..]);
      assert forall x :: x in rest ==> x in StripFields(fields);
      FindStrippedFields(fields[1..]);
      if IsRoleKey(f.key) {
        assert forall x :: x in StripField(f) ==> x in StripFields(fields);
        assert [] + rest == rest;
      } else {
        FindStripped(f.value);
        assert StripFields(fields)[1..] == rest;
      }
    }
  }

  lemma {:induction false} NoSizeToGet(fields: Fields, a: Axis)
    requires NoSizes(fields)
    ensures Get(fields, SizeKey(a)) == None
  {
    GetIn(fields, SizeKey(a));
  }

  /** After stripping, a role's sizes come from the command line or from nowhere. */
  lemma StrippedResolvesFromCli(cli: Fields, node: Node, r: Role, a: Axis)
    ensures Resolve(cli, Of(Find(Strip(node)), r), a) == CliValue(cli, a)
  {
    FindStripped(node);
    NoSizeToGet(Of(Find(Strip(node)), r), a);
  }

  // ---- Everything else stays ----

  datatype Step = Key(key: string) | Index(index: nat)

  function Child(node: Node, step: Step): Option<Node> {
    match node
    case Dict(fields) => if step.Key? then Get(fields, step.key) else None
    case List(items) => if step.Index? && step.index < |items| then Some(items[step.index]) else None
    case Leaf(_, _) => None
  }

  function At(node: Node, path: seq<Step>): Option<Node>
    decreases |path|
  {
    if path == [] then
      Some(node)
    else
      match Child(node, path[0])
      case Some(child) => At(child, path[1..])
      case None => None
  }

  predicate AvoidsRoles(path: seq<Step>) {
    forall s :: s in path && s.Key? ==> !IsRoleKey(s.key)
  }

  function StripOption(n: Option<Node>): Option<Node> {
    match n case Some(x) => Some(Strip(x)) case None => None
  }

  lemma {:induction false} GetStripped(fields: Fields, k: string)
    requires !IsRoleKey(k)
    ensures Get(StripFields(fields), k) == StripOption(Get(fields, k))
  {
    if fields != [] {
      GetStripped(fields[1..], k);
      var head, rest := StripField(fields[0]), StripFields(fields[1..]);
      assert head != [] ==> (head + rest)[1..] == rest && (head + rest)[0] == head[0];
      assert [] + rest == rest;
    }
  }

  lemma {:induction false} ItemStripped(items: seq<Node>, i: nat)
    requires i < |items|
    ensures |StripItems(items)| == |items| && StripItems(items)[i] == Strip(items[i])
  {
    if i > 0 {
      ItemStripped(items[1..], i - 1);
    } else if |items| > 1 {
      ItemStripped(items[1..], 0);
    }
  }

  /** Away from the role mappings the tree keeps its shape and its leaves. */
  lemma {:induction false} StripKeepsShape(node: Node, path: seq<Step>)
    requires AvoidsRoles(path)
    ensures At(Strip(node), path) == StripOption(At(node, path))
    decreases |path|
  {
    if path != [] {
      var step := path[0];
      assert step in path;
      if node.Dict? && step.Key? { GetStripped(node.fields, step.key); }
      if node.List? && step.Index? { StripLength(node.items); }
      if node.List? && step.Index? && step.index < |node.items| { ItemStripped(node.items, step.index); }
      assert Child(Strip(node), step) == StripOption(Child(node, step));
      if Child(node, step).Some? { StripKeepsShape(Child(node, step).value, path[1..]); }
    }
  }

  lemma {:induction false} StripLength(items: seq<Node>)
    ensures |StripItems(items)| == |items|
  {
    if items != [] { StripLength(items[1..]); }
  }

  lemma {:induction false} GetWithoutSizes(fields: Fields, k: string)
    ensures Get(WithoutSizes(fields), k) == if IsSizeKey(k) then None else Get(fields, k)
  {
    if fields != [] {
      GetWithoutSizes(fields[1..], k);
      var rest := WithoutSizes(fields[1..]);
      assert ([fields[0]] + rest)[1..] == rest && [] + rest == rest;
    }
  }

  lemma OtherKey(f: Field, tail: Fields, k: string)
    requires f.key != k
    ensures Get(StripField(f) + tail, k) == Get(tail, k)
  {
    var head := StripField(f);
    if head == [] {
      assert head + tail == tail;
    } else {
      assert (head + tail)[1..] == tail;
    }
  }

  lemma SameKey(f: Field, tail: Fields, r: Role)
    requires f.key == RoleKey(r)
    ensures RoleFields(StripField(f) + tail, r) ==
            if f.value.Dict? && WithoutSizes(f.value.fields) != [] then Some(WithoutSizes(f.value.fields))
            else RoleFields(tail, r)
  {
    if StripField(f) == [] { assert StripField(f) + tail == tail; }
  }

  /** What the stripped mapping holds under a role key. */
  lemma {:induction false} RoleStripped(fields: Fields, r: Role)
    requires Distinct(fields)
    ensures OrEmpty(RoleFields(StripFields(fields), r)) == WithoutSizes(OrEmpty(RoleFields(fields, r)))
  {
    if fields != [] {
      RoleStripped(fields[1..], r);
      if fields[0].key == RoleKey(r) {
        NotInRest(fields, r);
        SameKey(fields[0], StripFields(fields[1..]), r);
      } else {
        OtherKey(fields[0], StripFields(fields[1..]), RoleKey(r));
      }
    }
  }

  lemma NotInRest(fields: Fields, r: Role)
    requires Distinct(fields) && fields != [] && fields[0].key == RoleKey(r)
    ensures RoleFields(fields[1..], r) == None
  {
    GetIn(fields[1..], RoleKey(r));
  }

  /** A role mapping loses exactly its three sizes: every other field of either role keeps its value. */
  lemma StripDropsOnlySizes(node: Node, path: seq<Step>, fields: Fields, r: Role, k: string)
    requires AvoidsRoles(path) && At(node, path) == Some(Dict(fields)) && Distinct(fields)
    ensures At(Strip(node), path) == Some(Dict(StripFields(fields)))
    ensures Get(OrEmpty(RoleFields(StripFields(fields), r)), k) ==
            if IsSizeKey(k) then None else Get(OrEmpty(RoleFields(fields, r)), k)
  {
    StripKeepsShape(node, path);
    RoleStripped(fields, r);
    GetWithoutSizes(OrEmpty(RoleFields(fields, r)), k);
  }

  /** Under "prefill" and "decode" the stripped mapping has what is left without dp_size, tp_size and pp_size,
      and nothing when nothing is left or no mapping was there. */
  lemma {:induction false} StripRoleEntry(fields: Fields, key: string)
    requires Distinct(fields) && (key == "prefill" || key == "decode")
    ensures Get(StripFields(fields), key) ==
            if Remaining(Under(fields, key)) == [] then None else Some(Dict(Remaining(Under(fields, key))))
  {
    if fields != [] {
      var f, rest := fields[0], fields[1..];
      StripRoleEntry(rest, key);
      if f.key == key {
        forall g | g in rest ensures g.key != key {
          var i :| 0 <= i < |rest| && rest[i] == g;
          assert fields[i + 1] == g;
        }
        GetIn(rest, key);
        RemainingIs(if f.value.Dict? then f.value.fields else []);
        var tail := StripFields(rest);
        if StripField(f) == [] {
          assert StripField(f) + tail == tail;
        } else {
          assert (StripField(f) + tail)[0] == StripField(f)[0];
        }
      } else {
        OtherKey(f, StripFields(rest), key);
      }
    }
  }

  /** The items with other keys, in order. */
  function Remaining(fields: Fields): Fields {
    if fields == [] then []
    else if fields[0].key in {"dp_size", "tp_size", "pp_size"} then Remaining(fields[1..])
    else [fields[0]] + Remaining(fields[1..])
  }

  lemma {:induction false} RemainingIs(fields: Fields)
    ensures Remaining(fields) == WithoutSizes(fields)
  {
    if fields != [] { RemainingIs(fields[1..]); }
  }
}
