/** The updater's access to a configuration through dotted path strings: diffing, whitelist
    matching, reading and writing. Each operation is tied to its meaning on places (ConfigTree.Path). */
module PathAccess {
  import opened Options
  import opened ConfigTree
  import opened ConfigDiff
  import opened ConfigPaths

  /** Ok, or the Python exception that escapes. */
  datatype Outcome<+T> = Ok(value: T) | ValueError | TypeError

  datatype Whitelist = Section(parts: map<string, Whitelist>) | Leaves(names: seq<string>)

  // ---- The recursive diff, on path strings ----

  /** Python's == on two values that are not both mappings and not both lists. */
  predicate PyEqual(x: Json, y: Json) {
    (x.Null? && y.Null?) || SameScalar(x, y)
  }

  function CollectChangedPaths(current: Json, baseline: Json, path: string): seq<string>
    decreases Height(current) + Height(baseline), 1, 0
  {
    if current.Obj? && baseline.Obj? then
      CollectMembers(current, baseline, KeySteps(SortedKeys.Sorted(current.fields.Keys + baseline.fields.Keys)), path)
    else if baseline.Null? && current.Obj? then
      CollectMembers(current, Null, KeySteps(SortedKeys.Sorted(current.fields.Keys)), path)
    else if current.Null? && baseline.Obj? then
      CollectMembers(Null, baseline, KeySteps(SortedKeys.Sorted(baseline.fields.Keys)), path)
    else if baseline.Null? && current.Arr? then
      CollectMembers(current, Null, IndexSteps(|current.items|), path)
    else if current.Null? && baseline.Arr? then
      CollectMembers(Null, baseline, IndexSteps(|baseline.items|), path)
    else if current.Arr? && baseline.Arr? then
      if |current.items| != |baseline.items| then [path]
      else CollectMembers(current, baseline, IndexSteps(|current.items|), path)
    else if !PyEqual(current, baseline) then [path]
    else []
  }

  function CollectMembers(current: Json, baseline: Json, steps: seq<Step>, path: string): seq<string>
    requires current != Null || baseline != Null
    decreases Height(current) + Height(baseline), 0, |steps|
  {
    if steps == [] then []
    else
      ChildLower(current, steps[0]);
      ChildLower(baseline, steps[0]);
      CollectChangedPaths(Child(current, steps[0]), Child(baseline, steps[0]), Append(path, steps[0]))
      + CollectMembers(current, baseline, steps[1..], path)
  }

  function RenderAll(path: string, ps: seq<Path>): (r: seq<string>)
    ensures |r| == |ps| && forall i :: 0 <= i < |ps| ==> r[i] == RenderFrom(path, ps[i])
  {
    seq(|ps|, i requires 0 <= i < |ps| => RenderFrom(path, ps[i]))
  }

  lemma RenderUnder(path: string, s: Step, ps: seq<Path>, qs: seq<Path>)
    ensures RenderAll(path, Under(s, ps) + qs) == RenderAll(Append(path, s), ps) + RenderAll(path, qs)
  {
    var all := Under(s, ps) + qs;
    forall i | 0 <= i < |all|
      ensures RenderAll(path, all)[i] == (RenderAll(Append(path, s), ps) + RenderAll(path, qs))[i]
    {
      if i < |ps| {
        assert ([s] + ps[i])[1..] == ps[i];
      }
    }
  }

  lemma CollectVisitsMembers(current: Json, baseline: Json, path: string)
    requires Descends(current, baseline)
    ensures CollectChangedPaths(current, baseline, path) ==
            CollectMembers(current, baseline, Members(current, baseline), path)
  {
    assert Fields(current) + {} == Fields(current) && {} + Fields(baseline) == Fields(baseline);
  }

  /** The branches of the recursive diff report, in order, the strings of the places of Diff. */
  lemma {:induction false} CollectIsDiff(current: Json, baseline: Json, path: string)
    ensures CollectChangedPaths(current, baseline, path) == RenderAll(path, Diff(current, baseline))
    decreases Height(current) + Height(baseline), 1, 0
  {
    if Descends(current, baseline) {
      CollectVisitsMembers(current, baseline, path);
      CollectMembersIsDiff(current, baseline, Members(current, baseline), path);
    }
  }

  lemma {:induction false} CollectMembersIsDiff(current: Json, baseline: Json, steps: seq<Step>, path: string)
    requires Descends(current, baseline)
    ensures CollectMembers(current, baseline, steps, path) == RenderAll(path, DiffMembers(current, baseline, steps))
    decreases Height(current) + Height(baseline), 0, |steps|
  {
    if steps != [] {
      var s := steps[0];
      ChildLower(current, s);
      ChildLower(baseline, s);
      CollectIsDiff(Child(current, s), Child(baseline, s), Append(path, s));
      CollectMembersIsDiff(current, baseline, steps[1..], path);
      RenderUnder(path, s, Diff(Child(current, s), Child(baseline, s)), DiffMembers(current, baseline, steps[1..]));
    }
  }

  // ---- The whitelist ----

  /** The key list leads through sections and ends at a listed leaf. */
  predicate AllowsKeys(w: Whitelist, keys: seq<string>)
    decreases |keys|
  {
    keys != [] &&
    match w
    case Section(parts) => keys[0] in parts && AllowsKeys(parts[keys[0]], keys[1..])
    case Leaves(names) => |keys| == 1 && keys[0] in names
  }

  function KeysOf(p: Path): seq<string>
    decreases |p|
  {
    if p == [] then []
    else (if p[0].Key? then [p[0].k] else []) + KeysOf(p[1..])
  }

  /** Indices do not matter to the whitelist. */
  predicate Allowed(w: Whitelist, p: Path) {
    AllowsKeys(w, KeysOf(p))
  }

  function Normalized(tokens: seq<string>): (r: seq<string>)
    ensures |r| == |tokens| && forall i :: 0 <= i < |tokens| ==> r[i] == BeforeBracket(tokens[i])
  {
    seq(|tokens|, i requires 0 <= i < |tokens| => BeforeBracket(tokens[i]))
  }

  method PathIsWhitelisted(w: Whitelist, path: string) returns (r: bool)
    ensures r == AllowsKeys(w, Normalized(Split(path)))
  {
    var node := w;
    var tokens := Split(path);
    ghost var keys := Normalized(tokens);
    for index := 0 to |tokens|
      invariant AllowsKeys(w, keys) == AllowsKeys(node, keys[index..])
    {
      var key := BeforeBracket(tokens[index]);
      assert keys[index..][0] == key && keys[index..][1..] == keys[index + 1..];
      match node {
        case Section(parts) =>
          if key !in parts { return false; }
          node := parts[key];
        case Leaves(names) =>
          return index == |tokens| - 1 && key in names;
      }
    }
    return false;
  }

  lemma NormalizedCons(t: Token, rest: seq<Token>)
    requires CleanKey(t.key)
    ensures Normalized(Texts([t] + rest)) == [t.key] + Normalized(Texts(rest))
  {
    NormalizeText(t);
  }

  lemma {:induction false} TokenKeys(t: Token, p: Path)
    requires CleanKey(t.key) && CleanSteps(p)
    ensures Normalized(Texts(TokensFrom(t, p))) == [t.key] + KeysOf(p)
    decreases |p|
  {
    if p == [] {
      NormalizedCons(t, []);
    } else {
      match p[0]
      case Key(k) =>
        TokenKeys(Token(k, []), p[1..]);
        var rest := TokensFrom(Token(k, []), p[1..]);
        NormalizedCons(t, rest);
      case Index(i) =>
        TokenKeys(Token(t.key, t.indices + [i]), p[1..]);
    }
  }

  lemma WhitelistReadsKeys(w: Whitelist, p: Path)
    requires CleanPath(p)
    ensures AllowsKeys(w, Normalized(Split(Render(p)))) == Allowed(w, p)
  {
    SplitRender(p);
    TokenKeys(Token(p[0].k, []), p[1..]);
  }

  // ---- Reading the user's value ----

  /** One token's worth of Python subscripting, with missing entries and type mismatches read as None.
      Subscripting a string with a number yields one character. */
  function Navigate(obj: Json, token: string): Outcome<Json> {
    match ParseToken(token)
    case None => ValueError
    case Some((key, None)) => Ok(Child(obj, Key(key)))
    case Some((key, Some(i))) =>
      match Child(obj, Key(key))
      case Leaf(Text(s)) => Ok(if i < |s| then Leaf(Text([s[i]])) else Null)
      case other => Ok(Child(other, Index(i)))
  }

  function GetTokens(obj: Json, tokens: seq<string>): Outcome<Json>
    decreases |tokens|
  {
    if tokens == [] then Ok(obj)
    else
      match Navigate(obj, tokens[0])
      case Ok(Null) => Ok(Null)
      case Ok(next) => GetTokens(next, tokens[1..])
      case error => error
  }

  method GetValueAtPath(obj: Json, path: string) returns (r: Outcome<Json>)
    ensures r == GetTokens(obj, Split(path))
  {
    var current := obj;
    var tokens := Split(path);
    for n := 0 to |tokens|
      invariant GetTokens(obj, tokens) == GetTokens(current, tokens[n..])
    {
      assert tokens[n..][0] == tokens[n] && tokens[n..][1..] == tokens[n + 1..];
      var next := Navigate(current, tokens[n]);
      if !next.Ok? || next.value == Null { return next; }
      current := next.value;
    }
    return Ok(current);
  }

  /** A list sits directly inside a list along p, and the object that owns the outer list is present in u. */
  ghost predicate NestedListAt(u: Json, p: Path) {
    exists m: nat :: StartsNestedList(u, p, m)
  }

  ghost predicate StartsNestedList(u: Json, p: Path, m: nat) {
    m + 2 < |p| && p[m].Key? && p[m + 1].Index? && p[m + 2].Index? && Lookup(u, p[..m]) != Null
  }

  /** Nothing strictly above place p is a scalar of u. */
  ghost predicate Follows(u: Json, p: Path)
    decreases |p|
  {
    p != [] ==> !u.Leaf? && Follows(Child(u, p[0]), p[1..])
  }

  /** Python's subscripting: a number also picks a character out of a string. */
  function PyChild(j: Json, s: Step): Json {
    if j.Leaf? && j.v.Text? && s.Index? && s.i < |j.v.s| then Leaf(Text([j.v.s[s.i]])) else Child(j, s)
  }

  function PyLookup(j: Json, p: Path): Json
    decreases |p|
  {
    if p == [] then j else PyLookup(PyChild(j, p[0]), p[1..])
  }

  ghost predicate PyNestedAt(u: Json, p: Path) {
    exists m: nat :: PyStartsNested(u, p, m)
  }

  ghost predicate PyStartsNested(u: Json, p: Path, m: nat) {
    m + 2 < |p| && p[m].Key? && p[m + 1].Index? && p[m + 2].Index? && PyLookup(u, p[..m]) != Null
  }

  lemma {:induction false} PyAppend(j: Json, p: Path, q: Path)
    ensures PyLookup(j, p + q) == PyLookup(PyLookup(j, p), q)
    decreases |p|
  {
    if p == [] {
      assert p + q == q;
    } else {
      assert (p + q)[1..] == p[1..] + q;
      PyAppend(PyChild(j, p[0]), p[1..], q);
    }
  }

  lemma {:induction false} PyNull(p: Path)
    ensures PyLookup(Null, p) == Null
    decreases |p|
  {
    if p != [] { PyNull(p[1..]); }
  }

  lemma PyNestedShift(u: Json, head: Path, p: Path, m: nat)
    ensures PyStartsNested(u, head + p, |head| + m) <==> PyStartsNested(PyLookup(u, head), p, m)
  {
    if m <= |p| {
      assert (head + p)[..|head| + m] == head + p[..m];
      PyAppend(u, head, p[..m]);
    }
  }

  lemma PyNestedSplit(u: Json, t: Token, p: Path)
    requires |t.indices| <= 1 && (p == [] || p[0].Key?)
    ensures PyNestedAt(u, StepsOf(t) + p) <==> PyNestedAt(PyLookup(u, StepsOf(t)), p)
  {
    var head := StepsOf(t);
    var q, n := head + p, |head|;
    if PyNestedAt(u, q) {
      var m: nat :| PyStartsNested(u, q, m);
      assert q[1].Index? ==> n == 2;
      assert m >= n;
      PyNestedShift(u, head, p, m - n);
    }
    if PyNestedAt(PyLookup(u, head), p) {
      var m: nat :| PyStartsNested(PyLookup(u, head), p, m);
      PyNestedShift(u, head, p, m);
    }
  }

  lemma {:induction false} PyNestedInNull(p: Path)
    ensures !PyNestedAt(Null, p)
  {
    forall m: nat | m <= |p| ensures PyLookup(Null, p[..m]) == Null { PyNull(p[..m]); }
  }

  /** Reading one token with at most one index is two subscripts. */
  lemma NavigateToken(u: Json, t: Token)
    requires CleanKey(t.key) && |t.indices| <= 1
    ensures Navigate(u, TokenText(t)) == Ok(PyLookup(u, StepsOf(t)))
  {
    ParseText(t);
    if |t.indices| == 0 {
      assert StepsOf(t) == [Key(t.key)] && [Key(t.key)][1..] == [];
    } else {
      var k, i := Key(t.key), Index(t.indices[0]);
      assert StepsOf(t) == [k, i] && [k, i][1..] == [i] && [i][1..] == [];
      assert PyLookup(Child(u, k), [i]) == PyLookup(PyChild(Child(u, k), i), []);
    }
  }

  /** Reading past one well-formed token. */
  lemma GetThroughToken(u: Json, t: Token, p: Path, tokens: seq<string>)
    requires CleanKey(t.key) && |t.indices| <= 1 && (p == [] || p[0].Key?)
    requires var c := PyLookup(u, StepsOf(t));
             c != Null ==> GetTokens(c, tokens) == if PyNestedAt(c, p) then ValueError else Ok(PyLookup(c, p))
    ensures GetTokens(u, [TokenText(t)] + tokens) ==
            if PyNestedAt(u, StepsOf(t) + p) then ValueError else Ok(PyLookup(u, StepsOf(t) + p))
  {
    var steps := StepsOf(t);
    NavigateToken(u, t);
    PyNestedSplit(u, t, p);
    PyAppend(u, steps, p);
    assert ([TokenText(t)] + tokens)[1..] == tokens;
    PyNull(p);
    PyNestedInNull(p);
  }

  lemma GetFailsOnNested(u: Json, t: Token, p: Path, tokens: seq<string>)
    requires u != Null && CleanKey(t.key) && |t.indices| >= 2
    ensures GetTokens(u, [TokenText(t)] + tokens) == ValueError && PyNestedAt(u, StepsOf(t) + p)
  {
    ParseText(t);
    var q := StepsOf(t) + p;
    assert q[..0] == [] && PyStartsNested(u, q, 0);
  }

  lemma {:induction false} GetReads(u: Json, t: Token, p: Path)
    requires u != Null && CleanKey(t.key) && CleanSteps(p)
    ensures GetTokens(u, Texts(TokensFrom(t, p))) ==
            if PyNestedAt(u, StepsOf(t) + p) then ValueError else Ok(PyLookup(u, StepsOf(t) + p))
    decreases |p|
  {
    if p != [] && p[0].Index? {
      assert p == [p[0]] + p[1..];
      StepsOfExtend(t, p[0].i, p[1..]);
      GetReads(u, Token(t.key, t.indices + [p[0].i]), p[1..]);
    } else {
      var next := if p == [] then [] else TokensFrom(Token(p[0].k, []), p[1..]);
      assert Texts(TokensFrom(t, p)) == [TokenText(t)] + Texts(next);
      if |t.indices| >= 2 {
        GetFailsOnNested(u, t, p, Texts(next));
      } else {
        var c := PyLookup(u, StepsOf(t));
        if p != [] && c != Null {
          assert StepsOf(Token(p[0].k, [])) + p[1..] == p;
          GetReads(c, Token(p[0].k, []), p[1..]);
        }
        GetThroughToken(u, t, p, Texts(next));
      }
    }
  }

  /** For every value, the updater reads what Python's subscripts give at a written place, or fails on a list
      inside a list that it reaches. */
  lemma GetAtPlace(u: Json, p: Path)
    requires u != Null && CleanPath(p)
    ensures GetTokens(u, Split(Render(p))) == if PyNestedAt(u, p) then ValueError else Ok(PyLookup(u, p))
  {
    SplitRender(p);
    assert StepsOf(Token(p[0].k, [])) + p[1..] == p;
    GetReads(u, Token(p[0].k, []), p[1..]);
  }

  /** A path through a string: "a[1]" reads a character, "a[3]" and "a.b" read nothing. */
  lemma ReadsCharacter(c: char, d: char)
    ensures
      var j := Obj(map["a" := Leaf(Text([c, d]))]);
      && GetTokens(j, [TokenText(Token("a", [1]))]) == Ok(Leaf(Text([d])))
      && GetTokens(j, [TokenText(Token("a", [3]))]) == Ok(Null)
      && GetTokens(j, [TokenText(Token("a", [])), TokenText(Token("b", []))]) == Ok(Null)
  {
    ParseText(Token("a", [1]));
    ParseText(Token("a", [3]));
    ParseText(Token("a", []));
    ParseText(Token("b", []));
    var t1, t3, ta, tb := TokenText(Token("a", [1])), TokenText(Token("a", [3])), TokenText(Token("a", [])),
                          TokenText(Token("b", []));
    assert [t1][1..] == [] && [t3][1..] == [] && [ta, tb][1..] == [tb] && [tb][1..] == [];
  }

  lemma {:induction false} FollowsPlain(u: Json, p: Path, m: nat)
    requires Follows(u, p) && m <= |p|
    ensures PyLookup(u, p[..m]) == Lookup(u, p[..m])
    decreases m
  {
    if m > 0 {
      FollowsPlain(Child(u, p[0]), p[1..], m - 1);
      assert p[..m][1..] == p[1..][..m - 1];
    }
  }

  /** A place that runs through no scalar, as all reported ones, is read as in the tree. */
  lemma GetFollowed(u: Json, p: Path)
    requires u != Null && CleanPath(p) && Follows(u, p)
    ensures GetTokens(u, Split(Render(p))) == if NestedListAt(u, p) then ValueError else Ok(Lookup(u, p))
  {
    GetAtPlace(u, p);
    forall m: nat | m <= |p| ensures PyLookup(u, p[..m]) == Lookup(u, p[..m]) { FollowsPlain(u, p, m); }
    assert p[..|p|] == p;
    forall m: nat ensures PyStartsNested(u, p, m) <==> StartsNestedList(u, p, m) {
    }
  }

  // ---- Writing into the result ----

  /** The write of a value along tokens, creating missing dicts and lists on the way. */
  function SetTokens(current: Json, tokens: seq<string>, v: Json): Outcome<Json>
    requires tokens != []
    decreases |tokens|
  {
    match ParseToken(tokens[0])
    case None => ValueError
    case Some((key, index)) =>
      if !current.Obj? then TypeError
      else
        var child := Child(current, Key(key));
        match index
        case None =>
          if |tokens| == 1 then Ok(Obj(current.fields[key := v]))
          else
            if child != Null && !child.Obj? then TypeError
            else
              var dict := if child == Null then Obj(map[]) else child;
              (match SetTokens(dict, tokens[1..], v)
               case Ok(d) => Ok(Obj(current.fields[key := d]))
               case error => error)
        case Some(i) =>
          if child != Null && !child.Arr? then TypeError
          else
            var items := Padded(if child == Null then [] else child.items, i);
            if |tokens| == 1 then Ok(Obj(current.fields[key := Arr(items[i := v])]))
            else
              if items[i] != Null && !items[i].Obj? then TypeError
              else
                var dict := if items[i] == Null then Obj(map[]) else items[i];
                match SetTokens(dict, tokens[1..], v)
                case Ok(d) => Ok(Obj(current.fields[key := Arr(items[i := d])]))
                case error => error
  }

  function Raised(r: Option<Json>): Outcome<Json> {
    match r
    case Some(j) => Ok(j)
    case None => TypeError
  }

  ghost predicate HasNestedList(p: Path) {
    exists m :: 0 <= m && m + 2 < |p| && p[m].Key? && p[m + 1].Index? && p[m + 2].Index?
  }

  lemma NestedSuffix(head: Path, p: Path)
    requires !HasNestedList(head + p)
    ensures !HasNestedList(p)
  {
    forall m | 0 <= m && m + 2 < |p| ensures !(p[m].Key? && p[m + 1].Index? && p[m + 2].Index?) {
      var q, n := head + p, m + |head|;
      assert q[n] == p[m] && q[n + 1] == p[m + 1] && q[n + 2] == p[m + 2];
    }
  }

  lemma NestedToken(t: Token, p: Path)
    ensures |t.indices| >= 2 ==> HasNestedList(StepsOf(t) + p)
  {
    var q := StepsOf(t) + p;
    if |t.indices| >= 2 { assert q[0].Key? && q[0 + 1].Index? && q[0 + 2].Index?; }
  }

  lemma SetAtEmptyDict(p: Path, v: Json)
    requires p != [] && p[0].Key?
    ensures SetAt(Null, p, v) == SetAt(Obj(map[]), p, v)
  {
  }

  lemma SetThroughKey(t: Json, k: string, rest: Path, v: Json)
    requires t.Obj?
    ensures SetAt(t, [Key(k)] + rest, v) ==
            match SetAt(Child(t, Key(k)), rest, v)
            case None => None
            case Some(c) => Some(Obj(t.fields[k := c]))
  {
    assert ([Key(k)] + rest)[1..] == rest;
  }

  lemma SetThroughIndex(t: Json, i: nat, rest: Path, v: Json)
    requires t == Null || t.Arr?
    ensures SetAt(t, [Index(i)] + rest, v) ==
            match SetAt(Child(t, Index(i)), rest, v)
            case None => None
            case Some(c) => Some(Arr(Padded(if t == Null then [] else t.items, i)[i := c]))
  {
    assert ([Index(i)] + rest)[1..] == rest;
  }

  lemma SetLastToken(current: Json, t: Token, v: Json)
    requires current.Obj? && CleanKey(t.key) && |t.indices| <= 1
    ensures SetTokens(current, [TokenText(t)], v) == Raised(SetAt(current, StepsOf(t), v))
  {
    ParseText(t);
    if |t.indices| == 0 {
      assert StepsOf(t) == [Key(t.key)] + [];
      SetThroughKey(current, t.key, [], v);
    } else {
      var i := t.indices[0];
      assert StepsOf(t) == [Key(t.key)] + ([Index(i)] + []);
      SetThroughKey(current, t.key, [Index(i)] + [], v);
      var child := Child(current, Key(t.key));
      if child == Null || child.Arr? { SetThroughIndex(child, i, [], v); }
    }
  }

  lemma SetInnerKey(current: Json, key: string, p: Path, tokens: seq<string>, v: Json)
    requires current.Obj? && CleanKey(key) && p != [] && p[0].Key? && tokens != []
    requires forall d: Json :: d.Obj? ==> SetTokens(d, tokens, v) == Raised(SetAt(d, p, v))
    ensures SetTokens(current, [TokenText(Token(key, []))] + tokens, v) == Raised(SetAt(current, [Key(key)] + p, v))
  {
    ParseText(Token(key, []));
    SetAtEmptyDict(p, v);
    assert ([TokenText(Token(key, []))] + tokens)[1..] == tokens;
    SetThroughKey(current, key, p, v);
  }

  /** An absent dictionary is created empty. */
  function OrEmpty(j: Json): Json {
    if j == Null then Obj(map[]) else j
  }

  lemma SetInnerIndex(current: Json, key: string, i: nat, p: Path, tokens: seq<string>, v: Json)
    requires current.Obj? && CleanKey(key) && p != [] && p[0].Key? && tokens != []
    requires var d := OrEmpty(Child(Child(current, Key(key)), Index(i)));
             d.Obj? ==> SetTokens(d, tokens, v) == Raised(SetAt(d, p, v))
    ensures SetTokens(current, [TokenText(Token(key, [i]))] + tokens, v) ==
            Raised(SetAt(current, [Key(key)] + ([Index(i)] + p), v))
  {
    ParseText(Token(key, [i]));
    SetAtEmptyDict(p, v);
    assert ([TokenText(Token(key, [i]))] + tokens)[1..] == tokens;
    SetThroughKey(current, key, [Index(i)] + p, v);
    var child := Child(current, Key(key));
    if child == Null || child.Arr? {
      SetThroughIndex(child, i, p, v);
      assert Padded(if child == Null then [] else child.items, i)[i] == Child(child, Index(i));
    }
  }

  lemma SetInnerToken(current: Json, t: Token, p: Path, tokens: seq<string>, v: Json)
    requires current.Obj? && CleanKey(t.key) && |t.indices| <= 1 && p != [] && p[0].Key? && tokens != []
    requires forall d: Json :: d.Obj? ==> SetTokens(d, tokens, v) == Raised(SetAt(d, p, v))
    ensures SetTokens(current, [TokenText(t)] + tokens, v) == Raised(SetAt(current, StepsOf(t) + p, v))
  {
    if |t.indices| == 0 {
      assert t == Token(t.key, []) && StepsOf(t) == [Key(t.key)];
      SetInnerKey(current, t.key, p, tokens, v);
    } else {
      var i := t.indices[0];
      assert t == Token(t.key, [i]) && StepsOf(t) + p == [Key(t.key)] + ([Index(i)] + p);
      SetInnerIndex(current, t.key, i, p, tokens, v);
    }
  }

  lemma {:induction false} SetWrites(current: Json, t: Token, p: Path, v: Json)
    requires current.Obj? && CleanKey(t.key) && CleanSteps(p) && !HasNestedList(StepsOf(t) + p)
    ensures SetTokens(current, Texts(TokensFrom(t, p)), v) == Raised(SetAt(current, StepsOf(t) + p, v))
    decreases |p|
  {
    if p == [] {
      NestedToken(t, p);
      assert StepsOf(t) + p == StepsOf(t) && Texts(TokensFrom(t, p)) == [TokenText(t)];
      SetLastToken(current, t, v);
    } else if p[0].Index? {
      assert p == [p[0]] + p[1..];
      StepsOfExtend(t, p[0].i, p[1..]);
      SetWrites(current, Token(t.key, t.indices + [p[0].i]), p[1..], v);
    } else {
      NestedToken(t, p);
      NestedSuffix(StepsOf(t), p);
      var next := TokensFrom(Token(p[0].k, []), p[1..]);
      assert Texts(TokensFrom(t, p)) == [TokenText(t)] + Texts(next);
      forall d: Json | d.Obj? ensures SetTokens(d, Texts(next), v) == Raised(SetAt(d, p, v)) {
        assert StepsOf(Token(p[0].k, [])) + p[1..] == p;
        SetWrites(d, Token(p[0].k, []), p[1..], v);
      }
      SetInnerToken(current, t, p, Texts(next), v);
    }
  }

  lemma NestedAfterToken(t: Token, p: Path)
    requires |t.indices| <= 1 && p != [] && p[0].Key? && HasNestedList(StepsOf(t) + p)
    ensures HasNestedList(p)
  {
    var q, n := StepsOf(t) + p, |StepsOf(t)|;
    var m :| 0 <= m && m + 2 < |q| && q[m].Key? && q[m + 1].Index? && q[m + 2].Index?;
    assert q[n].Key?;
    assert m >= n;
    assert p[m - n].Key? && p[m - n + 1].Index? && p[m - n + 2].Index?;
  }

  /** No value can be written along the tokens, into whatever tree. */
  ghost predicate NeverSets(tokens: seq<string>, v: Json)
    requires tokens != []
  {
    forall d: Json :: !SetTokens(d, tokens, v).Ok?
  }

  lemma SetFailsLater(t: Token, rest: seq<string>, v: Json)
    requires rest != [] && NeverSets(rest, v)
    ensures NeverSets([TokenText(t)] + rest, v)
  {
    assert ([TokenText(t)] + rest)[1..] == rest;
  }

  lemma SetFailsNow(t: Token, rest: seq<string>, v: Json)
    requires CleanKey(t.key) && |t.indices| >= 2
    ensures NeverSets([TokenText(t)] + rest, v)
  {
    ParseText(t);
  }

  lemma FlatToken(t: Token)
    requires |t.indices| <= 1
    ensures !HasNestedList(StepsOf(t) + [])
  {
  }

  lemma {:induction false} SetFailsOnNested(t: Token, p: Path, v: Json)
    requires CleanKey(t.key) && CleanSteps(p) && HasNestedList(StepsOf(t) + p)
    ensures NeverSets(Texts(TokensFrom(t, p)), v)
    decreases |p|
  {
    if p != [] && p[0].Index? {
      assert p == [p[0]] + p[1..];
      StepsOfExtend(t, p[0].i, p[1..]);
      SetFailsOnNested(Token(t.key, t.indices + [p[0].i]), p[1..], v);
    } else {
      NextTexts(t, p);
      if |t.indices| >= 2 {
        SetFailsNow(t, if p == [] then [] else Texts(TokensFrom(Token(p[0].k, []), p[1..])), v);
      } else {
        FlatToken(t);
        NestedAfterToken(t, p);
        assert StepsOf(Token(p[0].k, [])) + p[1..] == p;
        SetFailsOnNested(Token(p[0].k, []), p[1..], v);
        SetFailsLater(t, Texts(TokensFrom(Token(p[0].k, []), p[1..])), v);
      }
    }
  }

  /** A malformed token is a ValueError, and a readable one that meets no dictionary a TypeError. */
  lemma SetRaises(current: Json, token: string, rest: seq<string>, v: Json)
    ensures ParseToken(token).None? ==> SetTokens(current, [token] + rest, v) == ValueError
    ensures ParseToken(token).Some? && !current.Obj? ==> SetTokens(current, [token] + rest, v) == TypeError
  {
    assert ([token] + rest)[0] == token;
  }

  /** A token that ends here, and the texts of the tokens after it. */
  lemma NextTexts(t: Token, p: Path)
    requires p == [] || p[0].Key?
    ensures Texts(TokensFrom(t, p)) ==
            [TokenText(t)] + if p == [] then [] else Texts(TokensFrom(Token(p[0].k, []), p[1..]))
  {
    if p != [] {
      var rest := TokensFrom(Token(p[0].k, []), p[1..]);
      assert TokensFrom(t, p) == [t] + rest;
      TextsCons([], t, rest);
      assert [] + [TokenText(t)] + Texts(rest) == [TokenText(t)] + Texts(rest);
    }
  }

  /** The updater's write at a written place is SetAt, and fails whenever the place has a list directly inside
      a list. */
  lemma SetAtPlace(current: Json, p: Path, v: Json)
    requires current.Obj? && CleanPath(p)
    ensures !HasNestedList(p) ==> SetTokens(current, Split(Render(p)), v) == Raised(SetAt(current, p, v))
    ensures HasNestedList(p) ==> !SetTokens(current, Split(Render(p)), v).Ok?
  {
    SplitRender(p);
    var t := Token(p[0].k, []);
    assert StepsOf(t) + p[1..] == p;
    if HasNestedList(p) { SetFailsOnNested(t, p[1..], v); } else { SetWrites(current, t, p[1..], v); }
  }
}
