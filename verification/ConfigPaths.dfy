/** Dotted path strings: how the diff writes a place down and how the updater reads it back. */
module ConfigPaths {
  import opened Options
  import opened ConfigTree

  // ---- Decimal numerals ----

  function Decimal(n: nat): string {
    if n < 10 then [('0' as int + n) as char] else Decimal(n / 10) + [('0' as int + n % 10) as char]
  }

  predicate IsDigit(c: char) {
    '0' <= c <= '9'
  }

  /** str.isdigit on ASCII text. */
  predicate AllDigits(s: string) {
    s != [] && forall i :: 0 <= i < |s| ==> IsDigit(s[i])
  }

  function Numeral(s: string): nat
    requires forall i :: 0 <= i < |s| ==> IsDigit(s[i])
  {
    if s == [] then 0
    else
      assert IsDigit(s[|s| - 1]);
      10 * Numeral(s[..|s| - 1]) + (s[|s| - 1] as int - '0' as int)
  }

  lemma {:induction false} DecimalRoundTrip(n: nat)
    ensures AllDigits(Decimal(n)) && Numeral(Decimal(n)) == n
  {
    var s := Decimal(n);
    if n >= 10 {
      DecimalRoundTrip(n / 10);
      assert s[..|s| - 1] == Decimal(n / 10);
    } else {
      assert s[..0] == [];
    }
  }

  // ---- Splitting ----

  /** str.split(".") */
  function Split(s: string): (r: seq<string>)
    ensures |r| >= 1
  {
    if s == [] then [[]]
    else
      var rest := Split(s[1..]);
      if s[0] == '.' then [[]] + rest else [[s[0]] + rest[0]] + rest[1..]
  }

  lemma {:induction false} SplitPlain(s: string)
    requires '.' !in s
    ensures Split(s) == [s]
  {
    if s != [] {
      SplitPlain(s[1..]);
      assert s == [s[0]] + s[1..];
    }
  }

  lemma {:induction false} SplitAtDot(a: string, b: string)
    ensures Split(a + "." + b) == Split(a) + Split(b)
  {
    if a == [] {
      assert a + "." + b == "." + b;
      assert ("." + b)[1..] == b;
    } else {
      assert (a + "." + b)[1..] == a[1..] + "." + b;
      SplitAtDot(a[1..], b);
    }
  }

  /** The pieces with x appended to the last one. */
  function LastGrown(r: seq<string>, x: string): (e: seq<string>)
    requires r != []
    ensures |e| == |r|
  {
    r[..|r| - 1] + [r[|r| - 1] + x]
  }

  lemma GrownAfterDot(t: seq<string>, x: string)
    requires t != []
    ensures [[]] + LastGrown(t, x) == LastGrown([[]] + t, x)
  {
  }

  lemma GrownAfterChar(c: char, t: seq<string>, x: string)
    requires t != []
    ensures [[c] + LastGrown(t, x)[0]] + LastGrown(t, x)[1..] == LastGrown([[c] + t[0]] + t[1..], x)
  {
    if |t| == 1 { assert [c] + (t[0] + x) == ([c] + t[0]) + x; }
  }

  lemma {:induction false} SplitExtend(a: string, x: string)
    requires '.' !in x
    ensures Split(a + x) == LastGrown(Split(a), x)
  {
    if a == [] {
      assert a + x == x;
      SplitPlain(x);
    } else {
      assert (a + x)[1..] == a[1..] + x;
      SplitExtend(a[1..], x);
      var t := Split(a[1..]);
      if a[0] == '.' { GrownAfterDot(t, x); } else { GrownAfterChar(a[0], t, x); }
    }
  }

  // ---- Tokens ----

  /** The text before the first '['. */
  function BeforeBracket(t: string): (r: string)
    ensures |r| <= |t| && t[..|r|] == r && '[' !in r
    ensures |r| < |t| ==> t[|r|] == '['
  {
    if t == [] || t[0] == '[' then [] else [t[0]] + BeforeBracket(t[1..])
  }

  /** str.rstrip("]") */
  function StripClosers(t: string): string {
    if t != [] && t[|t| - 1] == ']' then StripClosers(t[..|t| - 1]) else t
  }

  /** A path token as the updater understands it, or nothing when the token is malformed. */
  function ParseToken(t: string): Option<(string, Option<nat>)> {
    var key := BeforeBracket(t);
    if |key| == |t| then Some((t, None))
    else if t[|t| - 1] != ']' then None
    else
      var inner := StripClosers(t[|key| + 1..]);
      if AllDigits(inner) then Some((key, Some(Numeral(inner)))) else None
  }

  /** A key followed by the list indices written after it. */
  datatype Token = Token(key: string, indices: seq<nat>)

  function Brackets(indices: seq<nat>): string {
    if indices == [] then []
    else Brackets(indices[..|indices| - 1]) + "[" + Decimal(indices[|indices| - 1]) + "]"
  }

  function TokenText(t: Token): string {
    t.key + Brackets(t.indices)
  }

  predicate CleanKey(k: string) {
    '.' !in k && '[' !in k
  }

  lemma DecimalPlain(n: nat)
    ensures '.' !in Decimal(n) && '[' !in Decimal(n) && ']' !in Decimal(n)
  {
    DecimalRoundTrip(n);
  }

  lemma {:induction false} BracketsShape(indices: seq<nat>)
    ensures '.' !in Brackets(indices)
    ensures indices != [] ==> var b := Brackets(indices); |b| > 2 && b[0] == '[' && b[|b| - 1] == ']'
  {
    if indices != [] {
      BracketsShape(indices[..|indices| - 1]);
      DecimalRoundTrip(indices[|indices| - 1]);
      DecimalPlain(indices[|indices| - 1]);
    }
  }

  lemma {:induction false} BeforeBracketOf(key: string, rest: string)
    requires '[' !in key && (rest == [] || rest[0] == '[')
    ensures BeforeBracket(key + rest) == key
  {
    if key == [] {
      assert key + rest == rest;
    } else {
      assert (key + rest)[1..] == key[1..] + rest;
      BeforeBracketOf(key[1..], rest);
      assert key == [key[0]] + key[1..];
    }
  }

  lemma NormalizeText(t: Token)
    requires CleanKey(t.key)
    ensures BeforeBracket(TokenText(t)) == t.key
  {
    BracketsShape(t.indices);
    BeforeBracketOf(t.key, Brackets(t.indices));
  }

  lemma StripOnce(d: string)
    requires AllDigits(d)
    ensures StripClosers(d + "]") == d
  {
    assert (d + "]")[..|d|] == d;
    assert IsDigit(d[|d| - 1]);
  }

  lemma {:induction false} StripKeeps(a: string, c: char, s: string)
    requires c != ']'
    ensures c in StripClosers(a + [c] + s)
  {
    var t := a + [c] + s;
    if s != [] && s[|s| - 1] == ']' {
      assert t[..|t| - 1] == a + [c] + s[..|s| - 1];
      StripKeeps(a, c, s[..|s| - 1]);
    } else {
      assert t[|a|] == c;
      assert t[|t| - 1] != ']';
    }
  }

  /** Parsing a token whose bracket part is b. */
  lemma ParseBracketed(key: string, b: string)
    requires CleanKey(key) && |b| >= 2 && b[0] == '[' && b[|b| - 1] == ']'
    ensures var inner := StripClosers(b[1..]);
            ParseToken(key + b) == if AllDigits(inner) then Some((key, Some(Numeral(inner)))) else None
  {
    BeforeBracketOf(key, b);
    assert (key + b)[|key| + 1..] == b[1..];
  }

  lemma ParseOneIndex(key: string, i: nat)
    requires CleanKey(key)
    ensures ParseToken(key + Brackets([i])) == Some((key, Some(i)))
  {
    var d := Decimal(i);
    DecimalRoundTrip(i);
    assert [i][..0] == [];
    var b := "[" + d + "]";
    assert Brackets([i]) == b;
    ParseBracketed(key, b);
    assert b[1..] == d + "]";
    StripOnce(d);
  }

  lemma SecondBracketSpoils(front: string, rest: string)
    requires |front| >= 1
    ensures !AllDigits(StripClosers((front + "[" + rest)[1..]))
  {
    assert (front + "[" + rest)[1..] == front[1..] + ['['] + rest;
    StripKeeps(front[1..], '[', rest);
    assert !IsDigit('[');
  }

  lemma ParseManyIndices(key: string, indices: seq<nat>)
    requires CleanKey(key) && |indices| >= 2
    ensures ParseToken(key + Brackets(indices)) == None
  {
    var n := |indices|;
    var front, last := Brackets(indices[..n - 1]), Decimal(indices[n - 1]);
    BracketsShape(indices);
    BracketsShape(indices[..n - 1]);
    assert Brackets(indices) == front + "[" + (last + "]");
    SecondBracketSpoils(front, last + "]");
    ParseBracketed(key, Brackets(indices));
  }

  /** A written token parses back exactly when it carries at most one index. */
  lemma ParseText(t: Token)
    requires CleanKey(t.key)
    ensures |t.indices| == 0 ==> ParseToken(TokenText(t)) == Some((t.key, None))
    ensures |t.indices| == 1 ==> ParseToken(TokenText(t)) == Some((t.key, Some(t.indices[0])))
    ensures |t.indices| >= 2 ==> ParseToken(TokenText(t)) == None
  {
    if |t.indices| == 0 {
      NormalizeText(t);
      assert TokenText(t) == t.key;
    } else if |t.indices| == 1 {
      assert t.indices == [t.indices[0]];
      ParseOneIndex(t.key, t.indices[0]);
    } else {
      ParseManyIndices(t.key, t.indices);
    }
  }

  lemma BracketPart(key: string, rest: string)
    requires CleanKey(key)
    ensures
      var t := key + "[" + rest;
      BeforeBracket(t) == key && t[|key| + 1..] == rest && |key| < |t|
  {
    assert key + "[" + rest == key + ("[" + rest);
    BeforeBracketOf(key, "[" + rest);
  }

  /** A bracket that is not closed at the end of the token is malformed. */
  lemma ParseUnclosed(key: string, rest: string)
    requires CleanKey(key) && (rest == [] || rest[|rest| - 1] != ']')
    ensures ParseToken(key + "[" + rest) == None
  {
    BracketPart(key, rest);
  }

  /** So is a bracket that holds a sign other than digits and closing brackets. */
  lemma ParseNotDigits(key: string, a: string, c: char, b: string)
    requires CleanKey(key) && !IsDigit(c) && c != ']'
    ensures ParseToken(key + "[" + (a + [c] + b)) == None
  {
    BracketPart(key, a + [c] + b);
    StripKeeps(a, c, b);
  }

  /** Further closing brackets at the end of the token are ignored. */
  lemma ParseClosers(key: string, d: string, n: nat)
    requires CleanKey(key) && AllDigits(d) && n >= 1
    ensures ParseToken(key + "[" + (d + Closers(n))) == Some((key, Some(Numeral(d))))
  {
    BracketPart(key, d + Closers(n));
    StripAll(d, n);
  }

  function Closers(n: nat): (r: string)
    ensures |r| == n && forall i :: 0 <= i < n ==> r[i] == ']'
  {
    seq(n, _ => ']')
  }

  lemma {:induction false} StripAll(d: string, n: nat)
    requires AllDigits(d)
    ensures StripClosers(d + Closers(n)) == d
  {
    if n == 0 {
      assert d + Closers(0) == d && IsDigit(d[|d| - 1]);
    } else {
      var t := d + Closers(n);
      assert t[..|t| - 1] == d + Closers(n - 1);
      StripAll(d, n - 1);
    }
  }

  // ---- Writing a place down ----

  function Append(path: string, s: Step): string {
    match s
    case Key(k) => if path != [] then path + "." + k else k
    case Index(i) => path + "[" + Decimal(i) + "]"
  }

  function RenderFrom(path: string, p: Path): string
    decreases |p|
  {
    if p == [] then path else RenderFrom(Append(path, p[0]), p[1..])
  }

  function Render(p: Path): string {
    RenderFrom([], p)
  }

  /** Keys that the dotted syntax can carry: no '.' or '[', and a non-empty first key. */
  predicate CleanPath(p: Path) {
    && p != [] && p[0].Key? && p[0].k != []
    && CleanSteps(p)
  }

  predicate CleanSteps(p: Path) {
    forall i :: 0 <= i < |p| && p[i].Key? ==> CleanKey(p[i].k)
  }

  /** The tokens of a path that continues the token t with the steps p. */
  function TokensFrom(t: Token, p: Path): (r: seq<Token>)
    ensures |r| >= 1
    decreases |p|
  {
    if p == [] then [t]
    else
      match p[0]
      case Key(k) => [t] + TokensFrom(Token(k, []), p[1..])
      case Index(i) => TokensFrom(Token(t.key, t.indices + [i]), p[1..])
  }

  function Tokens(p: Path): seq<Token>
    requires p != [] && p[0].Key?
  {
    TokensFrom(Token(p[0].k, []), p[1..])
  }

  predicate CleanTokens(ts: seq<Token>) {
    forall i :: 0 <= i < |ts| ==> CleanKey(ts[i].key)
  }

  lemma {:induction false} TokensClean(t: Token, p: Path)
    requires CleanKey(t.key) && CleanSteps(p)
    ensures CleanTokens(TokensFrom(t, p))
    decreases |p|
  {
    if p != [] {
      match p[0]
      case Key(k) => TokensClean(Token(k, []), p[1..]);
      case Index(i) => TokensClean(Token(t.key, t.indices + [i]), p[1..]);
    }
  }

  function Texts(ts: seq<Token>): (r: seq<string>)
    ensures |r| == |ts| && forall i :: 0 <= i < |ts| ==> r[i] == TokenText(ts[i])
  {
    seq(|ts|, i requires 0 <= i < |ts| => TokenText(ts[i]))
  }

  lemma SplitAppendKey(path: string, before: seq<string>, k: string)
    requires path != [] && CleanKey(k) && Split(path) == before
    ensures Split(Append(path, Key(k))) == before + [TokenText(Token(k, []))]
  {
    SplitAtDot(path, k);
    SplitPlain(k);
    assert TokenText(Token(k, [])) == k;
  }

  lemma TextExtend(t: Token, i: nat)
    ensures TokenText(Token(t.key, t.indices + [i])) == TokenText(t) + ("[" + Decimal(i) + "]")
  {
    assert (t.indices + [i])[..|t.indices|] == t.indices;
  }

  lemma SplitAppendIndex(path: string, before: seq<string>, t: Token, i: nat)
    requires Split(path) == before + [TokenText(t)]
    ensures Split(Append(path, Index(i))) == before + [TokenText(Token(t.key, t.indices + [i]))]
  {
    var x := "[" + Decimal(i) + "]";
    IndexPlain(path, i);
    SplitExtend(path, x);
    TextExtend(t, i);
    LastExtended(before, TokenText(t), x);
  }

  lemma IndexPlain(path: string, i: nat)
    ensures '.' !in "[" + Decimal(i) + "]" && path + ("[" + Decimal(i) + "]") == Append(path, Index(i))
  {
    DecimalPlain(i);
  }

  lemma LastExtended(before: seq<string>, last: string, x: string)
    ensures LastGrown(before + [last], x) == before + [last + x]
  {
  }

  lemma TextsCons(before: seq<string>, t: Token, rest: seq<Token>)
    ensures before + [TokenText(t)] + Texts(rest) == before + Texts([t] + rest)
  {
  }

  lemma {:induction false} SplitRenderFrom(path: string, before: seq<string>, t: Token, p: Path)
    requires path != [] && CleanSteps(p)
    requires Split(path) == before + [TokenText(t)]
    ensures Split(RenderFrom(path, p)) == before + Texts(TokensFrom(t, p))
    decreases |p|
  {
    if p == [] {
      assert Texts([t]) == [TokenText(t)];
    } else {
      match p[0]
      case Key(k) =>
        SplitAppendKey(path, before + [TokenText(t)], k);
        SplitRenderFrom(Append(path, p[0]), before + [TokenText(t)], Token(k, []), p[1..]);
        var rest := TokensFrom(Token(k, []), p[1..]);
        TextsCons(before, t, rest);
      case Index(i) =>
        SplitAppendIndex(path, before, t, i);
        SplitRenderFrom(Append(path, p[0]), before, Token(t.key, t.indices + [i]), p[1..]);
    }
  }

  /** Splitting a written place recovers its tokens. */
  lemma SplitRender(p: Path)
    requires CleanPath(p)
    ensures Split(Render(p)) == Texts(Tokens(p)) && CleanTokens(Tokens(p))
  {
    var k := p[0].k;
    SplitPlain(k);
    assert TokenText(Token(k, [])) == k;
    SplitRenderFrom(k, [], Token(k, []), p[1..]);
    TokensClean(Token(k, []), p[1..]);
  }

  /** The place that a token list denotes. */
  function StepsOf(t: Token): Path {
    [Key(t.key)] + seq(|t.indices|, i requires 0 <= i < |t.indices| => Index(t.indices[i]))
  }

  lemma StepsOfExtend(t: Token, i: nat, p: Path)
    ensures StepsOf(Token(t.key, t.indices + [i])) + p == StepsOf(t) + ([Index(i)] + p)
  {
  }
}
