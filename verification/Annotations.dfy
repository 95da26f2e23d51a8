/** Annotation expressions: how they are printed, and what they mean. */
module Annotations {
  /** The typing aliases that are renamed to a builtin. */
  datatype Alias = Dict | List | Tuple | Set | FrozenSet | Type

  datatype Form = Optional | Union

  /** An identifier, sorted by what the rewriter makes of it. */
  datatype Ident = Old(alias: Alias) | Builtin(alias: Alias) | Special(form: Form) | Plain(name: string)

  /** What matters when a text is put between quote marks or searched for string literals. `Fragile`
      stands for a character of a literal that does not survive if its escape is undone once: a
      newline, a carriage return, a NUL, a lone surrogate, or a backslash that would begin an escape
      sequence. Tabs and other control characters survive. */
  datatype Feature = Apostrophe | QuoteMark | Fragile | Literal

  /** How a string literal begins in the source: with a quote mark, with a lower-case u, or with
      another prefix letter. */
  datatype Mark = Bare(sign: Feature) | Unicode | OtherPrefix

  /** A binary operator that groups to the left: `|`, or one that binds more tightly, such as & or +,
      with its level. */
  datatype Operator = Pipe | Other(symbol: string, level: nat)

  function Level(op: Operator): nat {
    match op case Pipe => 0 case Other(_, n) => n + 1
  }

  /** An annotation. `Sub(v, [])` is v[()]; `Brackets` is a list display such as a Callable's
      parameter list; `Quoted` is a string literal holding an annotation, with the features of its
      content; `Opaque` is any other expression, by its printed text, that holds no old-style name and
      needs no parentheses if it comes to stand beside `|` or before brackets. `Unparsable` is text
      that is no expression, and `Garbled` text that is not read back as it was meant. */
  datatype Expr =
    | Name(id: Ident)
    | NoneLit
    | Opaque(text: string, features: set<Feature>)
    | Sub(value: Expr, args: seq<Expr>)
    | Bin(op: Operator, left: Expr, right: Expr)
    | Brackets(elts: seq<Expr>)
    | Quoted(mark: Mark, features: set<Feature>, inner: Expr)
    | Unparsable
    | Garbled

  /** What stands before the brackets. */
  datatype Head = Renamed(alias: Alias) | OptionalHead | UnionHead | OtherHead

  function HeadOf(v: Expr): Head {
    match v
    case Name(Old(a)) => Renamed(a)
    case Name(Special(Optional)) => OptionalHead
    case Name(Special(Union)) => UnionHead
    case _ => OtherHead
  }

  // ---- Printing ----

  /** The mark that repr puts around a content: apostrophes unless only they occur in it. */
  function ReprMark(content: set<Feature>): Feature {
    if Apostrophe in content && QuoteMark !in content then QuoteMark else Apostrophe
  }

  /** The features of that text: its marks, the content's own, and an escape of its own mark. */
  function ReprFeatures(content: set<Feature>): set<Feature> {
    var m := ReprMark(content);
    {Literal, m} + (content * {Apostrophe, QuoteMark, Fragile}) + if m in content then {Fragile} else {}
  }

  /** An expression as ast.unparse prints it: literals get their repr, keeping only a u prefix. */
  function Printed(e: Expr): Expr
    decreases e, 1
  {
    match e
    case Sub(v, args) => Sub(Printed(v), PrintedAll(args))
    case Bin(op, l, r) => Bin(op, Printed(l), Printed(r))
    case Brackets(elts) => Brackets(PrintedAll(elts))
    case Quoted(mark, f, inner) => Quoted(if mark == Unicode then mark else Bare(ReprMark(f)), f, inner)
    case _ => e
  }

  function PrintedAll(es: seq<Expr>): (r: seq<Expr>)
    ensures |r| == |es| && forall i :: 0 <= i < |es| ==> r[i] == Printed(es[i])
    decreases es, 0
  {
    if es == [] then [] else [Printed(es[0])] + PrintedAll(es[1..])
  }

  /** The features of the printed text. */
  function Features(e: Expr): set<Feature>
    decreases e, 1
  {
    match e
    case Opaque(_, f) => f
    case Sub(v, args) => Features(v) + FeaturesIn(args)
    case Bin(_, l, r) => Features(l) + Features(r)
    case Brackets(elts) => FeaturesIn(elts)
    case Quoted(_, f, _) => ReprFeatures(f)
    case _ => {}
  }

  function FeaturesIn(es: seq<Expr>): set<Feature>
    decreases es, 0
  {
    if es == [] then {} else Features(es[0]) + FeaturesIn(es[1..])
  }

  /** Literals are printed between apostrophes, or between quotation marks when only apostrophes occur in
      them; with both, the apostrophes are escaped. A lower-case u stays in front. */
  lemma LiteralsPrinted(mark: Mark, content: set<Feature>, inner: Expr)
    ensures
      var p := Printed(Quoted(mark, content, inner));
      var f := Features(Quoted(mark, content, inner));
      var single, double := Apostrophe in content, QuoteMark in content;
      && p == Quoted(p.mark, content, inner) && Literal in f
      && p.mark == (if mark == Unicode then Unicode
                    else if single && !double then Bare(QuoteMark)
                    else Bare(Apostrophe))
      && (Apostrophe in f <==> single || !(single && !double))
      && (QuoteMark in f <==> double || (single && !double))
      && (Fragile in f <==> Fragile in content || (single && double))
  {
  }

  // ---- Reading back text that was put together without parentheses ----

  /** The text of `l` and of `r` with " | " between them: the operator groups to the left. */
  function Bar(l: Expr, r: Expr): Expr {
    if r.Bin? && r.op == Pipe then Bin(Pipe, Bar(l, r.left), r.right) else Bin(Pipe, l, r)
  }

  /** The texts joined with " | ". */
  function JoinOr(parts: seq<Expr>): Expr
    requires parts != []
  {
    if |parts| == 1 then parts[0] else Bar(JoinOr(parts[..|parts| - 1]), parts[|parts| - 1])
  }

  /** The text of `v` with brackets behind it: they belong to its last operand. */
  function Append(v: Expr, args: seq<Expr>): Expr {
    if !v.Bin? then Sub(v, args)
    else Bin(v.op, v.left, if Bares(v) then Append(v.right, args) else Sub(v.right, args))
  }

  /** The right operand is an operation that is printed without parentheses. */
  predicate Bares(v: Expr)
    requires v.Bin?
  {
    v.right.Bin? && Level(v.right.op) > Level(v.op)
  }

  // ---- The meaning of an annotation ----

  /** A member of a union of types; unions are flattened lists of members. */
  datatype Atom =
    | NoneAtom
    | NameAtom(id: Ident)
    | OpaqueAtom(text: string)
    | Applied(head: seq<Atom>, args: seq<seq<Atom>>)
    | Computed(op: Operator, left: seq<Atom>, right: seq<Atom>)
    | Listed(elts: seq<seq<Atom>>)
    | Nonsense

  /** Aliases mean the builtin they stand for. */
  function Resolve(id: Ident): Ident {
    match id case Old(a) => Builtin(a) case _ => id
  }

  /** The members in order. */
  function Meaning(e: Expr): seq<Atom>
    decreases e, 1
  {
    match e
    case Name(id) => [NameAtom(Resolve(id))]
    case NoneLit => [NoneAtom]
    case Opaque(t, _) => [OpaqueAtom(t)]
    case Bin(op, l, r) => if op == Pipe then Meaning(l) + Meaning(r) else [Computed(op, Meaning(l), Meaning(r))]
    case Brackets(elts) => [Listed(Meanings(elts))]
    case Quoted(_, _, inner) => Meaning(inner)
    case Unparsable => [Nonsense]
    case Garbled => [Nonsense]
    case Sub(v, args) => Subscripted(HeadOf(v), Meaning(v), Meanings(args))
  }

  function Subscripted(head: Head, v: seq<Atom>, args: seq<seq<Atom>>): seq<Atom> {
    match head
    case OptionalHead => if |args| == 1 then args[0] + [NoneAtom] else [Nonsense]
    case UnionHead => if args == [] then [Nonsense] else UnionOf(args)
    case _ => [Applied(v, args)]
  }

  function Meanings(es: seq<Expr>): (r: seq<seq<Atom>>)
    ensures |r| == |es| && forall i :: 0 <= i < |es| ==> r[i] == Meaning(es[i])
    decreases es, 0
  {
    if es == [] then [] else [Meaning(es[0])] + Meanings(es[1..])
  }

  function UnionOf(ms: seq<seq<Atom>>): seq<Atom> {
    if ms == [] then [] else UnionOf(ms[..|ms| - 1]) + ms[|ms| - 1]
  }

  // ---- Valid annotations ----

  /** Arities that typing accepts: one argument for Optional, at least one for the others, and any
      number, including none, for Tuple. */
  predicate Valid(e: Expr) {
    match e
    case Bin(_, l, r) => Valid(l) && Valid(r)
    case Sub(v, args) => Valid(v) && (forall a :: a in args ==> Valid(a)) && Arity(HeadOf(v), |args|)
    case Brackets(elts) => forall x :: x in elts ==> Valid(x)
    case Quoted(_, _, inner) => Valid(inner)
    case Unparsable => false
    case Garbled => false
    case _ => true
  }

  predicate Arity(head: Head, n: nat) {
    match head
    case Renamed(a) => a == Tuple || n >= 1
    case OptionalHead => n == 1
    case UnionHead => n >= 1
    case OtherHead => true
  }

  /** Every part of the text is an expression, and every literal is read back as it was meant. */
  predicate Intact(e: Expr) {
    match e
    case Bin(_, l, r) => Intact(l) && Intact(r)
    case Sub(v, args) => Intact(v) && forall a :: a in args ==> Intact(a)
    case Brackets(elts) => forall x :: x in elts ==> Intact(x)
    case Quoted(_, _, inner) => Intact(inner)
    case Unparsable => false
    case Garbled => false
    case _ => true
  }

  lemma {:induction false} ValidIntact(e: Expr)
    requires Valid(e)
    ensures Intact(e)
  {
    match e
    case Bin(_, l, r) => ValidIntact(l); ValidIntact(r);
    case Sub(v, args) =>
      ValidIntact(v);
      forall a | a in args ensures Intact(a) { ValidIntact(a); }
    case Brackets(elts) => forall x | x in elts ensures Intact(x) { ValidIntact(x); }
    case Quoted(_, _, inner) => ValidIntact(inner);
    case _ =>
  }

  /** No annotation is without members. */
  lemma {:induction false} SomeMember(e: Expr)
    ensures |Meaning(e)| >= 1
    decreases e
  {
    match e
    case Bin(_, l, r) => SomeMember(l); SomeMember(r);
    case Quoted(_, _, inner) => SomeMember(inner);
    case Sub(v, args) =>
      if HeadOf(v) == UnionHead && args != [] {
        var last := args[|args| - 1];
        assert last in args;
        SomeMember(last);
        assert Meanings(args)[|args| - 1] == Meaning(last);
      }
    case _ =>
  }

  // ---- Printing changes marks only ----

  lemma PrintedHead(v: Expr)
    ensures HeadOf(Printed(v)) == HeadOf(v) && (HeadOf(v) != OtherHead ==> Printed(v) == v)
  {
  }

  lemma {:induction false} PrintedMeans(e: Expr)
    ensures Meaning(Printed(e)) == Meaning(e)
    decreases e, 1
  {
    match e
    case Bin(_, l, r) => PrintedMeans(l); PrintedMeans(r);
    case Sub(v, args) =>
      PrintedHead(v);
      PrintedMeans(v);
      PrintedMeansAll(args);
    case Brackets(elts) => PrintedMeansAll(elts);
    case _ =>
  }

  lemma {:induction false} PrintedMeansAll(es: seq<Expr>)
    ensures Meanings(PrintedAll(es)) == Meanings(es)
    decreases es, 0
  {
    forall i | 0 <= i < |es| ensures Meaning(PrintedAll(es)[i]) == Meaning(es[i]) { PrintedMeans(es[i]); }
  }

  lemma {:induction false} PrintedIntact(e: Expr)
    ensures Intact(Printed(e)) <==> Intact(e)
    decreases e
  {
    match e
    case Bin(_, l, r) => PrintedIntact(l); PrintedIntact(r);
    case Sub(v, args) => PrintedIntact(v); PrintedAllIntact(args);
    case Brackets(elts) => PrintedAllIntact(elts);
    case _ =>
  }

  lemma {:induction false} PrintedAllIntact(es: seq<Expr>)
    ensures (forall x :: x in PrintedAll(es) ==> Intact(x)) <==> forall x :: x in es ==> Intact(x)
    decreases es
  {
    forall i | 0 <= i < |es| ensures Intact(PrintedAll(es)[i]) <==> Intact(es[i]) { PrintedIntact(es[i]); }
    if forall x :: x in PrintedAll(es) ==> Intact(x) {
      forall x | x in es ensures Intact(x) {
        var i :| 0 <= i < |es| && es[i] == x;
        assert PrintedAll(es)[i] in PrintedAll(es);
      }
    }
    if forall x :: x in es ==> Intact(x) {
      forall x | x in PrintedAll(es) ensures Intact(x) {
        var i :| 0 <= i < |es| && PrintedAll(es)[i] == x;
        assert es[i] in es;
      }
    }
  }

  lemma {:induction false} PrintedFeatures(e: Expr)
    ensures Features(Printed(e)) == Features(e)
    decreases e, 1
  {
    match e
    case Bin(_, l, r) => PrintedFeatures(l); PrintedFeatures(r);
    case Sub(v, args) => PrintedFeatures(v); PrintedFeaturesIn(args);
    case Brackets(elts) => PrintedFeaturesIn(elts);
    case _ =>
  }

  lemma {:induction false} PrintedFeaturesIn(es: seq<Expr>)
    ensures FeaturesIn(PrintedAll(es)) == FeaturesIn(es)
    decreases es, 0
  {
    if es != [] {
      PrintedFeatures(es[0]);
      PrintedFeaturesIn(es[1..]);
      assert PrintedAll(es)[1..] == PrintedAll(es[1..]);
    }
  }

  // ---- Reading back keeps everything but the grouping ----

  /** Regrouping `|` is harmless. */
  lemma {:induction false} BarKeeps(l: Expr, r: Expr)
    ensures Meaning(Bar(l, r)) == Meaning(l) + Meaning(r)
    ensures Intact(Bar(l, r)) <==> Intact(l) && Intact(r)
    ensures Features(Bar(l, r)) == Features(l) + Features(r)
  {
    if r.Bin? && r.op == Pipe {
      BarKeeps(l, r.left);
      assert Meaning(l) + Meaning(r.left) + Meaning(r.right) == Meaning(l) + (Meaning(r.left) + Meaning(r.right));
    }
  }

  lemma {:induction false} JoinOrMeaning(parts: seq<Expr>)
    requires parts != []
    ensures Meaning(JoinOr(parts)) == UnionOf(Meanings(parts))
  {
    var n := |parts|;
    assert Meanings(parts)[..n - 1] == Meanings(parts[..n - 1]);
    if n == 1 {
      assert UnionOf(Meanings(parts[..0])) == [];
    } else {
      JoinOrMeaning(parts[..n - 1]);
      BarKeeps(JoinOr(parts[..n - 1]), parts[n - 1]);
    }
  }

  lemma {:induction false} JoinOrIntact(parts: seq<Expr>)
    requires parts != []
    ensures Intact(JoinOr(parts)) <==> forall i :: 0 <= i < |parts| ==> Intact(parts[i])
  {
    var n := |parts|;
    if n > 1 {
      JoinOrIntact(parts[..n - 1]);
      BarKeeps(JoinOr(parts[..n - 1]), parts[n - 1]);
    }
  }

  lemma {:induction false} JoinOrFeatures(parts: seq<Expr>)
    requires parts != []
    ensures Features(JoinOr(parts)) == FeaturesIn(parts)
  {
    var n := |parts| - 1;
    FeaturesInit(parts, n);
    if n > 0 {
      JoinOrFeatures(parts[..n]);
      BarKeeps(JoinOr(parts[..n]), parts[n]);
    }
  }

  lemma {:induction false} FeaturesInit(parts: seq<Expr>, n: nat)
    requires |parts| == n + 1
    ensures FeaturesIn(parts) == FeaturesIn(parts[..n]) + Features(parts[n])
  {
    if n > 0 {
      FeaturesInit(parts[1..], n - 1);
      assert parts[..n][1..] == parts[1..][..n - 1];
    }
  }

  lemma {:induction false} AppendKeeps(v: Expr, args: seq<Expr>)
    ensures Intact(Append(v, args)) <==> Intact(v) && forall a :: a in args ==> Intact(a)
    ensures Features(Append(v, args)) == Features(v) + FeaturesIn(args)
  {
    if v.Bin? && Bares(v) { AppendKeeps(v.right, args); }
  }
}
