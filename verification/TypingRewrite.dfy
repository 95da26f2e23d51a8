/** Rewriting old-style typing annotations to native syntax, and checking for them. */
module TypingRewrite {
  import opened Options
  import opened Annotations

  // ---- The rewriter ----

  /** _transform_to_text: the new text, or nothing when no old-style name is found. Every operation that
      changes is printed with `|`. */
  function Transform(e: Expr): Option<Expr>
    decreases e, 1
  {
    match e
    case Name(Old(a)) => Some(Name(Builtin(a)))
    case Bin(_, l, r) =>
      var l', r' := Transform(l), Transform(r);
      if l'.Some? || r'.Some? then Some(Bar(OrPrint(l', l), OrPrint(r', r))) else None
    case Sub(v, args) => Subscript(v, TransformAll(args), PrintedAll(args))
    case _ => None
  }

  /** The subscript of `v` from its rewritten and its printed arguments. */
  function Subscript(v: Expr, inner: seq<Expr>, printed: seq<Expr>): Option<Expr> {
    match HeadOf(v)
    case Renamed(a) => Some(if inner == [] then Unparsable else Sub(Name(Builtin(a)), inner))
    case OptionalHead => Some(if |inner| != 1 then Unparsable else Bin(Pipe, inner[0], NoneLit))
    case UnionHead => Some(if inner == [] then Unparsable else JoinOr(inner))
    case OtherHead => if inner != printed then Some(Append(Printed(v), inner)) else None
  }

  /** The new text of a part, or the part printed. */
  function OrPrint(t: Option<Expr>, e: Expr): Expr {
    match t case Some(x) => x case None => Printed(e)
  }

  function TransformAll(es: seq<Expr>): (r: seq<Expr>)
    ensures |r| == |es| && forall i :: 0 <= i < |es| ==> r[i] == OrPrint(Transform(es[i]), es[i])
    decreases es, 0
  {
    if es == [] then [] else [OrPrint(Transform(es[0]), es[0])] + TransformAll(es[1..])
  }

  /** A part after the rewrite, printed. */
  function Result(e: Expr): Expr {
    OrPrint(Transform(e), e)
  }

  /** The text between two copies of the mark, as it is read back. */
  function Enquote(mark: Mark, t: Expr): Expr {
    if mark.Bare? && Features(t) !! {mark.sign, Fragile} then Quoted(mark, Features(t), t) else Garbled
  }

  /** _transform_annotation: a string annotation is rewritten between two copies of its first
      character; nothing happens where nothing is found. */
  function Rewrite(e: Expr): Expr {
    match Transform(Body(e))
    case None => e
    case Some(t) => if e.Quoted? then Enquote(e.mark, t) else t
  }

  /** The part of an annotation that the rewriter reads. */
  function Body(e: Expr): Expr {
    if e.Quoted? then e.inner else e
  }

  /** Without `from __future__ import annotations` the annotation passes skip whatever holds a string
      literal. */
  predicate Skipped(future: bool, e: Expr) {
    !future && Literal in Features(e)
  }

  /** The pass over run-time names: aliases outside of string literals. */
  function RenameBare(e: Expr): Expr
    decreases e, 1
  {
    match e
    case Name(Old(a)) => Name(Builtin(a))
    case Sub(v, args) => Sub(RenameBare(v), RenameBareAll(args))
    case Bin(op, l, r) => Bin(op, RenameBare(l), RenameBare(r))
    case Brackets(elts) => Brackets(RenameBareAll(elts))
    case _ => e
  }

  function RenameBareAll(es: seq<Expr>): (r: seq<Expr>)
    ensures |r| == |es| && forall i :: 0 <= i < |es| ==> r[i] == RenameBare(es[i])
    decreases es, 0
  {
    if es == [] then [] else [RenameBare(es[0])] + RenameBareAll(es[1..])
  }

  /** What the fix makes of an annotation: the run-time pass takes those that were skipped. */
  function Fix(future: bool, e: Expr): Expr {
    if Skipped(future, e) then RenameBare(e) else Rewrite(e)
  }

  // ---- What goes wrong ----

  /** Nothing the rewriter would change. */
  predicate Modern(e: Expr) {
    match e
    case Name(id) => !id.Old?
    case Bin(_, l, r) => Modern(l) && Modern(r)
    case Sub(v, args) => HeadOf(v) == OtherHead && forall a :: a in args ==> Modern(a)
    case _ => true
  }

  /** Tuple[()] occurs where the rewriter looks. */
  predicate HasEmptyTuple(e: Expr) {
    match e
    case Bin(_, l, r) => HasEmptyTuple(l) || HasEmptyTuple(r)
    case Sub(v, args) => (HeadOf(v) == Renamed(Tuple) && args == []) || exists a :: a in args && HasEmptyTuple(a)
    case _ => false
  }

  /** A string annotation that changes and cannot be put between two copies of its first character:
      that is a prefix letter, or the text still holds such a mark or a fragile escape. */
  predicate Misquoted(e: Expr) {
    e.Quoted? && !Modern(e.inner) && !(e.mark.Bare? && Features(e.inner) !! {e.mark.sign, Fragile})
  }

  /** Where the rewriter looks, something changes below an operator other than `|`, or in the brackets
      behind an operation: operator or parentheses are lost. */
  predicate Regrouped(e: Expr) {
    match e
    case Bin(op, l, r) => (op != Pipe && !Modern(e)) || Regrouped(l) || Regrouped(r)
    case Sub(v, args) => (v.Bin? && !Modern(e)) || exists a :: a in args && Regrouped(a)
    case _ => false
  }

  /** Lost parentheses bring an old-style name to where the rewriter looks. */
  predicate Revived(e: Expr) {
    match e
    case Bin(_, l, r) => Revived(l) || Revived(r)
    case Sub(v, args) => (v.Bin? && !Modern(e) && !ModernHead(v)) || exists a :: a in args && Revived(a)
    case _ => false
  }

  /** Brackets may be put behind the text of `v`. */
  predicate ModernHead(v: Expr) {
    if !v.Bin? then HeadOf(v) == OtherHead
    else Modern(v.left) && if Bares(v) then ModernHead(v.right) else HeadOf(v.right) == OtherHead
  }

  // ---- The rewriter changes exactly what is not modern ----

  /** Old-style names outside of string literals, counted. */
  function Olds(e: Expr): nat
    decreases e, 1
  {
    match e
    case Name(id) => if IsOldName(id) then 1 else 0
    case Bin(_, l, r) => Olds(l) + Olds(r)
    case Sub(v, args) => Olds(v) + OldsIn(args)
    case Brackets(elts) => OldsIn(elts)
    case _ => 0
  }

  function OldsIn(es: seq<Expr>): nat
    decreases es, 0
  {
    if es == [] then 0 else Olds(es[0]) + OldsIn(es[1..])
  }

  predicate IsOldName(id: Ident) {
    id.Old? || id.Special?
  }

  lemma {:induction false} PrintedOlds(e: Expr)
    ensures Olds(Printed(e)) == Olds(e)
    decreases e, 1
  {
    match e
    case Bin(_, l, r) => PrintedOlds(l); PrintedOlds(r);
    case Sub(v, args) => PrintedOlds(v); PrintedOldsIn(args);
    case Brackets(elts) => PrintedOldsIn(elts);
    case _ =>
  }

  lemma {:induction false} PrintedOldsIn(es: seq<Expr>)
    ensures OldsIn(PrintedAll(es)) == OldsIn(es)
    decreases es, 0
  {
    if es != [] {
      PrintedOlds(es[0]);
      PrintedOldsIn(es[1..]);
      assert PrintedAll(es)[1..] == PrintedAll(es[1..]);
    }
  }

  lemma {:induction false} BarOlds(l: Expr, r: Expr)
    ensures Olds(Bar(l, r)) == Olds(l) + Olds(r)
  {
    if r.Bin? && r.op == Pipe { BarOlds(l, r.left); }
  }

  lemma {:induction false} JoinOrOlds(parts: seq<Expr>)
    requires parts != []
    ensures Olds(JoinOr(parts)) == OldsIn(parts)
  {
    var n := |parts| - 1;
    OldsInit(parts, n);
    if n > 0 {
      JoinOrOlds(parts[..n]);
      BarOlds(JoinOr(parts[..n]), parts[n]);
    }
  }

  lemma {:induction false} OldsInit(parts: seq<Expr>, n: nat)
    requires |parts| == n + 1
    ensures OldsIn(parts) == OldsIn(parts[..n]) + Olds(parts[n])
  {
    if n > 0 {
      OldsInit(parts[1..], n - 1);
      assert parts[..n][1..] == parts[1..][..n - 1];
    }
  }

  lemma {:induction false} AppendOlds(v: Expr, args: seq<Expr>)
    ensures Olds(Append(v, args)) == Olds(v) + OldsIn(args)
  {
    if v.Bin? && Bares(v) { AppendOlds(v.right, args); }
  }

  /** A change removes an old-style name. */
  lemma {:induction false} ResultShrinks(e: Expr)
    ensures Transform(e).Some? <==> !Modern(e)
    ensures Olds(Result(e)) <= Olds(e) && (!Modern(e) ==> Olds(Result(e)) < Olds(e))
    decreases e, 1
  {
    PrintedOlds(e);
    match e
    case Bin(_, l, r) =>
      ResultShrinks(l);
      ResultShrinks(r);
      BarOlds(Result(l), Result(r));
    case Sub(v, args) =>
      ResultShrinksIn(args);
      PrintedOlds(v);
      SubscriptShrinks(v, TransformAll(args), PrintedAll(args), OldsIn(args));
    case _ =>
  }

  lemma SubscriptShrinks(v: Expr, inner: seq<Expr>, printed: seq<Expr>, count: nat)
    requires OldsIn(inner) <= count && (inner != printed ==> OldsIn(inner) < count) && Olds(Printed(v)) == Olds(v)
    ensures
      var t := Subscript(v, inner, printed);
      && (t.Some? <==> HeadOf(v) != OtherHead || inner != printed)
      && (t.Some? ==> Olds(t.value) < Olds(v) + count)
  {
    match HeadOf(v)
    case OptionalHead => if |inner| == 1 { assert OldsIn(inner[1..]) == 0; }
    case UnionHead => if inner != [] { JoinOrOlds(inner); }
    case OtherHead => AppendOlds(Printed(v), inner);
    case _ =>
  }

  lemma {:induction false} ResultShrinksIn(es: seq<Expr>)
    ensures TransformAll(es) != PrintedAll(es) <==> exists x :: x in es && !Modern(x)
    ensures OldsIn(TransformAll(es)) <= OldsIn(es)
    ensures TransformAll(es) != PrintedAll(es) ==> OldsIn(TransformAll(es)) < OldsIn(es)
    decreases es, 0
  {
    if es != [] {
      ResultShrinks(es[0]);
      PrintedOlds(es[0]);
      ResultShrinksIn(es[1..]);
      assert TransformAll(es)[1..] == TransformAll(es[1..]);
      assert PrintedAll(es)[1..] == PrintedAll(es[1..]);
      assert TransformAll(es)[0] == Result(es[0]) && PrintedAll(es)[0] == Printed(es[0]);
      assert es == [es[0]] + es[1..];
      assert TransformAll(es) == [Result(es[0])] + TransformAll(es[1..]);
      assert PrintedAll(es) == [Printed(es[0])] + PrintedAll(es[1..]);
    }
  }

  // ---- The output is modern unless a name is revived ----

  lemma {:induction false} PrintedModern(e: Expr)
    ensures Modern(Printed(e)) <==> Modern(e)
    decreases e
  {
    match e
    case Bin(_, l, r) => PrintedModern(l); PrintedModern(r);
    case Sub(v, args) =>
      PrintedHead(v);
      forall i | 0 <= i < |args| ensures Modern(PrintedAll(args)[i]) <==> Modern(args[i]) { PrintedModern(args[i]); }
      if forall a :: a in PrintedAll(args) ==> Modern(a) {
        forall a | a in args ensures Modern(a) {
          var i :| 0 <= i < |args| && args[i] == a;
          assert PrintedAll(args)[i] in PrintedAll(args);
        }
      }
    case _ =>
  }

  lemma {:induction false} BarModern(l: Expr, r: Expr)
    ensures Modern(Bar(l, r)) <==> Modern(l) && Modern(r)
  {
    if r.Bin? && r.op == Pipe { BarModern(l, r.left); }
  }

  lemma {:induction false} JoinOrModern(parts: seq<Expr>)
    requires parts != []
    ensures Modern(JoinOr(parts)) <==> forall i :: 0 <= i < |parts| ==> Modern(parts[i])
  {
    var n := |parts|;
    if n > 1 {
      JoinOrModern(parts[..n - 1]);
      BarModern(JoinOr(parts[..n - 1]), parts[n - 1]);
    }
  }

  lemma {:induction false} AppendModern(v: Expr, args: seq<Expr>)
    ensures Modern(Append(v, args)) <==> ModernHead(v) && forall a :: a in args ==> Modern(a)
  {
    if v.Bin? && Bares(v) { AppendModern(v.right, args); }
  }

  lemma {:induction false} PrintedModernHead(v: Expr)
    ensures ModernHead(Printed(v)) <==> ModernHead(v)
  {
    PrintedHead(v);
    if v.Bin? {
      PrintedModern(v.left);
      PrintedHead(v.right);
      if Bares(v) { PrintedModernHead(v.right); }
    }
  }

  lemma {:induction false} RevivedIsOld(e: Expr)
    requires Revived(e)
    ensures !Modern(e)
  {
    match e
    case Bin(_, l, r) => if Revived(l) { RevivedIsOld(l); } else { RevivedIsOld(r); }
    case Sub(v, args) =>
      if Modern(e) {
        var a :| a in args && Revived(a);
        RevivedIsOld(a);
      }
  }

  lemma {:induction false} ResultModern(e: Expr)
    ensures !Revived(e) ==> Modern(Result(e))
    ensures Valid(e) && Revived(e) ==> !Modern(Result(e))
    decreases e
  {
    ResultShrinks(e);
    if Modern(e) {
      PrintedModern(e);
      if Revived(e) { RevivedIsOld(e); }
    } else {
      match e
      case Bin(_, l, r) =>
        ResultModern(l);
        ResultModern(r);
        BarModern(Result(l), Result(r));
      case Sub(v, args) =>
        forall i | 0 <= i < |args|
          ensures !Revived(args[i]) ==> Modern(TransformAll(args)[i])
          ensures Valid(args[i]) && Revived(args[i]) ==> !Modern(TransformAll(args)[i])
        {
          assert args[i] in args;
          ResultModern(args[i]);
        }
        ArgumentsModern(args, TransformAll(args));
        SubscriptModern(v, TransformAll(args), PrintedAll(args));
      case _ =>
    }
  }

  lemma SubscriptModern(v: Expr, inner: seq<Expr>, printed: seq<Expr>)
    requires Subscript(v, inner, printed).Some?
    ensures
      var m := (v.Bin? ==> ModernHead(v)) && forall x :: x in inner ==> Modern(x);
      && (m ==> Modern(Subscript(v, inner, printed).value))
      && (Arity(HeadOf(v), |inner|) && Modern(Subscript(v, inner, printed).value) ==> m)
  {
    match HeadOf(v)
    case UnionHead => if inner != [] { JoinOrModern(inner); }
    case OtherHead =>
      AppendModern(Printed(v), inner);
      PrintedModernHead(v);
    case _ =>
  }

  lemma ArgumentsModern(args: seq<Expr>, inner: seq<Expr>)
    requires |inner| == |args|
    requires forall i :: 0 <= i < |args| ==>
               (!Revived(args[i]) ==> Modern(inner[i])) && (Valid(args[i]) && Revived(args[i]) ==> !Modern(inner[i]))
    ensures (forall a :: a in args ==> !Revived(a)) ==> forall x :: x in inner ==> Modern(x)
    ensures (forall a :: a in args ==> Valid(a)) && (exists a :: a in args && Revived(a)) ==>
              exists i :: 0 <= i < |inner| && inner[i] in inner && !Modern(inner[i])
  {
    forall x | x in inner && forall a :: a in args ==> !Revived(a) ensures Modern(x) {
      var i :| 0 <= i < |inner| && inner[i] == x;
      assert args[i] in args;
    }
    if (forall a :: a in args ==> Valid(a)) && exists a :: a in args && Revived(a) {
      var a :| a in args && Revived(a);
      var i :| 0 <= i < |args| && args[i] == a;
      assert inner[i] in inner && !Modern(inner[i]);
    }
  }

  // ---- The output means the same unless something is regrouped ----

  lemma {:induction false} RegroupedIsOld(e: Expr)
    requires Regrouped(e)
    ensures !Modern(e)
  {
    match e
    case Bin(_, l, r) => if Modern(e) { if Regrouped(l) { RegroupedIsOld(l); } else { RegroupedIsOld(r); } }
    case Sub(v, args) =>
      if Modern(e) {
        var a :| a in args && Regrouped(a);
        RegroupedIsOld(a);
      }
  }

  /** The same members, or others and not fewer. */
  ghost predicate Tracks(old_: seq<Atom>, new_: seq<Atom>, regrouped: bool) {
    |new_| >= |old_| && (new_ == old_ <==> !regrouped)
  }

  lemma TracksConcat(a: seq<Atom>, a': seq<Atom>, p: bool, b: seq<Atom>, b': seq<Atom>, q: bool)
    requires Tracks(a, a', p) && Tracks(b, b', q)
    ensures Tracks(a + b, a' + b', p || q)
  {
    if a + b == a' + b' {
      assert a == (a + b)[..|a|] && a' == (a' + b')[..|a|];
      assert b == (a + b)[|a|..] && b' == (a' + b')[|a|..];
    }
  }

  lemma {:induction false} TracksUnion(ms: seq<seq<Atom>>, ns: seq<seq<Atom>>, changed: seq<bool>)
    requires |ms| == |ns| == |changed| && forall i :: 0 <= i < |ms| ==> Tracks(ms[i], ns[i], changed[i])
    ensures Tracks(UnionOf(ms), UnionOf(ns), true in changed)
  {
    if ms != [] {
      var n := |ms| - 1;
      TracksUnion(ms[..n], ns[..n], changed[..n]);
      TracksConcat(UnionOf(ms[..n]), UnionOf(ns[..n]), true in changed[..n], ms[n], ns[n], changed[n]);
      assert changed == changed[..n] + [changed[n]];
    }
  }

  lemma {:induction false} ResultMeaning(e: Expr)
    requires Valid(e) && !HasEmptyTuple(e)
    ensures Intact(Result(e)) && Tracks(Meaning(e), Meaning(Result(e)), Regrouped(e))
    decreases e
  {
    PrintedMeans(e);
    ValidIntact(e);
    PrintedIntact(e);
    ResultShrinks(e);
    if Modern(e) {
      if Regrouped(e) { RegroupedIsOld(e); }
    } else {
      match e
      case Bin(op, l, r) =>
        ResultMeaning(l);
        ResultMeaning(r);
        BarKeeps(Result(l), Result(r));
        SomeMember(l);
        SomeMember(r);
        TracksConcat(Meaning(l), Meaning(Result(l)), Regrouped(l), Meaning(r), Meaning(Result(r)), Regrouped(r));
      case Sub(v, args) =>
        forall i | 0 <= i < |args|
          ensures Intact(TransformAll(args)[i])
          ensures Tracks(Meaning(args[i]), Meaning(TransformAll(args)[i]), Regrouped(args[i]))
        {
          assert args[i] in args;
          ResultMeaning(args[i]);
        }
        PrintedMeans(v);
        PrintedIntact(v);
        SubscriptTracks(v, args, TransformAll(args), PrintedAll(args));
        SubscriptIntact(v, TransformAll(args), PrintedAll(args));
      case _ =>
    }
  }

  ghost predicate AllTrack(args: seq<Expr>, inner: seq<Expr>) {
    && |inner| == |args|
    && forall i :: 0 <= i < |args| ==> Tracks(Meaning(args[i]), Meaning(inner[i]), Regrouped(args[i]))
  }

  ghost predicate AnyRegrouped(args: seq<Expr>) {
    exists a :: a in args && Regrouped(a)
  }

  /** Which arguments are regrouped. */
  function Regroupings(args: seq<Expr>): (r: seq<bool>)
    ensures |r| == |args| && forall i :: 0 <= i < |args| ==> r[i] == Regrouped(args[i])
    ensures true in r <==> exists a :: a in args && Regrouped(a)
  {
    if args == [] then [] else
      assert args == [args[0]] + args[1..];
      [Regrouped(args[0])] + Regroupings(args[1..])
  }

  lemma SubscriptTracks(v: Expr, args: seq<Expr>, inner: seq<Expr>, printed: seq<Expr>)
    requires Arity(HeadOf(v), |args|) && !(HeadOf(v) == Renamed(Tuple) && args == [])
    requires Subscript(v, inner, printed).Some? && Meaning(Printed(v)) == Meaning(v)
    requires AllTrack(args, inner)
    ensures Tracks(Subscripted(HeadOf(v), Meaning(v), Meanings(args)), Meaning(Subscript(v, inner, printed).value),
                   v.Bin? || AnyRegrouped(args))
  {
    match HeadOf(v)
    case Renamed(a) => AppliedTracks(v, args, Name(Builtin(a)), inner);
    case OptionalHead => OptionalTracks(args, inner);
    case UnionHead => UnionTracks(args, inner);
    case OtherHead =>
      PrintedHead(v);
      if v.Bin? { OperationMisreads(v, args, inner); } else { AppliedTracks(v, args, Printed(v), inner); }
  }

  lemma AppliedTracks(v: Expr, args: seq<Expr>, v': Expr, inner: seq<Expr>)
    requires Meaning(v') == Meaning(v) && HeadOf(v') == OtherHead
    requires AllTrack(args, inner)
    ensures Tracks([Applied(Meaning(v), Meanings(args))], Meaning(Sub(v', inner)),
                   AnyRegrouped(args))
  {
    ArgumentsTrack(args, inner);
    assert Meaning(Sub(v', inner)) == [Applied(Meaning(v), Meanings(inner))];
  }

  lemma OptionalTracks(args: seq<Expr>, inner: seq<Expr>)
    requires AllTrack(args, inner) && |args| == 1
    ensures Tracks(Meaning(args[0]) + [NoneAtom], Meaning(Bin(Pipe, inner[0], NoneLit)),
                   AnyRegrouped(args))
  {
    assert args == [args[0]];
    TracksConcat(Meaning(args[0]), Meaning(inner[0]), Regrouped(args[0]), [NoneAtom], [NoneAtom], false);
  }

  lemma UnionTracks(args: seq<Expr>, inner: seq<Expr>)
    requires AllTrack(args, inner) && args != []
    ensures Tracks(UnionOf(Meanings(args)), Meaning(JoinOr(inner)), AnyRegrouped(args))
  {
    JoinOrMeaning(inner);
    TracksUnion(Meanings(args), Meanings(inner), Regroupings(args));
  }

  lemma SubscriptIntact(v: Expr, inner: seq<Expr>, printed: seq<Expr>)
    requires Arity(HeadOf(v), |inner|) && !(HeadOf(v) == Renamed(Tuple) && inner == [])
    requires Subscript(v, inner, printed).Some? && Intact(Printed(v)) && forall x :: x in inner ==> Intact(x)
    ensures Intact(Subscript(v, inner, printed).value)
  {
    match HeadOf(v)
    case UnionHead => JoinOrIntact(inner);
    case OtherHead => AppendKeeps(Printed(v), inner);
    case _ =>
  }

  lemma ArgumentsTrack(args: seq<Expr>, inner: seq<Expr>)
    requires AllTrack(args, inner)
    ensures Meanings(inner) == Meanings(args) <==> !AnyRegrouped(args)
  {
    if exists a :: a in args && Regrouped(a) {
      var a :| a in args && Regrouped(a);
      var i :| 0 <= i < |args| && args[i] == a;
      assert Meanings(inner)[i] != Meanings(args)[i];
    } else {
      forall i | 0 <= i < |args| ensures Meanings(inner)[i] == Meanings(args)[i] { assert args[i] in args; }
    }
  }

  lemma OperationMisreads(v: Expr, args: seq<Expr>, inner: seq<Expr>)
    requires v.Bin?
    ensures Tracks([Applied(Meaning(v), Meanings(args))], Meaning(Append(Printed(v), inner)), true)
  {
    var p := Printed(v);
    SomeMember(p.left);
    SomeMember(Append(p, inner).right);
  }

  lemma {:induction false} EmptyTupleBreaks(e: Expr)
    requires Valid(e) && HasEmptyTuple(e)
    ensures Transform(e).Some? && !Intact(Result(e))
    decreases e
  {
    match e
    case Bin(_, l, r) =>
      if HasEmptyTuple(l) { EmptyTupleBreaks(l); } else { EmptyTupleBreaks(r); }
      BarKeeps(Result(l), Result(r));
    case Sub(v, args) =>
      if args != [] {
        var a :| a in args && HasEmptyTuple(a);
        var i :| 0 <= i < |args| && args[i] == a;
        EmptyTupleBreaks(a);
        ValidIntact(a);
        PrintedIntact(a);
        ArgumentBreaks(v, TransformAll(args), PrintedAll(args), i);
      }
  }

  lemma ArgumentBreaks(v: Expr, inner: seq<Expr>, printed: seq<Expr>, i: nat)
    requires i < |inner| == |printed| && Intact(printed[i]) && !Intact(inner[i])
    ensures Subscript(v, inner, printed).Some? && !Intact(Subscript(v, inner, printed).value)
  {
    assert inner[i] in inner && inner[i] != printed[i];
    match HeadOf(v)
    case UnionHead => JoinOrIntact(inner);
    case OtherHead => AppendKeeps(Printed(v), inner);
    case _ =>
  }

  // ---- The output has the same features ----

  lemma {:induction false} ResultFeatures(e: Expr)
    requires Valid(e)
    ensures Features(Result(e)) == Features(e)
    decreases e, 1
  {
    PrintedFeatures(e);
    match e
    case Bin(_, l, r) =>
      ResultFeatures(l);
      ResultFeatures(r);
      BarKeeps(Result(l), Result(r));
    case Sub(v, args) =>
      ResultFeaturesIn(args);
      PrintedFeatures(v);
      if Transform(e).Some? { SubscriptFeatures(v, TransformAll(args), PrintedAll(args)); }
    case _ =>
  }

  lemma SubscriptFeatures(v: Expr, inner: seq<Expr>, printed: seq<Expr>)
    requires Arity(HeadOf(v), |inner|) && Features(Printed(v)) == Features(v) && Subscript(v, inner, printed).Some?
    ensures Features(Subscript(v, inner, printed).value) == Features(v) + FeaturesIn(inner)
  {
    match HeadOf(v)
    case UnionHead => JoinOrFeatures(inner);
    case OptionalHead => assert FeaturesIn(inner[1..]) == {};
    case OtherHead => AppendKeeps(Printed(v), inner);
    case _ =>
  }

  lemma {:induction false} ResultFeaturesIn(es: seq<Expr>)
    requires forall x :: x in es ==> Valid(x)
    ensures FeaturesIn(TransformAll(es)) == FeaturesIn(es)
    decreases es, 0
  {
    if es != [] {
      ResultFeatures(es[0]);
      ResultFeaturesIn(es[1..]);
      assert TransformAll(es)[1..] == TransformAll(es[1..]);
    }
  }

  // ---- What the check reports ----

  /** _detect_issues on one annotation: old-style names anywhere in it, string literals included. */
  function Reported(e: Expr): set<Ident>
    decreases e, 1
  {
    match e
    case Name(id) => if IsOldName(id) then {id} else {}
    case Bin(_, l, r) => Reported(l) + Reported(r)
    case Sub(v, args) => Reported(v) + ReportedIn(args)
    case Brackets(elts) => ReportedIn(elts)
    case Quoted(_, _, inner) => Reported(inner)
    case _ => {}
  }

  function ReportedIn(es: seq<Expr>): set<Ident>
    decreases es, 0
  {
    if es == [] then {} else Reported(es[0]) + ReportedIn(es[1..])
  }

  /** The scan for run-time names: aliases outside of string literals. */
  function BareNames(e: Expr): set<Ident>
    decreases e, 1
  {
    match e
    case Name(id) => if id.Old? then {id} else {}
    case Bin(_, l, r) => BareNames(l) + BareNames(r)
    case Sub(v, args) => BareNames(v) + BareNamesIn(args)
    case Brackets(elts) => BareNamesIn(elts)
    case _ => {}
  }

  function BareNamesIn(es: seq<Expr>): set<Ident>
    decreases es, 0
  {
    if es == [] then {} else BareNames(es[0]) + BareNamesIn(es[1..])
  }

  /** The whole check; text that does not parse is passed over. */
  function Checked(future: bool, e: Expr): set<Ident> {
    if !Intact(e) then {}
    else (if Skipped(future, e) then {} else Reported(e)) + BareNames(e)
  }

  /** Old-style names where the rewriter does not look: a bare Optional or Union, and whatever stands
      in a list display, in a nested string literal or before the brackets of another subscript. */
  function Hidden(e: Expr): set<Ident>
    decreases e, 1
  {
    match e
    case Name(id) => if id.Special? then {id} else {}
    case Bin(_, l, r) => Hidden(l) + Hidden(r)
    case Sub(v, args) => (if v.Name? then {} else Reported(v)) + HiddenIn(args)
    case Brackets(_) => Reported(e)
    case Quoted(_, _, _) => Reported(e)
    case _ => {}
  }

  function HiddenIn(es: seq<Expr>): set<Ident>
    decreases es, 0
  {
    if es == [] then {} else Hidden(es[0]) + HiddenIn(es[1..])
  }

  /** x is a part of e; parts of string literals count unless `bare`. */
  ghost predicate Occurs(x: Expr, e: Expr, bare: bool) {
    x == e ||
    match e
    case Sub(v, args) => Occurs(x, v, bare) || exists a :: a in args && Occurs(x, a, bare)
    case Bin(_, l, r) => Occurs(x, l, bare) || Occurs(x, r, bare)
    case Brackets(elts) => exists a :: a in elts && Occurs(x, a, bare)
    case Quoted(_, _, inner) => !bare && Occurs(x, inner, bare)
    case _ => false
  }

  ghost predicate OccursIn(x: Expr, es: seq<Expr>, bare: bool) {
    exists a :: a in es && Occurs(x, a, bare)
  }

  lemma OccursFirst(x: Expr, es: seq<Expr>, bare: bool)
    requires es != []
    ensures OccursIn(x, es, bare) <==> Occurs(x, es[0], bare) || OccursIn(x, es[1..], bare)
  {
    assert es[0] in es && forall a :: a in es <==> a == es[0] || a in es[1..];
  }

  /** The check finds exactly the old-style names that occur, those in string literals included. */
  lemma {:induction false} ReportedIff(e: Expr, id: Ident)
    ensures id in Reported(e) <==> (id.Old? || id.Special?) && Occurs(Name(id), e, false)
    decreases e, 1
  {
    match e
    case Sub(v, args) => ReportedIff(v, id); ReportedInIff(args, id);
    case Bin(_, l, r) => ReportedIff(l, id); ReportedIff(r, id);
    case Brackets(elts) => ReportedInIff(elts, id);
    case Quoted(_, _, inner) => ReportedIff(inner, id);
    case _ =>
  }

  lemma {:induction false} ReportedInIff(es: seq<Expr>, id: Ident)
    ensures id in ReportedIn(es) <==> (id.Old? || id.Special?) && OccursIn(Name(id), es, false)
    decreases es, 0
  {
    if es != [] {
      ReportedIff(es[0], id);
      ReportedInIff(es[1..], id);
      OccursFirst(Name(id), es, false);
    }
  }

  /** The scan for run-time names finds exactly the aliases outside of string literals. */
  lemma {:induction false} BareNamesIff(e: Expr, id: Ident)
    ensures id in BareNames(e) <==> id.Old? && Occurs(Name(id), e, true)
    decreases e, 1
  {
    match e
    case Sub(v, args) => BareNamesIff(v, id); BareNamesInIff(args, id);
    case Bin(_, l, r) => BareNamesIff(l, id); BareNamesIff(r, id);
    case Brackets(elts) => BareNamesInIff(elts, id);
    case _ =>
  }

  lemma {:induction false} BareNamesInIff(es: seq<Expr>, id: Ident)
    ensures id in BareNamesIn(es) <==> id.Old? && OccursIn(Name(id), es, true)
    decreases es, 0
  {
    if es != [] {
      BareNamesIff(es[0], id);
      BareNamesInIff(es[1..], id);
      OccursFirst(Name(id), es, true);
    }
  }

  predicate HoldsLiteral(x: Expr) {
    x.Quoted? || (x.Opaque? && Literal in x.features)
  }

  ghost predicate SomeLiteral(es: seq<Expr>) {
    exists a :: a in es && Literal in Features(a)
  }

  lemma {:induction false} LiteralsIn(es: seq<Expr>)
    ensures Literal in FeaturesIn(es) <==> SomeLiteral(es)
  {
    if es != [] {
      LiteralsIn(es[1..]);
      assert es[0] in es && forall a :: a in es <==> a == es[0] || a in es[1..];
    }
  }

  /** Without the future import an annotation is skipped exactly when a string literal occurs in it. */
  lemma {:induction false} SkippedIff(e: Expr)
    ensures !Skipped(true, e)
    ensures Skipped(false, e) <==> exists x :: Occurs(x, e, true) && HoldsLiteral(x)
    decreases e
  {
    if HoldsLiteral(e) {
      assert Occurs(e, e, true);
    } else {
      match e
      case Sub(v, args) =>
        SkippedIff(v);
        LiteralsIn(args);
        forall a | a in args ensures Skipped(false, a) <==> exists x :: Occurs(x, a, true) && HoldsLiteral(x) {
          SkippedIff(a);
        }
      case Bin(_, l, r) => SkippedIff(l); SkippedIff(r);
      case Brackets(elts) =>
        LiteralsIn(elts);
        forall a | a in elts ensures Skipped(false, a) <==> exists x :: Occurs(x, a, true) && HoldsLiteral(x) {
          SkippedIff(a);
        }
      case _ =>
    }
  }

  lemma {:induction false} BareIsReported(e: Expr)
    ensures BareNames(e) <= Reported(e)
    decreases e, 1
  {
    match e
    case Bin(_, l, r) => BareIsReported(l); BareIsReported(r);
    case Sub(v, args) => BareIsReported(v); BareIsReportedIn(args);
    case Brackets(elts) => BareIsReportedIn(elts);
    case _ =>
  }

  lemma {:induction false} BareIsReportedIn(es: seq<Expr>)
    ensures BareNamesIn(es) <= ReportedIn(es)
    decreases es, 0
  {
    if es != [] { BareIsReported(es[0]); BareIsReportedIn(es[1..]); }
  }

  lemma {:induction false} PrintedReports(e: Expr)
    ensures Reported(Printed(e)) == Reported(e)
    decreases e, 1
  {
    match e
    case Bin(_, l, r) => PrintedReports(l); PrintedReports(r);
    case Sub(v, args) => PrintedReports(v); PrintedReportsIn(args);
    case Brackets(elts) => PrintedReportsIn(elts);
    case _ =>
  }

  lemma {:induction false} PrintedReportsIn(es: seq<Expr>)
    ensures ReportedIn(PrintedAll(es)) == ReportedIn(es)
    decreases es, 0
  {
    if es != [] {
      PrintedReports(es[0]);
      PrintedReportsIn(es[1..]);
      assert PrintedAll(es)[1..] == PrintedAll(es[1..]);
    }
  }

  lemma {:induction false} BarReports(l: Expr, r: Expr)
    ensures Reported(Bar(l, r)) == Reported(l) + Reported(r)
  {
    if r.Bin? && r.op == Pipe { BarReports(l, r.left); }
  }

  lemma {:induction false} AppendReports(v: Expr, args: seq<Expr>)
    ensures Reported(Append(v, args)) == Reported(v) + ReportedIn(args)
  {
    if v.Bin? && Bares(v) { AppendReports(v.right, args); }
  }

  lemma {:induction false} JoinOrReported(parts: seq<Expr>)
    requires parts != []
    ensures Reported(JoinOr(parts)) == ReportedIn(parts)
  {
    var n := |parts| - 1;
    ReportedInit(parts, n);
    if n > 0 {
      JoinOrReported(parts[..n]);
      BarReports(JoinOr(parts[..n]), parts[n]);
    }
  }

  lemma {:induction false} ReportedInit(parts: seq<Expr>, n: nat)
    requires |parts| == n + 1
    ensures ReportedIn(parts) == ReportedIn(parts[..n]) + Reported(parts[n])
  {
    if n > 0 {
      ReportedInit(parts[1..], n - 1);
      assert parts[..n][1..] == parts[1..][..n - 1];
    }
  }

  lemma {:induction false} ResultReports(e: Expr)
    requires Valid(e) && !HasEmptyTuple(e)
    ensures Reported(Result(e)) == Hidden(e)
    decreases e, 1
  {
    match e
    case Bin(_, l, r) =>
      ResultReports(l);
      ResultReports(r);
      BarReports(Result(l), Result(r));
    case Sub(v, args) =>
      PrintedReports(v);
      ResultReportsIn(args);
      if Transform(e).Some? {
        SubscriptReports(v, TransformAll(args), PrintedAll(args));
      } else {
        assert TransformAll(args) == PrintedAll(args);
      }
    case _ => PrintedReports(e);
  }

  lemma SubscriptReports(v: Expr, inner: seq<Expr>, printed: seq<Expr>)
    requires Arity(HeadOf(v), |inner|) && !(HeadOf(v) == Renamed(Tuple) && inner == [])
    requires Reported(Printed(v)) == Reported(v) && Subscript(v, inner, printed).Some?
    ensures Reported(Subscript(v, inner, printed).value) == (if v.Name? then {} else Reported(v)) + ReportedIn(inner)
  {
    match HeadOf(v)
    case UnionHead => JoinOrReported(inner);
    case OptionalHead => assert ReportedIn(inner[1..]) == {};
    case OtherHead => AppendReports(Printed(v), inner);
    case _ =>
  }

  lemma {:induction false} ResultReportsIn(es: seq<Expr>)
    requires forall x :: x in es ==> Valid(x) && !HasEmptyTuple(x)
    ensures ReportedIn(TransformAll(es)) == HiddenIn(es)
    decreases es, 0
  {
    if es != [] {
      ResultReports(es[0]);
      ResultReportsIn(es[1..]);
      assert TransformAll(es)[1..] == TransformAll(es[1..]);
    }
  }

  // ---- Annotations that the annotation passes skip ----

  lemma RenamedHead(v: Expr)
    ensures HeadOf(RenameBare(v)) == if HeadOf(v).Renamed? then OtherHead else HeadOf(v)
  {
  }

  /** Renaming aliases keeps the meaning and the features. */
  lemma {:induction false} RenameKeeps(e: Expr)
    ensures Meaning(RenameBare(e)) == Meaning(e) && Features(RenameBare(e)) == Features(e)
    decreases e, 1
  {
    match e
    case Bin(_, l, r) => RenameKeeps(l); RenameKeeps(r);
    case Sub(v, args) => RenamedHead(v); RenameKeeps(v); RenameKeepsAll(args);
    case Brackets(elts) => RenameKeepsAll(elts);
    case _ =>
  }

  lemma {:induction false} RenameKeepsAll(es: seq<Expr>)
    ensures Meanings(RenameBareAll(es)) == Meanings(es) && FeaturesIn(RenameBareAll(es)) == FeaturesIn(es)
    decreases es, 0
  {
    if es != [] {
      RenameKeeps(es[0]);
      RenameKeepsAll(es[1..]);
      assert RenameBareAll(es)[1..] == RenameBareAll(es[1..]);
    }
  }

  /** It leaves no alias outside of literals, and nothing to rename. */
  lemma {:induction false} RenameFinishes(e: Expr)
    ensures BareNames(RenameBare(e)) == {} && RenameBare(RenameBare(e)) == RenameBare(e)
    decreases e, 1
  {
    match e
    case Bin(_, l, r) => RenameFinishes(l); RenameFinishes(r);
    case Sub(v, args) => RenameFinishes(v); RenameFinishesAll(args);
    case Brackets(elts) => RenameFinishesAll(elts);
    case _ =>
  }

  lemma {:induction false} RenameFinishesAll(es: seq<Expr>)
    ensures BareNamesIn(RenameBareAll(es)) == {} && RenameBareAll(RenameBareAll(es)) == RenameBareAll(es)
    decreases es, 0
  {
    if es != [] {
      RenameFinishes(es[0]);
      RenameFinishesAll(es[1..]);
      assert RenameBareAll(es)[1..] == RenameBareAll(es[1..]);
    }
  }

  /** The same annotation, with builtins for aliases outside of literals. */
  ghost predicate SameButAliases(e: Expr, f: Expr)
    decreases e
  {
    match e
    case Name(Old(a)) => f == Name(Builtin(a))
    case Sub(v, args) =>
      && f.Sub? && SameButAliases(v, f.value) && |f.args| == |args|
      && forall i :: 0 <= i < |args| ==> SameButAliases(args[i], f.args[i])
    case Bin(op, l, r) => f.Bin? && f.op == op && SameButAliases(l, f.left) && SameButAliases(r, f.right)
    case Brackets(elts) =>
      f.Brackets? && |f.elts| == |elts| && forall i :: 0 <= i < |elts| ==> SameButAliases(elts[i], f.elts[i])
    case _ => f == e
  }

  /** The run-time pass renames aliases and touches nothing else. */
  lemma {:induction false} RenameOnlyAliases(e: Expr)
    ensures SameButAliases(e, RenameBare(e))
    decreases e
  {
    match e
    case Sub(v, args) =>
      RenameOnlyAliases(v);
      forall i | 0 <= i < |args| ensures SameButAliases(args[i], RenameBareAll(args)[i]) { RenameOnlyAliases(args[i]); }
    case Bin(_, l, r) => RenameOnlyAliases(l); RenameOnlyAliases(r);
    case Brackets(elts) =>
      forall i | 0 <= i < |elts| ensures SameButAliases(elts[i], RenameBareAll(elts)[i]) { RenameOnlyAliases(elts[i]); }
    case _ =>
  }

  lemma {:induction false} RenameIntact(e: Expr)
    requires Intact(e)
    ensures Intact(RenameBare(e))
    decreases e
  {
    match e
    case Bin(_, l, r) => RenameIntact(l); RenameIntact(r);
    case Sub(v, args) =>
      RenameIntact(v);
      forall i | 0 <= i < |args| ensures Intact(RenameBareAll(args)[i]) {
        assert args[i] in args;
        RenameIntact(args[i]);
      }
    case Brackets(elts) =>
      forall i | 0 <= i < |elts| ensures Intact(RenameBareAll(elts)[i]) {
        assert elts[i] in elts;
        RenameIntact(elts[i]);
      }
    case _ =>
  }

  // ---- Whole annotations ----

  /** For every valid annotation, in a file with or without the future import: the fixed text can be
      read unless a Tuple[()] stands where the rewriter looks or a string annotation that changes cannot
      keep its mark; and it means the same if and only if, besides, nothing is regrouped. */
  lemma FixPreservesMeaningIff(future: bool, e: Expr)
    requires Valid(e)
    ensures Intact(Fix(future, e)) <==> Skipped(future, e) || (!HasEmptyTuple(Body(e)) && !Misquoted(e))
    ensures Intact(Fix(future, e)) && Meaning(Fix(future, e)) == Meaning(e) <==>
            Skipped(future, e) || (!HasEmptyTuple(Body(e)) && !Misquoted(e) && !Regrouped(Body(e)))
  {
    ValidIntact(e);
    if Skipped(future, e) {
      RenameKeeps(e);
      RenameIntact(e);
    } else {
      var b := Body(e);
      ResultShrinks(b);
      ResultFeatures(b);
      if Regrouped(b) { RegroupedIsOld(b); }
      if HasEmptyTuple(b) { EmptyTupleBreaks(b); } else { ResultMeaning(b); }
    }
  }

  /** The literal that Union[...] around it hides from _transform_annotation and that the rewrite brings
      to the top. */
  function Exposed(e: Expr): (r: Option<Expr>)
    ensures r.Some? ==> r.value.Quoted?
  {
    if e.Sub? && HeadOf(e.value) == UnionHead && |e.args| == 1 then
      if e.args[0].Quoted? then Some(e.args[0]) else Exposed(e.args[0])
    else
      None
  }

  lemma {:induction false} ExposedIff(e: Expr)
    requires !e.Quoted?
    ensures Result(e).Quoted? <==> Exposed(e).Some?
    ensures Exposed(e).Some? ==>
              Exposed(e).value.Quoted? && Transform(e).Some? && Result(e) == Printed(Exposed(e).value)
  {
    if e.Sub? && HeadOf(e.value) == UnionHead && |e.args| == 1 && !e.args[0].Quoted? {
      ExposedIff(e.args[0]);
    }
  }

  /** The rewriter finds a change exactly when something is old, and none in its own output if and only
      if no name was revived. */
  lemma RewriteIsFixedPoint(e: Expr)
    ensures Transform(e).Some? <==> !Modern(e)
    ensures !Revived(e) ==> Transform(Result(e)) == None
    ensures Valid(e) ==> (Transform(Result(e)) == None <==> !Revived(e))
  {
    ResultShrinks(e);
    ResultModern(e);
    ResultShrinks(Result(e));
  }

  /** A second run over an annotation that could be read changes nothing unless the first one revived a
      name or brought a string literal with an old-style name to the top. */
  lemma SecondFixIdleIff(future: bool, e: Expr)
    requires Valid(e) && (Skipped(future, e) || !Misquoted(e))
    ensures Fix(future, Fix(future, e)) == Fix(future, e) <==>
            Skipped(future, e) || (!Revived(Body(e)) && !(Exposed(e).Some? && !Modern(Exposed(e).value.inner)))
  {
    if Skipped(future, e) {
      RenameKeeps(e);
      RenameFinishes(e);
    } else {
      ResultShrinks(Body(e));
      ResultFeatures(Body(e));
      if e.Quoted? { SecondPassQuoted(e); } else { SecondPass(e); }
    }
  }

  lemma SecondPassQuoted(e: Expr)
    requires e.Quoted? && Valid(e.inner) && !Misquoted(e) && Features(Result(e.inner)) == Features(e.inner)
    ensures Rewrite(Rewrite(e)) == Rewrite(e) <==> !Revived(e.inner)
  {
    RewriteIsFixedPoint(e.inner);
    ResultShrinks(Result(e.inner));
    if Revived(e.inner) { RevivedIsOld(e.inner); }
  }

  lemma SecondPass(e: Expr)
    requires !e.Quoted? && Valid(e)
    ensures Rewrite(Rewrite(e)) == Rewrite(e) <==>
            !Revived(e) && !(Exposed(e).Some? && !Modern(Exposed(e).value.inner))
  {
    RewriteIsFixedPoint(e);
    ResultShrinks(Result(e));
    ExposedIff(e);
    if Revived(e) { RevivedIsOld(e); }
    if Exposed(e).Some? { ResultShrinks(Exposed(e).value.inner); }
  }

  /** After the fix the check reports exactly the names the rewriter cannot see, and nothing where the
      text no longer parses or the annotation is skipped. */
  lemma CheckAfterFixIff(future: bool, e: Expr)
    requires Valid(e) && (Skipped(future, e) || !Misquoted(e))
    ensures Checked(future, Fix(future, e)) ==
            if Skipped(future, e) || HasEmptyTuple(Body(e)) then {} else Hidden(Body(e))
  {
    FixPreservesMeaningIff(future, e);
    if Skipped(future, e) {
      RenameKeeps(e);
      RenameFinishes(e);
    } else {
      var b := Body(e);
      ResultShrinks(b);
      ResultFeatures(b);
      BareIsReported(Fix(future, e));
      if !HasEmptyTuple(b) {
        ResultReports(b);
        PrintedReports(b);
      }
    }
  }

  // ---- Annotations that break ----

  /** Tuple[()] becomes text that does not parse. */
  lemma EmptyTupleExample(future: bool)
    ensures Valid(Sub(Name(Old(Tuple)), [])) && !Intact(Fix(future, Sub(Name(Old(Tuple)), [])))
  {
  }

  /** 'Optional["Foo"]' becomes ''Foo' | None', and u"Optional[int]" becomes uint | Noneu; with the other
      mark the first one is fine. */
  lemma MisquotedExample()
    ensures
      var foo := Quoted(Bare(QuoteMark), {}, Name(Plain("Foo")));
      var optional := Sub(Name(Special(Optional)), [foo]);
      && !Intact(Fix(true, Quoted(Bare(Apostrophe), {QuoteMark}, optional)))
      && !Intact(Fix(true, Quoted(Unicode, {}, Sub(Name(Special(Optional)), [Name(Plain("int"))]))))
      && Intact(Fix(true, Quoted(Bare(QuoteMark), {Apostrophe}, optional)))
  {
    var foo := Quoted(Bare(QuoteMark), {}, Name(Plain("Foo")));
    assert TransformAll([foo]) == [Printed(foo)];
    assert Apostrophe in ReprFeatures({}) && ReprFeatures({}) == {Literal, Apostrophe};
  }

  /** (A | B)[List[int]] becomes A | B[list[int]], and A & List[int] becomes A | list[int]: neither has
      the members it had. */
  lemma RegroupedExample()
    ensures
      var a, b, list := Name(Plain("A")), Name(Plain("B")), Sub(Name(Old(List)), [Name(Plain("int"))]);
      var behind, masked := Sub(Bin(Pipe, a, b), [list]), Bin(Other("&", 1), a, list);
      && NameAtom(Plain("A")) in Meaning(Fix(true, behind)) && NameAtom(Plain("A")) !in Meaning(behind)
      && NameAtom(Plain("A")) in Meaning(Fix(true, masked)) && NameAtom(Plain("A")) !in Meaning(masked)
  {
    var a, list := Name(Plain("A")), Sub(Name(Old(List)), [Name(Plain("int"))]);
    ResultShrinks(list);
    ResultShrinksIn([list]);
    assert list in [list];
    assert Meaning(a)[0] == NameAtom(Plain("A"));
  }

  /** (A | List)[Dict] becomes A | List[dict], which a second run changes again. */
  lemma RevivedExample()
    ensures
      var e := Sub(Bin(Pipe, Name(Plain("A")), Name(Old(List))), [Name(Old(Dict))]);
      Valid(e) && Fix(true, Fix(true, e)) != Fix(true, e)
  {
    var e := Sub(Bin(Pipe, Name(Plain("A")), Name(Old(List))), [Name(Old(Dict))]);
    assert Name(Old(Dict)) in e.args;
    SecondFixIdleIff(true, e);
  }

  /** Callable[[List[int]], None] is reported by the check and left alone by the fix. */
  lemma CallableExample()
    ensures
      var c := Sub(Name(Plain("Callable")), [Brackets([Sub(Name(Old(List)), [Name(Plain("int"))])]), NoneLit]);
      Valid(c) && Fix(true, c) == c && Old(List) in Checked(true, c)
  {
    var list := Sub(Name(Old(List)), [Name(Plain("int"))]);
    var args := [Brackets([list]), NoneLit];
    assert TransformAll(args) == PrintedAll(args);
    assert Old(List) in Reported(list) && Old(List) in ReportedIn([list]) && Old(List) in ReportedIn(args);
  }

  /** Without the future import List["Foo"] is skipped by the annotation pass, but still renamed. */
  lemma SkippedExample()
    ensures
      var foo := Quoted(Bare(QuoteMark), {}, Name(Plain("Foo")));
      && Fix(false, Sub(Name(Old(List)), [foo])) == Sub(Name(Builtin(List)), [foo])
      && Checked(false, Sub(Name(Old(List)), [foo])) == {Old(List)}
  {
    var foo := Quoted(Bare(QuoteMark), {}, Name(Plain("Foo")));
    assert Literal in Features(foo);
    assert RenameBareAll([foo]) == [foo];
    assert BareNamesIn([foo]) == {} && foo in [foo];
  }
}
