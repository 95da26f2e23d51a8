/** Moving busy engine port ranges until none is in use. */
module EngineRemap {
  import opened Options
  import opened EnginePorts

  // ---- The declared ranges and their recovery from labels ----

  function Range(c: EngineConfig, kind: Kind): Option<Span> {
    match Start(c, kind)
    case None => None
    case Some(p) => Some(Span(kind, p, Width(c, kind)))
  }

  predicate Apart(a: Span, b: Span) {
    a.anchor + a.width <= b.anchor || b.anchor + b.width <= a.anchor
  }

  predicate InTcpRange(s: Span) {
    1 <= s.anchor && s.anchor + s.width - 1 <= MAX_PORT
  }

  /** The four ranges are inside 1-65535 and pairwise disjoint. */
  ghost predicate WellFormed(c: EngineConfig) {
    && (forall kind :: Range(c, kind).Some? ==> InTcpRange(Range(c, kind).value))
    && (forall k, l :: k != l && Range(c, k).Some? && Range(c, l).Some? ==> Apart(Range(c, k).value, Range(c, l).value))
  }

  lemma {:induction false} BasePortsAt(base: int, from: nat, n: nat, k: nat)
    requires from <= n && k < |BasePorts(base, from, n)|
    ensures BasePorts(base, from, n)[k].1 == base + 2 * from + k
    decreases n - from
  {
    if k >= 2 { BasePortsAt(base, from + 1, n, k - 2); }
  }

  lemma {:induction false} KvPortsAt(kv: int, from: nat, n: nat, k: nat)
    requires from <= n && k < |KvPorts(kv, from, n)|
    ensures KvPorts(kv, from, n)[k].1 == kv + from + k
    decreases n - from
  {
    if k >= 1 { KvPortsAt(kv, from + 1, n, k - 1); }
  }

  lemma CleanConcat(xs: seq<Labelled>, ys: seq<Labelled>)
    requires Clean(xs) && Clean(ys) && forall x, y :: x in xs && y in ys ==> x.1 != y.1
    ensures Clean(xs + ys)
  {
    var all := xs + ys;
    forall i, j | 0 <= i < j < |all| ensures all[i].1 != all[j].1 {
      if i < |xs| <= j { assert all[i] in xs && all[j] in ys; }
    }
  }

  lemma DeclaredInRange(c: EngineConfig, x: Labelled)
    requires WellFormed(c) && x in Declared(c)
    ensures Range(c, KindOf(x.0)).Some? && Covers(Range(c, KindOf(x.0)).value, x.1) && TcpPort(x.1)
  {
    DeclaredLaid(c, x);
    assert InTcpRange(Range(c, KindOf(x.0)).value);
  }

  /** The declared list cut into its four kinds. */
  function Part(c: EngineConfig, kind: Kind): seq<Labelled> {
    match kind
    case NodeManager => [(NodeManagerLabel, OrElse(ListenPort(c.nodeManager), DEFAULT_NODE_MANAGER_PORT))]
    case Rpc => [(RpcLabel, ReadRpc(c))]
    case Base => (match ReadBase(c) case None => [] case Some(b) => BasePorts(b, 0, c.endpoints))
    case Kv => (match ReadKv(c) case None => [] case Some(k) => KvPorts(k, 0, c.cards))
  }

  lemma DeclaredIsParts(c: EngineConfig)
    ensures Declared(c) == Part(c, NodeManager) + Part(c, Rpc) + Part(c, Base) + Part(c, Kv)
    ensures forall kind, x :: x in Part(c, kind) ==> KindOf(x.0) == kind && x in Declared(c)
  {
    var whole := Part(c, NodeManager) + Part(c, Rpc) + Part(c, Base) + Part(c, Kv);
    assert Declared(c) == whole;
    forall kind, x | x in Part(c, kind) ensures KindOf(x.0) == kind && x in whole {
      match kind
      case NodeManager =>
      case Rpc =>
      case Base => BasePortsLaid(ReadBase(c).value, 0, c.endpoints);
      case Kv => KvPortsLaid(ReadKv(c).value, 0, c.cards);
    }
  }

  lemma PartClean(c: EngineConfig, kind: Kind)
    requires WellFormed(c)
    ensures Clean(Part(c, kind))
  {
    DeclaredIsParts(c);
    var part := Part(c, kind);
    forall i | 0 <= i < |part| ensures TcpPort(part[i].1) { DeclaredInRange(c, part[i]); }
    forall i, j | 0 <= i < j < |part| ensures part[i].1 != part[j].1 {
      match kind
      case NodeManager =>
      case Rpc =>
      case Base =>
        BasePortsAt(ReadBase(c).value, 0, c.endpoints, i);
        BasePortsAt(ReadBase(c).value, 0, c.endpoints, j);
      case Kv =>
        KvPortsAt(ReadKv(c).value, 0, c.cards, i);
        KvPortsAt(ReadKv(c).value, 0, c.cards, j);
    }
  }

  lemma PartsShareNothing(c: EngineConfig, x: Labelled, y: Labelled)
    requires WellFormed(c) && x in Declared(c) && y in Declared(c) && KindOf(x.0) != KindOf(y.0)
    ensures x.1 != y.1
  {
    DeclaredInRange(c, x);
    DeclaredInRange(c, y);
    assert Apart(Range(c, KindOf(x.0)).value, Range(c, KindOf(y.0)).value);
  }

  lemma KeptWhole(xs: seq<Labelled>)
    requires Clean(xs)
    ensures AddAll([], xs) == xs
  {
    assert [] + xs == xs;
    CleanKept([], xs);
  }

  ghost predicate NoSharedPort(xs: seq<Labelled>, ys: seq<Labelled>) {
    forall x, y :: x in xs && y in ys ==> x.1 != y.1
  }

  lemma FourClean(a: seq<Labelled>, b: seq<Labelled>, d: seq<Labelled>, e: seq<Labelled>)
    requires Clean(a) && Clean(b) && Clean(d) && Clean(e)
    requires NoSharedPort(a, b) && NoSharedPort(a, d) && NoSharedPort(a, e)
    requires NoSharedPort(b, d) && NoSharedPort(b, e) && NoSharedPort(d, e)
    ensures Clean(a + b + d + e)
  {
    CleanConcat(a, b);
    CleanConcat(a + b, d);
    CleanConcat(a + b + d, e);
  }

  lemma PartsApart(c: EngineConfig, k: Kind, l: Kind)
    requires WellFormed(c) && k != l
    ensures NoSharedPort(Part(c, k), Part(c, l))
  {
    DeclaredIsParts(c);
    forall x, y | x in Part(c, k) && y in Part(c, l) ensures x.1 != y.1 { PartsShareNothing(c, x, y); }
  }

  lemma DeclaredClean(c: EngineConfig)
    requires WellFormed(c)
    ensures Clean(Part(c, NodeManager) + Part(c, Rpc) + Part(c, Base) + Part(c, Kv))
  {
    forall k ensures Clean(Part(c, k)) { PartClean(c, k); }
    forall k, l | k != l ensures NoSharedPort(Part(c, k), Part(c, l)) { PartsApart(c, k, l); }
    FourClean(Part(c, NodeManager), Part(c, Rpc), Part(c, Base), Part(c, Kv));
  }

  /** Nothing is truncated or de-duplicated from well-formed ranges. */
  lemma WellFormedKept(c: EngineConfig)
    requires WellFormed(c)
    ensures ListenPorts(c) == Declared(c)
  {
    DeclaredIsParts(c);
    DeclaredClean(c);
    KeptWhole(Declared(c));
  }

  lemma {:induction false} ItemsConcat(xs: seq<Labelled>, ys: seq<Labelled>, kind: Kind)
    ensures Items(xs + ys, kind) == Items(xs, kind) + Items(ys, kind)
    decreases |xs|
  {
    if xs == [] {
      assert xs + ys == ys;
    } else {
      assert (xs + ys)[1..] == xs[1..] + ys;
      ItemsConcat(xs[1..], ys, kind);
      Assoc(if KindOf(xs[0].0) == kind then [xs[0]] else [], Items(xs[1..], kind), Items(ys, kind));
    }
  }

  lemma {:induction false} ItemsUniform(xs: seq<Labelled>, kind: Kind, other: Kind)
    requires forall x :: x in xs ==> KindOf(x.0) == other
    ensures Items(xs, kind) == if kind == other then xs else []
    decreases |xs|
  {
    if xs != [] {
      assert xs[0] in xs && xs == [xs[0]] + xs[1..];
      ItemsUniform(xs[1..], kind, other);
    }
  }

  lemma ItemsOfParts(a: seq<Labelled>, b: seq<Labelled>, d: seq<Labelled>, e: seq<Labelled>, kind: Kind)
    requires forall x :: x in a ==> KindOf(x.0) == NodeManager
    requires forall x :: x in b ==> KindOf(x.0) == Rpc
    requires forall x :: x in d ==> KindOf(x.0) == Base
    requires forall x :: x in e ==> KindOf(x.0) == Kv
    ensures Items(a + b + d + e, kind) ==
            match kind case NodeManager => a case Rpc => b case Base => d case Kv => e
  {
    ItemsConcat(a + b + d, e, kind);
    ItemsConcat(a + b, d, kind);
    ItemsConcat(a, b, kind);
    ItemsUniform(a, kind, NodeManager);
    ItemsUniform(b, kind, Rpc);
    ItemsUniform(d, kind, Base);
    ItemsUniform(e, kind, Kv);
    match kind
    case NodeManager => assert a + [] == a;
    case Rpc => assert [] + b == b && b + [] == b;
    case Base => assert [] + d == d && d + [] == d;
    case Kv => assert [] + e == e;
  }

  lemma DeclaredItems(c: EngineConfig, kind: Kind)
    ensures Items(Declared(c), kind) == Part(c, kind)
  {
    DeclaredIsParts(c);
    ItemsOfWhole(Declared(c), Part(c, NodeManager), Part(c, Rpc), Part(c, Base), Part(c, Kv), kind);
  }

  lemma ItemsOfWhole(whole: seq<Labelled>, a: seq<Labelled>, b: seq<Labelled>, d: seq<Labelled>, e: seq<Labelled>,
                     kind: Kind)
    requires whole == a + b + d + e
    requires forall x :: x in a ==> KindOf(x.0) == NodeManager
    requires forall x :: x in b ==> KindOf(x.0) == Rpc
    requires forall x :: x in d ==> KindOf(x.0) == Base
    requires forall x :: x in e ==> KindOf(x.0) == Kv
    ensures Items(whole, kind) == match kind case NodeManager => a case Rpc => b case Base => d case Kv => e
  {
    ItemsOfParts(a, b, d, e, kind);
  }

  lemma {:induction false} MaxIndexReached(items: seq<Labelled>)
    requires items != []
    ensures exists x :: x in items && IndexOf(x.0) == MaxIndex(items)
  {
    assert items[0] in items;
    if |items| > 1 {
      MaxIndexReached(items[1..]);
      var x :| x in items[1..] && IndexOf(x.0) == MaxIndex(items[1..]);
      assert x in items;
    }
  }

  lemma {:induction false} LastBasePresent(base: int, from: nat, n: nat)
    requires from < n
    ensures exists x :: x in BasePorts(base, from, n) && IndexOf(x.0) == n - 1
    decreases n - from
  {
    var rest := BasePorts(base, from + 1, n);
    if from + 1 < n {
      LastBasePresent(base, from + 1, n);
      var x :| x in rest && IndexOf(x.0) == n - 1;
      assert x in BasePorts(base, from, n);
    } else {
      assert (Service(from), base + 2 * from) in BasePorts(base, from, n);
    }
  }

  lemma {:induction false} LastKvPresent(kv: int, from: nat, n: nat)
    requires from < n
    ensures exists x :: x in KvPorts(kv, from, n) && IndexOf(x.0) == n - 1
    decreases n - from
  {
    var rest := KvPorts(kv, from + 1, n);
    if from + 1 < n {
      LastKvPresent(kv, from + 1, n);
      var x :| x in rest && IndexOf(x.0) == n - 1;
      assert x in KvPorts(kv, from, n);
    } else {
      assert (KvLabel(from), kv + from) in KvPorts(kv, from, n);
    }
  }

  lemma PartSpan(c: EngineConfig, kind: Kind)
    ensures Part(c, kind) == [] <==> Range(c, kind) == None
    ensures Part(c, kind) != [] ==> MakeSpan(kind, Part(c, kind)) == Range(c, kind).value
  {
    var items := Part(c, kind);
    if items != [] && (kind == Base || kind == Kv) {
      MaxIndexBounds(items);
      MaxIndexReached(items);
      if kind == Base {
        BasePortsLaid(ReadBase(c).value, 0, c.endpoints);
        LastBasePresent(ReadBase(c).value, 0, c.endpoints);
        assert items[0] == (Service(0), ReadBase(c).value);
      } else {
        KvPortsLaid(ReadKv(c).value, 0, c.cards);
        LastKvPresent(ReadKv(c).value, 0, c.cards);
        assert items[0] == (KvLabel(0), ReadKv(c).value);
      }
    }
  }

  /** Grouping the collected labels recovers exactly the declared ranges of a well-formed configuration. */
  lemma GroupingExact(c: EngineConfig, kind: Kind)
    requires WellFormed(c)
    ensures SpanOf(ListenPorts(c), kind) == Range(c, kind)
  {
    WellFormedKept(c);
    DeclaredItems(c, kind);
    PartSpan(c, kind);
  }

  // ---- Moving one range ----

  function Store(o: Overrides, kind: Kind, port: int): Overrides {
    match kind
    case NodeManager => o.(nodeManager := Some(port))
    case Rpc => o.(rpc := Some(port))
    case Base => o.(base := Some(port))
    case Kv => o.(kv := Some(port))
  }

  /** The configuration after overrides, field by field. */
  lemma AppliedFields(c: EngineConfig, o: Overrides)
    requires ApplyOverrides(c, o).Some?
    ensures var r := ApplyOverrides(c, o).value;
            && r.nodeManager == (if o.nodeManager.Some? then Int(o.nodeManager.value) else c.nodeManager)
            && r.basePort == (if o.base.Some? then Int(o.base.value) else c.basePort)
            && r.rpc == (if o.rpc.Some? then Int(o.rpc.value) else c.rpc)
            && r.rpcDashed == (if o.rpc.Some? && !c.rpcDashed.Missing? then Int(o.rpc.value) else c.rpcDashed)
            && r.kv == (if o.kv.Some? then Some(ApplyKv(c.kv.value, o.kv.value)) else c.kv)
            && r.endpoints == c.endpoints && r.cards == c.cards
  {
  }

  lemma StoreApplies(c: EngineConfig, o: Overrides, kind: Kind, port: int)
    requires ApplyOverrides(c, o).Some? && Range(ApplyOverrides(c, o).value, kind).Some? && TcpPort(port)
    ensures ApplyOverrides(c, Store(o, kind, port)).Some?
  {
  }

  lemma StoreMovesOwn(c: EngineConfig, o: Overrides, kind: Kind, port: int)
    requires ApplyOverrides(c, o).Some? && ApplyOverrides(c, Store(o, kind, port)).Some? && TcpPort(port)
    requires Range(ApplyOverrides(c, o).value, kind).Some?
    ensures Range(ApplyOverrides(c, Store(o, kind, port)).value, kind) ==
            Some(Span(kind, port, Width(ApplyOverrides(c, o).value, kind)))
  {
    AppliedFields(c, o);
    AppliedFields(c, Store(o, kind, port));
    var before, after := ApplyOverrides(c, o).value, ApplyOverrides(c, Store(o, kind, port)).value;
    assert before.endpoints == after.endpoints && before.cards == after.cards;
    match kind
    case NodeManager => assert after.nodeManager == Int(port);
    case Rpc => assert after.rpc == Int(port);
    case Base => assert after.basePort == Int(port);
    case Kv => assert ReadKv(after) == Some(port);
  }

  lemma StoreKeepsOthers(c: EngineConfig, o: Overrides, kind: Kind, port: int, other: Kind)
    requires ApplyOverrides(c, o).Some? && ApplyOverrides(c, Store(o, kind, port)).Some? && other != kind
    ensures Range(ApplyOverrides(c, Store(o, kind, port)).value, other) == Range(ApplyOverrides(c, o).value, other)
  {
    AppliedFields(c, o);
    AppliedFields(c, Store(o, kind, port));
  }

  /** Storing a new port moves the start of that range and of no other. */
  lemma StoreMoves(c: EngineConfig, o: Overrides, kind: Kind, port: int)
    requires ApplyOverrides(c, o).Some? && Range(ApplyOverrides(c, o).value, kind).Some? && TcpPort(port)
    ensures var before, after := ApplyOverrides(c, o), ApplyOverrides(c, Store(o, kind, port));
            && after.Some?
            && Range(after.value, kind) == Some(Span(kind, port, Width(before.value, kind)))
            && (forall other :: other != kind ==> Range(after.value, other) == Range(before.value, other))
  {
    StoreApplies(c, o, kind, port);
    StoreMovesOwn(c, o, kind, port);
    forall other | other != kind
      ensures Range(ApplyOverrides(c, Store(o, kind, port)).value, other) == Range(ApplyOverrides(c, o).value, other)
    {
      StoreKeepsOthers(c, o, kind, port, other);
    }
  }

  predicate Busy(s: Span, inUse: int -> bool) {
    exists p | s.anchor <= p < s.anchor + s.width :: inUse(p)
  }

  /** A port of another range of this command, or of the controller. */
  predicate Blocked(spans: seq<Span>, kind: Kind, reserved: set<int>, p: int) {
    p in reserved || exists s :: s in spans && s.kind != kind && Covers(s, p)
  }

  /** _reject_reason finds nothing wrong with a block of `width` ports starting at p. */
  predicate Acceptable(p: int, width: int, spans: seq<Span>, kind: Kind, reserved: set<int>, inUse: int -> bool) {
    && 1 <= p && p + width - 1 <= MAX_PORT
    && forall q | p <= q < p + width :: !Blocked(spans, kind, reserved, q) && !inUse(q)
  }

  // ---- The automatic choice ----

  method FirstInWindow(lo: int, hi: int, span: Span, spans: seq<Span>, reserved: set<int>, inUse: int -> bool)
    returns (r: Option<int>)
    ensures r.Some? ==> lo <= r.value < hi && Acceptable(r.value, span.width, spans, span.kind, reserved, inUse) &&
                        forall p :: lo <= p < r.value ==> !Acceptable(p, span.width, spans, span.kind, reserved, inUse)
    ensures r.None? ==> forall p :: lo <= p < hi ==> !Acceptable(p, span.width, spans, span.kind, reserved, inUse)
  {
    var port := lo;
    while port < hi
      invariant lo <= port && (port <= hi || hi < lo)
      invariant forall p :: lo <= p < port ==> !Acceptable(p, span.width, spans, span.kind, reserved, inUse)
    {
      if Acceptable(port, span.width, spans, span.kind, reserved, inUse) { return Some(port); }
      port := port + 1;
    }
    return None;
  }

  /** Ports in the order the automatic choice tries them: upwards from the old anchor, then from 1024. */
  predicate TriedBefore(p: int, q: int, anchor: int) {
    (p > anchor && q <= anchor) || ((p > anchor <==> q > anchor) && p < q)
  }

  predicate Tried(p: int, span: Span) {
    p + span.width - 1 <= MAX_PORT && ((1 <= p && p > span.anchor) || 1024 <= p)
  }

  ghost predicate IsAutoChoice(r: Option<int>, span: Span, spans: seq<Span>, reserved: set<int>, inUse: int -> bool) {
    && (r.Some? ==>
          && Tried(r.value, span) && Acceptable(r.value, span.width, spans, span.kind, reserved, inUse)
          && forall p :: Tried(p, span) && TriedBefore(p, r.value, span.anchor) ==>
                           !Acceptable(p, span.width, spans, span.kind, reserved, inUse))
    && (r.None? ==> forall p :: Tried(p, span) ==> !Acceptable(p, span.width, spans, span.kind, reserved, inUse))
  }

  /** _auto_port is a complete first-fit search; it gives up only when no acceptable block starts
      above the old anchor or anywhere in 1024 .. 65536 - width. */
  method AutoPort(span: Span, spans: seq<Span>, reserved: set<int>, inUse: int -> bool) returns (r: Option<int>)
    ensures IsAutoChoice(r, span, spans, reserved, inUse)
  {
    var last := 65535 - span.width + 1;
    if last < 1 { return None; }
    var start := span.anchor + 1;
    var first := if start > 1 then start else 1;
    if start <= last {
      r := FirstInWindow(first, last + 1, span, spans, reserved, inUse);
      if r.Some? { return r; }
    }
    var lowEnd := if first < last + 1 then first else last + 1;
    if lowEnd > 1024 {
      r := FirstInWindow(1024, lowEnd, span, spans, reserved, inUse);
      return r;
    }
    return None;
  }

  // ---- The dialogue ----

  datatype Answer = Auto | Port(port: int) | Abort | Unclear

  /** The choice that _auto_port makes; unique by first fit. */
  ghost function AutoChoice(span: Span, spans: seq<Span>, reserved: set<int>, inUse: int -> bool): (r: Option<int>)
    ensures IsAutoChoice(r, span, spans, reserved, inUse)
  {
    AutoChoiceExists(span, spans, reserved, inUse);
    var r :| IsAutoChoice(r, span, spans, reserved, inUse);
    r
  }

  lemma AutoChoiceExists(span: Span, spans: seq<Span>, reserved: set<int>, inUse: int -> bool)
    ensures exists r :: IsAutoChoice(r, span, spans, reserved, inUse)
  {
    var low := LeastAcceptable(1024, span, spans, reserved, inUse);
    var from := if span.anchor + 1 > 1 then span.anchor + 1 else 1;
    var high := LeastAcceptable(from, span, spans, reserved, inUse);
    var r := if high.Some? then high else low;
    assert IsAutoChoice(r, span, spans, reserved, inUse);
  }

  /** The least acceptable block start from lo on. */
  lemma {:induction false} LeastAcceptable(lo: int, span: Span, spans: seq<Span>, reserved: set<int>,
                                           inUse: int -> bool)
      returns (r: Option<int>)
    ensures r.Some? ==> lo <= r.value && Acceptable(r.value, span.width, spans, span.kind, reserved, inUse) &&
                        forall p :: lo <= p < r.value ==> !Acceptable(p, span.width, spans, span.kind, reserved, inUse)
    ensures r.None? ==> forall p :: lo <= p ==> !Acceptable(p, span.width, spans, span.kind, reserved, inUse)
    decreases MAX_PORT + 1 - span.width - lo
  {
    if lo + span.width - 1 > MAX_PORT {
      r := None;
    } else if Acceptable(lo, span.width, spans, span.kind, reserved, inUse) {
      r := Some(lo);
    } else {
      r := LeastAcceptable(lo + 1, span, spans, reserved, inUse);
    }
  }

  lemma AutoChoiceUnique(a: Option<int>, b: Option<int>, span: Span, spans: seq<Span>, reserved: set<int>,
                         inUse: int -> bool)
    requires IsAutoChoice(a, span, spans, reserved, inUse) && IsAutoChoice(b, span, spans, reserved, inUse)
    ensures a == b
  {
  }

  /** One range's prompt over the remaining answers; no more input aborts. */
  ghost function Prompt(span: Span, spans: seq<Span>, reserved: set<int>, inUse: int -> bool, answers: seq<Answer>)
      : (r: (Option<int>, seq<Answer>))
    ensures r.0.Some? ==> Acceptable(r.0.value, span.width, spans, span.kind, reserved, inUse) && |r.1| < |answers|
    decreases |answers|
  {
    if answers == [] then (None, [])
    else
      match answers[0]
      case Abort => (None, answers[1..])
      case Auto =>
        var p := AutoChoice(span, spans, reserved, inUse);
        if p.Some? then (p, answers[1..]) else Prompt(span, spans, reserved, inUse, answers[1..])
      case Port(p) =>
        if Acceptable(p, span.width, spans, span.kind, reserved, inUse) then (Some(p), answers[1..])
        else Prompt(span, spans, reserved, inUse, answers[1..])
      case Unclear => Prompt(span, spans, reserved, inUse, answers[1..])
  }

  function FirstBusy(spans: seq<Span>, inUse: int -> bool): Option<Span> {
    if spans == [] then None
    else if Busy(spans[0], inUse) then Some(spans[0])
    else FirstBusy(spans[1..], inUse)
  }

  /** How the dialogue ended, and the accepted moves in order. */
  datatype Outcome =
    | Raised
    | Free(overrides: Overrides, moves: seq<Span>)
    | Aborted(overrides: Overrides, moves: seq<Span>)

  ghost function Offer(c: EngineConfig, o: Overrides, reserved: set<int>, inUse: int -> bool, answers: seq<Answer>,
                       moves: seq<Span>): Outcome
    decreases |answers|
  {
    match ApplyOverrides(c, o)
    case None => Raised
    case Some(config) =>
      var spans := Spans(ListenPorts(config));
      match FirstBusy(spans, inUse)
      case None => Free(o, moves)
      case Some(span) =>
        var (chosen, rest) := Prompt(span, spans, reserved, inUse, answers);
        if chosen.None? then Aborted(o, moves)
        else Offer(c, Store(o, span.kind, chosen.value), reserved, inUse, rest,
                   moves + [Span(span.kind, chosen.value, span.width)])
  }
}
