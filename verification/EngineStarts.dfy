/** Which ports an engine listens on, in terms of the raw settings; how overrides change them; and how the
    operator's answers are read. */
module EngineStarts {
  import opened Options
  import opened EnginePorts
  import opened EngineRemap
  import opened EngineWidths

  // ---- Raw settings ----

  /** A number, or a string holding one, in 1-65535. */
  predicate Usable(raw: Raw, p: int) {
    (raw == Int(p) || raw == Numeric(p)) && 1 <= p <= 65535
  }

  ghost predicate Unusable(raw: Raw) {
    forall p :: !Usable(raw, p)
  }

  predicate Given(raw: Raw) {
    raw != Missing && raw != Null
  }

  lemma ListenPortIff(raw: Raw)
    ensures forall p :: ListenPort(raw) == Some(p) <==> Usable(raw, p)
    ensures ListenPort(raw) == None <==> Unusable(raw)
  {
    if ListenPort(raw).Some? { assert Usable(raw, ListenPort(raw).value); }
  }

  ghost predicate NodeManagerAt(c: EngineConfig, p: int) {
    Usable(c.nodeManager, p) || (Unusable(c.nodeManager) && p == 1026)
  }

  /** The underscored key wins unless it is absent or null. */
  ghost predicate RpcAt(c: EngineConfig, p: int) {
    var raw := if Given(c.rpc) then c.rpc else c.rpcDashed;
    Usable(raw, p) || (Unusable(raw) && p == 9000)
  }

  /** A key that is absent means 10000; one that is there but unusable means no base ports. */
  ghost predicate BaseAt(c: EngineConfig, p: int) {
    Usable(c.basePort, p) || (c.basePort == Missing && p == 10000)
  }

  /** The transfer configuration's own port, or the first connector's when it is absent or null. */
  ghost predicate KvAt(c: EngineConfig, p: int) {
    c.kv.Some? &&
    if Given(c.kv.value.port) then Usable(c.kv.value.port, p)
    else c.kv.value.connector0.Some? && Usable(c.kv.value.connector0.value, p)
  }

  lemma StartsAt(c: EngineConfig, p: int)
    ensures NodeManagerAt(c, p) <==> p == NodeManagerPort(c)
    ensures RpcAt(c, p) <==> p == ReadRpc(c)
    ensures BaseAt(c, p) <==> ReadBase(c) == Some(p)
    ensures KvAt(c, p) <==> ReadKv(c) == Some(p)
  {
    ListenPortIff(c.nodeManager);
    ListenPortIff(if Given(c.rpc) then c.rpc else c.rpcDashed);
    ListenPortIff(c.basePort);
    if c.kv.Some? {
      ListenPortIff(c.kv.value.port);
      if c.kv.value.connector0.Some? { ListenPortIff(c.kv.value.connector0.value); }
    }
  }

  // ---- The collection ----

  /** One of the two single ports. */
  ghost predicate Single(c: EngineConfig, p: int) {
    NodeManagerAt(c, p) || RpcAt(c, p)
  }

  ghost predicate InBase(c: EngineConfig, p: int) {
    exists b :: BaseAt(c, b) && b <= p < b + 2 * c.endpoints
  }

  /** What a label stands for: its port, unless that is out of range or belongs to a label before. */
  ghost predicate Listens(c: EngineConfig, tag: Label, p: int) {
    match tag
    case NodeManagerLabel => NodeManagerAt(c, p)
    case RpcLabel => RpcAt(c, p) && !NodeManagerAt(c, p)
    case Service(i) => i < c.endpoints && BaseAt(c, p - 2 * i) && p <= 65535 && !Single(c, p)
    case Mgmt(i) => i < c.endpoints && BaseAt(c, p - 2 * i - 1) && p <= 65535 && !Single(c, p)
    case KvLabel(i) => i < c.cards && KvAt(c, p - i) && p <= 65535 && !Single(c, p) && !InBase(c, p)
  }

  lemma {:induction false} BaseMembers(base: int, from: nat, n: nat, x: Labelled)
    requires from <= n
    ensures x in BasePorts(base, from, n) <==>
            match x.0
            case Service(i) => from <= i < n && x.1 == base + 2 * i
            case Mgmt(i) => from <= i < n && x.1 == base + 2 * i + 1
            case _ => false
    decreases n - from
  {
    BasePortsLaid(base, from, n);
    if x.0.Service? && from <= x.0.i < n { BaseMember(base, from, n, x.0.i); }
    if x.0.Mgmt? && from <= x.0.i < n { BaseMember(base, from, n, x.0.i); }
  }

  lemma KvMembers(kv: int, n: nat, x: Labelled)
    ensures x in KvPorts(kv, 0, n) <==> x.0.KvLabel? && x.0.i < n && x.1 == kv + x.0.i
  {
    KvPortsLaid(kv, 0, n);
    if x.0.KvLabel? && x.0.i < n { KvMember(kv, 0, n, x.0.i); }
  }

  lemma NoBaseBefore(c: EngineConfig, x: Labelled)
    requires KindOf(x.0) == NodeManager || KindOf(x.0) == Rpc
    ensures x in ListenPorts(c) <==> x in Singles(c)
  {
    DeclaredParts(c);
    if ReadBase(c).Some? {
      BaseNumbered(ReadBase(c).value, c.endpoints);
      AddedIff(Singles(c), BasePorts(ReadBase(c).value, 0, c.endpoints), x);
      BaseMembers(ReadBase(c).value, 0, c.endpoints, x);
    }
    if ReadKv(c).Some? {
      KvNumbered(ReadKv(c).value, c.cards);
      AddedIff(BeforeKv(c), KvPorts(ReadKv(c).value, 0, c.cards), x);
      KvMembers(ReadKv(c).value, c.cards, x);
    }
  }

  lemma UnsharedIff(c: EngineConfig, p: int)
    ensures Unshared(c, p) <==> 1 <= p <= 65535 && !Single(c, p)
  {
    StartsAt(c, p);
  }

  lemma BaseListens(c: EngineConfig, x: Labelled)
    requires x.0.Service? || x.0.Mgmt?
    ensures x in ListenPorts(c) <==> Listens(c, x.0, x.1)
  {
    UnsharedIff(c, x.1);
    var b := if x.0.Service? then x.1 - 2 * x.0.i else x.1 - 2 * x.0.i - 1;
    StartsAt(c, b);
    if ReadBase(c).Some? {
      StartsAt(c, ReadBase(c).value);
      BaseListedIff(c, x);
      BaseMembers(ReadBase(c).value, 0, c.endpoints, x);
    } else {
      DeclaredParts(c);
      BaseOutsideKv(c, x);
    }
  }

  lemma KvListens(c: EngineConfig, x: Labelled)
    requires x.0.KvLabel?
    ensures x in ListenPorts(c) <==> Listens(c, x.0, x.1)
  {
    KvListedIff(c, x);
    UnsharedIff(c, x.1);
    StartsAt(c, x.1 - x.0.i);
    if ReadKv(c).Some? {
      StartsAt(c, ReadKv(c).value);
      KvMembers(ReadKv(c).value, c.cards, x);
      if TcpPort(x.1) {
        KvEndFree(c, x);
        InBaseIff(c, x.1);
      }
    }
  }

  lemma InBaseIff(c: EngineConfig, p: int)
    ensures InBase(c, p) <==> Range(c, Base).Some? && Covers(Range(c, Base).value, p)
  {
    if ReadBase(c).Some? { StartsAt(c, ReadBase(c).value); }
    if b :| BaseAt(c, b) && b <= p < b + 2 * c.endpoints { StartsAt(c, b); }
  }

  /** For every configuration the collected ports are exactly these. */
  lemma ListensIff(c: EngineConfig, x: Labelled)
    ensures x in ListenPorts(c) <==> Listens(c, x.0, x.1)
  {
    match x.0
    case Service(_) => BaseListens(c, x);
    case Mgmt(_) => BaseListens(c, x);
    case KvLabel(_) => KvListens(c, x);
    case _ =>
      var nm, rpc := (NodeManagerLabel, NodeManagerPort(c)), (RpcLabel, ReadRpc(c));
      StartsAt(c, x.1);
      StartsAt(c, NodeManagerPort(c));
      StartsAt(c, ReadRpc(c));
      NoBaseBefore(c, x);
      AddOne([], nm, x);
      AddOne(Add([], nm), rpc, x);
      AddOne([], nm, rpc);
      SinglesValid(c);
  }

  lemma SinglesValid(c: EngineConfig)
    ensures TcpPort(NodeManagerPort(c)) && TcpPort(ReadRpc(c))
  {
  }

  /** An empty engine section: 1026, 9000, and two base ports for each endpoint from 10000 on. */
  lemma DefaultPorts(c: EngineConfig, x: Labelled)
    requires c == EngineConfig(Missing, Missing, Missing, Missing, None, 1, c.cards)
    ensures x in ListenPorts(c) <==>
            x in {(NodeManagerLabel, 1026), (RpcLabel, 9000), (Service(0), 10000), (Mgmt(0), 10001)}
  {
    ListensIff(c, x);
  }

  // ---- Overrides ----

  /** Overrides are refused exactly when one is no port, where 0 is allowed for the base port, or when a KV
      port is given without a transfer configuration. */
  lemma OverridesApplyIff(c: EngineConfig, o: Overrides)
    ensures ApplyOverrides(c, o).Some? <==>
            && (o.nodeManager.Some? ==> 1 <= o.nodeManager.value <= 65535)
            && (o.rpc.Some? ==> 1 <= o.rpc.value <= 65535)
            && (o.base.Some? ==> 0 <= o.base.value <= 65535)
            && (o.kv.Some? ==> 1 <= o.kv.value <= 65535 && c.kv.Some?)
  {
  }

  predicate IsNumeric(raw: Raw) {
    raw.Numeric?
  }

  /** The fields that overrides write: numbers, except that a KV port that was a string stays one. */
  lemma OverridesWrite(c: EngineConfig, o: Overrides)
    requires ApplyOverrides(c, o).Some?
    ensures
      var r := ApplyOverrides(c, o).value;
      && r.nodeManager == (if o.nodeManager.Some? then Int(o.nodeManager.value) else c.nodeManager)
      && r.basePort == (if o.base.Some? then Int(o.base.value) else c.basePort)
      && r.rpc == (if o.rpc.Some? then Int(o.rpc.value) else c.rpc)
      && r.rpcDashed == (if o.rpc.Some? && c.rpcDashed != Missing then Int(o.rpc.value) else c.rpcDashed)
      && r.endpoints == c.endpoints && r.cards == c.cards
    ensures
      var r := ApplyOverrides(c, o).value;
      if o.kv.None? then r.kv == c.kv
      else
        var old_, new_ := c.kv.value, r.kv.value;
        var read := if !Given(old_.port) && old_.connector0.Some? then old_.connector0.value else old_.port;
        && r.kv.Some? && new_.port == (if IsNumeric(read) then Numeric(o.kv.value) else Int(o.kv.value))
        && (new_.connector0.Some? <==> old_.connector0.Some?)
        && (old_.connector0.Some? ==>
              new_.connector0.value ==
              if IsNumeric(old_.connector0.value) then Numeric(o.kv.value) else Int(o.kv.value))
  {
  }

  // ---- Spans ----

  function Place(kind: Kind): nat {
    match kind case NodeManager => 0 case Rpc => 1 case Base => 2 case Kv => 3
  }

  lemma {:induction false} SpansKinds(ports: seq<Labelled>, kinds: seq<Kind>)
    requires forall i, j :: 0 <= i < j < |kinds| ==> Place(kinds[i]) < Place(kinds[j])
    ensures
      var s := SpansOf(ports, kinds);
      && (forall x :: x in s ==> x.kind in kinds)
      && forall i, j :: 0 <= i < j < |s| ==> Place(s[i].kind) < Place(s[j].kind)
    decreases |kinds|
  {
    if kinds != [] {
      SpansKinds(ports, kinds[1..]);
      var rest := SpansOf(ports, kinds[1..]);
      var here := match SpanOf(ports, kinds[0]) case None => [] case Some(s) => [s];
      assert SpansOf(ports, kinds) == here + rest && forall x :: x in here ==> x.kind == kinds[0];
      forall x | x in rest ensures Place(kinds[0]) < Place(x.kind) && x.kind in kinds {
        var i :| 0 <= i < |kinds[1..]| && kinds[1..][i] == x.kind;
        assert kinds[i + 1] == x.kind;
      }
    }
  }

  /** Node manager, rpc, base and KV ports are asked about in this order, the first busy range first. */
  lemma SpansInOrder(c: EngineConfig)
    ensures
      var s := Spans(ListenPorts(c));
      forall i, j :: 0 <= i < j < |s| ==> Place(s[i].kind) < Place(s[j].kind)
  {
    var order := KIND_ORDER;
    assert Place(order[0]) == 0 && Place(order[1]) == 1 && Place(order[2]) == 2 && Place(order[3]) == 3;
    SpansKinds(ListenPorts(c), order);
  }

  lemma {:induction false} FirstBusyAt(spans: seq<Span>, inUse: int -> bool) returns (i: nat)
    ensures i <= |spans| && (forall j :: 0 <= j < i ==> !Busy(spans[j], inUse))
    ensures i < |spans| ==> Busy(spans[i], inUse) && FirstBusy(spans, inUse) == Some(spans[i])
    ensures i == |spans| ==> FirstBusy(spans, inUse) == None
    decreases |spans|
  {
    if spans == [] || Busy(spans[0], inUse) {
      i := 0;
    } else {
      var k := FirstBusyAt(spans[1..], inUse);
      i := k + 1;
      forall j | 0 <= j < i ensures !Busy(spans[j], inUse) {
        if j > 0 { assert spans[1..][j - 1] == spans[j]; }
      }
    }
  }

  /** A base group is anchored at its configured start when the first service or management port was
      collected, and at its least port otherwise. */
  lemma BaseAnchor(c: EngineConfig)
    requires SpanOf(ListenPorts(c), Base).Some?
    ensures
      var anchor, items := SpanOf(ListenPorts(c), Base).value.anchor, Items(ListenPorts(c), Base);
      if exists b :: BaseAt(c, b) && (Listens(c, Service(0), b) || Listens(c, Mgmt(0), b + 1)) then BaseAt(c, anchor)
      else HasPort(items, anchor) && forall x :: x in items ==> anchor <= x.1
  {
    var ports := ListenPorts(c);
    var items := Items(ports, Base);
    ItemsMembers(ports, Base);
    PortOfMember(items, Service(0));
    PortOfMember(items, Mgmt(0));
    MinPortBounds(items);
    var first, second := PortOf(items, Service(0)), PortOf(items, Mgmt(0));
    if first.Some? {
      ListensIff(c, (Service(0), first.value));
      assert Listens(c, Service(0), first.value) && BaseAt(c, first.value);
    } else if second.Some? {
      ListensIff(c, (Mgmt(0), second.value));
      assert Listens(c, Mgmt(0), second.value - 1 + 1) && BaseAt(c, second.value - 1);
    } else {
      forall b ensures !(BaseAt(c, b) && (Listens(c, Service(0), b) || Listens(c, Mgmt(0), b + 1))) {
        ListensIff(c, (Service(0), b));
        ListensIff(c, (Mgmt(0), b + 1));
      }
    }
  }

  /** A KV group is anchored at its configured start when that was collected, at its least port otherwise. */
  lemma KvAnchor(c: EngineConfig)
    requires SpanOf(ListenPorts(c), Kv).Some?
    ensures
      var anchor, items := SpanOf(ListenPorts(c), Kv).value.anchor, Items(ListenPorts(c), Kv);
      if exists k :: KvAt(c, k) && Listens(c, KvLabel(0), k) then KvAt(c, anchor)
      else HasPort(items, anchor) && forall x :: x in items ==> anchor <= x.1
  {
    var ports := ListenPorts(c);
    var items := Items(ports, Kv);
    ItemsMembers(ports, Kv);
    PortOfMember(items, KvLabel(0));
    MinPortBounds(items);
    var first := PortOf(items, KvLabel(0));
    if first.Some? {
      ListensIff(c, (KvLabel(0), first.value));
      assert KvAt(c, first.value) && Listens(c, KvLabel(0), first.value);
    } else {
      forall k ensures !(KvAt(c, k) && Listens(c, KvLabel(0), k)) { ListensIff(c, (KvLabel(0), k)); }
    }
  }

  // ---- The operator's answers ----

  /** The port is not reserved, not in use, and in no other kind's range. */
  ghost predicate Vacant(q: int, kind: Kind, spans: seq<Span>, reserved: set<int>, inUse: int -> bool) {
    && q !in reserved && !inUse(q)
    && forall s :: s in spans && s.kind != kind ==> !(s.anchor <= q < s.anchor + s.width)
  }

  /** The block fits into 1-65535 and its ports are vacant. */
  ghost predicate Takes(p: int, span: Span, spans: seq<Span>, reserved: set<int>, inUse: int -> bool) {
    && 1 <= p && p + span.width <= 65536
    && forall q :: p <= q < p + span.width ==> Vacant(q, span.kind, spans, reserved, inUse)
  }

  lemma VacantIff(q: int, kind: Kind, spans: seq<Span>, reserved: set<int>, inUse: int -> bool)
    ensures Vacant(q, kind, spans, reserved, inUse) <==> !Blocked(spans, kind, reserved, q) && !inUse(q)
  {
    forall s: Span ensures Covers(s, q) <==> s.anchor <= q < s.anchor + s.width {}
  }

  lemma AcceptableIff(p: int, span: Span, spans: seq<Span>, reserved: set<int>, inUse: int -> bool)
    ensures Acceptable(p, span.width, spans, span.kind, reserved, inUse) <==> Takes(p, span, spans, reserved, inUse)
  {
    forall q ensures Vacant(q, span.kind, spans, reserved, inUse) <==>
                     !Blocked(spans, span.kind, reserved, q) && !inUse(q)
    {
      VacantIff(q, span.kind, spans, reserved, inUse);
    }
  }

  /** An answer that settles nothing: unclear, a port that is not taken, or y when no block is left. */
  ghost predicate Skipped(a: Answer, span: Span, spans: seq<Span>, reserved: set<int>, inUse: int -> bool) {
    match a
    case Unclear => true
    case Port(p) => !Takes(p, span, spans, reserved, inUse)
    case Auto => AutoChoice(span, spans, reserved, inUse).None?
    case Abort => false
  }

  /** Skipped answers are read over. The next one decides: N aborts, y takes the automatic choice, a port
      takes that port. Without one the dialogue is aborted. */
  lemma {:induction false} AnswersRead(span: Span, spans: seq<Span>, reserved: set<int>, inUse: int -> bool,
                                       answers: seq<Answer>, k: nat)
    requires k <= |answers|
    requires forall i :: 0 <= i < k ==> Skipped(answers[i], span, spans, reserved, inUse)
    requires k < |answers| ==> !Skipped(answers[k], span, spans, reserved, inUse)
    ensures
      Prompt(span, spans, reserved, inUse, answers) ==
      if k == |answers| then (None, [])
      else
        (match answers[k]
         case Port(p) => Some(p)
         case Auto => AutoChoice(span, spans, reserved, inUse)
         case _ => None,
         answers[k + 1..])
    decreases k
  {
    if answers != [] {
      if answers[0].Port? { AcceptableIff(answers[0].port, span, spans, reserved, inUse); }
      if k > 0 {
        forall i | 0 <= i < k - 1 ensures Skipped(answers[1..][i], span, spans, reserved, inUse) {
          assert answers[1..][i] == answers[i + 1];
        }
        AnswersRead(span, spans, reserved, inUse, answers[1..], k - 1);
        if k < |answers| { assert answers[1..][k - 1] == answers[k] && answers[1..][k..] == answers[k + 1..]; }
      }
    }
  }
}
