/** The ports an engine container listens on, read from its configuration after overrides, and the
    grouping of the labelled ports back into four movable ranges. */
module EnginePorts {
  import opened Options

  const MAX_PORT: int := 65535
  const DEFAULT_NODE_MANAGER_PORT: int := 1026
  const DEFAULT_DP_RPC_PORT: int := 9000
  const DEFAULT_BASE_PORT: int := 10000

  /** A configuration value where a port is expected. */
  datatype Raw = Missing | Null | Flag | Int(n: int) | Numeric(n: int) | Junk

  datatype KvConfig = KvConfig(port: Raw, connector0: Option<Raw>)

  /** The parts of an engine section that decide its listen ports. `endpoints` and `cards` are the
      endpoint count and the NPU count of one pod, both at least one. */
  datatype EngineConfig = EngineConfig(
    nodeManager: Raw, basePort: Raw, rpc: Raw, rpcDashed: Raw, kv: Option<KvConfig>, endpoints: nat, cards: nat)

  datatype Kind = NodeManager | Rpc | Base | Kv

  const KIND_ORDER: seq<Kind> := [NodeManager, Rpc, Base, Kv]

  datatype Overrides = Overrides(nodeManager: Option<int>, rpc: Option<int>, base: Option<int>, kv: Option<int>)

  lemma Assoc<T>(a: seq<T>, b: seq<T>, c: seq<T>)
    ensures a + b + c == a + (b + c)
  {
  }

  // ---- Overrides ----

  predicate TcpPort(p: int) { 1 <= p <= MAX_PORT }

  function KeepType(existing: Raw, port: int): Raw {
    if existing.Numeric? then Numeric(port) else Int(port)
  }

  function ApplyKv(kv: KvConfig, port: int): KvConfig {
    var existing := if (kv.port.Missing? || kv.port.Null?) && kv.connector0.Some? then kv.connector0.value else kv.port;
    KvConfig(KeepType(existing, port),
             match kv.connector0 case None => None case Some(raw) => Some(KeepType(raw, port)))
  }

  /** apply_engine_port_overrides, or nothing when it raises. */
  function ApplyOverrides(c: EngineConfig, o: Overrides): Option<EngineConfig> {
    if o.nodeManager.Some? && !TcpPort(o.nodeManager.value) then None
    else if o.base.Some? && !(0 <= o.base.value <= MAX_PORT) then None
    else if o.rpc.Some? && !TcpPort(o.rpc.value) then None
    else if o.kv.Some? && (!TcpPort(o.kv.value) || c.kv.None?) then None
    else
      var c1 := if o.nodeManager.Some? then c.(nodeManager := Int(o.nodeManager.value)) else c;
      var c2 := if o.base.Some? then c1.(basePort := Int(o.base.value)) else c1;
      var c3 := if o.rpc.Some?
                then c2.(rpc := Int(o.rpc.value),
                         rpcDashed := if c2.rpcDashed.Missing? then Missing else Int(o.rpc.value))
                else c2;
      Some(if o.kv.Some? then c3.(kv := Some(ApplyKv(c3.kv.value, o.kv.value))) else c3)
  }

  // ---- Collection ----

  /** _host_listen_port */
  function ListenPort(raw: Raw): Option<int> {
    if (raw.Int? || raw.Numeric?) && TcpPort(raw.n) then Some(raw.n) else None
  }

  datatype Label = NodeManagerLabel | RpcLabel | Service(i: nat) | Mgmt(i: nat) | KvLabel(i: nat)

  type Labelled = (Label, int)

  function KindOf(tag: Label): Kind {
    match tag
    case NodeManagerLabel => NodeManager
    case RpcLabel => Rpc
    case Service(_) => Base
    case Mgmt(_) => Base
    case KvLabel(_) => Kv
  }

  function IndexOf(tag: Label): nat {
    match tag
    case Service(i) => i
    case Mgmt(i) => i
    case KvLabel(i) => i
    case _ => 0
  }

  function OrElse(p: Option<int>, default: int): int {
    match p case Some(v) => v case None => default
  }

  function ReadRpc(c: EngineConfig): int {
    OrElse(ListenPort(if c.rpc.Missing? || c.rpc.Null? then c.rpcDashed else c.rpc), DEFAULT_DP_RPC_PORT)
  }

  /** A missing base port takes the default; a present but unusable one disables the range. */
  function ReadBase(c: EngineConfig): Option<int> {
    match ListenPort(c.basePort)
    case Some(p) => Some(p)
    case None => if c.basePort.Missing? then Some(DEFAULT_BASE_PORT) else None
  }

  function ReadKv(c: EngineConfig): Option<int> {
    match c.kv
    case None => None
    case Some(kv) =>
      ListenPort(if (kv.port.Missing? || kv.port.Null?) && kv.connector0.Some? then kv.connector0.value else kv.port)
  }

  function BasePorts(base: int, from: nat, n: nat): seq<Labelled>
    requires from <= n
    decreases n - from
  {
    if from == n then []
    else [(Service(from), base + 2 * from), (Mgmt(from), base + 2 * from + 1)] + BasePorts(base, from + 1, n)
  }

  function KvPorts(kv: int, from: nat, n: nat): seq<Labelled>
    requires from <= n
    decreases n - from
  {
    if from == n then [] else [(KvLabel(from), kv + from)] + KvPorts(kv, from + 1, n)
  }

  /** Every port of the configuration, before range checks and de-duplication. */
  function Declared(c: EngineConfig): seq<Labelled> {
    [(NodeManagerLabel, OrElse(ListenPort(c.nodeManager), DEFAULT_NODE_MANAGER_PORT)), (RpcLabel, ReadRpc(c))]
    + (match ReadBase(c) case None => [] case Some(b) => BasePorts(b, 0, c.endpoints))
    + (match ReadKv(c) case None => [] case Some(k) => KvPorts(k, 0, c.cards))
  }

  predicate HasPort(ports: seq<Labelled>, p: int) {
    exists x :: x in ports && x.1 == p
  }

  function Add(ports: seq<Labelled>, x: Labelled): seq<Labelled> {
    if !TcpPort(x.1) || HasPort(ports, x.1) then ports else ports + [x]
  }

  function AddAll(ports: seq<Labelled>, xs: seq<Labelled>): seq<Labelled>
    decreases |xs|
  {
    if xs == [] then ports else AddAll(Add(ports, xs[0]), xs[1..])
  }

  /** collect_engine_listen_ports */
  function ListenPorts(c: EngineConfig): seq<Labelled> {
    AddAll([], Declared(c))
  }

  lemma {:induction false} AddAllConcat(ports: seq<Labelled>, xs: seq<Labelled>, ys: seq<Labelled>)
    ensures AddAll(ports, xs + ys) == AddAll(AddAll(ports, xs), ys)
    decreases |xs|
  {
    if xs == [] {
      assert xs + ys == ys;
    } else {
      assert (xs + ys)[1..] == xs[1..] + ys;
      AddAllConcat(Add(ports, xs[0]), xs[1..], ys);
    }
  }

  method AddBasePorts(ports: seq<Labelled>, base: int, n: nat) returns (r: seq<Labelled>)
    ensures r == AddAll(ports, BasePorts(base, 0, n))
  {
    r := ports;
    for i := 0 to n
      invariant AddAll(ports, BasePorts(base, 0, n)) == AddAll(r, BasePorts(base, i, n))
    {
      var s, m := (Service(i), base + i * 2), (Mgmt(i), base + i * 2 + 1);
      ghost var rest := BasePorts(base, i + 1, n);
      assert BasePorts(base, i, n) == [s] + ([m] + rest);
      AddAllCons(r, s, [m] + rest);
      AddAllCons(Add(r, s), m, rest);
      r := Add(r, s);
      r := Add(r, m);
    }
  }

  method AddKvPorts(ports: seq<Labelled>, kv: int, n: nat) returns (r: seq<Labelled>)
    ensures r == AddAll(ports, KvPorts(kv, 0, n))
  {
    r := ports;
    for i := 0 to n
      invariant AddAll(ports, KvPorts(kv, 0, n)) == AddAll(r, KvPorts(kv, i, n))
    {
      AddAllCons(r, (KvLabel(i), kv + i), KvPorts(kv, i + 1, n));
      r := Add(r, (KvLabel(i), kv + i));
    }
  }

  method CollectListenPorts(c: EngineConfig) returns (ports: seq<Labelled>)
    ensures ports == ListenPorts(c)
  {
    var nm := (NodeManagerLabel, OrElse(ListenPort(c.nodeManager), DEFAULT_NODE_MANAGER_PORT));
    var rpc := (RpcLabel, ReadRpc(c));
    DeclaredParts(c);
    ports := Add([], nm);
    ports := Add(ports, rpc);
    var base, kv := ReadBase(c), ReadKv(c);
    if base.Some? { ports := AddBasePorts(ports, base.value, c.endpoints); }
    if kv.Some? { ports := AddKvPorts(ports, kv.value, c.cards); }
  }

  /** The declared list, added part by part. */
  lemma DeclaredParts(c: EngineConfig)
    ensures var nm := (NodeManagerLabel, OrElse(ListenPort(c.nodeManager), DEFAULT_NODE_MANAGER_PORT));
            var head := Add(Add([], nm), (RpcLabel, ReadRpc(c)));
            var middle := match ReadBase(c)
                          case None => head
                          case Some(b) => AddAll(head, BasePorts(b, 0, c.endpoints));
            ListenPorts(c) == match ReadKv(c) case None => middle case Some(k) => AddAll(middle, KvPorts(k, 0, c.cards))
  {
    var nm, rpc := (NodeManagerLabel, OrElse(ListenPort(c.nodeManager), DEFAULT_NODE_MANAGER_PORT)),
                   (RpcLabel, ReadRpc(c));
    var middle := match ReadBase(c) case None => [] case Some(b) => BasePorts(b, 0, c.endpoints);
    var tail := match ReadKv(c) case None => [] case Some(k) => KvPorts(k, 0, c.cards);
    assert [nm, rpc] == [nm] + [rpc];
    Assoc([nm, rpc], middle, tail);
    Assoc([nm], [rpc], middle + tail);
    AddAllCons([], nm, [rpc] + (middle + tail));
    AddAllCons(Add([], nm), rpc, middle + tail);
    AddAllConcat(Add(Add([], nm), rpc), middle, tail);
  }

  lemma AddAllCons(ports: seq<Labelled>, x: Labelled, xs: seq<Labelled>)
    ensures AddAll(ports, [x] + xs) == AddAll(Add(ports, x), xs)
  {
    assert ([x] + xs)[1..] == xs;
  }

  /** A port listed once and in range is kept: nothing is dropped from a clean list. */
  ghost predicate Clean(xs: seq<Labelled>) {
    && (forall i :: 0 <= i < |xs| ==> TcpPort(xs[i].1))
    && (forall i, j :: 0 <= i < j < |xs| ==> xs[i].1 != xs[j].1)
  }

  lemma {:induction false} CleanKept(ports: seq<Labelled>, xs: seq<Labelled>)
    requires Clean(ports + xs)
    ensures AddAll(ports, xs) == ports + xs
    decreases |xs|
  {
    if xs == [] {
      assert ports + xs == ports;
    } else {
      var all := ports + xs;
      assert all[|ports|] == xs[0];
      assert forall i :: 0 <= i < |ports| ==> all[i] == ports[i];
      assert ports + [xs[0]] + xs[1..] == all;
      CleanKept(ports + [xs[0]], xs[1..]);
    }
  }

  lemma {:induction false} AddAllSubset(ports: seq<Labelled>, xs: seq<Labelled>)
    ensures forall x :: x in AddAll(ports, xs) ==> x in ports || x in xs
    decreases |xs|
  {
    if xs != [] { AddAllSubset(Add(ports, xs[0]), xs[1..]); }
  }

  // ---- Spans ----

  datatype Span = Span(kind: Kind, anchor: int, width: int)

  predicate Covers(s: Span, p: int) {
    s.anchor <= p < s.anchor + s.width
  }

  function Items(ports: seq<Labelled>, kind: Kind): seq<Labelled> {
    if ports == [] then []
    else (if KindOf(ports[0].0) == kind then [ports[0]] else []) + Items(ports[1..], kind)
  }

  function PortOf(items: seq<Labelled>, tag: Label): Option<int> {
    if items == [] then None
    else if items[0].0 == tag then Some(items[0].1)
    else PortOf(items[1..], tag)
  }

  function MaxIndex(items: seq<Labelled>): nat
    requires items != []
  {
    var i := IndexOf(items[0].0);
    if |items| == 1 then i
    else var m := MaxIndex(items[1..]); if i > m then i else m
  }

  function MinPort(items: seq<Labelled>): int
    requires items != []
  {
    if |items| == 1 then items[0].1
    else var m := MinPort(items[1..]); if items[0].1 < m then items[0].1 else m
  }

  /** _make_span */
  function MakeSpan(kind: Kind, items: seq<Labelled>): Span
    requires items != []
  {
    match kind
    case NodeManager => Span(kind, items[0].1, 1)
    case Rpc => Span(kind, items[0].1, 1)
    case Base =>
      var anchor :=
        match PortOf(items, Service(0))
        case Some(p) => p
        case None => (match PortOf(items, Mgmt(0)) case Some(m) => m - 1 case None => MinPort(items));
      Span(kind, anchor, 2 * (MaxIndex(items) + 1))
    case Kv =>
      Span(kind, match PortOf(items, KvLabel(0)) case Some(p) => p case None => MinPort(items), MaxIndex(items) + 1)
  }

  function SpanOf(ports: seq<Labelled>, kind: Kind): Option<Span> {
    if Items(ports, kind) == [] then None else Some(MakeSpan(kind, Items(ports, kind)))
  }

  function SpansOf(ports: seq<Labelled>, kinds: seq<Kind>): seq<Span> {
    if kinds == [] then []
    else (match SpanOf(ports, kinds[0]) case None => [] case Some(s) => [s]) + SpansOf(ports, kinds[1..])
  }

  /** _spans */
  function Spans(ports: seq<Labelled>): seq<Span> {
    SpansOf(ports, KIND_ORDER)
  }

  // ---- Every listen port lies in a span ----

  lemma {:induction false} ItemsMembers(ports: seq<Labelled>, kind: Kind)
    ensures forall x :: x in Items(ports, kind) <==> x in ports && KindOf(x.0) == kind
  {
    if ports != [] {
      ItemsMembers(ports[1..], kind);
      assert ports == [ports[0]] + ports[1..];
    }
  }

  lemma {:induction false} MaxIndexBounds(items: seq<Labelled>)
    requires items != []
    ensures forall x :: x in items ==> IndexOf(x.0) <= MaxIndex(items)
  {
    assert items == [items[0]] + items[1..];
    if |items| > 1 { MaxIndexBounds(items[1..]); }
  }

  lemma {:induction false} MinPortBounds(items: seq<Labelled>)
    requires items != []
    ensures (forall x :: x in items ==> MinPort(items) <= x.1) && exists x :: x in items && x.1 == MinPort(items)
  {
    assert items == [items[0]] + items[1..];
    if |items| > 1 {
      MinPortBounds(items[1..]);
      var x :| x in items[1..] && x.1 == MinPort(items[1..]);
      assert x in items && items[0] in items;
    } else {
      assert items[0] in items;
    }
  }

  lemma {:induction false} PortOfMember(items: seq<Labelled>, tag: Label)
    ensures PortOf(items, tag).Some? ==> (tag, PortOf(items, tag).value) in items
    ensures PortOf(items, tag).None? ==> forall x :: x in items ==> x.0 != tag
  {
    if items != [] {
      assert items == [items[0]] + items[1..];
      PortOfMember(items[1..], tag);
      assert items[0] == (items[0].0, items[0].1);
    }
  }

  /** Where a labelled port sits relative to the start of its range. */
  function Offset(tag: Label): int {
    match tag
    case Service(i) => 2 * i
    case Mgmt(i) => 2 * i + 1
    case KvLabel(i) => i
    case _ => 0
  }

  /** Each port of one kind lies at its tag's offset from a common start. */
  ghost predicate Laid(items: seq<Labelled>, start: int) {
    forall x :: x in items ==> x.1 == start + Offset(x.0)
  }

  /** The span of a kind covers all its ports, even when some ports of the range were dropped. */
  lemma SpanCovers(kind: Kind, items: seq<Labelled>, start: int, x: Labelled)
    requires items != [] && Laid(items, start) && x in items
    requires forall y :: y in items ==> KindOf(y.0) == kind
    ensures Covers(MakeSpan(kind, items), x.1)
  {
    assert items[0] in items;
    MaxIndexBounds(items);
    MinPortBounds(items);
    match kind
    case NodeManager =>
      assert x.0 == NodeManagerLabel && items[0].0 == NodeManagerLabel;
    case Rpc =>
      assert x.0 == RpcLabel && items[0].0 == RpcLabel;
    case Base =>
      PortOfMember(items, Service(0));
      PortOfMember(items, Mgmt(0));
      var low :| low in items && low.1 == MinPort(items);
    case Kv =>
      PortOfMember(items, KvLabel(0));
      var low :| low in items && low.1 == MinPort(items);
  }

  lemma {:induction false} BasePortsLaid(base: int, from: nat, n: nat)
    requires from <= n
    ensures Laid(BasePorts(base, from, n), base)
    ensures forall x :: x in BasePorts(base, from, n) ==> KindOf(x.0) == Base && from <= IndexOf(x.0) < n
    decreases n - from
  {
    if from < n { BasePortsLaid(base, from + 1, n); }
  }

  lemma {:induction false} KvPortsLaid(kv: int, from: nat, n: nat)
    requires from <= n
    ensures Laid(KvPorts(kv, from, n), kv)
    ensures forall x :: x in KvPorts(kv, from, n) ==> KindOf(x.0) == Kv && from <= IndexOf(x.0) < n
    decreases n - from
  {
    if from < n { KvPortsLaid(kv, from + 1, n); }
  }

  /** The start of a kind's declared range. */
  function Start(c: EngineConfig, kind: Kind): Option<int> {
    match kind
    case NodeManager => Some(OrElse(ListenPort(c.nodeManager), DEFAULT_NODE_MANAGER_PORT))
    case Rpc => Some(ReadRpc(c))
    case Base => if c.endpoints == 0 then None else ReadBase(c)
    case Kv => if c.cards == 0 then None else ReadKv(c)
  }

  function Width(c: EngineConfig, kind: Kind): nat {
    match kind
    case NodeManager => 1
    case Rpc => 1
    case Base => 2 * c.endpoints
    case Kv => c.cards
  }

  lemma DeclaredLaid(c: EngineConfig, x: Labelled)
    requires x in Declared(c)
    ensures Start(c, KindOf(x.0)).Some? && x.1 == Start(c, KindOf(x.0)).value + Offset(x.0)
    ensures Offset(x.0) < Width(c, KindOf(x.0))
  {
    var middle := match ReadBase(c) case None => [] case Some(b) => BasePorts(b, 0, c.endpoints);
    var tail := match ReadKv(c) case None => [] case Some(k) => KvPorts(k, 0, c.cards);
    if ReadBase(c).Some? { BasePortsLaid(ReadBase(c).value, 0, c.endpoints); }
    if ReadKv(c).Some? { KvPortsLaid(ReadKv(c).value, 0, c.cards); }
    assert x in middle || x in tail || x.0.NodeManagerLabel? || x.0.RpcLabel?;
  }

  lemma {:induction false} SpansMember(ports: seq<Labelled>, kinds: seq<Kind>, kind: Kind)
    requires kind in kinds && SpanOf(ports, kind).Some?
    ensures SpanOf(ports, kind).value in SpansOf(ports, kinds)
  {
    if kinds[0] != kind { SpansMember(ports, kinds[1..], kind); }
  }

  lemma KindListed(kind: Kind)
    ensures kind in KIND_ORDER
  {
    assert KIND_ORDER[0] == NodeManager && KIND_ORDER[1] == Rpc && KIND_ORDER[2] == Base && KIND_ORDER[3] == Kv;
    match kind case NodeManager => case Rpc => case Base => case Kv =>
  }

  /** For every configuration, overlapping or out of range: each collected port lies in some span. */
  lemma EveryPortCovered(c: EngineConfig, x: Labelled)
    requires x in ListenPorts(c)
    ensures exists s :: s in Spans(ListenPorts(c)) && s.kind == KindOf(x.0) && Covers(s, x.1)
  {
    var ports, kind := ListenPorts(c), KindOf(x.0);
    AddAllSubset([], Declared(c));
    ItemsMembers(ports, kind);
    var items := Items(ports, kind);
    forall y | y in items ensures y in Declared(c) && KindOf(y.0) == kind {}
    DeclaredLaid(c, x);
    var start := Start(c, kind).value;
    forall y | y in items ensures y.1 == start + Offset(y.0) { DeclaredLaid(c, y); }
    SpanCovers(kind, items, start, x);
    KindListed(kind);
    SpansMember(ports, KIND_ORDER, kind);
  }
}
