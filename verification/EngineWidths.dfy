/** How wide a port range is grouped when some of its ports were dropped from the collection. */
module EngineWidths {
  import opened Options
  import opened EnginePorts
  import opened EngineRemap

  function NodeManagerPort(c: EngineConfig): int {
    OrElse(ListenPort(c.nodeManager), DEFAULT_NODE_MANAGER_PORT)
  }

  /** The last base port, of a service, or the last KV port. */
  function LastPort(c: EngineConfig, kind: Kind): int
    requires Start(c, kind).Some?
  {
    Start(c, kind).value + if kind == Base then 2 * (c.endpoints - 1) else c.cards - 1
  }

  /** A valid port that belongs to neither of the two single ones. */
  predicate Unshared(c: EngineConfig, p: int) {
    TcpPort(p) && p != NodeManagerPort(c) && p != ReadRpc(c)
  }

  /** The end of the range is kept: for base ports one of its two last ones is valid and not a single
      port; the last KV port besides is none of the base ports. */
  predicate EndKept(c: EngineConfig, kind: Kind)
    requires Start(c, kind).Some?
  {
    var p := LastPort(c, kind);
    if kind == Base then Unshared(c, p) || Unshared(c, p + 1)
    else Unshared(c, p) && (Range(c, Base).Some? ==> !Covers(Range(c, Base).value, p))
  }

  // ---- Which ports are collected ----

  ghost predicate Numbered(xs: seq<Labelled>) {
    forall i, j :: 0 <= i < j < |xs| ==> xs[i].1 != xs[j].1
  }

  /** From a list without repeats, exactly the valid ports not yet there are added. */
  lemma {:induction false} AddedIff(ports: seq<Labelled>, xs: seq<Labelled>, x: Labelled)
    requires Numbered(xs)
    ensures x in AddAll(ports, xs) <==> x in ports || (x in xs && TcpPort(x.1) && !HasPort(ports, x.1))
    decreases |xs|
  {
    if xs != [] {
      var first, rest := xs[0], xs[1..];
      assert xs == [first] + rest;
      AddedIff(Add(ports, first), rest, x);
      if x in rest { assert x.1 != first.1; }
      AddOne(ports, first, x);
    }
  }

  lemma AddOne(ports: seq<Labelled>, y: Labelled, x: Labelled)
    ensures x in Add(ports, y) <==> x in ports || (x == y && TcpPort(y.1) && !HasPort(ports, y.1))
    ensures HasPort(Add(ports, y), x.1) <==> HasPort(ports, x.1) || (x.1 == y.1 && TcpPort(y.1))
  {
    if HasPort(ports, x.1) {
      var z :| z in ports && z.1 == x.1;
      assert z in Add(ports, y);
    }
    if x.1 == y.1 && TcpPort(y.1) && !HasPort(ports, y.1) { assert y in Add(ports, y); }
  }

  lemma {:induction false} PortKnown(ports: seq<Labelled>, xs: seq<Labelled>, x: Labelled)
    requires TcpPort(x.1)
    ensures HasPort(AddAll(ports, xs), x.1) <==> HasPort(ports, x.1) || HasPort(xs, x.1)
    decreases |xs|
  {
    if xs != [] {
      assert xs == [xs[0]] + xs[1..];
      AddOne(ports, xs[0], x);
      PortKnown(Add(ports, xs[0]), xs[1..], x);
      assert HasPort(xs, x.1) <==> xs[0].1 == x.1 || HasPort(xs[1..], x.1);
    }
  }

  /** The two single ports. */
  function Singles(c: EngineConfig): seq<Labelled> {
    Add(Add([], (NodeManagerLabel, NodeManagerPort(c))), (RpcLabel, ReadRpc(c)))
  }

  lemma SinglesHave(c: EngineConfig, x: Labelled)
    requires TcpPort(x.1)
    ensures HasPort(Singles(c), x.1) <==> !Unshared(c, x.1)
    ensures x in Singles(c) ==> KindOf(x.0) == NodeManager || KindOf(x.0) == Rpc
  {
    var nm, rpc := (NodeManagerLabel, NodeManagerPort(c)), (RpcLabel, ReadRpc(c));
    AddOne([], nm, x);
    AddOne(Add([], nm), rpc, x);
  }

  lemma BaseNumbered(base: int, n: nat)
    ensures Numbered(BasePorts(base, 0, n))
  {
    var xs := BasePorts(base, 0, n);
    forall i, j | 0 <= i < j < |xs| ensures xs[i].1 != xs[j].1 {
      BasePortsAt(base, 0, n, i);
      BasePortsAt(base, 0, n, j);
    }
  }

  lemma KvNumbered(kv: int, n: nat)
    ensures Numbered(KvPorts(kv, 0, n))
  {
    var xs := KvPorts(kv, 0, n);
    forall i, j | 0 <= i < j < |xs| ensures xs[i].1 != xs[j].1 {
      KvPortsAt(kv, 0, n, i);
      KvPortsAt(kv, 0, n, j);
    }
  }

  lemma {:induction false} BaseMember(base: int, from: nat, n: nat, i: nat)
    requires from <= i < n
    ensures (Service(i), base + 2 * i) in BasePorts(base, from, n) &&
            (Mgmt(i), base + 2 * i + 1) in BasePorts(base, from, n)
    decreases n - from
  {
    if from < i { BaseMember(base, from + 1, n, i); }
  }

  lemma {:induction false} KvMember(kv: int, from: nat, n: nat, i: nat)
    requires from <= i < n
    ensures (KvLabel(i), kv + i) in KvPorts(kv, from, n)
    decreases n - from
  {
    if from < i { KvMember(kv, from + 1, n, i); }
  }

  /** The base ports have the numbers of their range. */
  lemma BaseHas(base: int, n: nat, p: int)
    ensures HasPort(BasePorts(base, 0, n), p) <==> base <= p < base + 2 * n
  {
    BasePortsLaid(base, 0, n);
    if base <= p < base + 2 * n {
      var i := (p - base) / 2;
      BaseMember(base, 0, n, i);
      assert p == base + 2 * i || p == base + 2 * i + 1;
    }
  }

  // ---- The width of a group ----

  /** Some collected port carries the last label of the kind. */
  ghost predicate LastListed(c: EngineConfig, kind: Kind) {
    exists x :: LastOne(c, kind, x)
  }

  ghost predicate LastOne(c: EngineConfig, kind: Kind, x: Labelled) {
    x in ListenPorts(c) && KindOf(x.0) == kind && IndexOf(x.0) == LastIndex(c, kind)
  }

  function LastIndex(c: EngineConfig, kind: Kind): int {
    match kind
    case Base => c.endpoints - 1
    case Kv => c.cards - 1
    case _ => 0
  }

  lemma WidthFromLabels(c: EngineConfig, kind: Kind)
    requires (kind == Base || kind == Kv) && SpanOf(ListenPorts(c), kind).Some?
    ensures Start(c, kind).Some? && LastIndex(c, kind) >= 0
    ensures
      var s := SpanOf(ListenPorts(c), kind).value;
      s.width <= Width(c, kind) && (s.width == Width(c, kind) <==> LastListed(c, kind))
  {
    var ports := ListenPorts(c);
    var items := Items(ports, kind);
    AddAllSubset([], Declared(c));
    ItemsMembers(ports, kind);
    MaxIndexReached(items);
    MaxIndexBounds(items);
    forall x | x in items ensures IndexOf(x.0) <= LastIndex(c, kind) && Start(c, kind).Some? {
      DeclaredLaid(c, x);
    }
    assert items[0] in items;
    if x :| x in items && IndexOf(x.0) == LastIndex(c, kind) { assert LastOne(c, kind, x); }
  }

  /** What is collected before the KV ports. */
  function BeforeKv(c: EngineConfig): seq<Labelled> {
    match ReadBase(c) case None => Singles(c) case Some(b) => AddAll(Singles(c), BasePorts(b, 0, c.endpoints))
  }

  lemma KvListedIff(c: EngineConfig, x: Labelled)
    requires KindOf(x.0) == Kv
    ensures x in ListenPorts(c) <==>
            ReadKv(c).Some? && x in KvPorts(ReadKv(c).value, 0, c.cards) && TcpPort(x.1) && !HasPort(BeforeKv(c), x.1)
  {
    DeclaredParts(c);
    NoKvBefore(c, x);
    if ReadKv(c).Some? {
      KvNumbered(ReadKv(c).value, c.cards);
      AddedIff(BeforeKv(c), KvPorts(ReadKv(c).value, 0, c.cards), x);
    }
  }

  lemma NoKvBefore(c: EngineConfig, x: Labelled)
    requires KindOf(x.0) == Kv
    ensures x !in BeforeKv(c)
  {
    var nm, rpc := (NodeManagerLabel, NodeManagerPort(c)), (RpcLabel, ReadRpc(c));
    AddOne([], nm, x);
    AddOne(Add([], nm), rpc, x);
    if ReadBase(c).Some? {
      BasePortsLaid(ReadBase(c).value, 0, c.endpoints);
      AddAllSubset(Singles(c), BasePorts(ReadBase(c).value, 0, c.endpoints));
    }
  }

  lemma BaseListedIff(c: EngineConfig, x: Labelled)
    requires KindOf(x.0) == Base && ReadBase(c).Some?
    ensures x in ListenPorts(c) <==> x in BasePorts(ReadBase(c).value, 0, c.endpoints) && Unshared(c, x.1)
  {
    DeclaredParts(c);
    BaseNumbered(ReadBase(c).value, c.endpoints);
    AddedIff(Singles(c), BasePorts(ReadBase(c).value, 0, c.endpoints), x);
    if TcpPort(x.1) { SinglesHave(c, x); }
    BaseOutsideKv(c, x);
  }

  lemma BaseOutsideKv(c: EngineConfig, x: Labelled)
    requires KindOf(x.0) == Base
    ensures x in ListenPorts(c) <==> x in BeforeKv(c)
    ensures x !in Singles(c)
  {
    DeclaredParts(c);
    var nm, rpc := (NodeManagerLabel, NodeManagerPort(c)), (RpcLabel, ReadRpc(c));
    AddOne([], nm, x);
    AddOne(Add([], nm), rpc, x);
    if ReadKv(c).Some? {
      KvPortsLaid(ReadKv(c).value, 0, c.cards);
      KvNumbered(ReadKv(c).value, c.cards);
      AddedIff(BeforeKv(c), KvPorts(ReadKv(c).value, 0, c.cards), x);
    }
  }

  lemma BaseEndIff(c: EngineConfig)
    requires Start(c, Base).Some? && c.endpoints >= 1
    ensures LastListed(c, Base) <==> EndKept(c, Base)
  {
    var b, i := ReadBase(c).value, c.endpoints - 1;
    var s, m := (Service(i), b + 2 * i), (Mgmt(i), b + 2 * i + 1);
    BaseMember(b, 0, c.endpoints, i);
    BaseListedIff(c, s);
    BaseListedIff(c, m);
    if EndKept(c, Base) { assert LastOne(c, Base, s) || LastOne(c, Base, m); }
    if x :| LastOne(c, Base, x) {
      BaseListedIff(c, x);
      BasePortsLaid(b, 0, c.endpoints);
    }
  }

  lemma KvEndIff(c: EngineConfig)
    requires Start(c, Kv).Some? && c.cards >= 1
    ensures LastListed(c, Kv) <==> EndKept(c, Kv)
  {
    var k, i := ReadKv(c).value, c.cards - 1;
    var x := (KvLabel(i), k + i);
    KvMember(k, 0, c.cards, i);
    KvListedIff(c, x);
    if TcpPort(x.1) { KvEndFree(c, x); }
    if EndKept(c, Kv) { assert LastOne(c, Kv, x); }
    if y :| LastOne(c, Kv, y) {
      KvListedIff(c, y);
      KvPortsLaid(k, 0, c.cards);
      assert y == x;
    }
  }

  lemma KvEndFree(c: EngineConfig, x: Labelled)
    requires TcpPort(x.1)
    ensures HasPort(BeforeKv(c), x.1) <==>
            !Unshared(c, x.1) || (Range(c, Base).Some? && Covers(Range(c, Base).value, x.1))
  {
    SinglesHave(c, x);
    if ReadBase(c).Some? {
      PortKnown(Singles(c), BasePorts(ReadBase(c).value, 0, c.endpoints), x);
      BaseHas(ReadBase(c).value, c.endpoints, x.1);
    }
  }

  /** For every configuration: a range is grouped at its full width if and only if its end is kept. */
  lemma FullWidthIff(c: EngineConfig, kind: Kind)
    requires (kind == Base || kind == Kv) && SpanOf(ListenPorts(c), kind).Some?
    ensures
      var s := SpanOf(ListenPorts(c), kind).value;
      && Start(c, kind).Some? && s.width <= Width(c, kind)
      && (s.width == Width(c, kind) <==> EndKept(c, kind))
  {
    WidthFromLabels(c, kind);
    if kind == Base { BaseEndIff(c); } else { KvEndIff(c); }
  }

  /** So a range that runs past 65535 is grouped narrower, and moving it checks fewer ports than the
      engine will bind. */
  lemma OutOfRangeNarrows(c: EngineConfig, kind: Kind)
    requires (kind == Base || kind == Kv) && SpanOf(ListenPorts(c), kind).Some?
    requires Start(c, kind).Some? && LastPort(c, kind) > MAX_PORT
    ensures SpanOf(ListenPorts(c), kind).value.width < Width(c, kind)
  {
    FullWidthIff(c, kind);
  }
}
