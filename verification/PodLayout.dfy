/** Packing a dp x tp x pp world onto pods: the converter that lays it out, the Docker validator and
    the NodeManager that consume the layout. */
module PodLayout {
  import opened Options

  type pos = x: int | 1 <= x witness 1

  datatype Result<+T> = Ok(value: T) | Error

  datatype Layout = Layout(pods: pos, npu: pos, nnodes: pos)

  /** Parallel sizes of one role and the NPUs of a node. */
  datatype Sizes = Sizes(dp: pos, tp: pos, pp: pos, cards: pos)

  /** NPUs of one data-parallel group. */
  function Group(s: Sizes): pos {
    Positive(s.tp, s.pp);
    s.tp * s.pp
  }

  function World(s: Sizes): pos {
    Positive(s.dp, Group(s));
    s.dp * Group(s)
  }

  predicate Divides(a: pos, b: int) {
    b % a == 0
  }

  // ---- Arithmetic ----

  lemma Positive(a: int, b: int)
    requires 1 <= a && 1 <= b
    ensures 1 <= a * b && a <= a * b && b <= a * b
  {
  }

  lemma Sign(a: int, b: pos)
    ensures a >= 1 ==> a * b >= b
    ensures a <= 0 ==> a * b <= 0
    ensures a <= -1 ==> a * b + b <= 0
  {
    if a >= 1 { Positive(a, b); }
    if a <= -1 { Positive(-a, b); assert a * b == -((-a) * b); }
  }

  lemma Cancel(a: int, b: int, k: int)
    requires k != 0 && a * k == b * k
    ensures a == b
  {
  }

  lemma Quotient(a: int, b: pos)
    ensures a == a / b * b + a % b && 0 <= a % b < b
  {
  }

  lemma ExactQuotient(q: int, b: pos)
    ensures q * b / b == q && q * b % b == 0
  {
    Quotient(q * b, b);
    var d := q * b / b - q;
    assert d * b + q * b % b == 0;
    Sign(d, b);
  }

  // ---- The converter ----

  /** _infer_pod_layout */
  function InferPodLayout(s: Sizes): Result<Layout> {
    if s.tp > s.cards then
      Error
    else if Group(s) > s.cards && Group(s) % s.cards != 0 then
      Error
    else
      var nnodes := if Group(s) > s.cards then Group(s) / s.cards else 1;
      if World(s) <= s.cards then
        Ok(Layout(1, World(s), nnodes))
      else if World(s) % s.cards != 0 then
        Error
      else
        Ok(Layout(World(s) / s.cards, s.cards, nnodes))
  }

  const NNODES := "nnodes"
  const MASTER_PORT := "master-port"
  const DEFAULT_MASTER_PORT := 7060

  class EngineConfig {
    var entries: map<string, int>

    /** _apply_cross_node_engine_config: false stands for the ValueError. */
    method ApplyCrossNode(dp: pos, nnodes: pos) returns (ok: bool)
      modifies this
      ensures ok <==> nnodes == 1 || dp == 1
      ensures !ok || nnodes == 1 ==> entries == old(entries)
      ensures ok && nnodes > 1 ==>
                && (forall k :: k in entries <==> k in old(entries) || k == "nnodes" || k == "master-port")
                && (forall k :: k in old(entries) ==> entries[k] == old(entries)[k])
                && ("nnodes" !in old(entries) ==> entries["nnodes"] == nnodes)
                && ("master-port" !in old(entries) ==> entries["master-port"] == 7060)
    {
      if nnodes > 1 && dp > 1 {
        return false;
      }
      if nnodes > 1 {
        if NNODES !in entries {
          entries := entries[NNODES := nnodes];
        }
        if MASTER_PORT !in entries {
          entries := entries[MASTER_PORT := DEFAULT_MASTER_PORT];
        }
      }
      return true;
    }
  }

  /** The converter emits a configuration. */
  predicate Converts(s: Sizes) {
    InferPodLayout(s).Ok? && (InferPodLayout(s).value.nnodes == 1 || s.dp == 1)
  }

  // ---- The Docker validator ----

  /** validate_role_pod_layout */
  function ValidateLayout(pods: pos, npu: pos, s: Sizes): Result<pos> {
    if pods * npu < World(s) then Error else Ok(npu)
  }

  /** _instance_endpoint_num; `explicit` is a configured endpoint_num. */
  function InstanceEndpoints(explicit: Option<int>, multi: bool, dp: pos, perGroup: pos, npu: pos): pos {
    if explicit.Some? && explicit.value > 0 then explicit.value
    else if !multi || npu < perGroup then 1
    else Max(1, Min(dp, npu / perGroup))
  }

  function Min(a: int, b: int): int { if a <= b then a else b }

  function Max(a: int, b: int): int { if a >= b then a else b }

  // ---- The NodeManager ----

  /** Devices of one group on this node after the cross-node adjustment. */
  function LocalWorldSize(tp: pos, pp: pos, pcp: pos, nnodes: pos): Result<int> {
    if nnodes > 1 && pcp * pp > 1 then
      if pcp * pp % nnodes != 0 then Error else Ok(pcp * tp * pp / nnodes)
    else
      Ok(pcp * tp * pp)
  }

  /** The number of endpoints for a local world size, if it is accepted. */
  function EndpointCount(multi: bool, dp: pos, devices: nat, local: pos): Result<nat> {
    if multi && devices < local then Error else Ok(if multi then Min(dp, devices / local) else 1)
  }

  lemma Regroup(pcp: int, tp: int, pp: int, k: int, n: int)
    requires k * n == pcp * pp
    ensures pcp * tp * pp == tp * k * n
  {
    assert pcp * tp * pp == tp * (pcp * pp);
    assert tp * k * n == tp * (k * n);
  }

  lemma LocalIsPositive(tp: pos, pp: pos, pcp: pos, nnodes: pos)
    requires LocalWorldSize(tp, pp, pcp, nnodes).Ok?
    ensures LocalWorldSize(tp, pp, pcp, nnodes).value >= 1
  {
    Positive(pcp, tp);
    Positive(pcp * tp, pp);
    Positive(pcp, pp);
    if nnodes > 1 && pcp * pp > 1 {
      var k := pcp * pp / nnodes;
      Quotient(pcp * pp, nnodes);
      assert k * nnodes == pcp * pp;
      Sign(k, nnodes);
      Regroup(pcp, tp, pp, k, nnodes);
      ExactQuotient(tp * k, nnodes);
      Positive(tp, k);
    }
  }

  class NodeManager {
    const dp: pos
    const tp: pos
    const pp: pos
    const pcp: pos
    const nnodes: pos
    const deviceNum: nat
    const multi: bool
    const basePort: nat
    var localWorldSize: int
    var endpointNum: nat
    var servicePorts: seq<int>

    constructor (dp: pos, tp: pos, pp: pos, pcp: pos, nnodes: pos, deviceNum: nat, multi: bool, basePort: nat)
      ensures this.dp == dp && this.tp == tp && this.pp == pp && this.pcp == pcp && this.nnodes == nnodes
      ensures this.deviceNum == deviceNum && this.multi == multi && this.basePort == basePort
      ensures localWorldSize == pcp * tp * pp
    {
      this.dp, this.tp, this.pp, this.pcp, this.nnodes := dp, tp, pp, pcp, nnodes;
      this.deviceNum, this.multi, this.basePort := deviceNum, multi, basePort;
      localWorldSize := pcp * tp * pp;
      endpointNum, servicePorts := 0, [];
    }

    /** The cross-node adjustment of _load_node_manager_config_data. */
    method AdjustCrossNode() returns (ok: bool)
      requires localWorldSize == pcp * tp * pp
      modifies this`localWorldSize
      ensures ok == LocalWorldSize(tp, pp, pcp, nnodes).Ok?
      ensures localWorldSize == if ok then LocalWorldSize(tp, pp, pcp, nnodes).value else old(localWorldSize)
      ensures localWorldSize >= 1
    {
      if LocalWorldSize(tp, pp, pcp, nnodes).Ok? { LocalIsPositive(tp, pp, pcp, nnodes); }
      LocalIsPositive(tp, pp, pcp, 1);
      var spanning := pcp * pp;
      if nnodes > 1 && spanning > 1 {
        if spanning % nnodes != 0 {
          return false;
        }
        localWorldSize := pcp * tp * pp / nnodes;
      }
      return true;
    }

    /** _generate_endpoint_ports */
    method GenerateEndpointPorts() returns (ok: bool)
      requires localWorldSize >= 1
      modifies this`endpointNum, this`servicePorts
      ensures ok == EndpointCount(multi, dp, deviceNum, localWorldSize).Ok?
      ensures ok ==> endpointNum == EndpointCount(multi, dp, deviceNum, localWorldSize).value
      ensures ok ==> |servicePorts| == endpointNum && forall i :: 0 <= i < endpointNum ==>
              servicePorts[i] == basePort + i * 2
      ensures !ok ==> endpointNum == old(endpointNum) && servicePorts == old(servicePorts)
    {
      if (multi && deviceNum < localWorldSize) || dp < 1 {
        return false;
      }
      if !multi {
        endpointNum := 1;
      } else {
        endpointNum := Min(dp, deviceNum / localWorldSize);
      }
      servicePorts := seq(endpointNum, i => basePort + i * 2);
      return true;
    }
  }

  // ---- Each side by itself ----

  lemma SizesAre(s: Sizes)
    ensures Group(s) == s.tp * s.pp && World(s) == s.dp * (s.tp * s.pp)
  {
  }

  /** A world that fits a node gets one pod of its size; a larger one gets pods of whole nodes, and a group
      larger than a node as many nodes as it fills. */
  lemma LayoutIs(s: Sizes)
    requires InferPodLayout(s).Ok?
    ensures
      var l := InferPodLayout(s).value;
      && (World(s) <= s.cards ==> l.pods == 1 && l.npu == World(s))
      && (World(s) > s.cards ==> l.npu == s.cards && l.pods * s.cards == World(s))
      && (Group(s) <= s.cards ==> l.nnodes == 1)
      && (Group(s) > s.cards ==> l.nnodes * s.cards == Group(s))
  {
    Quotient(World(s), s.cards);
    Quotient(Group(s), s.cards);
  }

  /** The validator accepts exactly when the pods have NPUs for the whole world. */
  lemma ValidateIff(pods: pos, npu: pos, s: Sizes)
    ensures ValidateLayout(pods, npu, s).Ok? <==> pods * npu >= s.dp * (s.tp * s.pp)
    ensures ValidateLayout(pods, npu, s).Ok? ==> ValidateLayout(pods, npu, s).value == npu
  {
    SizesAre(s);
  }

  /** Across nodes the NodeManager splits a group evenly, and refuses when nnodes does not divide pcp x pp. */
  lemma LocalIs(tp: pos, pp: pos, pcp: pos, nnodes: pos)
    ensures
      var local := LocalWorldSize(tp, pp, pcp, nnodes);
      && (nnodes == 1 || pcp * pp == 1 ==> local == Ok(pcp * tp * pp))
      && (nnodes > 1 && pcp * pp > 1 ==>
            && (local.Ok? <==> Divides(nnodes, pcp * pp))
            && (local.Ok? ==> local.value * nnodes == pcp * tp * pp))
  {
    Positive(pcp, pp);
    if nnodes > 1 && pcp * pp > 1 && Divides(nnodes, pcp * pp) { WholeIsSplit(tp, pp, pcp, nnodes); }
  }

  /** It runs one endpoint, or with multiple endpoints one for each local world that its devices hold, up to
      dp; it refuses when they hold none. */
  lemma EndpointsAre(multi: bool, dp: pos, devices: nat, local: pos)
    ensures
      var n := EndpointCount(multi, dp, devices, local);
      && (!multi ==> n == Ok(1))
      && (multi ==> (n.Ok? <==> devices >= local))
      && (multi && n.Ok? ==>
            1 <= n.value <= dp && n.value * local <= devices && (n.value < dp ==> devices < (n.value + 1) * local))
  {
    if multi && devices >= local {
      AtLeastOne(devices, local);
      QuotientAtLeast(devices, local, Min(dp, devices / local));
      QuotientAtLeast(devices, local, devices / local + 1);
    }
  }

  /** Docker expects the configured number if it is positive; otherwise one, or with multiple endpoints one
      for each whole group that its NPUs hold, up to dp and at least one. */
  lemma ExpectedEndpoints(explicit: Option<int>, multi: bool, dp: pos, perGroup: pos, npu: pos)
    ensures
      var n := InstanceEndpoints(explicit, multi, dp, perGroup, npu);
      if explicit.Some? && explicit.value > 0 then n == explicit.value
      else if !multi || npu < perGroup then n == 1
      else n <= dp && n * perGroup <= npu && (n < dp ==> npu < (n + 1) * perGroup)
  {
    if npu >= perGroup {
      AtLeastOne(npu, perGroup);
      QuotientAtLeast(npu, perGroup, Min(dp, npu / perGroup));
      QuotientAtLeast(npu, perGroup, npu / perGroup + 1);
    }
  }

  // ---- The three agree ----

  /** A layout exists exactly for worlds that fit a node or fill nodes, with tp within a node; it places
      the world exactly, and the validator accepts it. */
  lemma LayoutPlacesWorld(s: Sizes)
    ensures InferPodLayout(s).Ok? <==>
            && s.tp <= s.cards
            && (Group(s) <= s.cards || Divides(s.cards, Group(s)))
            && (World(s) <= s.cards || Divides(s.cards, World(s)))
    ensures InferPodLayout(s).Ok? ==>
              var l := InferPodLayout(s).value;
              && l.pods * l.npu == World(s) == s.dp * s.tp * s.pp && l.npu <= s.cards
              && ValidateLayout(l.pods, l.npu, s) == Ok(l.npu)
  {
    assert s.dp * (s.tp * s.pp) == s.dp * s.tp * s.pp;
    Quotient(World(s), s.cards);
  }

  /** When a group fits a node, each pod's endpoints add up to dp if and only if the world fits one pod
      or groups fill nodes; otherwise some ranks get no endpoint. */
  lemma EndpointsSumIff(s: Sizes)
    requires InferPodLayout(s).Ok? && Group(s) <= s.cards
    ensures
      var l := InferPodLayout(s).value;
      var n := EndpointCount(true, s.dp, l.npu, Group(s));
      && l.nnodes == 1 && n.Ok? && 1 <= n.value
      && (l.pods * n.value == s.dp <==> World(s) <= s.cards || Divides(Group(s), s.cards))
      && l.pods * n.value <= s.dp
  {
    var l, g := InferPodLayout(s).value, Group(s);
    if World(s) <= s.cards {
      ExactQuotient(s.dp, g);
      Positive(s.dp, g);
    } else {
      var q := s.cards / g;
      Quotient(s.cards, g);
      LayoutPlacesWorld(s);
      assert l.pods * s.cards == s.dp * g;
      AtMost(s.dp, g, s.cards, q);
      SumIff(l.pods, s.dp, g, s.cards, q);
    }
  }

  lemma AtMost(dp: pos, g: pos, cards: pos, q: int)
    requires cards == q * g + cards % g && 0 <= cards % g < g && cards < dp * g && g <= cards
    ensures 1 <= q <= dp
  {
    Sign(q - dp, g);
    assert q * g == dp * g + (q - dp) * g;
    Sign(q, g);
  }

  lemma SumIff(pods: pos, dp: pos, g: pos, cards: pos, q: int)
    requires pods * cards == dp * g && cards == q * g + cards % g && 0 <= cards % g < g && 1 <= q
    ensures pods * q == dp <==> cards % g == 0
    ensures pods * q <= dp
  {
    var r := cards % g;
    assert pods * cards == pods * q * g + pods * r;
    assert (dp - pods * q) * g == pods * r;
    if r == 0 {
      assert pods * r == 0;
      assert (dp - pods * q) * g == 0 * g;
      Cancel(dp - pods * q, 0, g);
    } else {
      Positive(pods, r);
      Sign(dp - pods * q, g);
    }
  }

  /** Across nodes (a group larger than a node, dp = 1) there are as many pods as nodes, and the
      NodeManager accepts the layout if and only if tp divides the cards of a node; each pod then has
      the node's cards as its local world and runs one endpoint. */
  lemma CrossNodeAcceptedIff(s: Sizes)
    requires Converts(s) && Group(s) > s.cards
    ensures
      var l := InferPodLayout(s).value;
      var local := LocalWorldSize(s.tp, s.pp, 1, l.nnodes);
      && l.nnodes > 1 && l.pods == l.nnodes && l.npu == s.cards
      && (local.Ok? <==> Divides(s.tp, s.cards))
      && (local.Ok? ==> local.value == s.cards && EndpointCount(true, s.dp, l.npu, s.cards) == Ok(1))
  {
    var l, g := InferPodLayout(s).value, Group(s);
    Quotient(g, s.cards);
    assert l.nnodes * s.cards == g;
    Sign(l.nnodes - 1, s.cards);
    assert (l.nnodes - 1) * s.cards == g - s.cards;
    SpansIff(s.tp, s.pp, s.cards, l.nnodes);
    ExactQuotient(s.cards, l.nnodes);
    ExactQuotient(1, s.cards);
  }

  lemma SpansIff(tp: pos, pp: pos, cards: pos, nnodes: pos)
    requires nnodes * cards == tp * pp && tp <= cards && nnodes > 1
    ensures Divides(nnodes, pp) <==> Divides(tp, cards)
    ensures pp > 1
  {
    Sign(nnodes - 1, cards);
    assert (nnodes - 1) * cards == tp * pp - cards;
    assert pp == 1 ==> tp * pp == tp;
    if Divides(nnodes, pp) { Cofactor(cards, nnodes, tp, pp); }
    assert pp * tp == cards * nnodes;
    if Divides(tp, cards) { Cofactor(pp, tp, nnodes, cards); }
  }

  lemma Cofactor(a: pos, b: pos, c: pos, d: pos)
    requires a * b == c * d && Divides(b, d)
    ensures Divides(c, a)
  {
    var m := d / b;
    Quotient(d, b);
    assert c * (m * b) == (m * c) * b;
    Cancel(a, m * c, b);
    ExactQuotient(m, c);
  }

  /** Whenever the NodeManager accepts, the Docker side expects exactly the endpoints it starts if and
      only if the configured endpoint_num, which the NodeManager overwrites, is that number; or, with
      none configured, unless several groups of a cross-node layout share a pod in which not all dp whole
      groups fit. */
  lemma DockerMatchesIff(dp: pos, tp: pos, pp: pos, pcp: pos, nnodes: pos, npu: pos, multi: bool, explicit: Option<int>)
    requires LocalWorldSize(tp, pp, pcp, nnodes).Ok? && LocalWorldSize(tp, pp, pcp, nnodes).value >= 1
    requires EndpointCount(multi, dp, npu, LocalWorldSize(tp, pp, pcp, nnodes).value).Ok?
    ensures
      var local := LocalWorldSize(tp, pp, pcp, nnodes).value;
      var count := EndpointCount(multi, dp, npu, local).value;
      && 1 <= pcp * tp * pp
      && (count == InstanceEndpoints(explicit, multi, dp, pcp * tp * pp, npu) <==>
          if explicit.Some? && explicit.value > 0 then explicit.value == count
          else !multi || dp == 1 || nnodes == 1 || pcp * pp == 1 || npu < 2 * local || npu >= dp * (pcp * tp * pp))
  {
    LocalIsPositive(tp, pp, pcp, 1);
    Positive(pcp, pp);
    var local, whole := LocalWorldSize(tp, pp, pcp, nnodes).value, pcp * tp * pp;
    if multi {
      AtLeastOne(npu, local);
      if nnodes == 1 || pcp * pp == 1 {
        assert local == whole;
      } else {
        WholeIsSplit(tp, pp, pcp, nnodes);
        CountsAgreeIff(dp, npu, local, whole, nnodes);
      }
    }
  }

  lemma WholeIsSplit(tp: pos, pp: pos, pcp: pos, nnodes: pos)
    requires nnodes > 1 && pcp * pp > 1 && pcp * pp % nnodes == 0
    ensures pcp * tp * pp / nnodes * nnodes == pcp * tp * pp
  {
    var k := pcp * pp / nnodes;
    Quotient(pcp * pp, nnodes);
    Regroup(pcp, tp, pp, k, nnodes);
    ExactQuotient(tp * k, nnodes);
  }

  lemma CountsAgreeIff(dp: pos, npu: pos, local: pos, whole: pos, nnodes: pos)
    requires local * nnodes == whole && nnodes > 1 && npu >= local
    ensures Min(dp, npu / local) == (if npu < whole then 1 else Max(1, Min(dp, npu / whole))) <==>
            dp == 1 || npu < 2 * local || npu >= dp * whole
  {
    AtLeastOne(npu, local);
    TwiceAsMany(npu, local, whole, nnodes);
    QuotientAtLeast(npu, local, 2);
    QuotientAtLeast(npu, whole, dp);
    QuotientAtLeast(npu, whole, 1);
    MinimaAgreeIff(dp, npu / local, npu / whole);
  }

  lemma MinimaAgreeIff(dp: pos, a: int, b: int)
    requires a >= 1 && a >= 2 * b
    ensures Min(dp, a) == (if b < 1 then 1 else Max(1, Min(dp, b))) <==> dp == 1 || a < 2 || b >= dp
  {
  }

  lemma TwiceAsMany(npu: pos, local: pos, whole: pos, nnodes: pos)
    requires local * nnodes == whole && nnodes > 1
    ensures npu / local >= 2 * (npu / whole)
  {
    var b := npu / whole;
    Quotient(npu, whole);
    QuotientAtLeast(npu, whole, 0);
    Sign(nnodes - 2, local);
    assert whole == (nnodes - 2) * local + 2 * local;
    var c := whole - 2 * local;
    assert b * whole == b * c + 2 * b * local by { assert whole == c + 2 * local; }
    assert b * c >= 0;
    QuotientAtLeast(npu, local, 2 * b);
  }

  lemma QuotientAtLeast(a: int, b: pos, n: int)
    ensures a / b >= n <==> a >= n * b
  {
    Quotient(a, b);
    var d := a / b - n;
    assert a == d * b + n * b + a % b;
    Sign(d, b);
    Sign(d + 1, b);
  }

  lemma AtLeastOne(a: pos, b: pos)
    requires a >= b
    ensures a / b >= 1
  {
    Quotient(a, b);
    Sign(a / b, b);
  }

  /** For every layout the converter emits, that is the case: the NodeManager accepts it or refuses its
      cross-node split, and with nothing configured both sides count the same. */
  lemma DockerMatchesNodeManager(s: Sizes, multi: bool)
    requires Converts(s)
    requires LocalWorldSize(s.tp, s.pp, 1, InferPodLayout(s).value.nnodes).Ok?
    ensures
      var l := InferPodLayout(s).value;
      var local := LocalWorldSize(s.tp, s.pp, 1, l.nnodes).value;
      1 <= local && EndpointCount(multi, s.dp, l.npu, local) ==
        Ok(InstanceEndpoints(None, multi, s.dp, Group(s), l.npu))
  {
    var l := InferPodLayout(s).value;
    LocalIsPositive(s.tp, s.pp, 1, l.nnodes);
    if Group(s) > s.cards { CrossNodeAcceptedIff(s); } else { EndpointsSumIff(s); }
    assert 1 * s.tp * s.pp == Group(s);
    DockerMatchesIff(s.dp, s.tp, s.pp, 1, l.nnodes, l.npu, multi, None);
  }

  /** Set by hand, dp = 2 across two nodes: the NodeManager starts two endpoints a pod, Docker expects
      another number. */
  lemma DockerMismatch()
    ensures LocalWorldSize(1, 2, 1, 2) == Ok(1) && EndpointCount(true, 2, 2, 1) == Ok(2)
    ensures InstanceEndpoints(None, true, 2, 2, 2) != 2
  {
    DockerMatchesIff(2, 1, 2, 1, 2, 2, true, None);
  }

  /** tp = 3 and pp = 16 on eight-card nodes get a layout over six nodes, which the NodeManager refuses. */
  lemma CrossNodeRefused()
    ensures Converts(Sizes(1, 3, 16, 8)) && InferPodLayout(Sizes(1, 3, 16, 8)) == Ok(Layout(6, 8, 6))
    ensures LocalWorldSize(3, 16, 1, 6) == Error
  {
  }

  /** With six cards a group on eight-card nodes, three pods run three endpoints for dp = 4. */
  lemma EndpointsFallShort()
    ensures InferPodLayout(Sizes(4, 6, 1, 8)) == Ok(Layout(3, 8, 1)) && EndpointCount(true, 4, 8, 6) == Ok(1)
  {
  }
}
