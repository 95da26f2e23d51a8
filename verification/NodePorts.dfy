/** Finding NodePort conflicts with the cluster, choosing replacement ports, and walking through the
    operator's answers. */
module NodePorts {
  import opened Options

  const NODEPORT_MIN: int := 30000
  const NODEPORT_MAX: int := 32767
  const SPAN: int := NODEPORT_MAX - NODEPORT_MIN + 1

  /** The Service that a planned port belongs to. The InferServiceSet fields are empty elsewhere. */
  datatype ServiceRef = ServiceRef(file: string, name: string, namespace: string, inferSet: string, role: string)

  datatype Planned = Planned(port: int, service: ServiceRef)

  datatype Owner = Owner(namespace: string, name: string)

  type Cluster = map<int, Owner>

  // ---- Ownership ----

  function Lower(s: string): (r: string)
    ensures |r| == |s|
  {
    seq(|s|, i requires 0 <= i < |s| => if 'A' <= s[i] <= 'Z' then (s[i] as int + 32) as char else s[i])
  }

  /** The name {svc}-{inferSet}-{digits}-{role}, letter case ignored. */
  predicate MatchesCrdName(service: ServiceRef, owner: string) {
    service.inferSet != [] && service.role != [] &&
    var head := Lower(service.name + "-" + service.inferSet + "-");
    var tail := Lower("-" + service.role);
    var name := Lower(owner);
    && |head| + |tail| < |name|
    && name[..|head|] == head && name[|name| - |tail|..] == tail
    && forall i :: |head| <= i < |name| - |tail| ==> '0' <= name[i] <= '9'
  }

  /** Same job namespace and same Service: our own earlier deployment. */
  predicate IsSelfOwned(service: ServiceRef, owner: Owner, jobId: string) {
    && owner.namespace == (if service.namespace != [] then service.namespace else jobId)
    && (owner.name == service.name || MatchesCrdName(service, owner.name))
  }

  // ---- Conflicts ----

  predicate Conflicting(item: Planned, cluster: Cluster, jobId: string) {
    item.port in cluster && !IsSelfOwned(item.service, cluster[item.port], jobId)
  }

  /** The first conflicting item of every port not seen before. */
  function ConflictsFrom(planned: seq<Planned>, cluster: Cluster, jobId: string, seen: set<int>): seq<Planned>
    decreases |planned|
  {
    if planned == [] then []
    else if Conflicting(planned[0], cluster, jobId) && planned[0].port !in seen then
      [planned[0]] + ConflictsFrom(planned[1..], cluster, jobId, seen + {planned[0].port})
    else ConflictsFrom(planned[1..], cluster, jobId, seen)
  }

  method FindConflicts(planned: seq<Planned>, cluster: Cluster, jobId: string)
    returns (conflicts: seq<(Planned, Owner)>)
    ensures |conflicts| == |ConflictsFrom(planned, cluster, jobId, {})|
    ensures forall i :: 0 <= i < |conflicts| ==>
              && conflicts[i].0 == ConflictsFrom(planned, cluster, jobId, {})[i]
              && conflicts[i].0.port in cluster && conflicts[i].1 == cluster[conflicts[i].0.port]
  {
    conflicts := [];
    var seen: set<int> := {};
    ghost var found: seq<Planned> := [];
    for n := 0 to |planned|
      invariant ConflictsFrom(planned, cluster, jobId, {}) == found + ConflictsFrom(planned[n..], cluster, jobId, seen)
      invariant |conflicts| == |found|
      invariant forall i :: 0 <= i < |conflicts| ==>
                  && conflicts[i].0 == found[i]
                  && conflicts[i].0.port in cluster && conflicts[i].1 == cluster[conflicts[i].0.port]
    {
      var item := planned[n];
      assert planned[n..][0] == item && planned[n..][1..] == planned[n + 1..];
      if item.port !in cluster { continue; }
      var owner := cluster[item.port];
      if IsSelfOwned(item.service, owner, jobId) { continue; }
      if item.port in seen { continue; }
      seen := seen + {item.port};
      conflicts := conflicts + [(item, owner)];
      found := found + [item];
    }
  }

  ghost predicate DistinctPorts(items: seq<Planned>) {
    forall i, j :: 0 <= i < j < |items| ==> items[i].port != items[j].port
  }

  /** The reported ports are pairwise different, new, and all conflicting. */
  lemma {:induction false} ConflictsDistinct(planned: seq<Planned>, cluster: Cluster, jobId: string, seen: set<int>)
    ensures var c := ConflictsFrom(planned, cluster, jobId, seen);
            && DistinctPorts(c)
            && (forall item :: item in c ==> item.port !in seen && item in planned && Conflicting(item, cluster, jobId))
    decreases |planned|
  {
    if planned != [] {
      var first := planned[0];
      if Conflicting(first, cluster, jobId) && first.port !in seen {
        ConflictsDistinct(planned[1..], cluster, jobId, seen + {first.port});
        var rest := ConflictsFrom(planned[1..], cluster, jobId, seen + {first.port});
        var all := [first] + rest;
        forall i, j | 0 <= i < j < |all| ensures all[i].port != all[j].port {
          assert all[j] in rest;
        }
      } else {
        ConflictsDistinct(planned[1..], cluster, jobId, seen);
      }
    }
  }

  /** No conflicting port goes unreported. */
  lemma {:induction false} ConflictsComplete(planned: seq<Planned>, cluster: Cluster, jobId: string, seen: set<int>,
                                             item: Planned)
    requires item in planned && Conflicting(item, cluster, jobId) && item.port !in seen
    ensures exists c :: c in ConflictsFrom(planned, cluster, jobId, seen) && c.port == item.port
    decreases |planned|
  {
    var first := planned[0];
    if Conflicting(first, cluster, jobId) && first.port !in seen {
      var rest := ConflictsFrom(planned[1..], cluster, jobId, seen + {first.port});
      if first.port == item.port {
        assert first in ConflictsFrom(planned, cluster, jobId, seen);
      } else {
        ConflictsComplete(planned[1..], cluster, jobId, seen + {first.port}, item);
        var c :| c in rest && c.port == item.port;
        assert c in ConflictsFrom(planned, cluster, jobId, seen);
      }
    } else {
      assert item != first;
      ConflictsComplete(planned[1..], cluster, jobId, seen, item);
    }
  }

  // ---- The allocator ----

  /** The port after p, wrapping from the top of the NodePort range to its bottom. */
  function Next(p: int): int {
    if p + 1 > NODEPORT_MAX then NODEPORT_MIN else p + 1
  }

  /** The n-th port tried in place of `busy`. */
  function Candidate(busy: int, n: nat): int
    decreases n
  {
    if n == 0 then Next(busy) else Next(Candidate(busy, n - 1))
  }

  predicate InRange(p: int) {
    NODEPORT_MIN <= p <= NODEPORT_MAX
  }

  function PortsOf(planned: seq<Planned>): (r: set<int>)
    ensures forall item :: item in planned ==> item.port in r
    ensures forall p :: p in r ==> exists item :: item in planned && item.port == p
  {
    set item | item in planned :: item.port
  }

  function Reserved(cluster: Cluster, planned: seq<Planned>, extra: set<int>): set<int> {
    cluster.Keys + PortsOf(planned) + extra
  }

  /** The first unreserved candidate from the n-th on. */
  function FirstFree(busy: int, reserved: set<int>, n: nat): Option<int>
    requires n <= SPAN
    decreases SPAN - n
  {
    if n == SPAN then None
    else if Candidate(busy, n) !in reserved then Some(Candidate(busy, n))
    else FirstFree(busy, reserved, n + 1)
  }

  method AllocateFreePort(busy: int, cluster: Cluster, planned: seq<Planned>, extra: set<int>) returns (r: Option<int>)
    ensures r == FirstFree(busy, Reserved(cluster, planned, extra), 0)
  {
    var reserved := cluster.Keys + PortsOf(planned) + extra;
    var candidate := busy + 1;
    if candidate > NODEPORT_MAX { candidate := NODEPORT_MIN; }
    for n := 0 to SPAN
      invariant candidate == Candidate(busy, n)
      invariant FirstFree(busy, reserved, 0) == FirstFree(busy, reserved, n)
    {
      if candidate !in reserved { return Some(candidate); }
      candidate := candidate + 1;
      if candidate > NODEPORT_MAX { candidate := NODEPORT_MIN; }
    }
    return None;
  }

  lemma {:induction false} FirstFreeIsFirst(busy: int, reserved: set<int>, n: nat) returns (m: nat)
    requires n <= SPAN
    ensures n <= m <= SPAN
    ensures forall k: nat :: n <= k < m ==> Candidate(busy, k) in reserved
    ensures m < SPAN ==> FirstFree(busy, reserved, n) == Some(Candidate(busy, m)) && Candidate(busy, m) !in reserved
    ensures m == SPAN ==> FirstFree(busy, reserved, n) == None
    decreases SPAN - n
  {
    m := n;
    if n < SPAN && Candidate(busy, n) in reserved { m := FirstFreeIsFirst(busy, reserved, n + 1); }
  }

  /** Ports counted cyclically upwards from the one after `busy`. */
  function Cyclic(busy: int, n: int): int {
    var base := if busy >= NODEPORT_MAX then NODEPORT_MIN else busy + 1;
    if base + n <= NODEPORT_MAX then base + n else base + n - SPAN
  }

  /** The SPAN ports that are tried: the NodePort range, or the ports after `busy` when that lies further
      below it. */
  predicate InWindow(busy: int, p: int) {
    var lo := if busy >= NODEPORT_MIN - 1 then NODEPORT_MIN else busy + 1;
    lo <= p < lo + SPAN
  }

  lemma {:induction false} CandidateCyclic(busy: int, n: nat)
    requires n < SPAN
    ensures Candidate(busy, n) == Cyclic(busy, n) && InWindow(busy, Candidate(busy, n))
    decreases n
  {
    if n > 0 { CandidateCyclic(busy, n - 1); }
  }

  /** The candidates stay inside the NodePort range exactly when the search starts at its edge or above. */
  lemma CandidatesInRangeIff(busy: int)
    ensures (forall n: nat :: n < SPAN ==> InRange(Candidate(busy, n))) <==> busy >= NODEPORT_MIN - 1
  {
    if busy >= NODEPORT_MIN - 1 {
      forall n: nat | n < SPAN ensures InRange(Candidate(busy, n)) { CandidateCyclic(busy, n); }
    } else {
      assert Candidate(busy, 0) == busy + 1 && !InRange(Candidate(busy, 0));
    }
  }

  /** The allocator is a complete first-fit search of its window: it returns the first free port in cyclic
      order, and gives up only when the whole window is reserved. */
  lemma AllocatorComplete(busy: int, reserved: set<int>)
    ensures var r := FirstFree(busy, reserved, 0);
            && (r.Some? ==> InWindow(busy, r.value) && r.value !in reserved)
            && (r.Some? ==> forall p :: InWindow(busy, p) && p !in reserved ==>
                              CyclicDistance(busy, r.value) <= CyclicDistance(busy, p))
            && (r.None? <==> forall p :: InWindow(busy, p) ==> p in reserved)
    ensures busy >= NODEPORT_MIN - 1 ==> forall p :: InWindow(busy, p) <==> InRange(p)
  {
    var m := FirstFreeIsFirst(busy, reserved, 0);
    forall p | InWindow(busy, p)
      ensures 0 <= CyclicDistance(busy, p) < SPAN && Candidate(busy, CyclicDistance(busy, p)) == p
    {
      CandidateCyclic(busy, CyclicDistance(busy, p));
    }
    if m < SPAN { CandidateCyclic(busy, m); }
  }

  /** How many steps after `busy` the port p is tried. */
  function CyclicDistance(busy: int, p: int): int {
    var base := if busy >= NODEPORT_MAX then NODEPORT_MIN else busy + 1;
    if p >= base then p - base else p - base + SPAN
  }

  // ---- The operator's answers ----

  datatype Answer = Auto | Port(port: int) | Keep | Unclear

  /** A new port, the conflicting port kept, or an exhausted range. */
  datatype Choice = Chosen(port: int) | Declined | Exhausted

  function Final(remap: map<int, int>, port: int): int {
    if port in remap then remap[port] else port
  }

  function FirstWithPort(planned: seq<Planned>, port: int): Option<Planned> {
    if planned == [] then None
    else if planned[0].port == port then Some(planned[0])
    else FirstWithPort(planned[1..], port)
  }

  /** _validate_user_port accepts the typed port. */
  predicate ValidUserPort(port: int, busy: int, cluster: Cluster, planned: seq<Planned>, remap: map<int, int>,
                          jobId: string) {
    && InRange(port)
    && (port in cluster ==>
          var matching := FirstWithPort(planned, busy);
          matching.Some? && IsSelfOwned(matching.value.service, cluster[port], jobId))
    && port !in remap.Values
    && (forall item :: item in planned && item.port != busy ==> port != Final(remap, item.port))
  }

  /** One conflict's prompt over the remaining answers; no more input counts as keep. */
  function Prompt(item: Planned, cluster: Cluster, planned: seq<Planned>, remap: map<int, int>, jobId: string,
                  answers: seq<Answer>): (Choice, seq<Answer>)
    decreases |answers|
  {
    if answers == [] then (Declined, [])
    else
      match answers[0]
      case Keep => (Declined, answers[1..])
      case Auto =>
        (match FirstFree(item.port, Reserved(cluster, planned, remap.Values), 0)
         case Some(p) => (Chosen(p), answers[1..])
         case None => (Exhausted, answers[1..]))
      case Port(p) =>
        if ValidUserPort(p, item.port, cluster, planned, remap, jobId) then (Chosen(p), answers[1..])
        else Prompt(item, cluster, planned, remap, jobId, answers[1..])
      case Unclear => Prompt(item, cluster, planned, remap, jobId, answers[1..])
  }

  datatype Outcome = Resolved(remap: map<int, int>, declined: seq<Planned>) | NoFreePort

  function Resolve(conflicts: seq<Planned>, cluster: Cluster, planned: seq<Planned>, jobId: string,
                   answers: seq<Answer>, remap: map<int, int>, declined: seq<Planned>): Outcome
    decreases |conflicts|
  {
    if conflicts == [] then Resolved(remap, declined)
    else
      var (choice, rest) := Prompt(conflicts[0], cluster, planned, remap, jobId, answers);
      match choice
      case Exhausted => NoFreePort
      case Declined => Resolve(conflicts[1..], cluster, planned, jobId, rest, remap, declined + [conflicts[0]])
      case Chosen(p) => Resolve(conflicts[1..], cluster, planned, jobId, rest, remap[conflicts[0].port := p], declined)
  }
}
