/** Collecting planned NodePorts from generated yaml and rewriting them in place. */
module NodePortFiles {
  import opened Options
  import opened NodePorts
  import opened NodePortPlan

  /** The nodePort field of a port entry; numeric strings count as numbers. */
  datatype NodePortField = Absent | NotANumber | Number(n: int)

  datatype PortEntry = NotAMapping | PortEntry(nodePort: NodePortField, containerPort: int)

  datatype ServiceSpec = ServiceSpec(name: string, ports: seq<PortEntry>)

  datatype RoleSpec = RoleSpec(name: string, services: seq<ServiceSpec>)

  datatype Doc =
    | ServiceDoc(namespace: string, spec: ServiceSpec)
    | InferServiceSetDoc(namespace: string, name: string, roles: seq<RoleSpec>)
    | OtherDoc

  datatype YamlFile = Unreadable | Docs(docs: seq<Doc>)

  type Disk = map<string, YamlFile>

  // ---- Collection ----

  function CollectPorts(ports: seq<PortEntry>, service: ServiceRef): seq<Planned> {
    if ports == [] then []
    else
      (if ports[0].PortEntry? && ports[0].nodePort.Number? && ports[0].nodePort.n != 0
       then [Planned(ports[0].nodePort.n, service)] else [])
      + CollectPorts(ports[1..], service)
  }

  function CollectServices(services: seq<ServiceSpec>, path: string, ns: string, set_: string,
                           role: string): seq<Planned> {
    if services == [] then []
    else CollectPorts(services[0].ports, ServiceRef(path, services[0].name, ns, set_, role))
         + CollectServices(services[1..], path, ns, set_, role)
  }

  function CollectRoles(roles: seq<RoleSpec>, path: string, ns: string, set_: string): seq<Planned> {
    if roles == [] then []
    else CollectServices(roles[0].services, path, ns, set_, Lower(roles[0].name)) +
         CollectRoles(roles[1..], path, ns, set_)
  }

  function CollectDoc(doc: Doc, path: string): seq<Planned> {
    match doc
    case ServiceDoc(ns, spec) => CollectServices([spec], path, ns, [], [])
    case InferServiceSetDoc(ns, name, roles) => CollectRoles(roles, path, ns, name)
    case OtherDoc => []
  }

  function CollectDocs(docs: seq<Doc>, path: string): seq<Planned> {
    if docs == [] then [] else CollectDoc(docs[0], path) + CollectDocs(docs[1..], path)
  }

  function CollectFile(disk: Disk, path: string): seq<Planned> {
    if path in disk && disk[path].Docs? then CollectDocs(disk[path].docs, path) else []
  }

  /** collect_planned_nodeports over a file list. */
  function CollectFiles(disk: Disk, paths: seq<string>): seq<Planned> {
    if paths == [] then [] else CollectFile(disk, paths[0]) + CollectFiles(disk, paths[1..])
  }

  // ---- Rewriting ----

  function RewriteEntry(e: PortEntry, remap: map<int, int>): PortEntry {
    if e.PortEntry? && e.nodePort.Number? && e.nodePort.n in remap then e.(nodePort := Number(remap[e.nodePort.n]))
    else e
  }

  function RewritePorts(ports: seq<PortEntry>, remap: map<int, int>): (r: seq<PortEntry>)
    ensures |r| == |ports| && forall i :: 0 <= i < |ports| ==> r[i] == RewriteEntry(ports[i], remap)
  {
    seq(|ports|, i requires 0 <= i < |ports| => RewriteEntry(ports[i], remap))
  }

  function RewriteServices(services: seq<ServiceSpec>, remap: map<int, int>): (r: seq<ServiceSpec>)
    ensures |r| == |services|
    ensures forall i :: 0 <= i < |services| ==> r[i] == services[i].(ports := RewritePorts(services[i].ports, remap))
  {
    seq(|services|, i requires 0 <= i < |services| => services[i].(ports := RewritePorts(services[i].ports, remap)))
  }

  function RewriteRoles(roles: seq<RoleSpec>, remap: map<int, int>): (r: seq<RoleSpec>)
    ensures |r| == |roles|
    ensures forall i :: 0 <= i < |roles| ==> r[i] == roles[i].(services := RewriteServices(roles[i].services, remap))
  {
    seq(|roles|, i requires 0 <= i < |roles| => roles[i].(services := RewriteServices(roles[i].services, remap)))
  }

  function RewriteDoc(doc: Doc, remap: map<int, int>): Doc {
    match doc
    case ServiceDoc(_, spec) => doc.(spec := spec.(ports := RewritePorts(spec.ports, remap)))
    case InferServiceSetDoc(_, _, roles) => doc.(roles := RewriteRoles(roles, remap))
    case OtherDoc => doc
  }

  function RewriteDocs(docs: seq<Doc>, remap: map<int, int>): (r: seq<Doc>)
    ensures |r| == |docs| && forall i :: 0 <= i < |docs| ==> r[i] == RewriteDoc(docs[i], remap)
  {
    seq(|docs|, i requires 0 <= i < |docs| => RewriteDoc(docs[i], remap))
  }

  function RewriteFile(disk: Disk, path: string, remap: map<int, int>): Disk {
    if path in disk && disk[path].Docs? then disk[path := Docs(RewriteDocs(disk[path].docs, remap))] else disk
  }

  function RewriteFiles(disk: Disk, paths: seq<string>, remap: map<int, int>): Disk
    decreases |paths|
  {
    if paths == [] then disk else RewriteFiles(RewriteFile(disk, paths[0], remap), paths[1..], remap)
  }

  // ---- Collecting after rewriting ----

  /** Port 0 is the absent port: it is neither renamed nor a new name. */
  ghost predicate NoZero(remap: map<int, int>) {
    0 !in remap && forall k :: k in remap ==> remap[k] != 0
  }

  lemma RenamedConcat(a: seq<Planned>, b: seq<Planned>, remap: map<int, int>)
    ensures Renamed(a + b, remap) == Renamed(a, remap) + Renamed(b, remap)
  {
  }

  lemma {:induction false} PortsRenamed(ports: seq<PortEntry>, service: ServiceRef, remap: map<int, int>)
    requires NoZero(remap)
    ensures CollectPorts(RewritePorts(ports, remap), service) == Renamed(CollectPorts(ports, service), remap)
    decreases |ports|
  {
    if ports != [] {
      assert RewritePorts(ports, remap)[1..] == RewritePorts(ports[1..], remap);
      PortsRenamed(ports[1..], service, remap);
      var e := ports[0];
      if e.PortEntry? && e.nodePort.Number? && e.nodePort.n != 0 {
        RenamedConcat([Planned(e.nodePort.n, service)], CollectPorts(ports[1..], service), remap);
        assert Renamed([Planned(e.nodePort.n, service)], remap) == [Planned(Final(remap, e.nodePort.n), service)];
      } else {
        RenamedConcat([], CollectPorts(ports[1..], service), remap);
        assert CollectPorts(ports, service) == [] + CollectPorts(ports[1..], service);
      }
    }
  }

  lemma {:induction false} ServicesRenamed(services: seq<ServiceSpec>, path: string, ns: string, set_: string,
                                           role: string, remap: map<int, int>)
    requires NoZero(remap)
    ensures CollectServices(RewriteServices(services, remap), path, ns, set_, role) ==
            Renamed(CollectServices(services, path, ns, set_, role), remap)
    decreases |services|
  {
    if services != [] {
      assert RewriteServices(services, remap)[1..] == RewriteServices(services[1..], remap);
      ServicesRenamed(services[1..], path, ns, set_, role, remap);
      var ref := ServiceRef(path, services[0].name, ns, set_, role);
      PortsRenamed(services[0].ports, ref, remap);
      RenamedConcat(CollectPorts(services[0].ports, ref), CollectServices(services[1..], path, ns, set_, role), remap);
    }
  }

  lemma {:induction false} RolesRenamed(roles: seq<RoleSpec>, path: string, ns: string, set_: string,
                                        remap: map<int, int>)
    requires NoZero(remap)
    ensures CollectRoles(RewriteRoles(roles, remap), path, ns, set_) ==
            Renamed(CollectRoles(roles, path, ns, set_), remap)
    decreases |roles|
  {
    if roles != [] {
      assert RewriteRoles(roles, remap)[1..] == RewriteRoles(roles[1..], remap);
      RolesRenamed(roles[1..], path, ns, set_, remap);
      ServicesRenamed(roles[0].services, path, ns, set_, Lower(roles[0].name), remap);
      RenamedConcat(CollectServices(roles[0].services, path, ns, set_, Lower(roles[0].name)),
                    CollectRoles(roles[1..], path, ns, set_), remap);
    }
  }

  lemma DocRenamed(doc: Doc, path: string, remap: map<int, int>)
    requires NoZero(remap)
    ensures CollectDoc(RewriteDoc(doc, remap), path) == Renamed(CollectDoc(doc, path), remap)
  {
    match doc
    case ServiceDoc(ns, spec) =>
      ServicesRenamed([spec], path, ns, [], [], remap);
      assert RewriteServices([spec], remap) == [spec.(ports := RewritePorts(spec.ports, remap))];
    case InferServiceSetDoc(ns, name, roles) => RolesRenamed(roles, path, ns, name, remap);
    case OtherDoc =>
  }

  lemma {:induction false} DocsRenamed(docs: seq<Doc>, path: string, remap: map<int, int>)
    requires NoZero(remap)
    ensures CollectDocs(RewriteDocs(docs, remap), path) == Renamed(CollectDocs(docs, path), remap)
    decreases |docs|
  {
    if docs != [] {
      assert RewriteDocs(docs, remap)[1..] == RewriteDocs(docs[1..], remap);
      DocRenamed(docs[0], path, remap);
      DocsRenamed(docs[1..], path, remap);
      RenamedConcat(CollectDoc(docs[0], path), CollectDocs(docs[1..], path), remap);
    }
  }

  lemma FileRenamed(disk: Disk, path: string, remap: map<int, int>)
    requires NoZero(remap)
    ensures CollectFile(RewriteFile(disk, path, remap), path) == Renamed(CollectFile(disk, path), remap)
  {
    if path in disk && disk[path].Docs? { DocsRenamed(disk[path].docs, path, remap); }
  }

  // ---- Any list of files, repeats included ----

  /** A port renamed n times in a row. */
  function Times(remap: map<int, int>, n: nat, port: int): int {
    if n == 0 then port else Times(remap, n - 1, Final(remap, port))
  }

  function RenamedTimes(planned: seq<Planned>, remap: map<int, int>, n: nat): (r: seq<Planned>)
    ensures |r| == |planned|
    ensures forall i :: 0 <= i < |planned| ==> r[i] == planned[i].(port := Times(remap, n, planned[i].port))
  {
    seq(|planned|, i requires 0 <= i < |planned| => planned[i].(port := Times(remap, n, planned[i].port)))
  }

  function Listings(paths: seq<string>, path: string): nat {
    if paths == [] then 0 else (if paths[0] == path then 1 else 0) + Listings(paths[1..], path)
  }

  lemma RenamedOnceMore(planned: seq<Planned>, remap: map<int, int>, n: nat)
    ensures RenamedTimes(Renamed(planned, remap), remap, n) == RenamedTimes(planned, remap, n + 1)
  {
  }

  /** A file is renamed as often as it is listed. */
  lemma {:induction false} FileAfter(disk: Disk, paths: seq<string>, remap: map<int, int>, path: string)
    requires NoZero(remap)
    ensures CollectFile(RewriteFiles(disk, paths, remap), path) ==
            RenamedTimes(CollectFile(disk, path), remap, Listings(paths, path))
    decreases |paths|
  {
    if paths == [] {
      assert RenamedTimes(CollectFile(disk, path), remap, 0) == CollectFile(disk, path);
    } else {
      var disk1 := RewriteFile(disk, paths[0], remap);
      FileAfter(disk1, paths[1..], remap, path);
      if paths[0] == path {
        FileRenamed(disk, path, remap);
        RenamedOnceMore(CollectFile(disk, path), remap, Listings(paths[1..], path));
      }
    }
  }

  ghost predicate SettlesIn(planned: seq<Planned>, remap: map<int, int>, n: nat) {
    forall item :: item in planned ==> Times(remap, n, item.port) == Final(remap, item.port)
  }

  /** For every listed file, as many renamings as it is listed come to the same as one. */
  ghost predicate Settles(disk: Disk, paths: seq<string>, remap: map<int, int>) {
    forall path :: path in paths ==> SettlesIn(CollectFile(disk, path), remap, Listings(paths, path))
  }

  lemma SettlesInIff(planned: seq<Planned>, remap: map<int, int>, n: nat)
    ensures RenamedTimes(planned, remap, n) == Renamed(planned, remap) <==> SettlesIn(planned, remap, n)
  {
    var a, b := RenamedTimes(planned, remap, n), Renamed(planned, remap);
    if a == b {
      forall item | item in planned ensures Times(remap, n, item.port) == Final(remap, item.port) {
        var i :| 0 <= i < |planned| && planned[i] == item;
        assert a[i].port == b[i].port;
      }
    } else {
      var i :| 0 <= i < |a| && a[i] != b[i];
      assert planned[i] in planned;
    }
  }

  lemma ConcatIff<T>(a: seq<T>, b: seq<T>, c: seq<T>, d: seq<T>)
    requires |a| == |c|
    ensures a + b == c + d <==> a == c && b == d
  {
    if a + b == c + d {
      assert a == (a + b)[..|a|] && c == (c + d)[..|c|];
      assert b == (a + b)[|a|..] && d == (c + d)[|c|..];
    }
  }

  /** The same file by file. */
  ghost predicate SettlesAll(disk: Disk, paths: seq<string>, part: seq<string>, remap: map<int, int>) {
    part == [] ||
    (SettlesIn(CollectFile(disk, part[0]), remap, Listings(paths, part[0])) &&
     SettlesAll(disk, paths, part[1..], remap))
  }

  lemma {:induction false} SettlesAllIff(disk: Disk, paths: seq<string>, part: seq<string>, remap: map<int, int>)
    ensures SettlesAll(disk, paths, part, remap) <==>
            forall path :: path in part ==> SettlesIn(CollectFile(disk, path), remap, Listings(paths, path))
  {
    if part != [] {
      SettlesAllIff(disk, paths, part[1..], remap);
      assert part == [part[0]] + part[1..];
    }
  }

  lemma {:induction false} CollectAfterIff(disk: Disk, paths: seq<string>, part: seq<string>, remap: map<int, int>)
    requires NoZero(remap)
    ensures CollectFiles(RewriteFiles(disk, paths, remap), part) == Renamed(CollectFiles(disk, part), remap) <==>
            SettlesAll(disk, paths, part, remap)
    decreases |part|
  {
    if part != [] {
      CollectAfterIff(disk, paths, part[1..], remap);
      FirstFileIff(disk, paths, part, remap);
    }
  }

  lemma FirstFileIff(disk: Disk, paths: seq<string>, part: seq<string>, remap: map<int, int>)
    requires NoZero(remap) && part != []
    ensures
      var path, rest, after := part[0], part[1..], RewriteFiles(disk, paths, remap);
      CollectFiles(after, part) == Renamed(CollectFiles(disk, part), remap) <==>
      SettlesIn(CollectFile(disk, path), remap, Listings(paths, path)) &&
      CollectFiles(after, rest) == Renamed(CollectFiles(disk, rest), remap)
  {
    var path, rest, after := part[0], part[1..], RewriteFiles(disk, paths, remap);
    FileAfter(disk, paths, remap, path);
    SettlesInIff(CollectFile(disk, path), remap, Listings(paths, path));
    RenamedConcat(CollectFile(disk, path), CollectFiles(disk, rest), remap);
    ConcatIff(CollectFile(after, path), CollectFiles(after, rest),
              Renamed(CollectFile(disk, path), remap), Renamed(CollectFiles(disk, rest), remap));
  }

  /** For every list of files: collecting after the rewrite sees every port renamed once and simultaneously
      if and only if renaming the ports of a file as often as it is listed comes to the same as once. */
  lemma CollectSeesRenamingIff(disk: Disk, paths: seq<string>, remap: map<int, int>)
    requires NoZero(remap)
    ensures CollectFiles(RewriteFiles(disk, paths, remap), paths) == Renamed(CollectFiles(disk, paths), remap) <==>
            Settles(disk, paths, remap)
  {
    CollectAfterIff(disk, paths, paths, remap);
    SettlesAllIff(disk, paths, paths, remap);
  }

  ghost predicate DistinctPaths(paths: seq<string>) {
    forall i, j :: 0 <= i < j < |paths| ==> paths[i] != paths[j]
  }

  lemma {:induction false} ListedOnce(paths: seq<string>, path: string)
    requires DistinctPaths(paths)
    ensures Listings(paths, path) == if path in paths then 1 else 0
  {
    if paths != [] {
      ListedOnce(paths[1..], path);
      assert paths == [paths[0]] + paths[1..];
    }
  }

  /** In particular when no file is listed twice. */
  lemma CollectSeesRenaming(disk: Disk, paths: seq<string>, remap: map<int, int>)
    requires NoZero(remap) && DistinctPaths(paths)
    ensures CollectFiles(RewriteFiles(disk, paths, remap), paths) == Renamed(CollectFiles(disk, paths), remap)
  {
    forall path | path in paths ensures SettlesIn(CollectFile(disk, path), remap, Listings(paths, path)) {
      ListedOnce(paths, path);
    }
    CollectSeesRenamingIff(disk, paths, remap);
  }

  /** A file listed twice, with services s1 on 30001 and s2 on 30002 while the cluster has s2 on 30001 and a
      stranger on 30002. Moving s1 to 30005 lets s2 return to 30001, and the second pass over the file moves
      it on to 30005. */
  lemma ChainedRenaming(path: string, s1: ServiceRef, s2: ServiceRef, jobId: string, mine: Owner, stranger: Owner)
    requires s1.file == path && s2.file == path && s1.namespace == s2.namespace == jobId
    requires s1.inferSet == s2.inferSet == [] && s1.role == s2.role == [] && s1.name != s2.name
    requires mine == Owner(jobId, s2.name) && stranger.namespace != jobId && jobId != []
    ensures
      var file := Docs([ServiceDoc(jobId, ServiceSpec(s1.name, [PortEntry(Number(30001), 0)])),
                        ServiceDoc(jobId, ServiceSpec(s2.name, [PortEntry(Number(30002), 0)]))]);
      var disk, cluster := map[path := file], map[30001 := mine, 30002 := stranger];
      var planned := CollectFiles(disk, [path, path]);
      var conflicts := [Planned(30001, s1), Planned(30002, s2)];
      var remap := map[30001 := 30005, 30002 := 30001];
      && planned == conflicts + conflicts
      && ConflictsFrom(planned, cluster, jobId, {}) == conflicts
      && Resolve(conflicts, cluster, planned, jobId, [Port(30005), Port(30001)], map[], []) == Resolved(remap, [])
      && !Settles(disk, [path, path], remap)
  {
    var d1 := ServiceDoc(jobId, ServiceSpec(s1.name, [PortEntry(Number(30001), 0)]));
    var d2 := ServiceDoc(jobId, ServiceSpec(s2.name, [PortEntry(Number(30002), 0)]));
    var disk, cluster := map[path := Docs([d1, d2])], map[30001 := mine, 30002 := stranger];
    var i1, i2 := Planned(30001, s1), Planned(30002, s2);
    OneService(s1, path, jobId, 30001);
    OneService(s2, path, jobId, 30002);
    assert [d1, d2][1..] == [d2] && [d2][1..] == [] && [path][1..] == [];
    assert CollectDocs([d2], path) == [i2] + [] == [i2];
    assert CollectDocs([d1, d2], path) == [i1] + [i2] == [i1, i2];
    assert CollectFiles(disk, [path]) == [i1, i2] + [] == [i1, i2];
    assert CollectFiles(disk, [path, path]) == [i1, i2] + [i1, i2] by { assert [path, path][1..] == [path]; }
    TwoConflicts(i1, i2, cluster, jobId, [i1, i2] + [i1, i2]);
    var remap := map[30001 := 30005, 30002 := 30001];
    assert [path, path][1..] == [path] && Listings([], path) == 0 && Listings([path], path) == 1;
    assert Listings([path, path], path) == 2;
    assert i2 in CollectFile(disk, path);
    assert Times(remap, 2, 30002) == Times(remap, 1, 30001) == Times(remap, 0, 30005) == 30005;
  }

  lemma OneService(s: ServiceRef, path: string, jobId: string, port: int)
    requires s == ServiceRef(path, s.name, jobId, [], []) && port != 0
    ensures CollectDoc(ServiceDoc(jobId, ServiceSpec(s.name, [PortEntry(Number(port), 0)])), path) == [Planned(port, s)]
  {
    var ports, spec := [PortEntry(Number(port), 0)], ServiceSpec(s.name, [PortEntry(Number(port), 0)]);
    assert ports[1..] == [] && [spec][1..] == [];
    assert CollectPorts(ports, s) == [Planned(port, s)] + [] == [Planned(port, s)];
    assert CollectServices([spec], path, jobId, [], []) == [Planned(port, s)] + [];
  }

  lemma TwoConflicts(i1: Planned, i2: Planned, cluster: Cluster, jobId: string, planned: seq<Planned>)
    requires planned == [i1, i2] + [i1, i2]
    requires i1.port == 30001 && i2.port == 30002 && i1.service.name != i2.service.name
    requires i1.service.namespace == i2.service.namespace == jobId && jobId != []
    requires i1.service.inferSet == [] && i2.service.inferSet == []
    requires cluster.Keys == {30001, 30002} && cluster[30001] == Owner(jobId, i2.service.name)
    requires cluster[30002].namespace != jobId
    ensures ConflictsFrom(planned, cluster, jobId, {}) == [i1, i2]
    ensures Resolve([i1, i2], cluster, planned, jobId, [Port(30005), Port(30001)], map[], []) ==
            Resolved(map[30001 := 30005, 30002 := 30001], [])
  {
    FirstConflicts(i1, i2, cluster, jobId);
    var both := [i1, i2];
    assert both[1..] == [i2] && [i2][1..] == [];
    assert planned[0] == i1 && planned[1..] == [i2, i1, i2] && planned[1..][0] == i2;
    var a: seq<Answer> := [Port(30005), Port(30001)];
    assert a[1..] == [Port(30001)] && [Port(30001)][1..] == [];
    assert forall x :: x in planned ==> x == i1 || x == i2;
    assert Prompt(i1, cluster, planned, map[], jobId, a) == (Chosen(30005), a[1..]);
    var m := map[30001 := 30005];
    assert forall k :: k in m ==> m[k] == 30005;
    assert FirstWithPort(planned, 30002) == Some(i2);
    assert ValidUserPort(30001, 30002, cluster, planned, m, jobId);
    assert Prompt(i2, cluster, planned, m, jobId, a[1..]) == (Chosen(30001), []);
    var n := map[30001 := 30005, 30002 := 30001];
    assert m[30002 := 30001] == n;
    assert Resolve([i2], cluster, planned, jobId, a[1..], m, []) == Resolve([], cluster, planned, jobId, [], n, []);
  }

  lemma FirstConflicts(i1: Planned, i2: Planned, cluster: Cluster, jobId: string)
    requires i1.port == 30001 && i2.port == 30002 && i1.service.name != i2.service.name
    requires i1.service.namespace == i2.service.namespace == jobId && jobId != []
    requires i1.service.inferSet == [] && i2.service.inferSet == []
    requires cluster.Keys == {30001, 30002} && cluster[30001] == Owner(jobId, i2.service.name)
    requires cluster[30002].namespace != jobId
    ensures ConflictsFrom([i1, i2] + [i1, i2], cluster, jobId, {}) == [i1, i2]
  {
    var four := [i1, i2] + [i1, i2];
    assert four[0] == i1 && four[1..] == [i2, i1, i2] && [i2, i1, i2][1..] == [i1, i2];
    assert [i1, i2][1..] == [i2] && [i2][1..] == [];
    var none, seen: set<int> := {}, {30001, 30002};
    assert none + {30001} == {30001} && {30001} + {30002} == seen;
    assert ConflictsFrom([i2], cluster, jobId, seen) == [];
    assert ConflictsFrom([i1, i2], cluster, jobId, seen) == [];
    assert ConflictsFrom([i2, i1, i2], cluster, jobId, {30001}) == [i2] + [] == [i2];
    assert [i1] + [i2] == [i1, i2];
  }

  lemma {:induction false} NothingRenamed(disk: Disk, paths: seq<string>)
    ensures CollectFiles(RewriteFiles(disk, paths, map[]), paths) == CollectFiles(disk, paths)
  {
    forall path | path in paths ensures SettlesIn(CollectFile(disk, path), map[], Listings(paths, path)) {
      forall port: int ensures Times(map[], Listings(paths, path), port) == port {
        NoTimes(Listings(paths, path), port);
      }
    }
    CollectSeesRenamingIff(disk, paths, map[]);
    assert Renamed(CollectFiles(disk, paths), map[]) == CollectFiles(disk, paths);
  }

  lemma {:induction false} NoTimes(n: nat, port: int)
    ensures Times(map[], n, port) == port
  {
    if n > 0 { NoTimes(n - 1, port); }
  }

  // ---- The whole command ----

  /** resolve_and_rewrite_nodeports over the files of a generated deployment. */
  class Workspace {
    var disk: Disk

    method RewriteNodePorts(paths: seq<string>, remap: map<int, int>)
      modifies this
      ensures disk == RewriteFiles(old(disk), paths, remap)
    {
      for n := 0 to |paths|
        invariant RewriteFiles(old(disk), paths, remap) == RewriteFiles(disk, paths[n..], remap)
      {
        assert paths[n..][0] == paths[n] && paths[n..][1..] == paths[n + 1..];
        if paths[n] in disk && disk[paths[n]].Docs? {
          disk := disk[paths[n] := Docs(RewriteDocs(disk[paths[n]].docs, remap))];
        }
      }
    }

    /** After the command, collecting the files again yields the renamed plan if and only if repeated files
        settle, and checking that again finds exactly the declined conflicts if and only if no new port is
        foreign to a service that shares the renamed one. */
    method ResolveAndRewrite(paths: seq<string>, cluster: Cluster, jobId: string, answers: seq<Answer>)
      returns (r: Outcome)
      requires forall p :: p in cluster ==> p >= 1
      modifies this
      ensures r == old(Resolve(ConflictsFrom(CollectFiles(disk, paths), cluster, jobId, {}), cluster,
                               CollectFiles(disk, paths), jobId, answers, map[], []))
      ensures r.NoFreePort? || r.remap == map[] ==> disk == old(disk)
      ensures r.Resolved? && r.remap != map[] ==> disk == RewriteFiles(old(disk), paths, r.remap)
      ensures r.Resolved? ==>
                var before, after := old(CollectFiles(disk, paths)), CollectFiles(disk, paths);
                && Sound(before, r.remap, cluster, jobId)
                && (after == Renamed(before, r.remap) <==> old(Settles(disk, paths, r.remap)))
                && (after == Renamed(before, r.remap) ==>
                      (ConflictsFrom(after, cluster, jobId, {}) == r.declined <==>
                       NoForeignTarget(before, r.remap, cluster, jobId)))
    {
      var planned := CollectFiles(disk, paths);
      var pairs := FindConflicts(planned, cluster, jobId);
      var conflicts := seq(|pairs|, i requires 0 <= i < |pairs| => pairs[i].0);
      assert conflicts == ConflictsFrom(planned, cluster, jobId, {});
      r := ResolveConflicts(conflicts, cluster, planned, jobId, answers);
      AnswersKeepPlanSound(planned, cluster, jobId, answers);
      if r.Resolved? {
        ConflictsDistinct(planned, cluster, jobId, {});
        assert NoZero(r.remap);
        CollectSeesRenamingIff(disk, paths, r.remap);
        RecheckFindsDeclinedIff(planned, r.remap, cluster, jobId);
        if r.remap != map[] {
          RewriteNodePorts(paths, r.remap);
        } else {
          assert Renamed(planned, map[]) == planned;
          NothingRenamed(disk, paths);
        }
      }
    }
  }
}
