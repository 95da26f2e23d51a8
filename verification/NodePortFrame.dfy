/** What collecting and rewriting do to single entries of the yaml files. */
module NodePortFrame {
  import opened NodePorts
  import opened NodePortFiles

  // ---- What is collected ----

  /** The entry asks for the NodePort p. */
  predicate Asks(e: PortEntry, p: int) {
    e.PortEntry? && e.nodePort == Number(p) && p != 0
  }

  lemma {:induction false} PortsCollectedIff(ports: seq<PortEntry>, service: ServiceRef, item: Planned)
    ensures item in CollectPorts(ports, service) <==>
            item.service == service && exists e :: e in ports && Asks(e, item.port)
    decreases |ports|
  {
    if ports != [] {
      assert ports[0] in ports && forall e :: e in ports <==> e == ports[0] || e in ports[1..];
      assert item == Planned(item.port, item.service);
      PortsCollectedIff(ports[1..], service, item);
    }
  }

  ghost predicate ServiceAsks(services: seq<ServiceSpec>, path: string, ns: string, set_: string, role: string,
                              item: Planned) {
    exists s, e :: s in services && e in s.ports && Asks(e, item.port) &&
                   item.service == ServiceRef(path, s.name, ns, set_, role)
  }

  lemma {:induction false} ServicesCollectedIff(services: seq<ServiceSpec>, path: string, ns: string, set_: string,
                                                role: string, item: Planned)
    ensures item in CollectServices(services, path, ns, set_, role) <==>
            ServiceAsks(services, path, ns, set_, role, item)
    decreases |services|
  {
    if services != [] {
      var first, rest := services[0], services[1..];
      assert services == [first] + rest;
      PortsCollectedIff(first.ports, ServiceRef(path, first.name, ns, set_, role), item);
      ServicesCollectedIff(rest, path, ns, set_, role, item);
      if ServiceAsks(services, path, ns, set_, role, item) {
        var s, e :| s in services && e in s.ports && Asks(e, item.port) &&
                    item.service == ServiceRef(path, s.name, ns, set_, role);
        if s != first { assert s in rest; }
      }
      if ServiceAsks(rest, path, ns, set_, role, item) {
        var s, e :| s in rest && e in s.ports && Asks(e, item.port) &&
                    item.service == ServiceRef(path, s.name, ns, set_, role);
        assert s in services;
      }
    }
  }

  ghost predicate RoleAsks(roles: seq<RoleSpec>, path: string, ns: string, set_: string, item: Planned) {
    exists r :: r in roles && ServiceAsks(r.services, path, ns, set_, Lower(r.name), item)
  }

  lemma {:induction false} RolesCollectedIff(roles: seq<RoleSpec>, path: string, ns: string, set_: string,
                                             item: Planned)
    ensures item in CollectRoles(roles, path, ns, set_) <==> RoleAsks(roles, path, ns, set_, item)
    decreases |roles|
  {
    if roles != [] {
      assert roles == [roles[0]] + roles[1..];
      ServicesCollectedIff(roles[0].services, path, ns, set_, Lower(roles[0].name), item);
      RolesCollectedIff(roles[1..], path, ns, set_, item);
    }
  }

  /** A Service document, or a service of a role of an InferServiceSet, asks for the port. */
  ghost predicate DocAsks(doc: Doc, path: string, item: Planned) {
    match doc
    case ServiceDoc(ns, spec) => ServiceAsks([spec], path, ns, [], [], item)
    case InferServiceSetDoc(ns, name, roles) => RoleAsks(roles, path, ns, name, item)
    case OtherDoc => false
  }

  lemma {:induction false} DocsCollectedIff(docs: seq<Doc>, path: string, item: Planned)
    ensures item in CollectDocs(docs, path) <==> exists d :: d in docs && DocAsks(d, path, item)
    decreases |docs|
  {
    if docs != [] {
      assert docs[0] in docs && forall d :: d in docs <==> d == docs[0] || d in docs[1..];
      match docs[0] {
        case ServiceDoc(ns, spec) => ServicesCollectedIff([spec], path, ns, [], [], item);
        case InferServiceSetDoc(ns, name, roles) => RolesCollectedIff(roles, path, ns, name, item);
        case OtherDoc =>
      }
      DocsCollectedIff(docs[1..], path, item);
    }
  }

  ghost predicate FileAsks(disk: Disk, path: string, item: Planned) {
    path in disk && disk[path].Docs? && exists d :: d in disk[path].docs && DocAsks(d, path, item)
  }

  /** The plan holds exactly the ports that some entry of a listed, readable file asks for, with the service,
      namespace, InferServiceSet and lower-case role that it belongs to. */
  lemma {:induction false} CollectedIff(disk: Disk, paths: seq<string>, item: Planned)
    ensures item in CollectFiles(disk, paths) <==> exists path :: path in paths && FileAsks(disk, path, item)
    decreases |paths|
  {
    if paths != [] {
      assert paths[0] in paths && forall p :: p in paths <==> p == paths[0] || p in paths[1..];
      if paths[0] in disk && disk[paths[0]].Docs? { DocsCollectedIff(disk[paths[0]].docs, paths[0], item); }
      CollectedIff(disk, paths[1..], item);
    }
  }

  // ---- What is rewritten ----

  /** The entry without its NodePort. */
  function Blank(e: PortEntry): PortEntry {
    if e.PortEntry? then e.(nodePort := Absent) else e
  }

  function BlankService(s: ServiceSpec): ServiceSpec {
    ServiceSpec(s.name, seq(|s.ports|, i requires 0 <= i < |s.ports| => Blank(s.ports[i])))
  }

  function BlankRole(r: RoleSpec): RoleSpec {
    RoleSpec(r.name, seq(|r.services|, i requires 0 <= i < |r.services| => BlankService(r.services[i])))
  }

  function BlankDoc(d: Doc): Doc {
    match d
    case ServiceDoc(ns, spec) => ServiceDoc(ns, BlankService(spec))
    case InferServiceSetDoc(ns, name, roles) =>
      InferServiceSetDoc(ns, name, seq(|roles|, i requires 0 <= i < |roles| => BlankRole(roles[i])))
    case OtherDoc => OtherDoc
  }

  function BlankFile(f: YamlFile): YamlFile {
    match f
    case Unreadable => Unreadable
    case Docs(docs) => Docs(seq(|docs|, i requires 0 <= i < |docs| => BlankDoc(docs[i])))
  }

  /** The NodePort fields of a document, in order. */
  function ServiceFields(s: ServiceSpec): (r: seq<NodePortField>)
    ensures |r| == |s.ports| && forall i :: 0 <= i < |r| ==> r[i] == Field(s.ports[i])
  {
    seq(|s.ports|, i requires 0 <= i < |s.ports| => Field(s.ports[i]))
  }

  function Field(e: PortEntry): NodePortField {
    if e.PortEntry? then e.nodePort else Absent
  }

  function ServicesFields(services: seq<ServiceSpec>): seq<NodePortField> {
    if services == [] then [] else ServiceFields(services[0]) + ServicesFields(services[1..])
  }

  function RolesFields(roles: seq<RoleSpec>): seq<NodePortField> {
    if roles == [] then [] else ServicesFields(roles[0].services) + RolesFields(roles[1..])
  }

  function DocFields(d: Doc): seq<NodePortField> {
    match d
    case ServiceDoc(_, spec) => ServiceFields(spec)
    case InferServiceSetDoc(_, _, roles) => RolesFields(roles)
    case OtherDoc => []
  }

  function DocsFields(docs: seq<Doc>): seq<NodePortField> {
    if docs == [] then [] else DocFields(docs[0]) + DocsFields(docs[1..])
  }

  function FileFields(f: YamlFile): seq<NodePortField> {
    match f case Unreadable => [] case Docs(docs) => DocsFields(docs)
  }

  /** Numbers are renamed n times, everything else stays. */
  function Moved(f: NodePortField, remap: map<int, int>, n: nat): NodePortField {
    match f case Number(p) => Number(Times(remap, n, p)) case _ => f
  }

  function MovedAll(fs: seq<NodePortField>, remap: map<int, int>, n: nat): (r: seq<NodePortField>)
    ensures |r| == |fs| && forall i :: 0 <= i < |fs| ==> r[i] == Moved(fs[i], remap, n)
  {
    seq(|fs|, i requires 0 <= i < |fs| => Moved(fs[i], remap, n))
  }

  lemma MovedConcat(a: seq<NodePortField>, b: seq<NodePortField>, remap: map<int, int>)
    ensures MovedAll(a + b, remap, 1) == MovedAll(a, remap, 1) + MovedAll(b, remap, 1)
  {
  }

  lemma EntryFrame(e: PortEntry, remap: map<int, int>)
    ensures Blank(RewriteEntry(e, remap)) == Blank(e)
    ensures Field(RewriteEntry(e, remap)) == Moved(Field(e), remap, 1)
  {
    assert forall p :: Times(remap, 1, p) == Times(remap, 0, Final(remap, p));
  }

  lemma ServiceFrame(s: ServiceSpec, remap: map<int, int>)
    ensures
      var t := s.(ports := RewritePorts(s.ports, remap));
      BlankService(t) == BlankService(s) && ServiceFields(t) == MovedAll(ServiceFields(s), remap, 1)
  {
    forall i | 0 <= i < |s.ports|
      ensures Blank(RewritePorts(s.ports, remap)[i]) == Blank(s.ports[i])
      ensures Field(RewritePorts(s.ports, remap)[i]) == Moved(Field(s.ports[i]), remap, 1)
    {
      EntryFrame(s.ports[i], remap);
    }
  }

  lemma {:induction false} ServicesFrame(services: seq<ServiceSpec>, remap: map<int, int>)
    ensures forall i :: 0 <= i < |services| ==>
              BlankService(RewriteServices(services, remap)[i]) == BlankService(services[i])
    ensures ServicesFields(RewriteServices(services, remap)) == MovedAll(ServicesFields(services), remap, 1)
    decreases |services|
  {
    forall i | 0 <= i < |services|
      ensures BlankService(RewriteServices(services, remap)[i]) == BlankService(services[i])
    {
      ServiceFrame(services[i], remap);
    }
    if services != [] {
      ServiceFrame(services[0], remap);
      ServicesFrame(services[1..], remap);
      assert RewriteServices(services, remap)[1..] == RewriteServices(services[1..], remap);
      MovedConcat(ServiceFields(services[0]), ServicesFields(services[1..]), remap);
    }
  }

  lemma RoleFrame(r: RoleSpec, remap: map<int, int>)
    ensures BlankRole(r.(services := RewriteServices(r.services, remap))) == BlankRole(r)
  {
    ServicesFrame(r.services, remap);
  }

  lemma {:induction false} RolesFrame(roles: seq<RoleSpec>, remap: map<int, int>)
    ensures forall i :: 0 <= i < |roles| ==> BlankRole(RewriteRoles(roles, remap)[i]) == BlankRole(roles[i])
    ensures RolesFields(RewriteRoles(roles, remap)) == MovedAll(RolesFields(roles), remap, 1)
    decreases |roles|
  {
    forall i | 0 <= i < |roles| ensures BlankRole(RewriteRoles(roles, remap)[i]) == BlankRole(roles[i]) {
      RoleFrame(roles[i], remap);
    }
    if roles != [] {
      ServicesFrame(roles[0].services, remap);
      RolesFrame(roles[1..], remap);
      assert RewriteRoles(roles, remap)[1..] == RewriteRoles(roles[1..], remap);
      MovedConcat(ServicesFields(roles[0].services), RolesFields(roles[1..]), remap);
    }
  }

  lemma DocFrame(d: Doc, remap: map<int, int>)
    ensures BlankDoc(RewriteDoc(d, remap)) == BlankDoc(d)
    ensures DocFields(RewriteDoc(d, remap)) == MovedAll(DocFields(d), remap, 1)
  {
    match d
    case ServiceDoc(_, spec) => ServiceFrame(spec, remap);
    case InferServiceSetDoc(_, _, roles) => RolesFrame(roles, remap);
    case OtherDoc =>
  }

  lemma {:induction false} DocsFrame(docs: seq<Doc>, remap: map<int, int>)
    ensures forall i :: 0 <= i < |docs| ==> BlankDoc(RewriteDocs(docs, remap)[i]) == BlankDoc(docs[i])
    ensures DocsFields(RewriteDocs(docs, remap)) == MovedAll(DocsFields(docs), remap, 1)
    decreases |docs|
  {
    forall i | 0 <= i < |docs| ensures BlankDoc(RewriteDocs(docs, remap)[i]) == BlankDoc(docs[i]) {
      DocFrame(docs[i], remap);
    }
    if docs != [] {
      DocFrame(docs[0], remap);
      DocsFrame(docs[1..], remap);
      assert RewriteDocs(docs, remap)[1..] == RewriteDocs(docs[1..], remap);
      MovedConcat(DocFields(docs[0]), DocsFields(docs[1..]), remap);
    }
  }

  lemma OnceMore(fs: seq<NodePortField>, remap: map<int, int>, n: nat)
    ensures MovedAll(MovedAll(fs, remap, 1), remap, n) == MovedAll(fs, remap, n + 1)
  {
    forall i | 0 <= i < |fs| ensures Moved(Moved(fs[i], remap, 1), remap, n) == Moved(fs[i], remap, n + 1) {
      if fs[i].Number? {
        assert Times(remap, 1, fs[i].n) == Times(remap, 0, Final(remap, fs[i].n));
      }
    }
  }

  /** One file of the disk after the rewrite of a list of files. */
  ghost predicate FileMoved(before: YamlFile, after: YamlFile, remap: map<int, int>, n: nat) {
    BlankFile(after) == BlankFile(before) && FileFields(after) == MovedAll(FileFields(before), remap, n)
  }

  lemma FileFrame(disk: Disk, path: string, remap: map<int, int>)
    ensures
      var after := RewriteFile(disk, path, remap);
      && after.Keys == disk.Keys && (forall other :: other in disk && other != path ==> after[other] == disk[other])
      && (path in disk ==> FileMoved(disk[path], after[path], remap, 1))
  {
    if path in disk && disk[path].Docs? {
      DocsFrame(disk[path].docs, remap);
    }
  }

  lemma FileMovedAgain(a: YamlFile, b: YamlFile, c: YamlFile, remap: map<int, int>, n: nat)
    requires FileMoved(a, b, remap, 1) && FileMoved(b, c, remap, n)
    ensures FileMoved(a, c, remap, n + 1)
  {
    OnceMore(FileFields(a), remap, n);
  }

  lemma Unmoved(f: YamlFile, remap: map<int, int>)
    ensures FileMoved(f, f, remap, 0)
  {
    assert MovedAll(FileFields(f), remap, 0) == FileFields(f);
  }

  /** For every list of files: no file appears or disappears, a file that is not listed is the same, and a
      listed one differs in its numeric NodePorts only, each renamed as often as the file is listed. */
  lemma {:induction false} RewriteFrame(disk: Disk, paths: seq<string>, remap: map<int, int>, path: string)
    ensures RewriteFiles(disk, paths, remap).Keys == disk.Keys
    ensures path in disk && path !in paths ==> RewriteFiles(disk, paths, remap)[path] == disk[path]
    ensures path in disk ==>
              FileMoved(disk[path], RewriteFiles(disk, paths, remap)[path], remap, Listings(paths, path))
    decreases |paths|
  {
    if paths == [] {
      if path in disk { Unmoved(disk[path], remap); }
    } else {
      var next := RewriteFile(disk, paths[0], remap);
      FileFrame(disk, paths[0], remap);
      RewriteFrame(next, paths[1..], remap, path);
      if path in disk && path == paths[0] {
        var last := RewriteFiles(disk, paths, remap)[path];
        FileMovedAgain(disk[path], next[path], last, remap, Listings(paths[1..], path));
      }
    }
  }
}
