/** From a service to its clusters: one for each port that can be named and that no rule
    suppresses. */
module Services {
  import opened Naming
  import opened Options
  import opened Overrides
  import opened Slices
  import opened Text

  datatype Service = Service(namespace: string, name: string, ports: seq<ServicePort>)

  /** What the operator configures for clusters. */
  datatype Settings = Settings(base: Cluster, rules: seq<Rule>)

  /** A message without locality reads as one with an empty locality. */
  const NOWHERE := Locality("", "", "")

  function SingleTarget(cluster: string, hostname: string, port: Int32, protocol: EnvoyProtocol): Assignment {
    Assignment(cluster, [Group(NOWHERE, [LbEndpoint(hostname, PortValue(port), protocol, UNKNOWN)])])
  }

  function HostName(svc: Service): string {
    svc.name + "." + svc.namespace + ".svc.cluster.local."
  }

  predicate IsEDS(c: Cluster) {
    c.discovery == Some(Type(EDS))
  }

  /** A cluster that does not get its endpoints by EDS gets the service's address. */
  function Finish(svc: Service, port: ServicePort, protocol: EnvoyProtocol, c: Cluster): Cluster {
    if IsEDS(c) then c else
    c.(discovery := Some(c.discovery.Or(Type(STRICT_DNS))),
       load := Some(SingleTarget(c.name, HostName(svc), port.number, protocol)))
  }

  function NameOf(svc: Service, port: ServicePort): ClusterName {
    NameCluster(svc.namespace, svc.name, port.name, port.number, port.protocol)
  }

  function FromPort(cfg: Settings, svc: Service, port: ServicePort): Option<Cluster> {
    var named := NameOf(svc, port);
    if named.name == "" then None else
    var c := Fold(cfg.rules, cfg.base.(name := named.name), Some(port));
    if c.None? then None else Some(Finish(svc, port, named.protocol, c.value))
  }

  function FromPorts(cfg: Settings, svc: Service, ports: seq<ServicePort>): seq<Cluster> {
    if ports == [] then [] else
    var n := |ports| - 1;
    var c := FromPort(cfg, svc, ports[n]);
    FromPorts(cfg, svc, ports[..n]) + if c.Some? then [c.value] else []
  }

  /** ClustersFromService; None stands for a nil service. */
  function FromService(cfg: Settings, svc: Option<Service>): seq<Cluster> {
    if svc.None? then [] else FromPorts(cfg, svc.value, svc.value.ports)
  }

  function NamesIn(cs: seq<Cluster>): set<string> {
    set c | c in cs :: c.name
  }

  lemma {:induction false} FromPortsOf(cfg: Settings, svc: Service, ports: seq<ServicePort>)
    ensures forall c :: c in FromPorts(cfg, svc, ports) <==> exists p :: p in ports && FromPort(cfg, svc, p) == Some(c)
  {
    if ports != [] {
      var n := |ports| - 1;
      FromPortsOf(cfg, svc, ports[..n]);
      assert ports == ports[..n] + [ports[n]];
      forall c ensures c in FromPorts(cfg, svc, ports) <==> exists p :: p in ports && FromPort(cfg, svc, p) == Some(c) {
        if c in FromPorts(cfg, svc, ports) && c !in FromPorts(cfg, svc, ports[..n]) {
          assert FromPort(cfg, svc, ports[n]) == Some(c) && ports[n] in ports;
        }
        if p :| p in ports && FromPort(cfg, svc, p) == Some(c) {
          assert p in ports[..n] || p == ports[n];
        }
      }
    }
  }

  /** No colons where a name is put together, and no two ports of one key and protocol. */
  ghost predicate Proper(svc: Service) {
    && ColonFree(svc.namespace) && ColonFree(svc.name)
    && (forall p :: p in svc.ports ==> ColonFree(p.name))
    && forall i, j :: 0 <= i < j < |svc.ports| ==> !SamePort(svc.ports[i], svc.ports[j])
  }

  predicate SamePort(p: ServicePort, q: ServicePort) {
    PortKey(p.name, p.number) == PortKey(q.name, q.number) && ProtocolOf(p.protocol) == ProtocolOf(q.protocol)
  }

  lemma NameKept(cfg: Settings, svc: Service, port: ServicePort)
    requires KeepsNames(cfg.rules) && FromPort(cfg, svc, port).Some?
    ensures FromPort(cfg, svc, port).value.name == NameOf(svc, port).name && Supported(port.protocol)
  {
    EmptyNameIffUnsupported(svc.namespace, svc.name, port.name, port.number, port.protocol);
    FoldKeepsName(cfg.rules, cfg.base.(name := NameOf(svc, port).name), Some(port));
  }

  /** Clusters of one name come from one service, and from ports of one key and protocol. */
  lemma NamesTellServices(cfg: Settings, s: Service, p: ServicePort, t: Service, q: ServicePort)
    requires KeepsNames(cfg.rules) && Proper(s) && Proper(t) && p in s.ports && q in t.ports
    requires FromPort(cfg, s, p).Some? && FromPort(cfg, t, q).Some?
    requires FromPort(cfg, s, p).value.name == FromPort(cfg, t, q).value.name
    ensures s.namespace == t.namespace && s.name == t.name && SamePort(p, q)
  {
    NameKept(cfg, s, p);
    NameKept(cfg, t, q);
    NamesAgree(s.namespace, s.name, p.name, p.number, p.protocol, t.namespace, t.name, q.name, q.number, q.protocol);
  }

  predicate SameService(s: Service, t: Service) {
    s.namespace == t.namespace && s.name == t.name
  }

  /** Different services have no cluster name in common. */
  lemma ServicesApart(cfg: Settings, s: Service, t: Service)
    requires KeepsNames(cfg.rules) && Proper(s) && Proper(t) && !SameService(s, t)
    ensures NamesIn(FromService(cfg, Some(s))) !! NamesIn(FromService(cfg, Some(t)))
  {
    FromPortsOf(cfg, s, s.ports);
    FromPortsOf(cfg, t, t.ports);
    forall c, d | c in FromService(cfg, Some(s)) && d in FromService(cfg, Some(t)) ensures c.name != d.name {
      var p :| p in s.ports && FromPort(cfg, s, p) == Some(c);
      var q :| q in t.ports && FromPort(cfg, t, q) == Some(d);
      if c.name == d.name {
        NamesTellServices(cfg, s, p, t, q);
      }
    }
  }

  /** Within one service the name tells the cluster. */
  lemma NameTellsCluster(cfg: Settings, s: Service, c: Cluster, d: Cluster)
    requires KeepsNames(cfg.rules) && Proper(s)
    requires c in FromService(cfg, Some(s)) && d in FromService(cfg, Some(s)) && c.name == d.name
    ensures c == d
  {
    FromPortsOf(cfg, s, s.ports);
    var p :| p in s.ports && FromPort(cfg, s, p) == Some(c);
    var q :| q in s.ports && FromPort(cfg, s, q) == Some(d);
    NamesTellServices(cfg, s, p, s, q);
    var i :| 0 <= i < |s.ports| && s.ports[i] == p;
    var j :| 0 <= j < |s.ports| && s.ports[j] == q;
    assert i == j;
  }

  /* ---- CDS meets EDS ---- */

  /** A service port and a slice port name one cluster exactly when the slice belongs to the
      service and the ports have one key and one protocol: then, and only then, the cluster
      that CDS announces is the one whose endpoints EDS gives. */
  lemma ServicePortMeetsSlicePort(cfg: Settings, svc: Service, port: ServicePort, es: Slice, slicePort: Port)
    requires KeepsNames(cfg.rules) && FromPort(cfg, svc, port).Some? && PortCluster(es, slicePort).Some?
    requires ColonFree(svc.namespace) && ColonFree(svc.name) && ColonFree(port.name)
    requires ColonFree(es.namespace) && ColonFree(ServiceOf(es).name) && ColonFree(slicePort.name.Or(""))
    ensures FromPort(cfg, svc, port).value.name == PortCluster(es, slicePort).value.name <==>
      && ServiceOf(es) == NamespacedName(svc.namespace, svc.name)
      && PortKey(port.name, port.number) == PortKey(slicePort.name.Or(""), slicePort.number.value)
      && ProtocolOf(port.protocol) == ProtocolOf(slicePort.protocol.Or("TCP"))
  {
    NameKept(cfg, svc, port);
    var s := ServiceOf(es);
    EmptyNameIffUnsupported(
      s.namespace, s.name, slicePort.name.Or(""), slicePort.number.value, slicePort.protocol.Or("TCP"));
    NamesAgree(svc.namespace, svc.name, port.name, port.number, port.protocol,
      s.namespace, s.name, slicePort.name.Or(""), slicePort.number.value, slicePort.protocol.Or("TCP"));
  }

  /* ---- What becomes of a port ---- */

  /** What the rules get to see: the base configuration under the port's name. */
  function Given(cfg: Settings, name: string): Cluster {
    Cluster(name, cfg.base.discovery, cfg.base.timeout, cfg.base.filters, cfg.base.load)
  }

  /** The one endpoint of a cluster without EDS: the service's host name in the cluster's DNS,
      at the port, in no particular locality and of unknown health. */
  ghost predicate ServesItself(svc: Service, port: ServicePort, a: Assignment) {
    && |a.groups| == 1 && a.groups[0].locality == Locality("", "", "")
    && |a.groups[0].endpoints| == 1
    && var e := a.groups[0].endpoints[0];
       && e.address == svc.name + "." + svc.namespace + ".svc.cluster.local."
       && IsUint32(e.port, port.number) && e.protocol == (if port.protocol == "UDP" then UDP else TCP)
       && e.health == UNKNOWN
  }

  /** From what the rules made of the cluster to what is published: EDS is left alone; any
      other type is kept, none becomes strict DNS, and the service itself is the endpoint. */
  ghost predicate Finishes(svc: Service, port: ServicePort, v: Cluster, c: Cluster) {
    && c.name == v.name && c.timeout == v.timeout && c.filters == v.filters
    && if v.discovery == Some(Type(EDS)) then c == v
       else
         && c.discovery == (if v.discovery == None then Some(Type(STRICT_DNS)) else v.discovery)
         && c.load.Some? && c.load.value.cluster == v.name && ServesItself(svc, port, c.load.value)
  }

  lemma FinishFinishes(svc: Service, port: ServicePort, protocol: EnvoyProtocol, v: Cluster)
    requires protocol == if port.protocol == "UDP" then UDP else TCP
    ensures Finishes(svc, port, v, Finish(svc, port, protocol, v))
  {
    PortValueWraps(port.number);
  }

  /** A port makes no cluster exactly if its protocol is none that Envoy speaks or a rule
      suppresses it; otherwise the rules get the base configuration under the port's name, and
      what they make of it is finished. */
  lemma PortBecomes(cfg: Settings, svc: Service, port: ServicePort) returns (name: string, key: string)
    ensures StandsForPort(key, port.name, port.number)
    ensures name == svc.namespace + ":" + svc.name + ":" + key + if port.protocol == "UDP" then ":udp" else ""
    ensures var speaks := port.protocol == "TCP" || port.protocol == "" || port.protocol == "UDP";
      match FromPort(cfg, svc, port)
      case None => !speaks || Fold(cfg.rules, Given(cfg, name), Some(port)) == None
      case Some(c) => speaks && exists v ::
        Fold(cfg.rules, Given(cfg, name), Some(port)) == Some(v) && Finishes(svc, port, v, c)
  {
    key := NameSpelled(svc.namespace, svc.name, port.name, port.number, port.protocol);
    name := svc.namespace + ":" + svc.name + ":" + key + if port.protocol == "UDP" then ":udp" else "";
    EmptyNameIffUnsupported(svc.namespace, svc.name, port.name, port.number, port.protocol);
    var named := NameOf(svc, port);
    if Supported(port.protocol) {
      assert named.name == name;
      var v := Fold(cfg.rules, Given(cfg, name), Some(port));
      if v.Some? {
        FinishFinishes(svc, port, named.protocol, v.value);
      }
    }
  }

  /** The clusters come from the ports at these positions, in this order. */
  ghost predicate ComeFrom(cfg: Settings, svc: Service, ports: seq<ServicePort>, cs: seq<Cluster>, at: seq<nat>) {
    && |at| == |cs|
    && (forall i :: 0 <= i < |at| ==> at[i] < |ports| && FromPort(cfg, svc, ports[at[i]]) == Some(cs[i]))
    && (forall i, j :: 0 <= i < j < |at| ==> at[i] < at[j])
    && forall k :: 0 <= k < |ports| && FromPort(cfg, svc, ports[k]).Some? ==> k in at
  }

  lemma ComeFromOneMore(cfg: Settings, svc: Service, ports: seq<ServicePort>, port: ServicePort, cs: seq<Cluster>, at: seq<nat>)
    requires ComeFrom(cfg, svc, ports, cs, at)
    ensures match FromPort(cfg, svc, port)
      case None => ComeFrom(cfg, svc, ports + [port], cs, at)
      case Some(c) => ComeFrom(cfg, svc, ports + [port], cs + [c], at + [|ports|])
  {
    var all := ports + [port];
    assert forall k :: 0 <= k < |ports| ==> all[k] == ports[k];
    assert all[|ports|] == port;
  }

  /** The clusters of a service are those of its ports, one each and in order. */
  lemma {:induction false} PortsInOrder(cfg: Settings, svc: Service, ports: seq<ServicePort>) returns (at: seq<nat>)
    ensures ComeFrom(cfg, svc, ports, FromPorts(cfg, svc, ports), at)
  {
    if ports == [] {
      at := [];
    } else {
      var n := |ports| - 1;
      at := PortsInOrder(cfg, svc, ports[..n]);
      ComeFromOneMore(cfg, svc, ports[..n], ports[n], FromPorts(cfg, svc, ports[..n]), at);
      assert ports == ports[..n] + [ports[n]];
      if FromPort(cfg, svc, ports[n]).Some? {
        at := at + [n];
      }
    }
  }

  /** Every cluster comes from a port of the service, and either has EDS discovery or a
      discovery type and one endpoint, the service itself. */
  lemma EveryClusterHasEndpoints(cfg: Settings, svc: Service, c: Cluster) returns (port: ServicePort)
    requires c in FromService(cfg, Some(svc))
    ensures port in svc.ports && FromPort(cfg, svc, port) == Some(c)
    ensures c.discovery == Some(Type(EDS)) ||
      (c.discovery.Some? && c.load.Some? && c.load.value.cluster == c.name && ServesItself(svc, port, c.load.value))
  {
    FromPortsOf(cfg, svc, svc.ports);
    port :| port in svc.ports && FromPort(cfg, svc, port) == Some(c);
    var name, key := PortBecomes(cfg, svc, port);
  }

  /** Unless names set by overrides deceive the rules, a port's cluster gets its endpoints by
      EDS exactly if that is the last discovery type that the base or a matching override sets. */
  lemma {:induction false} EdsIffLastToSay(cfg: Settings, svc: Service, port: ServicePort)
    requires FromPort(cfg, svc, port).Some?
    requires var c := Given(cfg, NameOf(svc, port).name); Undeceived(cfg.rules, c.name, c, Some(port))
    ensures var c := Given(cfg, NameOf(svc, port).name);
      FromPort(cfg, svc, port).value.discovery == Some(Type(EDS)) <==>
      LastToSay(Discoveries(c, Selected(cfg.rules, c.name, Some(port))), Type(EDS))
  {
    var c := Given(cfg, NameOf(svc, port).name);
    var overrides := Selected(cfg.rules, c.name, Some(port));
    var ds := Discoveries(c, overrides);
    assert c == cfg.base.(name := NameOf(svc, port).name);
    UndeceivedFilters(cfg.rules, c, Some(port));
    DiscoveryMerged(c, overrides);
    LastToSayIff(ds, MergeAll(c, overrides).discovery, EDS);
    assert Fold(cfg.rules, c, Some(port)) == Some(MergeAll(c, overrides));
  }
}
