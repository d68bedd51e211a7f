/** Where CDS and EDS meet: what a cluster made from a service finds under its name. */
module Meeting {
  import opened EndpointIndex
  import opened Naming
  import opened Options
  import opened Overrides
  import opened Sequences
  import opened Services
  import opened Slices
  import opened Text
  import opened Translation
  import opened TranslationLaws

  /** The slice belongs to the service, and its port is the service's: one key, one protocol. */
  predicate Backs(svc: Service, port: ServicePort, es: Slice, slicePort: Port) {
    && ServiceOf(es) == NamespacedName(svc.namespace, svc.name)
    && slicePort in es.ports && slicePort.number.Some? && Supported(slicePort.protocol.Or("TCP"))
    && PortKey(port.name, port.number) == PortKey(slicePort.name.Or(""), slicePort.number.value)
    && ProtocolOf(port.protocol) == ProtocolOf(slicePort.protocol.Or("TCP"))
  }

  lemma Backed(cfg: Settings, svc: Service, port: ServicePort, es: Slice, slicePort: Port)
    requires KeepsNames(cfg.rules) && FromPort(cfg, svc, port).Some? && Backs(svc, port, es, slicePort)
    requires ColonFree(svc.namespace) && ColonFree(svc.name) && ColonFree(port.name) && WellNamed(es)
    ensures PortCluster(es, slicePort) == Some(ClusterName(FromPort(cfg, svc, port).value.name, ProtocolOf(port.protocol)))
  {
    var s := ServiceOf(es);
    EmptyNameIffUnsupported(
      s.namespace, s.name, slicePort.name.Or(""), slicePort.number.value, slicePort.protocol.Or("TCP"));
    ServicePortMeetsSlicePort(cfg, svc, port, es, slicePort);
  }

  /** An address is in the bag under its cluster and its node. */
  lemma AddressIsPlaced(env: Env, slices: set<Slice>, es: Slice, port: Port, ep: Endpoint, address: string)
    requires es in slices && port in es.ports && PortCluster(es, port).Some?
    requires ep in es.endpoints && Admits(env, ep) && address in ep.addresses
    ensures Place(PortCluster(es, port).value, port, ep, address) in BagOf(env, slices)
  {
    var xs := Listing(slices);
    var i :| 0 <= i < |xs| && xs[i] == es;
    var j :| 0 <= j < |es.ports| && es.ports[j] == port;
    var k :| 0 <= k < |es.endpoints| && es.endpoints[k] == ep;
    var l :| 0 <= l < |ep.addresses| && ep.addresses[l] == address;
    var p := Place(PortCluster(es, port).value, port, ep, address);
    InSites(env, xs, p, Site(i, j, k, l));
    BagCountsSites(env, xs, p);
  }

  /** The cluster that a service's port makes finds, under its own name, every admitted
      address of every slice that backs the port: with the slice port's number and the service
      port's protocol, degraded if it is known not to be ready and healthy otherwise, in a group
      at its node's locality. */
  lemma ServiceReachesEndpoints(
    cfg: Settings, svc: Service, port: ServicePort, env: Env, pub: Published, slices: set<Slice>,
    es: Slice, slicePort: Port, ep: Endpoint, address: string)
    requires KeepsNames(cfg.rules) && FromPort(cfg, svc, port).Some?
    requires ColonFree(svc.namespace) && ColonFree(svc.name) && ColonFree(port.name) && WellNamed(es)
    requires Publishes(env, pub, slices) && es in slices && Backs(svc, port, es, slicePort)
    requires ep in es.endpoints && address in ep.addresses && (ep.ready == Some(false) ==> env.includeNotReady)
    ensures var name := FromPort(cfg, svc, port).value.name;
      && name in pub
      && Groups(env, pub[name], ep.node.Or(""),
           LbEndpoint(address, PortValue(slicePort.number.value), if port.protocol == "UDP" then UDP else TCP,
             if ep.ready == Some(false) then DEGRADED else HEALTHY))
  {
    Backed(cfg, svc, port, es, slicePort);
    AddressIsPlaced(env, slices, es, slicePort, ep, address);
    var name := FromPort(cfg, svc, port).value.name;
    assert name in NamesOf(slices);
    var p := Place(PortCluster(es, slicePort).value, slicePort, ep, address);
    PlacedIsGrouped(env, BagOf(env, slices), pub[name], p);
  }
}
