/** Endpoint slices, load assignments, and which endpoint of which slice belongs where. */
module Slices {
  import opened Options
  import opened Naming
  import opened Sequences
  import opened Text

  datatype Port = Port(name: Option<string>, number: Option<Int32>, protocol: Option<string>)

  datatype Endpoint = Endpoint(addresses: seq<string>, ready: Option<bool>, node: Option<string>)

  datatype Slice = Slice(
    namespace: string, name: string, labels: map<string, string>,
    ports: seq<Port>, endpoints: seq<Endpoint>)

  const SERVICE_LABEL := "kubernetes.io/service-name"

  datatype NamespacedName = NamespacedName(namespace: string, name: string)

  /** esService: the service a slice belongs to, by its label; no label reads as "". */
  function ServiceOf(es: Slice): NamespacedName {
    NamespacedName(es.namespace, if SERVICE_LABEL in es.labels then es.labels[SERVICE_LABEL] else "")
  }

  datatype Health = UNKNOWN | HEALTHY | DEGRADED

  datatype LbEndpoint = LbEndpoint(address: string, port: nat, protocol: EnvoyProtocol, health: Health)

  datatype Locality = Locality(region: string, zone: string, subZone: string)

  datatype Group = Group(locality: Locality, endpoints: seq<LbEndpoint>)

  datatype Assignment = Assignment(cluster: string, groups: seq<Group>)

  /** The configuration and the world of one translation: LocalityFromHost over a fixed
      node store, and the String() texts that the sorts compare. */
  datatype Env = Env(
    includeNotReady: bool, locality: string -> Locality,
    endpointKey: LbEndpoint -> string, localityKey: Locality -> string)

  /** uint32(port). */
  function PortValue(port: Int32): nat {
    if port < 0 then port + 0x1_0000_0000 else port
  }

  /** The port as an unsigned number of 32 bits. */
  predicate IsUint32(value: nat, port: Int32) {
    value < 0x1_0000_0000 && (value - port) % 0x1_0000_0000 == 0
  }

  lemma PortValueWraps(port: Int32)
    ensures IsUint32(PortValue(port), port)
  {
  }

  /** One endpoint address, filed under a cluster and a node. */
  datatype Placement = Placement(cluster: string, node: string, endpoint: LbEndpoint)

  /** The cluster of a slice's port; None for a port without number, or one that has no name. */
  function PortCluster(es: Slice, port: Port): Option<ClusterName> {
    if port.number.None? then None else
    var svc := ServiceOf(es);
    var c := NameCluster(svc.namespace, svc.name, port.name.Or(""), port.number.value, port.protocol.Or("TCP"));
    if c.name == "" then None else Some(c)
  }

  predicate Admits(env: Env, ep: Endpoint) {
    ep.ready.Or(true) || env.includeNotReady
  }

  function HealthOf(ep: Endpoint): Health {
    if ep.ready.Or(true) then HEALTHY else DEGRADED
  }

  function Place(cluster: ClusterName, port: Port, ep: Endpoint, address: string): Placement
    requires port.number.Some?
  {
    Placement(cluster.name, ep.node.Or(""),
      LbEndpoint(address, PortValue(port.number.value), cluster.protocol, HealthOf(ep)))
  }

  /* ---- Everything a list of slices places, as a bag ---- */

  ghost function AddressBag(c: ClusterName, port: Port, ep: Endpoint, addresses: seq<string>): multiset<Placement>
    requires port.number.Some?
  {
    if addresses == [] then multiset{} else
    var n := |addresses| - 1;
    AddressBag(c, port, ep, addresses[..n]) + multiset{Place(c, port, ep, addresses[n])}
  }

  ghost function EndpointBag(env: Env, c: ClusterName, port: Port, eps: seq<Endpoint>): multiset<Placement>
    requires port.number.Some?
  {
    if eps == [] then multiset{} else
    var n := |eps| - 1;
    EndpointBag(env, c, port, eps[..n]) +
      if Admits(env, eps[n]) then AddressBag(c, port, eps[n], eps[n].addresses) else multiset{}
  }

  ghost function PortBag(env: Env, es: Slice, ports: seq<Port>): multiset<Placement> {
    if ports == [] then multiset{} else
    var n := |ports| - 1;
    var c := PortCluster(es, ports[n]);
    PortBag(env, es, ports[..n]) +
      if c.Some? then EndpointBag(env, c.value, ports[n], es.endpoints) else multiset{}
  }

  ghost function Bag(env: Env, slices: seq<Slice>): multiset<Placement> {
    if slices == [] then multiset{} else
    var n := |slices| - 1;
    Bag(env, slices[..n]) + PortBag(env, slices[n], slices[n].ports)
  }

  /* ---- The same, counted position by position ---- */

  /** A way to an endpoint: slice, port, endpoint and address, by position. */
  datatype Site = Site(slice: nat, port: nat, endpoint: nat, address: nat)

  ghost predicate IsSite(env: Env, slices: seq<Slice>, x: Site) {
    && x.slice < |slices|
    && var es := slices[x.slice];
       && x.port < |es.ports| && PortCluster(es, es.ports[x.port]).Some?
       && x.endpoint < |es.endpoints| && Admits(env, es.endpoints[x.endpoint])
       && x.address < |es.endpoints[x.endpoint].addresses|
  }

  ghost function PlacementAt(env: Env, slices: seq<Slice>, x: Site): Placement
    requires IsSite(env, slices, x)
  {
    var es := slices[x.slice];
    Place(PortCluster(es, es.ports[x.port]).value, es.ports[x.port], es.endpoints[x.endpoint],
      es.endpoints[x.endpoint].addresses[x.address])
  }

  /** All ways to one placement: admitted addresses under nameable ports. */
  ghost function Sites(env: Env, slices: seq<Slice>, p: Placement): set<Site> {
    set i: nat, j: nat, k: nat, l: nat |
      i < |slices| && j < |slices[i].ports| && k < |slices[i].endpoints| && l < |slices[i].endpoints[k].addresses|
      && IsSite(env, slices, Site(i, j, k, l)) && PlacementAt(env, slices, Site(i, j, k, l)) == p
      :: Site(i, j, k, l)
  }

  ghost predicate Hits(env: Env, slices: seq<Slice>, p: Placement, x: Site) {
    IsSite(env, slices, x) && PlacementAt(env, slices, x) == p
  }

  lemma InSites(env: Env, slices: seq<Slice>, p: Placement, x: Site)
    ensures x in Sites(env, slices, p) <==> Hits(env, slices, p, x)
  {
    assert x == Site(x.slice, x.port, x.endpoint, x.address);
  }

  ghost function AtEndpoint(all: set<Site>, i: nat, j: nat, k: nat, n: nat): set<Site> {
    set x | x in all && x.slice == i && x.port == j && x.endpoint == k && x.address < n
  }

  ghost function AtPort(all: set<Site>, i: nat, j: nat, n: nat): set<Site> {
    set x | x in all && x.slice == i && x.port == j && x.endpoint < n
  }

  ghost function AtSlice(all: set<Site>, i: nat, n: nat): set<Site> {
    set x | x in all && x.slice == i && x.port < n
  }

  ghost function UpTo(all: set<Site>, n: nat): set<Site> {
    set x | x in all && x.slice < n
  }

  lemma CountSplits(whole: set<Site>, a: set<Site>, b: set<Site>)
    requires whole == a + b && a * b == {}
    ensures |whole| == |a| + |b|
  {
  }

  lemma {:induction false} CountAddresses(env: Env, slices: seq<Slice>, p: Placement, i: nat, j: nat, k: nat, n: nat)
    requires i < |slices| && j < |slices[i].ports| && PortCluster(slices[i], slices[i].ports[j]).Some?
    requires k < |slices[i].endpoints| && Admits(env, slices[i].endpoints[k]) && n <= |slices[i].endpoints[k].addresses|
    ensures var es := slices[i]; var ep := es.endpoints[k];
      |AtEndpoint(Sites(env, slices, p), i, j, k, n)| ==
      AddressBag(PortCluster(es, es.ports[j]).value, es.ports[j], ep, ep.addresses[..n])[p]
  {
    if n > 0 {
      CountAddresses(env, slices, p, i, j, k, n - 1);
      LastAddress(env, slices, p, i, j, k, n);
      var addresses := slices[i].endpoints[k].addresses;
      assert addresses[..n][..n - 1] == addresses[..n - 1];
    } else {
      assert AtEndpoint(Sites(env, slices, p), i, j, k, 0) == {};
    }
  }

  lemma LastAddress(env: Env, slices: seq<Slice>, p: Placement, i: nat, j: nat, k: nat, n: nat)
    requires i < |slices| && j < |slices[i].ports| && PortCluster(slices[i], slices[i].ports[j]).Some?
    requires k < |slices[i].endpoints| && Admits(env, slices[i].endpoints[k])
    requires 0 < n <= |slices[i].endpoints[k].addresses|
    ensures var es := slices[i]; var ep := es.endpoints[k]; var all := Sites(env, slices, p);
      |AtEndpoint(all, i, j, k, n)| == |AtEndpoint(all, i, j, k, n - 1)| +
        if Place(PortCluster(es, es.ports[j]).value, es.ports[j], ep, ep.addresses[n - 1]) == p then 1 else 0
  {
    InSites(env, slices, p, Site(i, j, k, n - 1));
    OneMore(Sites(env, slices, p), i, j, k, n);
  }

  lemma OneMore(all: set<Site>, i: nat, j: nat, k: nat, n: nat)
    requires n > 0
    ensures |AtEndpoint(all, i, j, k, n)| == |AtEndpoint(all, i, j, k, n - 1)| + if Site(i, j, k, n - 1) in all then 1 else 0
  {
    var x := Site(i, j, k, n - 1);
    CountSplits(AtEndpoint(all, i, j, k, n), AtEndpoint(all, i, j, k, n - 1), if x in all then {x} else {});
  }

  lemma PortSplits(env: Env, slices: seq<Slice>, p: Placement, i: nat, j: nat, n: nat)
    requires i < |slices| && 0 < n <= |slices[i].endpoints|
    ensures var all := Sites(env, slices, p); var ep := slices[i].endpoints[n - 1];
      |AtPort(all, i, j, n)| == |AtPort(all, i, j, n - 1)| +
        if Admits(env, ep) then |AtEndpoint(all, i, j, n - 1, |ep.addresses|)| else 0
  {
    var all, ep := Sites(env, slices, p), slices[i].endpoints[n - 1];
    var last := AtEndpoint(all, i, j, n - 1, |ep.addresses|);
    forall x ensures x in AtPort(all, i, j, n) <==> x in AtPort(all, i, j, n - 1) || x in last {
      InSites(env, slices, p, x);
    }
    PointwiseCount(AtPort(all, i, j, n), AtPort(all, i, j, n - 1), last);
    if !Admits(env, ep) {
      forall x ensures x !in last { InSites(env, slices, p, x); }
      assert last == {};
    }
  }

  lemma PointwiseCount(whole: set<Site>, a: set<Site>, b: set<Site>)
    requires (forall x :: x in whole <==> x in a || x in b) && forall x :: x in a ==> x !in b
    ensures |whole| == |a| + |b|
  {
    assert whole == a + b && a * b == {};
    CountSplits(whole, a, b);
  }

  lemma SliceSplits(env: Env, slices: seq<Slice>, p: Placement, i: nat, n: nat)
    requires i < |slices| && 0 < n <= |slices[i].ports|
    ensures var all := Sites(env, slices, p); var es := slices[i];
      |AtSlice(all, i, n)| == |AtSlice(all, i, n - 1)| +
        if PortCluster(es, es.ports[n - 1]).Some? then |AtPort(all, i, n - 1, |es.endpoints|)| else 0
  {
    var all, es := Sites(env, slices, p), slices[i];
    var last := AtPort(all, i, n - 1, |es.endpoints|);
    forall x ensures x in AtSlice(all, i, n) <==> x in AtSlice(all, i, n - 1) || x in last {
      InSites(env, slices, p, x);
    }
    PointwiseCount(AtSlice(all, i, n), AtSlice(all, i, n - 1), last);
    if PortCluster(es, es.ports[n - 1]).None? {
      forall x ensures x !in last { InSites(env, slices, p, x); }
      assert last == {};
    }
  }

  lemma {:induction false} CountEndpoints(env: Env, slices: seq<Slice>, p: Placement, i: nat, j: nat, n: nat)
    requires i < |slices| && j < |slices[i].ports| && PortCluster(slices[i], slices[i].ports[j]).Some?
    requires n <= |slices[i].endpoints|
    ensures var es := slices[i];
      |AtPort(Sites(env, slices, p), i, j, n)| ==
      EndpointBag(env, PortCluster(es, es.ports[j]).value, es.ports[j], es.endpoints[..n])[p]
  {
    var all := Sites(env, slices, p);
    if n > 0 {
      CountEndpoints(env, slices, p, i, j, n - 1);
      var ep := slices[i].endpoints[n - 1];
      assert slices[i].endpoints[..n][..n - 1] == slices[i].endpoints[..n - 1];
      PortSplits(env, slices, p, i, j, n);
      if Admits(env, ep) {
        CountAddresses(env, slices, p, i, j, n - 1, |ep.addresses|);
        assert ep.addresses[..|ep.addresses|] == ep.addresses;
      }
    } else {
      assert AtPort(all, i, j, 0) == {};
    }
  }

  lemma {:induction false} CountPorts(env: Env, slices: seq<Slice>, p: Placement, i: nat, n: nat)
    requires i < |slices| && n <= |slices[i].ports|
    ensures |AtSlice(Sites(env, slices, p), i, n)| == PortBag(env, slices[i], slices[i].ports[..n])[p]
  {
    var all := Sites(env, slices, p);
    if n > 0 {
      CountPorts(env, slices, p, i, n - 1);
      var es := slices[i];
      assert es.ports[..n][..n - 1] == es.ports[..n - 1];
      SliceSplits(env, slices, p, i, n);
      if PortCluster(es, es.ports[n - 1]).Some? {
        CountEndpoints(env, slices, p, i, n - 1, |es.endpoints|);
        assert es.endpoints[..|es.endpoints|] == es.endpoints;
      }
    } else {
      assert AtSlice(all, i, 0) == {};
    }
  }

  lemma {:induction false} CountSlices(env: Env, slices: seq<Slice>, p: Placement, n: nat)
    requires n <= |slices|
    ensures |UpTo(Sites(env, slices, p), n)| == Bag(env, slices[..n])[p]
  {
    var all := Sites(env, slices, p);
    if n > 0 {
      CountSlices(env, slices, p, n - 1);
      assert slices[..n][..n - 1] == slices[..n - 1];
      var es := slices[n - 1];
      forall x ensures x in all <==> Hits(env, slices, p, x) { InSites(env, slices, p, x); }
      CountPorts(env, slices, p, n - 1, |es.ports|);
      assert es.ports[..|es.ports|] == es.ports;
      CountSplits(UpTo(all, n), UpTo(all, n - 1), AtSlice(all, n - 1, |es.ports|));
    } else {
      assert UpTo(all, 0) == {};
    }
  }

  /** The bag holds a placement as often as there are ways to it: one for every slice,
      nameable port, admitted endpoint and address. */
  lemma BagCountsSites(env: Env, slices: seq<Slice>, p: Placement)
    ensures Bag(env, slices)[p] == |Sites(env, slices, p)|
  {
    CountSlices(env, slices, p, |slices|);
    assert slices[..|slices|] == slices;
    forall x ensures x in Sites(env, slices, p) <==> Hits(env, slices, p, x) { InSites(env, slices, p, x); }
    assert UpTo(Sites(env, slices, p), |slices|) == Sites(env, slices, p);
  }
}
