/** What the translation promises, whatever order its maps and sorts come up with. */
module TranslationLaws {
  import opened Naming
  import opened Options
  import opened Sequences
  import opened Slices
  import opened Text
  import opened Translation

  /* ---- Order independence ---- */

  lemma {:induction false} BagConcat(env: Env, xs: seq<Slice>, ys: seq<Slice>)
    ensures Bag(env, xs + ys) == Bag(env, xs) + Bag(env, ys)
    decreases |ys|
  {
    if ys == [] {
      assert xs + ys == xs;
    } else {
      var init, last := ys[..|ys| - 1], ys[|ys| - 1];
      BagConcat(env, xs, init);
      BagSnoc(env, init, last);
      BagSnoc(env, xs + init, last);
      SplitLast(xs, ys);
    }
  }

  lemma SplitLast<T>(xs: seq<T>, ys: seq<T>)
    requires ys != []
    ensures ys == ys[..|ys| - 1] + [ys[|ys| - 1]] && xs + ys == (xs + ys[..|ys| - 1]) + [ys[|ys| - 1]]
  {
  }

  lemma BagSnoc(env: Env, xs: seq<Slice>, es: Slice)
    ensures Bag(env, xs + [es]) == Bag(env, xs) + PortBag(env, es, es.ports)
  {
    assert (xs + [es])[..|xs|] == xs;
  }

  lemma BagOfOne(env: Env, es: Slice)
    ensures Bag(env, [es]) == PortBag(env, es, es.ports)
  {
    assert Bag(env, [es][..0]) == multiset{};
  }

  lemma BagMiddle(env: Env, xs: seq<Slice>, es: Slice, ys: seq<Slice>)
    ensures Bag(env, xs + [es] + ys) == Bag(env, xs + ys) + PortBag(env, es, es.ports)
  {
    BagConcat(env, xs, ys);
    BagOfOne(env, es);
    BagConcat(env, xs, [es]);
    BagConcat(env, xs + [es], ys);
  }

  lemma BagTakesOut(env: Env, slices: seq<Slice>, k: nat, rest: seq<Slice>)
    requires k < |slices| && rest == slices[..k] + slices[k + 1..]
    ensures Bag(env, slices) == Bag(env, rest) + PortBag(env, slices[k], slices[k].ports)
  {
    TakesApart(slices, k);
    BagMiddle(env, slices[..k], slices[k], slices[k + 1..]);
  }

  lemma TakesApart<T>(xs: seq<T>, k: nat)
    requires k < |xs|
    ensures xs == xs[..k] + [xs[k]] + xs[k + 1..]
  {
  }

  /** The bag does not depend on the order of the slices. */
  lemma {:induction false} BagPermutes(env: Env, s1: seq<Slice>, s2: seq<Slice>)
    requires multiset(s1) == multiset(s2)
    ensures Bag(env, s1) == Bag(env, s2)
    decreases |s2|
  {
    SameLength(s1, s2);
    if s2 != [] {
      assert s2[0] in multiset(s2);
      var k := PositionOf(s2[0], s1);
      var rest := Without(s1, k);
      BagTakesOut(env, s1, k, rest);
      BagTakesOut(env, s2, 0, s2[1..]) by { assert s2[1..] == s2[..0] + s2[0 + 1..]; }
      assert multiset(rest) == multiset(s2[1..]) by { DropMatching(s1, k, s2); }
      BagPermutes(env, rest, s2[1..]);
    }
  }

  /** The groups are the same up to order, in an order with the same locality keys: only
      groups whose localities read the same may have changed places. */
  ghost predicate SameUpToEqualLocality(env: Env, a: Assignment, b: Assignment) {
    && a.cluster == b.cluster
    && multiset(a.groups) == multiset(b.groups)
    && |a.groups| == |b.groups|
    && forall i :: 0 <= i < |a.groups| ==>
         env.localityKey(a.groups[i].locality) == env.localityKey(b.groups[i].locality)
  }

  lemma GroupIsUnique(env: Env, bag: multiset<Placement>, cluster: string, node: string, g: Group, h: Group)
    requires IsGroup(env, bag, cluster, node, g) && IsGroup(env, bag, cluster, node, h)
    requires Injective(env.endpointKey)
    ensures g == h
  {
    assert multiset(g.endpoints) == multiset(h.endpoints);
    SortedUnique(g.endpoints, h.endpoints, env.endpointKey);
  }

  lemma SortedSameKeys(env: Env, gs: seq<Group>, hs: seq<Group>)
    requires SortedGroups(env, gs) && SortedGroups(env, hs) && multiset(gs) == multiset(hs)
    ensures |gs| == |hs|
    ensures forall i :: 0 <= i < |gs| ==> env.localityKey(gs[i].locality) == env.localityKey(hs[i].locality)
  {
    SameLength(gs, hs);
    var ks := seq(|gs|, i requires 0 <= i < |gs| => env.localityKey(gs[i].locality));
    var ls := seq(|hs|, i requires 0 <= i < |hs| => env.localityKey(hs[i].locality));
    ImagesPermute(gs, ks, hs, ls);
    SortedUnique(ks, ls, (s: string) => s);
  }

  lemma SameNodes(
    env: Env, bag: multiset<Placement>, cluster: string, gs: seq<Group>, nodes: seq<string>, hs: seq<Group>, others: seq<string>)
    requires GroupsByNode(env, bag, cluster, gs, nodes) && GroupsByNode(env, bag, cluster, hs, others)
    ensures multiset(nodes) == multiset(others)
  {
    NoDuplicatesCount(nodes);
    NoDuplicatesCount(others);
    forall n ensures multiset(nodes)[n] == multiset(others)[n] {
      assert n in nodes <==> HasNode(bag, cluster, n);
    }
  }

  lemma SameGroups(
    env: Env, bag: multiset<Placement>, cluster: string, gs: seq<Group>, nodes: seq<string>, hs: seq<Group>, others: seq<string>)
    requires GroupsByNode(env, bag, cluster, gs, nodes) && GroupsByNode(env, bag, cluster, hs, others)
    requires Injective(env.endpointKey)
    ensures multiset(gs) == multiset(hs)
  {
    SameNodes(env, bag, cluster, gs, nodes, hs, others);
    forall i, j | 0 <= i < |nodes| && 0 <= j < |others| && nodes[i] == others[j] ensures gs[i] == hs[j] {
      GroupIsUnique(env, bag, cluster, nodes[i], gs[i], hs[j]);
    }
    ImagesPermute(nodes, gs, others, hs);
  }

  /** Two assignments for one bag and one cluster. */
  lemma AssignmentsAgree(env: Env, bag: multiset<Placement>, a: Assignment, b: Assignment)
    requires IsAssignment(env, bag, a) && IsAssignment(env, bag, b) && a.cluster == b.cluster
    requires Injective(env.endpointKey)
    ensures SameUpToEqualLocality(env, a, b)
  {
    var nodes :| GroupsByNode(env, bag, a.cluster, a.groups, nodes);
    var others :| GroupsByNode(env, bag, a.cluster, b.groups, others);
    SameGroups(env, bag, a.cluster, a.groups, nodes, b.groups, others);
    SortedSameKeys(env, a.groups, b.groups);
  }

  /** The localities of different nodes of the cluster read differently. */
  ghost predicate LocalitiesApart(env: Env, bag: multiset<Placement>, cluster: string) {
    forall m, n | HasNode(bag, cluster, m) && HasNode(bag, cluster, n)
      && env.localityKey(env.locality(m)) == env.localityKey(env.locality(n)) :: m == n
  }

  lemma LocalityTellsGroups(
    env: Env, bag: multiset<Placement>, cluster: string, gs: seq<Group>, nodes: seq<string>, i: nat, j: nat)
    requires GroupsByNode(env, bag, cluster, gs, nodes) && LocalitiesApart(env, bag, cluster)
    requires i < |gs| && j < |gs| && env.localityKey(gs[i].locality) == env.localityKey(gs[j].locality)
    ensures gs[i] == gs[j]
  {
    assert nodes[i] in nodes && nodes[j] in nodes;
    assert IsGroup(env, bag, cluster, nodes[i], gs[i]) && IsGroup(env, bag, cluster, nodes[j], gs[j]);
    assert nodes[i] == nodes[j];
  }

  lemma AssignmentsEqual(env: Env, bag: multiset<Placement>, a: Assignment, b: Assignment)
    requires IsAssignment(env, bag, a) && LocalitiesApart(env, bag, a.cluster)
    requires SortedGroups(env, b.groups) && SameUpToEqualLocality(env, a, b)
    ensures a == b
  {
    var key := (g: Group) => env.localityKey(g.locality);
    assert InjectiveOn(key, a.groups) by {
      forall g, h | g in a.groups && h in a.groups && key(g) == key(h) ensures g == h {
        LocalityTellsGroup(env, bag, a, g, h);
      }
    }
    SortedUnique(a.groups, b.groups, key);
  }

  lemma LocalityTellsGroup(env: Env, bag: multiset<Placement>, a: Assignment, g: Group, h: Group)
    requires IsAssignment(env, bag, a) && LocalitiesApart(env, bag, a.cluster)
    requires g in a.groups && h in a.groups && env.localityKey(g.locality) == env.localityKey(h.locality)
    ensures g == h
  {
    var nodes :| GroupsByNode(env, bag, a.cluster, a.groups, nodes);
    var i :| 0 <= i < |a.groups| && a.groups[i] == g;
    var j :| 0 <= j < |a.groups| && a.groups[j] == h;
    LocalityTellsGroups(env, bag, a.cluster, a.groups, nodes, i, j);
  }

  lemma StrictlySortedAgree(xs: seq<Assignment>, ys: seq<Assignment>)
    requires forall i, j :: 0 <= i < j < |xs| ==> Less(xs[i].cluster, xs[j].cluster)
    requires forall i, j :: 0 <= i < j < |ys| ==> Less(ys[i].cluster, ys[j].cluster)
    requires ClustersOf(xs) == ClustersOf(ys)
    ensures |xs| == |ys| && forall i :: 0 <= i < |xs| ==> xs[i].cluster == ys[i].cluster
  {
    var cs := seq(|xs|, i requires 0 <= i < |xs| => xs[i].cluster);
    var ds := seq(|ys|, i requires 0 <= i < |ys| => ys[i].cluster);
    StrictlySortedKeys(xs, cs);
    StrictlySortedKeys(ys, ds);
    ListingsPermute(cs, ds, ClustersOf(xs));
    SortedUnique(cs, ds, (s: string) => s);
  }

  lemma StrictlySortedKeys(xs: seq<Assignment>, cs: seq<string>)
    requires forall i, j :: 0 <= i < j < |xs| ==> Less(xs[i].cluster, xs[j].cluster)
    requires |cs| == |xs| && forall i :: 0 <= i < |xs| ==> cs[i] == xs[i].cluster
    ensures Enumerates(cs, ClustersOf(xs)) && SortedBy(cs, (s: string) => s)
  {
    forall i, j | 0 <= i < j < |cs| ensures cs[i] != cs[j] && !Less(cs[j], cs[i]) {
      LessTotal(cs[i], cs[j]);
    }
    forall c | c in ClustersOf(xs) ensures c in cs {
      var i :| 0 <= i < |xs| && xs[i].cluster == c;
      assert cs[i] == c;
    }
    forall c | c in cs ensures c in ClustersOf(xs) {
      var i :| 0 <= i < |cs| && cs[i] == c;
      assert xs[i] in xs;
    }
  }

  /** Translating the same slices in another order, with any map iteration and any sort,
      gives the same clusters in the same order, with the same groups up to the order of
      groups whose localities read the same; and the very same result for a cluster whose
      nodes have localities that read differently. */
  lemma OrderIndependence(env: Env, s1: seq<Slice>, s2: seq<Slice>, r1: seq<Assignment>, r2: seq<Assignment>)
    requires IsTranslation(env, s1, r1) && IsTranslation(env, s2, r2)
    requires multiset(s1) == multiset(s2) && Injective(env.endpointKey)
    ensures |r1| == |r2|
    ensures forall i :: 0 <= i < |r1| ==> SameUpToEqualLocality(env, r1[i], r2[i])
    ensures forall i :: 0 <= i < |r1| && LocalitiesApart(env, Bag(env, s1), r1[i].cluster) ==> r1[i] == r2[i]
  {
    BagPermutes(env, s1, s2);
    SameElements(s1, s2);
    assert Elements(s1) == Elements(s2);
    StrictlySortedAgree(r1, r2);
    forall i | 0 <= i < |r1|
      ensures SameUpToEqualLocality(env, r1[i], r2[i])
      ensures LocalitiesApart(env, Bag(env, s1), r1[i].cluster) ==> r1[i] == r2[i]
    {
      AssignmentsAgree(env, Bag(env, s1), r1[i], r2[i]);
      if LocalitiesApart(env, Bag(env, s1), r1[i].cluster) {
        AssignmentsEqual(env, Bag(env, s1), r1[i], r2[i]);
      }
    }
  }

  /* ---- Conservation ---- */

  ghost function AllEndpoints(groups: seq<Group>): multiset<LbEndpoint> {
    if groups == [] then multiset{}
    else AllEndpoints(groups[..|groups| - 1]) + multiset(groups[|groups| - 1].endpoints)
  }

  /** All ways to an endpoint under a cluster, on whatever node. */
  ghost predicate Leads(env: Env, slices: seq<Slice>, cluster: string, e: LbEndpoint, x: Site) {
    IsSite(env, slices, x) && PlacementAt(env, slices, x).cluster == cluster && PlacementAt(env, slices, x).endpoint == e
  }

  /** Those on the first k of the listed nodes. */
  ghost function LeadsVia(env: Env, slices: seq<Slice>, cluster: string, e: LbEndpoint, nodes: seq<string>): set<Site> {
    set n, x | n in nodes && x in Sites(env, slices, Placement(cluster, n, e)) :: x
  }

  lemma {:induction false} EndpointsCount(
    env: Env, slices: seq<Slice>, cluster: string, groups: seq<Group>, nodes: seq<string>, e: LbEndpoint)
    requires |nodes| == |groups| && NoDuplicates(nodes)
    requires forall i :: 0 <= i < |groups| ==> IsGroup(env, Bag(env, slices), cluster, nodes[i], groups[i])
    ensures AllEndpoints(groups)[e] == |LeadsVia(env, slices, cluster, e, nodes)|
  {
    if groups != [] {
      var k := |groups| - 1;
      EndpointsCount(env, slices, cluster, groups[..k], nodes[..k], e);
      BagCountsSites(env, slices, Placement(cluster, nodes[k], e));
      LeadsSplit(env, slices, cluster, e, nodes);
    } else {
      assert LeadsVia(env, slices, cluster, e, nodes) == {};
    }
  }

  lemma LeadsGrow(env: Env, slices: seq<Slice>, cluster: string, e: LbEndpoint, nodes: seq<string>, node: string)
    ensures LeadsVia(env, slices, cluster, e, nodes + [node]) ==
      LeadsVia(env, slices, cluster, e, nodes) + Sites(env, slices, Placement(cluster, node, e))
  {
    forall n ensures n in nodes + [node] <==> n in nodes || n == node {}
  }

  lemma LeadsSplit(env: Env, slices: seq<Slice>, cluster: string, e: LbEndpoint, nodes: seq<string>)
    requires nodes != [] && NoDuplicates(nodes)
    ensures var k := |nodes| - 1;
      |LeadsVia(env, slices, cluster, e, nodes)| ==
      |LeadsVia(env, slices, cluster, e, nodes[..k])| + |Sites(env, slices, Placement(cluster, nodes[k], e))|
  {
    var init, node := nodes[..|nodes| - 1], nodes[|nodes| - 1];
    assert nodes == init + [node] && node !in init;
    LeadsGrow(env, slices, cluster, e, init, node);
    LeadsApart(env, slices, cluster, e, init, node);
    CountSplits(LeadsVia(env, slices, cluster, e, nodes), LeadsVia(env, slices, cluster, e, init),
      Sites(env, slices, Placement(cluster, node, e)));
  }

  lemma LeadsApart(env: Env, slices: seq<Slice>, cluster: string, e: LbEndpoint, nodes: seq<string>, node: string)
    requires node !in nodes
    ensures LeadsVia(env, slices, cluster, e, nodes) * Sites(env, slices, Placement(cluster, node, e)) == {}
  {
    forall x | x in LeadsVia(env, slices, cluster, e, nodes)
      ensures x !in Sites(env, slices, Placement(cluster, node, e))
    {
      var n :| n in nodes && x in Sites(env, slices, Placement(cluster, n, e));
      InSites(env, slices, Placement(cluster, n, e), x);
      InSites(env, slices, Placement(cluster, node, e), x);
    }
  }

  /** Nothing is lost and nothing is made up: across its groups a cluster holds an endpoint
      exactly as often as slices, nameable ports, admitted endpoints and addresses lead to
      it, and no group is empty. */
  lemma Conservation(env: Env, slices: seq<Slice>, a: Assignment, e: LbEndpoint) returns (ways: set<Site>)
    requires IsAssignment(env, Bag(env, slices), a)
    ensures forall x :: x in ways <==> Leads(env, slices, a.cluster, e, x)
    ensures AllEndpoints(a.groups)[e] == |ways|
    ensures forall g :: g in a.groups ==> g.endpoints != []
  {
    var nodes :| GroupsByNode(env, Bag(env, slices), a.cluster, a.groups, nodes);
    EndpointsCount(env, slices, a.cluster, a.groups, nodes, e);
    ways := LeadsVia(env, slices, a.cluster, e, nodes);
    forall x ensures x in ways <==> Leads(env, slices, a.cluster, e, x) {
      if Leads(env, slices, a.cluster, e, x) {
        var p := PlacementAt(env, slices, x);
        InSites(env, slices, p, x);
        BagCountsSites(env, slices, p);
        assert Sites(env, slices, p) != {};
        assert HasNode(Bag(env, slices), a.cluster, p.node);
      }
      if x in ways {
        var n :| n in nodes && x in Sites(env, slices, Placement(a.cluster, n, e));
        InSites(env, slices, Placement(a.cluster, n, e), x);
      }
    }
  }

  /* ---- Clusters without endpoints ---- */

  /** Some way leads to some endpoint of the cluster. */
  ghost predicate HasEndpoints(env: Env, slices: seq<Slice>, cluster: string) {
    exists e, x :: Leads(env, slices, cluster, e, x)
  }

  /** A cluster's assignment is empty exactly if every endpoint of every port that names the
      cluster is filtered out or has no address; it is announced all the same. */
  lemma EmptyIffNothingLeads(env: Env, slices: seq<Slice>, a: Assignment)
    requires IsAssignment(env, Bag(env, slices), a)
    ensures a.groups == [] <==> !HasEndpoints(env, slices, a.cluster)
  {
    if a.groups == [] {
      forall e, x ensures !Leads(env, slices, a.cluster, e, x) {
        var ways := Conservation(env, slices, a, e);
        assert AllEndpoints(a.groups)[e] == 0 && ways == {};
      }
    } else {
      var last := a.groups[|a.groups| - 1];
      assert last in a.groups;
      var nodes :| GroupsByNode(env, Bag(env, slices), a.cluster, a.groups, nodes);
      assert IsGroup(env, Bag(env, slices), a.cluster, nodes[|a.groups| - 1], last);
      var e := last.endpoints[0];
      var ways := Conservation(env, slices, a, e);
      assert multiset(last.endpoints)[e] > 0;
      assert AllEndpoints(a.groups)[e] > 0;
      var x :| x in ways;
      assert Leads(env, slices, a.cluster, e, x);
    }
  }

  /* ---- Which endpoints, in plain words ---- */

  lemma InItsGroup(env: Env, bag: multiset<Placement>, cluster: string, node: string, g: Group, e: LbEndpoint)
    requires IsGroup(env, bag, cluster, node, g) && Placement(cluster, node, e) in bag
    ensures g.locality == env.locality(node) && e in g.endpoints
  {
    assert multiset(g.endpoints)[e] == bag[Placement(cluster, node, e)];
  }

  ghost predicate Groups(env: Env, a: Assignment, node: string, e: LbEndpoint) {
    exists i :: 0 <= i < |a.groups| && a.groups[i].locality == env.locality(node) && e in a.groups[i].endpoints
  }

  lemma PlacedIsGrouped(env: Env, bag: multiset<Placement>, a: Assignment, p: Placement)
    requires IsAssignment(env, bag, a) && p in bag && p.cluster == a.cluster
    ensures Groups(env, a, p.node, p.endpoint)
  {
    var nodes :| GroupsByNode(env, bag, a.cluster, a.groups, nodes);
    assert Placement(a.cluster, p.node, p.endpoint) == p && HasNode(bag, a.cluster, p.node);
    var i :| 0 <= i < |nodes| && nodes[i] == p.node;
    InItsGroup(env, bag, a.cluster, p.node, a.groups[i], p.endpoint);
  }

  /** The slice's port goes by this cluster name and protocol, spelled out: a port without a
      number, or with a protocol that Envoy does not speak, goes by none. */
  ghost predicate GoesBy(es: Slice, port: Port, cluster: string, protocol: EnvoyProtocol) {
    && port.number.Some?
    && exists key :: StandsForPort(key, port.name.Or(""), port.number.value) && SpelledWith(es, port, key, cluster, protocol)
  }

  predicate SpelledWith(es: Slice, port: Port, key: string, cluster: string, protocol: EnvoyProtocol) {
    var service := "kubernetes.io/service-name";
    var text := es.namespace + ":" + (if service in es.labels then es.labels[service] else "") + ":" + key;
    if port.protocol == Some("UDP") then cluster == text + ":udp" && protocol == UDP
    else port.protocol in {None, Some(""), Some("TCP")} && cluster == text && protocol == TCP
  }

  lemma GoesByCluster(es: Slice, port: Port, cluster: string, protocol: EnvoyProtocol)
    ensures PortCluster(es, port) == Some(ClusterName(cluster, protocol)) <==> GoesBy(es, port, cluster, protocol)
  {
    if port.number.Some? {
      var svc, name, number := ServiceOf(es), port.name.Or(""), port.number.value;
      var proto := port.protocol.Or("TCP");
      var key := NameSpelled(svc.namespace, svc.name, name, number, proto);
      EmptyNameIffUnsupported(svc.namespace, svc.name, name, number, proto);
      var c := NameCluster(svc.namespace, svc.name, name, number, proto);
      assert Supported(proto) ==> SpelledWith(es, port, key, c.name, c.protocol);
      if other :| StandsForPort(other, name, number) && SpelledWith(es, port, other, cluster, protocol) {
        OnlyKey(key, other, name, number);
      }
    }
  }

  lemma OnlyKey(k1: string, k2: string, portName: string, number: Int32)
    requires StandsForPort(k1, portName, number) && StandsForPort(k2, portName, number)
    ensures k1 == k2
  {
    ItoaWrites(k1, number);
    ItoaWrites(k2, number);
  }

  /** How an address of the endpoint is listed: healthy, unless the endpoint is known not to be
      ready; then degraded, if such endpoints are to be included, and otherwise not at all. */
  predicate ListedAs(env: Env, port: Port, ep: Endpoint, e: LbEndpoint) {
    && port.number.Some? && e.address in ep.addresses && IsUint32(e.port, port.number.value)
    && if ep.ready == Some(false) then env.includeNotReady && e.health == DEGRADED else e.health == HEALTHY
  }

  ghost predicate StemsFrom(
    cluster: string, env: Env, node: string, e: LbEndpoint, es: Slice, port: Port, ep: Endpoint)
  {
    && port in es.ports && ep in es.endpoints && GoesBy(es, port, cluster, e.protocol)
    && ListedAs(env, port, ep, e) && node == (if ep.node.Some? then ep.node.value else "")
  }

  /** Some slice has the endpoint on this node, under a port that goes by the cluster's name. */
  ghost predicate Stems(env: Env, slices: seq<Slice>, cluster: string, node: string, e: LbEndpoint) {
    exists es, port, ep :: es in slices && StemsFrom(cluster, env, node, e, es, port, ep)
  }

  lemma OneUint32(v: nat, w: nat, port: Int32)
    requires IsUint32(v, port) && IsUint32(w, port)
    ensures v == w
  {
  }

  lemma SiteStems(env: Env, slices: seq<Slice>, p: Placement, x: Site)
    requires Hits(env, slices, p, x)
    ensures Stems(env, slices, p.cluster, p.node, p.endpoint)
  {
    var es := slices[x.slice];
    var port, ep := es.ports[x.port], es.endpoints[x.endpoint];
    GoesByCluster(es, port, p.cluster, p.endpoint.protocol);
    PortValueWraps(port.number.value);
    assert StemsFrom(p.cluster, env, p.node, p.endpoint, es, port, ep);
  }

  lemma StemHasSite(env: Env, slices: seq<Slice>, p: Placement) returns (x: Site)
    requires Stems(env, slices, p.cluster, p.node, p.endpoint)
    ensures Hits(env, slices, p, x)
  {
    var es, port, ep :| es in slices && StemsFrom(p.cluster, env, p.node, p.endpoint, es, port, ep);
    GoesByCluster(es, port, p.cluster, p.endpoint.protocol);
    PortValueWraps(port.number.value);
    OneUint32(PortValue(port.number.value), p.endpoint.port, port.number.value);
    var i :| 0 <= i < |slices| && slices[i] == es;
    var j :| 0 <= j < |es.ports| && es.ports[j] == port;
    var k :| 0 <= k < |es.endpoints| && es.endpoints[k] == ep;
    var l :| 0 <= l < |ep.addresses| && ep.addresses[l] == p.endpoint.address;
    x := Site(i, j, k, l);
  }

  lemma PlacedIffStems(env: Env, slices: seq<Slice>, p: Placement)
    ensures p in Bag(env, slices) <==> Stems(env, slices, p.cluster, p.node, p.endpoint)
  {
    BagCountsSites(env, slices, p);
    if p in Bag(env, slices) {
      assert Sites(env, slices, p) != {};
      var x :| x in Sites(env, slices, p);
      InSites(env, slices, p, x);
      SiteStems(env, slices, p, x);
    }
    if Stems(env, slices, p.cluster, p.node, p.endpoint) {
      var x := StemHasSite(env, slices, p);
      InSites(env, slices, p, x);
    }
  }

  /** An assignment lists exactly the addresses of the slices' endpoints under the ports that
      go by its name, each in the group of its node: ready ones and those that do not say as
      healthy, unready ones as degraded if they are to be included, with the port's number and
      protocol. */
  lemma ListsTheAddresses(env: Env, slices: seq<Slice>, result: seq<Assignment>, a: Assignment) returns (nodes: seq<string>)
    requires IsTranslation(env, slices, result) && a in result
    ensures |nodes| == |a.groups| && NoDuplicates(nodes)
    ensures forall i :: 0 <= i < |nodes| ==> a.groups[i].locality == env.locality(nodes[i])
    ensures forall i, e :: 0 <= i < |nodes| ==>
      (e in a.groups[i].endpoints <==> Stems(env, slices, a.cluster, nodes[i], e))
    ensures forall n, e :: Stems(env, slices, a.cluster, n, e) ==> n in nodes
  {
    var bag := Bag(env, slices);
    nodes :| GroupsByNode(env, bag, a.cluster, a.groups, nodes);
    forall i, e | 0 <= i < |nodes|
      ensures e in a.groups[i].endpoints <==> Stems(env, slices, a.cluster, nodes[i], e)
    {
      assert IsGroup(env, bag, a.cluster, nodes[i], a.groups[i]);
      PlacedIffStems(env, slices, Placement(a.cluster, nodes[i], e));
      assert multiset(a.groups[i].endpoints)[e] == bag[Placement(a.cluster, nodes[i], e)];
    }
    forall n, e | Stems(env, slices, a.cluster, n, e) ensures n in nodes {
      PlacedIffStems(env, slices, Placement(a.cluster, n, e));
      assert HasNode(bag, a.cluster, n);
    }
  }

  /** There is an assignment for exactly the names that ports go by. */
  lemma AssignsTheNames(env: Env, slices: seq<Slice>, result: seq<Assignment>, cluster: string)
    requires IsTranslation(env, slices, result)
    ensures (exists a :: a in result && a.cluster == cluster) <==>
      exists es, port, protocol :: es in slices && port in es.ports && GoesBy(es, port, cluster, protocol)
  {
    assert (exists a :: a in result && a.cluster == cluster) <==> cluster in NamesOf(Elements(slices));
    if es, port, protocol :| es in slices && port in es.ports && GoesBy(es, port, cluster, protocol) {
      GoesByCluster(es, port, cluster, protocol);
    }
    if cluster in NamesOf(Elements(slices)) {
      var es, port :| es in Elements(slices) && port in es.ports && PortCluster(es, port).Some?
        && PortCluster(es, port).value.name == cluster;
      GoesByCluster(es, port, cluster, PortCluster(es, port).value.protocol);
    }
  }
}
