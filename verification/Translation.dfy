/** From endpoint slices to cluster load assignments. Map iteration and sorting leave some
    order open, so the specification is a relation: what every run of the code satisfies. */
module Translation {
  import opened Options
  import opened Naming
  import opened Sequences
  import opened Slices
  import opened Text

  /** The clusters a set of slices has ports for, with or without endpoints. */
  function NamesOf(slices: set<Slice>): set<string> {
    set es, port | es in slices && port in es.ports && PortCluster(es, port).Some? :: PortCluster(es, port).value.name
  }

  function ClustersOf(result: seq<Assignment>): set<string> {
    set a | a in result :: a.cluster
  }

  ghost predicate SortedGroups(env: Env, groups: seq<Group>) {
    SortedBy(groups, (g: Group) => env.localityKey(g.locality))
  }

  /** The group holds exactly what the bag places under this cluster and node, sorted. */
  ghost predicate IsGroup(env: Env, bag: multiset<Placement>, cluster: string, node: string, g: Group) {
    && g.endpoints != []
    && g.locality == env.locality(node)
    && SortedBy(g.endpoints, env.endpointKey)
    && forall e :: multiset(g.endpoints)[e] == bag[Placement(cluster, node, e)]
  }

  ghost predicate HasNode(bag: multiset<Placement>, cluster: string, node: string) {
    exists e :: Placement(cluster, node, e) in bag
  }

  /** `nodes` names the node behind each group. */
  ghost predicate GroupsByNode(
    env: Env, bag: multiset<Placement>, cluster: string, groups: seq<Group>, nodes: seq<string>) {
    && |nodes| == |groups| && NoDuplicates(nodes)
    && (forall n :: n in nodes <==> HasNode(bag, cluster, n))
    && forall i :: 0 <= i < |groups| ==> IsGroup(env, bag, cluster, nodes[i], groups[i])
  }

  /** One group for each node with endpoints in the cluster, sorted by locality. */
  ghost predicate IsAssignment(env: Env, bag: multiset<Placement>, a: Assignment) {
    SortedGroups(env, a.groups) && exists nodes :: GroupsByNode(env, bag, a.cluster, a.groups, nodes)
  }

  /** A result of translating the slices: one assignment for each cluster they name, in
      strictly increasing order of name. */
  ghost predicate IsTranslation(env: Env, slices: seq<Slice>, result: seq<Assignment>) {
    && (forall i, j :: 0 <= i < j < |result| ==> Less(result[i].cluster, result[j].cluster))
    && ClustersOf(result) == NamesOf(Elements(slices))
    && (forall i :: 0 <= i < |result| ==> IsAssignment(env, Bag(env, slices), result[i]))
  }

  /* ---- Filing: the nested loops ---- */

  type ByNode = map<string, seq<LbEndpoint>>

  type Filing = map<string, ByNode>

  ghost function NodeCount(byNode: ByNode, node: string, e: LbEndpoint): nat {
    if node in byNode then multiset(byNode[node])[e] else 0
  }

  ghost predicate NoEmptyList(byNode: ByNode) {
    forall n :: n in byNode ==> byNode[n] != []
  }

  ghost predicate NoEmptyLists(f: Filing) {
    forall c :: c in f ==> NoEmptyList(f[c])
  }

  ghost function Count(f: Filing, p: Placement): nat {
    if p.cluster in f then NodeCount(f[p.cluster], p.node, p.endpoint) else 0
  }

  ghost predicate Files(f: Filing, names: set<string>, bag: multiset<Placement>) {
    f.Keys == names && NoEmptyLists(f) && forall p :: Count(f, p) == bag[p]
  }

  /** The lists have grown by what the bag places in the cluster. */
  ghost predicate Grown(before: ByNode, after: ByNode, cluster: string, bag: multiset<Placement>) {
    NoEmptyList(after) &&
    forall n, e :: NodeCount(after, n, e) == NodeCount(before, n, e) + bag[Placement(cluster, n, e)]
  }

  function ListOf(byNode: ByNode, node: string): seq<LbEndpoint> {
    if node in byNode then byNode[node] else []
  }

  lemma AppendGrows(
    before: ByNode, byNode: ByNode, cluster: string, bag: multiset<Placement>, node: string, e: LbEndpoint)
    requires Grown(before, byNode, cluster, bag)
    ensures Grown(before, byNode[node := ListOf(byNode, node) + [e]], cluster, bag + multiset{Placement(cluster, node, e)})
  {
    var after := byNode[node := ListOf(byNode, node) + [e]];
    forall n, e'
      ensures NodeCount(after, n, e') ==
        NodeCount(before, n, e') + (bag + multiset{Placement(cluster, node, e)})[Placement(cluster, n, e')]
    {
      assert multiset(ListOf(byNode, node) + [e]) == multiset(ListOf(byNode, node)) + multiset{e};
    }
  }

  lemma GrowsOn(
    before: ByNode, middle: ByNode, after: ByNode, cluster: string, b1: multiset<Placement>, b2: multiset<Placement>)
    requires Grown(before, middle, cluster, b1) && Grown(middle, after, cluster, b2)
    ensures Grown(before, after, cluster, b1 + b2)
  {
  }

  /** The endpoints of one slice under one cluster: for each admitted endpoint, each of its
      addresses is appended to the list of its node. */
  method FileEndpoints(env: Env, cluster: ClusterName, port: Port, eps: seq<Endpoint>, before: ByNode)
    returns (byNode: ByNode)
    requires port.number.Some? && NoEmptyList(before)
    ensures Grown(before, byNode, cluster.name, EndpointBag(env, cluster, port, eps))
  {
    byNode := before;
    for k := 0 to |eps|
      invariant Grown(before, byNode, cluster.name, EndpointBag(env, cluster, port, eps[..k]))
    {
      assert eps[..k + 1][..k] == eps[..k];
      var ep := eps[k];
      var health := HEALTHY;
      if !ep.ready.Or(true) {
        if !env.includeNotReady {
          continue;
        }
        health := DEGRADED;
      }
      var middle := byNode;
      byNode := FileAddresses(cluster, port, ep, health, middle);
      GrowsOn(before, middle, byNode, cluster.name, EndpointBag(env, cluster, port, eps[..k]),
        AddressBag(cluster, port, ep, ep.addresses));
    }
    assert eps[..|eps|] == eps;
  }

  method FileAddresses(cluster: ClusterName, port: Port, ep: Endpoint, health: Health, before: ByNode)
    returns (byNode: ByNode)
    requires port.number.Some? && NoEmptyList(before) && health == HealthOf(ep)
    ensures Grown(before, byNode, cluster.name, AddressBag(cluster, port, ep, ep.addresses))
  {
    byNode := before;
    var node := ep.node.Or("");
    for k := 0 to |ep.addresses|
      invariant Grown(before, byNode, cluster.name, AddressBag(cluster, port, ep, ep.addresses[..k]))
    {
      var e := LbEndpoint(ep.addresses[k], PortValue(port.number.value), cluster.protocol, health);
      AddressFiled(cluster, port, ep, before, byNode, k, e);
      byNode := byNode[node := (if node in byNode then byNode[node] else []) + [e]];
    }
    assert ep.addresses[..|ep.addresses|] == ep.addresses;
  }

  /** Appending the endpoint of one more address files that address. */
  lemma AddressFiled(
    cluster: ClusterName, port: Port, ep: Endpoint, before: ByNode, byNode: ByNode, k: nat, e: LbEndpoint)
    requires port.number.Some? && k < |ep.addresses|
    requires e == LbEndpoint(ep.addresses[k], PortValue(port.number.value), cluster.protocol, HealthOf(ep))
    requires Grown(before, byNode, cluster.name, AddressBag(cluster, port, ep, ep.addresses[..k]))
    ensures var node := ep.node.Or("");
      Grown(before, byNode[node := ListOf(byNode, node) + [e]], cluster.name,
        AddressBag(cluster, port, ep, ep.addresses[..k + 1]))
  {
    assert ep.addresses[..k + 1][..k] == ep.addresses[..k];
    AppendGrows(before, byNode, cluster.name, AddressBag(cluster, port, ep, ep.addresses[..k]), ep.node.Or(""), e);
  }

  lemma {:induction false} AddressesStayInCluster(
    c: ClusterName, port: Port, ep: Endpoint, addresses: seq<string>, p: Placement)
    requires port.number.Some? && p.cluster != c.name
    ensures AddressBag(c, port, ep, addresses)[p] == 0
  {
    if addresses != [] {
      AddressesStayInCluster(c, port, ep, addresses[..|addresses| - 1], p);
    }
  }

  lemma {:induction false} EndpointsStayInCluster(
    env: Env, c: ClusterName, port: Port, eps: seq<Endpoint>, p: Placement)
    requires port.number.Some? && p.cluster != c.name
    ensures EndpointBag(env, c, port, eps)[p] == 0
  {
    if eps != [] {
      var n := |eps| - 1;
      EndpointsStayInCluster(env, c, port, eps[..n], p);
      AddressesStayInCluster(c, port, eps[n], eps[n].addresses, p);
    }
  }

  ghost function PortNames(es: Slice, ports: seq<Port>): set<string> {
    set port | port in ports && PortCluster(es, port).Some? :: PortCluster(es, port).value.name
  }

  function NodesOf(f: Filing, cluster: string): ByNode {
    if cluster in f then f[cluster] else map[]
  }

  lemma FilingGrows(
    f: Filing, names: set<string>, bag: multiset<Placement>, cluster: string, byNode: ByNode, more: multiset<Placement>)
    requires Files(f, names, bag) && Grown(NodesOf(f, cluster), byNode, cluster, more)
    requires forall p: Placement :: p.cluster != cluster ==> more[p] == 0
    ensures Files(f[cluster := byNode], names + {cluster}, bag + more)
  {
    forall p: Placement ensures Count(f[cluster := byNode], p) == (bag + more)[p] {
      assert Count(f, p) == bag[p];
      assert p == Placement(p.cluster, p.node, p.endpoint);
    }
  }

  method FileSlice(env: Env, es: Slice, before: Filing, ghost names: set<string>, ghost bag: multiset<Placement>)
    returns (f: Filing)
    requires Files(before, names, bag)
    ensures Files(f, names + PortNames(es, es.ports), bag + PortBag(env, es, es.ports))
  {
    f := before;
    assert names + PortNames(es, es.ports[..0]) == names;
    for j := 0 to |es.ports|
      invariant Files(f, names + PortNames(es, es.ports[..j]), bag + PortBag(env, es, es.ports[..j]))
    {
      var port := es.ports[j];
      var cluster := PortCluster(es, port);
      if cluster.None? {
        PortStep(env, es, j, names, bag);
        continue;
      }
      var name := cluster.value.name;
      var byNode := FileEndpoints(env, cluster.value, port, es.endpoints, if name in f then f[name] else map[]);
      PortFiled(env, es, j, names, bag, f, byNode);
      f := f[name := byNode];
    }
    assert es.ports[..|es.ports|] == es.ports;
  }

  /** Putting the grown node lists of one port back files that port. */
  lemma PortFiled(
    env: Env, es: Slice, j: nat, names: set<string>, bag: multiset<Placement>, f: Filing, byNode: ByNode)
    requires j < |es.ports| && PortCluster(es, es.ports[j]).Some?
    requires Files(f, names + PortNames(es, es.ports[..j]), bag + PortBag(env, es, es.ports[..j]))
    requires var c := PortCluster(es, es.ports[j]).value;
      Grown(NodesOf(f, c.name), byNode, c.name, EndpointBag(env, c, es.ports[j], es.endpoints))
    ensures var c := PortCluster(es, es.ports[j]).value;
      Files(f[c.name := byNode], names + PortNames(es, es.ports[..j + 1]), bag + PortBag(env, es, es.ports[..j + 1]))
  {
    var port, c := es.ports[j], PortCluster(es, es.ports[j]).value;
    PortStep(env, es, j, names, bag);
    ClusterStays(env, c, port, es.endpoints);
    FilingGrows(f, names + PortNames(es, es.ports[..j]), bag + PortBag(env, es, es.ports[..j]), c.name, byNode,
      EndpointBag(env, c, port, es.endpoints));
  }

  lemma ClusterStays(env: Env, c: ClusterName, port: Port, eps: seq<Endpoint>)
    requires port.number.Some?
    ensures forall p: Placement :: p.cluster != c.name ==> EndpointBag(env, c, port, eps)[p] == 0
  {
    forall p: Placement | p.cluster != c.name ensures EndpointBag(env, c, port, eps)[p] == 0 {
      EndpointsStayInCluster(env, c, port, eps, p);
    }
  }

  /** What one more port adds to the names and to the bag. */
  lemma PortStep(env: Env, es: Slice, j: nat, names: set<string>, bag: multiset<Placement>)
    requires j < |es.ports|
    ensures var c := PortCluster(es, es.ports[j]);
      var names1, bag1 := names + PortNames(es, es.ports[..j]), bag + PortBag(env, es, es.ports[..j]);
      var names2, bag2 := names + PortNames(es, es.ports[..j + 1]), bag + PortBag(env, es, es.ports[..j + 1]);
      if c.None? then names2 == names1 && bag2 == bag1
      else names2 == names1 + {c.value.name} && bag2 == bag1 + EndpointBag(env, c.value, es.ports[j], es.endpoints)
  {
    assert es.ports[..j + 1][..j] == es.ports[..j];
    NamesStep(es, j, names);
  }

  lemma NamesStep(es: Slice, j: nat, names: set<string>)
    requires j < |es.ports|
    ensures var c := PortCluster(es, es.ports[j]);
      names + PortNames(es, es.ports[..j + 1]) ==
      (names + PortNames(es, es.ports[..j])) + (if c.Some? then {c.value.name} else {})
  {
    assert es.ports[..j + 1] == es.ports[..j] + [es.ports[j]];
    PortNamesGrow(es, es.ports[..j], es.ports[j]);
  }

  lemma PortNamesGrow(es: Slice, ports: seq<Port>, port: Port)
    ensures PortNames(es, ports + [port]) ==
      PortNames(es, ports) + if PortCluster(es, port).Some? then {PortCluster(es, port).value.name} else {}
  {
    forall p | p in ports ensures p in ports + [port] {}
    assert port in ports + [port];
  }

  /* ---- Collecting: groups and assignments, sorted ---- */

  lemma ListedNodes(byNode: ByNode, cluster: string, bag: multiset<Placement>)
    requires NoEmptyList(byNode) && forall n, e :: NodeCount(byNode, n, e) == bag[Placement(cluster, n, e)]
    ensures forall n :: n in byNode <==> HasNode(bag, cluster, n)
  {
    forall n ensures n in byNode <==> HasNode(bag, cluster, n) {
      if n in byNode {
        var e := byNode[n][0];
        assert NodeCount(byNode, n, e) > 0;
        assert Placement(cluster, n, e) in bag;
      }
      if HasNode(bag, cluster, n) {
        var e :| Placement(cluster, n, e) in bag;
        assert NodeCount(byNode, n, e) > 0;
      }
    }
  }

  method BuildGroups(env: Env, cluster: string, byNode: ByNode, ghost bag: multiset<Placement>)
    returns (groups: seq<Group>)
    requires NoEmptyList(byNode) && forall n, e :: NodeCount(byNode, n, e) == bag[Placement(cluster, n, e)]
    ensures IsAssignment(env, bag, Assignment(cluster, groups))
  {
    var unsorted: seq<Group> := [];
    ghost var nodes: seq<string> := [];
    var rest := byNode.Keys;
    while rest != {}
      invariant rest <= byNode.Keys && |nodes| == |unsorted| && NoDuplicates(nodes)
      invariant forall n :: n in nodes <==> n in byNode.Keys - rest
      invariant forall i :: 0 <= i < |unsorted| ==> IsGroup(env, bag, cluster, nodes[i], unsorted[i])
    {
      var node :| node in rest;
      var endpoints := Sort(byNode[node], env.endpointKey);
      SameLength(endpoints, byNode[node]);
      var g := Group(env.locality(node), endpoints);
      assert IsGroup(env, bag, cluster, node, g) by {
        forall e ensures multiset(endpoints)[e] == bag[Placement(cluster, node, e)] {
          assert NodeCount(byNode, node, e) == bag[Placement(cluster, node, e)];
        }
      }
      assert node !in nodes;
      unsorted := unsorted + [g];
      nodes := nodes + [node];
      rest := rest - {node};
    }
    ListedNodes(byNode, cluster, bag);
    assert GroupsByNode(env, bag, cluster, unsorted, nodes);
    groups := Sort(unsorted, (g: Group) => env.localityKey(g.locality));
    GroupsPermute(env, bag, cluster, unsorted, nodes, groups);
  }

  lemma GroupsPermute(
    env: Env, bag: multiset<Placement>, cluster: string, groups: seq<Group>, nodes: seq<string>, groups': seq<Group>)
    requires GroupsByNode(env, bag, cluster, groups, nodes) && multiset(groups) == multiset(groups')
    ensures exists nodes' :: GroupsByNode(env, bag, cluster, groups', nodes')
  {
    var nodes', at := PermuteAlong(groups, nodes, groups');
    SameElements(nodes, nodes');
    PermutedNoDuplicates(nodes, nodes');
    assert GroupsByNode(env, bag, cluster, groups', nodes');
  }

  method LoadAssignments(env: Env, slices: seq<Slice>) returns (result: seq<Assignment>)
    ensures IsTranslation(env, slices, result)
  {
    var f: Filing := map[];
    ghost var names: set<string> := {};
    for i := 0 to |slices|
      invariant names == NamesOf(Elements(slices[..i]))
      invariant Files(f, names, Bag(env, slices[..i]))
    {
      assert slices[..i + 1][..i] == slices[..i];
      NamesGrow(slices[..i], slices[i]);
      assert slices[..i + 1] == slices[..i] + [slices[i]];
      f := FileSlice(env, slices[i], f, names, Bag(env, slices[..i]));
      names := names + PortNames(slices[i], slices[i].ports);
    }
    assert slices[..|slices|] == slices;
    result := Collect(env, f, names, Bag(env, slices));
  }

  lemma NamesGrow(slices: seq<Slice>, es: Slice)
    ensures NamesOf(Elements(slices + [es])) == NamesOf(Elements(slices)) + PortNames(es, es.ports)
  {
    assert Elements(slices + [es]) == Elements(slices) + {es};
    forall c | c in NamesOf(Elements(slices)) + PortNames(es, es.ports) ensures c in NamesOf(Elements(slices) + {es}) {
      if c in PortNames(es, es.ports) {
        assert es in Elements(slices) + {es};
      }
    }
  }

  method Collect(env: Env, f: Filing, ghost names: set<string>, ghost bag: multiset<Placement>)
    returns (result: seq<Assignment>)
    requires Files(f, names, bag)
    ensures forall i, j :: 0 <= i < j < |result| ==> Less(result[i].cluster, result[j].cluster)
    ensures ClustersOf(result) == names
    ensures forall i :: 0 <= i < |result| ==> IsAssignment(env, bag, result[i])
  {
    var unsorted: seq<Assignment> := [];
    var rest := f.Keys;
    while rest != {}
      invariant rest <= f.Keys && ClustersOf(unsorted) == f.Keys - rest
      invariant forall i, j :: 0 <= i < j < |unsorted| ==> unsorted[i].cluster != unsorted[j].cluster
      invariant forall i :: 0 <= i < |unsorted| ==> IsAssignment(env, bag, unsorted[i])
    {
      var cluster :| cluster in rest;
      FiledInCluster(f, names, bag, cluster);
      var groups := BuildGroups(env, cluster, f[cluster], bag);
      ClustersGrow(unsorted, Assignment(cluster, groups));
      unsorted := unsorted + [Assignment(cluster, groups)];
      rest := rest - {cluster};
    }
    result := Sort(unsorted, (a: Assignment) => a.cluster);
    SortedStrictly(unsorted, result);
    AssignmentsPermute(env, bag, unsorted, result);
  }

  lemma FiledInCluster(f: Filing, names: set<string>, bag: multiset<Placement>, cluster: string)
    requires Files(f, names, bag) && cluster in f
    ensures forall n, e :: NodeCount(f[cluster], n, e) == bag[Placement(cluster, n, e)]
  {
    forall n, e ensures NodeCount(f[cluster], n, e) == bag[Placement(cluster, n, e)] {
      assert Count(f, Placement(cluster, n, e)) == bag[Placement(cluster, n, e)];
    }
  }

  lemma AssignmentsPermute(env: Env, bag: multiset<Placement>, xs: seq<Assignment>, ys: seq<Assignment>)
    requires multiset(xs) == multiset(ys) && forall i :: 0 <= i < |xs| ==> IsAssignment(env, bag, xs[i])
    ensures ClustersOf(xs) == ClustersOf(ys) && forall i :: 0 <= i < |ys| ==> IsAssignment(env, bag, ys[i])
  {
    SameElements(xs, ys);
    forall i | 0 <= i < |ys| ensures IsAssignment(env, bag, ys[i]) {
      assert ys[i] in xs;
    }
  }

  lemma ClustersGrow(result: seq<Assignment>, a: Assignment)
    ensures ClustersOf(result + [a]) == ClustersOf(result) + {a.cluster}
    ensures a.cluster !in ClustersOf(result) ==> forall i :: 0 <= i < |result| ==> result[i].cluster != a.cluster
  {
    assert a in result + [a];
  }

  /** Sorting by a key that tells all elements apart sorts strictly. */
  lemma SortedStrictly(xs: seq<Assignment>, ys: seq<Assignment>)
    requires multiset(xs) == multiset(ys) && SortedBy(ys, (a: Assignment) => a.cluster)
    requires forall i, j :: 0 <= i < j < |xs| ==> xs[i].cluster != xs[j].cluster
    ensures forall i, j :: 0 <= i < j < |ys| ==> Less(ys[i].cluster, ys[j].cluster)
  {
    var clusters := seq(|xs|, i requires 0 <= i < |xs| => xs[i].cluster);
    var clusters', at := PermuteAlong(xs, clusters, ys);
    PermutedNoDuplicates(clusters, clusters');
    forall i, j | 0 <= i < j < |ys| ensures Less(ys[i].cluster, ys[j].cluster) {
      LessTotal(ys[i].cluster, ys[j].cluster);
      assert ys[i].cluster == clusters'[i] && ys[j].cluster == clusters'[j];
    }
  }

  /** The names alone, without looking at endpoints: the first of the two naming passes. */
  method ClusterNames(slices: map<string, Slice>) returns (clusters: set<string>)
    ensures clusters == NamesOf(slices.Values)
  {
    clusters := {};
    ghost var done: set<Slice> := {};
    var rest := slices.Keys;
    while rest != {}
      invariant rest <= slices.Keys
      invariant done == set k | k in slices.Keys - rest :: slices[k]
      invariant clusters == NamesOf(done)
    {
      var k :| k in rest;
      clusters := AddPortNames(slices[k], clusters);
      NamesOfOneMore(done, slices[k]);
      done := done + {slices[k]};
      rest := rest - {k};
    }
    assert done == slices.Values;
  }

  method AddPortNames(es: Slice, before: set<string>) returns (clusters: set<string>)
    ensures clusters == before + PortNames(es, es.ports)
  {
    clusters := before;
    for j := 0 to |es.ports|
      invariant clusters == before + PortNames(es, es.ports[..j])
    {
      var c := PortCluster(es, es.ports[j]);
      NamesStep(es, j, before);
      if c.None? {
        continue;
      }
      clusters := clusters + {c.value.name};
    }
    assert es.ports[..|es.ports|] == es.ports;
  }

  lemma NamesOfOneMore(slices: set<Slice>, es: Slice)
    ensures NamesOf(slices + {es}) == NamesOf(slices) + PortNames(es, es.ports)
  {
    forall c | c in NamesOf(slices) + PortNames(es, es.ports) ensures c in NamesOf(slices + {es}) {
      if c in PortNames(es, es.ports) {
        assert es in slices + {es};
      }
    }
  }
}
