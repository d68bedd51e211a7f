/** The incremental endpoint index as a relation between states, and why it always agrees
    with translating every stored slice from scratch. */
module EndpointIndex {
  import opened Naming
  import opened Options
  import opened Registry
  import opened Sequences
  import opened Slices
  import opened Text
  import opened Translation
  import opened TranslationLaws

  /** serverESs: for each service, its slices by name. */
  type Store = map<NamespacedName, map<string, Slice>>

  datatype Op = AddSlice | UpdateSlice | DeleteSlice

  /** The endpoints manager files an assignment under its cluster. */
  ghost predicate NamedByCluster(kind: Kind<Assignment>) {
    forall a :: kind.name(a) == a.cluster
  }

  /** What the reflector passes: an endpoint slice, or something else. */
  datatype Object = SliceObject(es: Slice) | OtherObject

  function AllSlices(store: Store): set<Slice> {
    set svc, n | svc in store && n in store[svc] :: store[svc][n]
  }

  function SlicesOf(store: Store, svc: NamespacedName): map<string, Slice> {
    if svc in store then store[svc] else map[]
  }

  /** Every slice under its own service and its own name, and no service without slices. */
  ghost predicate Filed(store: Store) {
    forall svc :: svc in store ==> store[svc] != map[] && FiledUnder(svc, store[svc])
  }

  ghost predicate FiledUnder(svc: NamespacedName, slices: map<string, Slice>) {
    forall n :: n in slices ==> slices[n].name == n && ServiceOf(slices[n]) == svc
  }

  /** No colons in the identifiers a cluster name is made of. */
  ghost predicate WellNamed(es: Slice) {
    && ColonFree(es.namespace) && ColonFree(ServiceOf(es).name)
    && forall port :: port in es.ports ==> ColonFree(port.name.Or(""))
  }

  ghost predicate AllWellNamed(slices: set<Slice>) {
    forall es :: es in slices ==> WellNamed(es)
  }

  function Edited(op: Op, slices: map<string, Slice>, es: Slice): map<string, Slice> {
    if op.DeleteSlice? then slices - {es.name} else slices[es.name := es]
  }

  /** A service left without slices is forgotten. */
  function Refiled(store: Store, svc: NamespacedName, slices: map<string, Slice>): Store {
    if slices == map[] then store - {svc} else store[svc := slices]
  }

  function StoreAfter(store: Store, op: Op, es: Slice): Store {
    Refiled(store, ServiceOf(es), Edited(op, SlicesOf(store, ServiceOf(es)), es))
  }

  function FileAll(slices: seq<Slice>): Store {
    if slices == [] then map[] else
    StoreAfter(FileAll(slices[..|slices| - 1]), AddSlice, slices[|slices| - 1])
  }

  /** maps.Values: the values under some order of the keys. */
  ghost predicate ListsValues(xs: seq<Slice>, slices: map<string, Slice>) {
    exists ks: seq<string> :: Enumerates(ks, slices.Keys) && |ks| == |xs|
      && forall i :: 0 <= i < |ks| ==> xs[i] == slices[ks[i]]
  }

  /* ---- Bags of sets of slices ---- */

  ghost function Listing(slices: set<Slice>): (xs: seq<Slice>)
    ensures Enumerates(xs, slices)
  {
    if slices == {} then [] else
    var es :| es in slices;
    Listing(slices - {es}) + [es]
  }

  ghost function BagOf(env: Env, slices: set<Slice>): multiset<Placement> {
    Bag(env, Listing(slices))
  }

  lemma BagOfListing(env: Env, xs: seq<Slice>, slices: set<Slice>)
    requires Enumerates(xs, slices)
    ensures Bag(env, xs) == BagOf(env, slices) && Elements(xs) == slices
  {
    ListingsPermute(xs, Listing(slices), slices);
    BagPermutes(env, xs, Listing(slices));
  }

  lemma BagOfUnion(env: Env, xs: set<Slice>, ys: set<Slice>)
    requires xs !! ys
    ensures BagOf(env, xs + ys) == BagOf(env, xs) + BagOf(env, ys)
  {
    var ls, ms := Listing(xs), Listing(ys);
    assert NoDuplicates(ls + ms) by {
      forall i, j | 0 <= i < j < |ls + ms| ensures (ls + ms)[i] != (ls + ms)[j] {
        if i < |ls| <= j { assert ls[i] in xs && ms[j - |ls|] in ys; }
      }
    }
    BagOfListing(env, ls + ms, xs + ys);
    BagConcat(env, ls, ms);
  }

  lemma {:induction false} PortsStayNamed(env: Env, es: Slice, ports: seq<Port>, p: Placement)
    requires p.cluster !in PortNames(es, ports)
    ensures PortBag(env, es, ports)[p] == 0
  {
    if ports != [] {
      var n := |ports| - 1;
      assert ports == ports[..n] + [ports[n]];
      PortNamesGrow(es, ports[..n], ports[n]);
      PortsStayNamed(env, es, ports[..n], p);
      var c := PortCluster(es, ports[n]);
      if c.Some? {
        EndpointsStayInCluster(env, c.value, ports[n], es.endpoints, p);
      }
    }
  }

  lemma {:induction false} SlicesStayNamed(env: Env, slices: seq<Slice>, p: Placement)
    requires p.cluster !in NamesOf(Elements(slices))
    ensures Bag(env, slices)[p] == 0
  {
    if slices != [] {
      var n := |slices| - 1;
      assert slices == slices[..n] + [slices[n]];
      NamesGrow(slices[..n], slices[n]);
      SlicesStayNamed(env, slices[..n], p);
      PortsStayNamed(env, slices[n], slices[n].ports, p);
    }
  }

  /** Slices that do not name a cluster place nothing in it. */
  lemma UnnamedPlacesNothing(env: Env, slices: set<Slice>, p: Placement)
    requires p.cluster !in NamesOf(slices)
    ensures BagOf(env, slices)[p] == 0
  {
    BagOfListing(env, Listing(slices), slices);
    SlicesStayNamed(env, Listing(slices), p);
  }

  lemma NamesOfUnion(xs: set<Slice>, ys: set<Slice>)
    ensures NamesOf(xs + ys) == NamesOf(xs) + NamesOf(ys)
  {
  }

  /** An assignment depends only on what the bag places in its cluster. */
  lemma AssignmentLocal(env: Env, bag: multiset<Placement>, bag': multiset<Placement>, a: Assignment)
    requires IsAssignment(env, bag, a)
    requires forall n, e :: bag[Placement(a.cluster, n, e)] == bag'[Placement(a.cluster, n, e)]
    ensures IsAssignment(env, bag', a)
  {
    var nodes :| GroupsByNode(env, bag, a.cluster, a.groups, nodes);
    forall n ensures HasNode(bag, a.cluster, n) == HasNode(bag', a.cluster, n) {
      forall e ensures Placement(a.cluster, n, e) in bag <==> Placement(a.cluster, n, e) in bag' {
        assert bag[Placement(a.cluster, n, e)] == bag'[Placement(a.cluster, n, e)];
      }
    }
    assert GroupsByNode(env, bag', a.cluster, a.groups, nodes);
  }

  /** Well-named slices of different services name different clusters. */
  lemma OneOwner(a: Slice, pa: Port, b: Slice, pb: Port)
    requires WellNamed(a) && WellNamed(b) && pa in a.ports && pb in b.ports
    requires PortCluster(a, pa).Some? && PortCluster(b, pb).Some?
    requires PortCluster(a, pa).value.name == PortCluster(b, pb).value.name
    ensures ServiceOf(a) == ServiceOf(b)
  {
    var s, t := ServiceOf(a), ServiceOf(b);
    EmptyNameIffUnsupported(s.namespace, s.name, pa.name.Or(""), pa.number.value, pa.protocol.Or("TCP"));
    EmptyNameIffUnsupported(t.namespace, t.name, pb.name.Or(""), pb.number.value, pb.protocol.Or("TCP"));
    NamesAgree(s.namespace, s.name, pa.name.Or(""), pa.number.value, pa.protocol.Or("TCP"),
      t.namespace, t.name, pb.name.Or(""), pb.number.value, pb.protocol.Or("TCP"));
  }

  lemma ServicesNameApart(xs: set<Slice>, ys: set<Slice>)
    requires AllWellNamed(xs) && AllWellNamed(ys)
    requires forall a, b :: a in xs && b in ys ==> ServiceOf(a) != ServiceOf(b)
    ensures NamesOf(xs) !! NamesOf(ys)
  {
    forall c | c in NamesOf(xs) && c in NamesOf(ys) ensures false {
      var a, pa :| a in xs && pa in a.ports && PortCluster(a, pa).Some? && PortCluster(a, pa).value.name == c;
      var b, pb :| b in ys && pb in b.ports && PortCluster(b, pb).Some? && PortCluster(b, pb).value.name == c;
      OneOwner(a, pa, b, pb);
    }
  }

  /* ---- The published map ---- */

  type Published = map<string, Assignment>

  /** The map holds exactly the clusters the slices name, each with an assignment that is
      right for all the slices together. */
  ghost predicate Publishes(env: Env, pub: Published, slices: set<Slice>) {
    pub.Keys == NamesOf(slices) && RightFor(env, BagOf(env, slices), pub)
  }

  ghost predicate RightFor(env: Env, bag: multiset<Placement>, pub: Published) {
    forall c :: c in pub ==> pub[c].cluster == c && IsAssignment(env, bag, pub[c])
  }

  /** Whatever a translation of all the slices from scratch yields, in whatever order they
      come, the map holds the same clusters with the same assignments, up to the order of
      groups whose localities read the same. */
  lemma PublishedIsFromScratch(env: Env, pub: Published, slices: set<Slice>, xs: seq<Slice>, full: seq<Assignment>)
    requires Publishes(env, pub, slices) && Enumerates(xs, slices) && IsTranslation(env, xs, full)
    requires Injective(env.endpointKey)
    ensures pub.Keys == ClustersOf(full)
    ensures forall i :: 0 <= i < |full| ==> SameUpToEqualLocality(env, pub[full[i].cluster], full[i])
  {
    BagOfListing(env, xs, slices);
    forall i | 0 <= i < |full|
      ensures full[i].cluster in pub && SameUpToEqualLocality(env, pub[full[i].cluster], full[i])
    {
      assert full[i] in full;
      AssignmentsAgree(env, BagOf(env, slices), pub[full[i].cluster], full[i]);
    }
  }

  /* ---- One update ---- */

  /** update(op, es): the clusters that disappeared are deleted, the translation of what the
      service has now is added. It succeeds if every assignment validates. */
  ghost predicate Updates(
    env: Env, kind: Kind<Assignment>, store: Store, pub: Published, op: Op, es: Slice, pub': Published, ok: bool,
    xs: seq<Slice>, las: seq<Assignment>)
  {
    var before := SlicesOf(store, ServiceOf(es));
    var after := Edited(op, before, es);
    && ListsValues(xs, after) && IsTranslation(env, xs, las)
    && pub' == Effect(kind, pub - (NamesOf(before.Values) - ClustersOf(las)), Add(las))
    && ok == AllValid(kind, las)
  }

  lemma ValuesAreElements(xs: seq<Slice>, slices: map<string, Slice>)
    requires ListsValues(xs, slices)
    ensures Elements(xs) == slices.Values
  {
    var ks: seq<string> :| Enumerates(ks, slices.Keys) && |ks| == |xs|
      && forall i :: 0 <= i < |ks| ==> xs[i] == slices[ks[i]];
    forall es | es in slices.Values ensures es in xs {
      var n :| n in slices && slices[n] == es;
      assert n in ks;
      var i :| 0 <= i < |ks| && ks[i] == n;
      assert xs[i] == es;
    }
    forall es | es in xs ensures es in slices.Values {
      var i :| 0 <= i < |xs| && xs[i] == es;
      assert ks[i] in ks;
    }
  }

  lemma ListedOnce(xs: seq<Slice>, slices: map<string, Slice>)
    requires ListsValues(xs, slices) && forall n :: n in slices ==> slices[n].name == n
    ensures Enumerates(xs, slices.Values)
  {
    ValuesAreElements(xs, slices);
    forall es ensures es in xs <==> es in slices.Values { assert es in xs <==> es in Elements(xs); }
    var ks: seq<string> :| Enumerates(ks, slices.Keys) && |ks| == |xs|
      && forall i :: 0 <= i < |ks| ==> xs[i] == slices[ks[i]];
    forall i, j | 0 <= i < j < |xs| ensures xs[i] != xs[j] {
      assert ks[i] in ks && ks[j] in ks;
    }
  }

  lemma EditedFiled(op: Op, svc: NamespacedName, slices: map<string, Slice>, es: Slice)
    requires FiledUnder(svc, slices) && ServiceOf(es) == svc
    ensures FiledUnder(svc, Edited(op, slices, es))
  {
  }

  lemma UpdateKeepsFiled(store: Store, op: Op, es: Slice)
    requires Filed(store)
    ensures Filed(StoreAfter(store, op, es))
  {
    EditedFiled(op, ServiceOf(es), SlicesOf(store, ServiceOf(es)), es);
  }

  /** The slices of all services but one. */
  ghost function Others(store: Store, svc: NamespacedName): set<Slice> {
    AllSlices(store - {svc})
  }

  lemma AllButOne(store: Store, svc: NamespacedName)
    requires Filed(store)
    ensures AllSlices(store) == SlicesOf(store, svc).Values + Others(store, svc)
    ensures forall es :: es in Others(store, svc) ==> ServiceOf(es) != svc
    ensures forall es :: es in SlicesOf(store, svc).Values ==> ServiceOf(es) == svc
  {
    forall es ensures es in AllSlices(store) <==> es in SlicesOf(store, svc).Values || es in Others(store, svc) {
      StoredWhere(store, es);
      StoredWhere(store - {svc}, es);
      if es in SlicesOf(store, svc).Values {
        var n :| n in SlicesOf(store, svc) && SlicesOf(store, svc)[n] == es;
      }
      if Stored(store, svc, es) {
        var n :| n in store[svc] && store[svc][n] == es;
        assert SlicesOf(store, svc)[n] == es;
      }
    }
    forall es | es in Others(store, svc) ensures ServiceOf(es) != svc {
      StoredWhere(store - {svc}, es);
    }
    forall es | es in SlicesOf(store, svc).Values ensures ServiceOf(es) == svc {
      var n :| n in SlicesOf(store, svc) && SlicesOf(store, svc)[n] == es;
    }
  }

  ghost predicate Stored(store: Store, svc: NamespacedName, es: Slice) {
    svc in store && es.name in store[svc] && store[svc][es.name] == es
  }

  /** In a filed index a slice is found under its service and its name, or not at all. */
  lemma StoredWhere(store: Store, es: Slice)
    requires Filed(store)
    ensures es in AllSlices(store) <==> Stored(store, ServiceOf(es), es)
  {
    if es in AllSlices(store) {
      var t, n :| t in store && n in store[t] && store[t][n] == es;
    }
    if Stored(store, ServiceOf(es), es) {
      assert es.name in store[ServiceOf(es)];
    }
  }

  lemma RefiledSlices(store: Store, svc: NamespacedName, slices: map<string, Slice>)
    ensures Others(Refiled(store, svc, slices), svc) == Others(store, svc)
    ensures SlicesOf(Refiled(store, svc, slices), svc) == slices
  {
    assert Refiled(store, svc, slices) - {svc} == store - {svc};
  }

  /** The heart of it: one service's slices change from `before` to `after`, the rest stays;
      replacing that service's clusters in the map is as good as translating everything. */
  lemma SwapsOneService(
    env: Env, kind: Kind<Assignment>, pub: Published, rest: set<Slice>, before: set<Slice>, after: set<Slice>,
    xs: seq<Slice>, las: seq<Assignment>)
    requires Publishes(env, pub, before + rest)
    requires before !! rest && after !! rest
    requires NamesOf(before) !! NamesOf(rest) && NamesOf(after) !! NamesOf(rest)
    requires Enumerates(xs, after) && IsTranslation(env, xs, las)
    requires NamedByCluster(kind)
    ensures Publishes(env, PutAll(kind, pub - (NamesOf(before) - ClustersOf(las)), las), after + rest)
  {
    var kept := pub - (NamesOf(before) - ClustersOf(las));
    var pub' := PutAll(kind, kept, las);
    BagOfListing(env, xs, after);
    LastWins(kind, kept, las);
    assert Names(kind, las) == ClustersOf(las);
    NamesOfUnion(before, rest);
    NamesOfUnion(after, rest);
    assert pub'.Keys == NamesOf(after + rest);
    BagOfUnion(env, before, rest);
    BagOfUnion(env, after, rest);
    forall c | c in pub' ensures pub'[c].cluster == c && IsAssignment(env, BagOf(env, after + rest), pub'[c]) {
      if c in NamesOf(after) {
        var i := NamedAt(kind, las, c);
        assert pub'[c] == las[i];
        RightAmongOthers(env, rest, after, xs, las[i]);
      } else {
        assert pub'[c] == pub[c];
        forall n, e ensures BagOf(env, before + rest)[Placement(c, n, e)] == BagOf(env, after + rest)[Placement(c, n, e)] {
          UnnamedPlacesNothing(env, before, Placement(c, n, e));
          UnnamedPlacesNothing(env, after, Placement(c, n, e));
        }
        AssignmentLocal(env, BagOf(env, before + rest), BagOf(env, after + rest), pub[c]);
      }
    }
  }

  /** What is right for the slices that name a cluster is right for these and others. */
  lemma RightAmongOthers(env: Env, rest: set<Slice>, own: set<Slice>, xs: seq<Slice>, a: Assignment)
    requires own !! rest && Enumerates(xs, own) && a.cluster !in NamesOf(rest)
    requires IsAssignment(env, Bag(env, xs), a)
    ensures IsAssignment(env, BagOf(env, own + rest), a)
  {
    BagOfListing(env, xs, own);
    BagOfUnion(env, own, rest);
    forall n, e ensures BagOf(env, own)[Placement(a.cluster, n, e)] == BagOf(env, own + rest)[Placement(a.cluster, n, e)] {
      UnnamedPlacesNothing(env, rest, Placement(a.cluster, n, e));
    }
    AssignmentLocal(env, BagOf(env, own), BagOf(env, own + rest), a);
  }

  lemma NamedAt(kind: Kind<Assignment>, las: seq<Assignment>, c: string) returns (i: nat)
    requires NamedByCluster(kind)
    requires forall i, j :: 0 <= i < j < |las| ==> Less(las[i].cluster, las[j].cluster)
    requires c in ClustersOf(las)
    ensures LastNamed(kind, las, c, i)
  {
    i :| 0 <= i < |las| && las[i].cluster == c;
    forall j | i < j < |las| ensures las[j].cluster != c {
      LessTotal(las[i].cluster, las[j].cluster);
    }
  }

  lemma EditedWellNamed(op: Op, slices: map<string, Slice>, es: Slice)
    requires AllWellNamed(slices.Values) && WellNamed(es)
    ensures AllWellNamed(Edited(op, slices, es).Values)
  {
    var after := Edited(op, slices, es);
    forall t | t in after.Values ensures WellNamed(t) {
      var n :| n in after && after[n] == t;
      if t != es { assert n in slices && slices[n] == t && t in slices.Values; }
    }
  }

  /** An update that succeeds keeps the index equal to the full translation. */
  lemma UpdateKeepsPublished(
    env: Env, kind: Kind<Assignment>, store: Store, pub: Published, op: Op, es: Slice, pub': Published,
    xs: seq<Slice>, las: seq<Assignment>)
    requires Filed(store) && AllWellNamed(AllSlices(store)) && WellNamed(es)
    requires NamedByCluster(kind)
    requires Publishes(env, pub, AllSlices(store))
    requires Updates(env, kind, store, pub, op, es, pub', true, xs, las)
    ensures Publishes(env, pub', AllSlices(StoreAfter(store, op, es)))
    ensures AllWellNamed(AllSlices(StoreAfter(store, op, es)))
  {
    var before := SlicesOf(store, ServiceOf(es));
    var after := Edited(op, before, es);
    OneServiceAside(store, op, es);
    EditedFiled(op, ServiceOf(es), before, es);
    ListedOnce(xs, after);
    AllValidAll(kind, las);
    SwapsOneService(env, kind, pub, Others(store, ServiceOf(es)), before.Values, after.Values, xs, las);
  }

  /** An update leaves the other services alone: their slices stay, and they name neither
      the clusters of the slices before nor those of the slices after. */
  lemma OneServiceAside(store: Store, op: Op, es: Slice)
    requires Filed(store) && AllWellNamed(AllSlices(store)) && WellNamed(es)
    ensures var before := SlicesOf(store, ServiceOf(es)); var after := Edited(op, before, es); var rest := Others(store, ServiceOf(es));
      && AllSlices(store) == before.Values + rest && AllSlices(StoreAfter(store, op, es)) == after.Values + rest
      && before.Values !! rest && after.Values !! rest
      && NamesOf(before.Values) !! NamesOf(rest) && NamesOf(after.Values) !! NamesOf(rest)
      && AllWellNamed(AllSlices(StoreAfter(store, op, es)))
  {
    var svc := ServiceOf(es);
    var before, store' := SlicesOf(store, svc), StoreAfter(store, op, es);
    var after := Edited(op, before, es);
    UpdateKeepsFiled(store, op, es);
    EditedFiled(op, svc, before, es);
    RefiledSlices(store, svc, after);
    AllButOne(store, svc);
    AllButOne(store', svc);
    EditedWellNamed(op, before, es);
    ServicesNameApart(before.Values, Others(store, svc));
    ServicesNameApart(after.Values, Others(store, svc));
  }

  lemma {:induction false} AllValidAll(kind: Kind<Assignment>, las: seq<Assignment>)
    requires AllValid(kind, las)
    ensures las[..FirstInvalid(kind, las)] == las
  {
  }

  /* ---- Replacing everything ---- */

  /** The services and names of the slices differ. */
  ghost predicate KeysApart(slices: seq<Slice>) {
    forall i, j :: 0 <= i < j < |slices| ==>
      ServiceOf(slices[i]) != ServiceOf(slices[j]) || slices[i].name != slices[j].name
  }

  lemma FiledOneMore(store: Store, es: Slice)
    requires Filed(store)
    ensures Filed(StoreAfter(store, AddSlice, es))
    ensures forall t :: t in AllSlices(StoreAfter(store, AddSlice, es)) <==>
      t == es || (t in AllSlices(store) && !SameKey(t, es))
  {
    forall t ensures t in AllSlices(StoreAfter(store, AddSlice, es)) <==>
      t == es || (t in AllSlices(store) && !SameKey(t, es))
    {
      StoredAfter(store, AddSlice, es, t);
    }
    UpdateKeepsFiled(store, AddSlice, es);
  }

  predicate SameKey(a: Slice, b: Slice) {
    ServiceOf(a) == ServiceOf(b) && a.name == b.name
  }

  /** The index after Replace: of the slices with one service and one name, the last. */
  lemma {:induction false} FileAllFiles(slices: seq<Slice>)
    ensures Filed(FileAll(slices))
    ensures forall t :: t in AllSlices(FileAll(slices)) <==> exists i :: IsLastOfKey(slices, i, t)
  {
    if slices == [] {
      assert AllSlices(FileAll(slices)) == {};
    } else {
      var n := |slices| - 1;
      var init, es := slices[..n], slices[n];
      FileAllFiles(init);
      FiledOneMore(FileAll(init), es);
      forall t ensures t in AllSlices(FileAll(slices)) <==> exists i :: IsLastOfKey(slices, i, t) {
        LastOfKeyGrows(init, es, t);
        assert slices == init + [es];
      }
    }
  }

  /** t stands at position i, and no later slice has its service and name. */
  ghost predicate IsLastOfKey(slices: seq<Slice>, i: int, t: Slice) {
    0 <= i < |slices| && slices[i] == t && forall j :: i < j < |slices| ==> !SameKey(slices[j], t)
  }

  lemma LastOfKeyGrows(init: seq<Slice>, es: Slice, t: Slice)
    ensures (exists i :: IsLastOfKey(init + [es], i, t)) <==>
      t == es || ((exists i :: IsLastOfKey(init, i, t)) && !SameKey(t, es))
  {
    var slices := init + [es];
    if t == es { assert IsLastOfKey(slices, |init|, t); }
    if i :| IsLastOfKey(slices, i, t) && i < |init| {
      assert slices[|init|] == es;
      forall j | i < j < |init| ensures !SameKey(init[j], t) { assert init[j] == slices[j]; }
      assert IsLastOfKey(init, i, t);
    }
    if i :| IsLastOfKey(init, i, t) && !SameKey(t, es) {
      assert IsLastOfKey(slices, i, t);
    }
  }

  predicate Overwritten(slices: seq<Slice>) {
    exists j :: 0 < j < |slices| && SameKey(slices[j], slices[0])
  }

  /** The slices the index keeps: the last of each service and name. */
  function Kept(slices: seq<Slice>): seq<Slice> {
    if slices == [] then [] else (if Overwritten(slices) then [] else [slices[0]]) + Kept(slices[1..])
  }

  /** The slices that a later one of the same service and name overwrites. */
  function Dropped(slices: seq<Slice>): seq<Slice> {
    if slices == [] then [] else (if Overwritten(slices) then [slices[0]] else []) + Dropped(slices[1..])
  }

  lemma {:induction false} KeptAndDropped(slices: seq<Slice>)
    ensures multiset(Kept(slices) + Dropped(slices)) == multiset(slices)
  {
    if slices != [] {
      KeptAndDropped(slices[1..]);
      assert slices == [slices[0]] + slices[1..];
    }
  }

  lemma LastOfKeyFront(slices: seq<Slice>, t: Slice)
    requires slices != []
    ensures (exists i :: IsLastOfKey(slices, i, t)) <==>
      (t == slices[0] && !Overwritten(slices)) || exists i :: IsLastOfKey(slices[1..], i, t)
  {
    if i :| IsLastOfKey(slices, i, t) {
      if i > 0 { assert IsLastOfKey(slices[1..], i - 1, t); }
    }
    if t == slices[0] && !Overwritten(slices) { assert IsLastOfKey(slices, 0, t); }
    if i :| IsLastOfKey(slices[1..], i, t) { assert IsLastOfKey(slices, i + 1, t); }
  }

  lemma {:induction false} KeptAreLast(slices: seq<Slice>)
    ensures forall t :: t in Kept(slices) <==> exists i :: IsLastOfKey(slices, i, t)
    ensures NoDuplicates(Kept(slices))
  {
    if slices != [] {
      KeptAreLast(slices[1..]);
      forall t ensures t in Kept(slices) <==> exists i :: IsLastOfKey(slices, i, t) {
        LastOfKeyFront(slices, t);
      }
      if !Overwritten(slices) {
        forall i | 0 <= i < |slices| - 1 ensures slices[1..][i] != slices[0] {
          assert !SameKey(slices[i + 1], slices[0]);
        }
        assert slices[0] !in Kept(slices[1..]);
        assert Kept(slices) == [slices[0]] + Kept(slices[1..]);
      }
    }
  }

  lemma StoredAndDropped(env: Env, slices: seq<Slice>)
    ensures Filed(FileAll(slices))
    ensures Bag(env, slices) == BagOf(env, AllSlices(FileAll(slices))) + Bag(env, Dropped(slices))
    ensures Elements(slices) == AllSlices(FileAll(slices)) + Elements(Dropped(slices))
  {
    var kept, dropped := Kept(slices), Dropped(slices);
    KeptAreStored(slices);
    KeptAndDropped(slices);
    BagOfListing(env, kept, AllSlices(FileAll(slices)));
    BagPermutes(env, slices, kept + dropped);
    BagConcat(env, kept, dropped);
    KeptOrDropped(slices);
  }

  lemma KeptAreStored(slices: seq<Slice>)
    ensures Filed(FileAll(slices)) && Enumerates(Kept(slices), AllSlices(FileAll(slices)))
  {
    FileAllFiles(slices);
    KeptAreLast(slices);
  }

  lemma KeptOrDropped(slices: seq<Slice>)
    ensures Elements(slices) == Elements(Kept(slices)) + Elements(Dropped(slices))
  {
    KeptAndDropped(slices);
    SameElements(slices, Kept(slices) + Dropped(slices));
  }

  /** One assignment cannot be right for some slices and for more of them, unless the
      further ones place nothing in its cluster. */
  lemma NothingMore(env: Env, xs: seq<Slice>, ys: seq<Slice>, a: Assignment, p: Placement)
    requires IsAssignment(env, Bag(env, xs), a) && IsAssignment(env, Bag(env, xs + ys), a)
    requires p.cluster == a.cluster
    ensures Bag(env, ys)[p] == 0
  {
    var few := Conservation(env, xs, a, p.endpoint);
    var many := Conservation(env, xs + ys, a, p.endpoint);
    forall x | x in few ensures x in many {
      assert Leads(env, xs + ys, a.cluster, p.endpoint, x);
    }
    BagCountsSites(env, ys, p);
    if x :| x in Sites(env, ys, p) {
      var y := Site(|xs| + x.slice, x.port, x.endpoint, x.address);
      LeadsFurther(env, xs, ys, p, x);
      SmallerSubset(few, many, y);
    }
  }

  lemma LeadsFurther(env: Env, xs: seq<Slice>, ys: seq<Slice>, p: Placement, x: Site)
    requires x in Sites(env, ys, p)
    ensures var y := Site(|xs| + x.slice, x.port, x.endpoint, x.address);
      Leads(env, xs + ys, p.cluster, p.endpoint, y) && !Leads(env, xs, p.cluster, p.endpoint, y)
  {
    InSites(env, ys, p, x);
    assert (xs + ys)[|xs| + x.slice] == ys[x.slice];
  }

  lemma SmallerSubset<T>(xs: set<T>, ys: set<T>, y: T)
    requires xs <= ys && y in ys && y !in xs
    ensures |xs| < |ys|
  {
    var others := ys - xs;
    assert y in others && ys == xs + others;
    assert |ys| == |xs| + |others|;
  }

  /** The overwritten slices place no endpoints and name no cluster of their own. */
  ghost predicate Harmless(env: Env, slices: seq<Slice>) {
    && Bag(env, Dropped(slices)) == multiset{}
    && NamesOf(Elements(Dropped(slices))) <= NamesOf(AllSlices(FileAll(slices)))
  }

  lemma PublishedByReplace(env: Env, kind: Kind<Assignment>, pub: Published, slices: seq<Slice>, las: seq<Assignment>)
    requires IsTranslation(env, slices, las) && AllValid(kind, las)
    requires NamedByCluster(kind)
    ensures var pub' := Effect(kind, pub, Replace(las));
      pub'.Keys == NamesOf(Elements(slices)) && RightFor(env, Bag(env, slices), pub')
  {
    LastWins(kind, map[], las);
    assert Names(kind, las) == ClustersOf(las);
    forall c | c in ClustersOf(las)
      ensures PutAll(kind, map[], las)[c].cluster == c && IsAssignment(env, Bag(env, slices), PutAll(kind, map[], las)[c])
    {
      var i := NamedAt(kind, las, c);
    }
  }

  /** Replace translates its argument with the duplicates that the index collapses; what it
      publishes is the translation of what it stores exactly when those are harmless. */
  lemma ReplacePublishesIff(env: Env, kind: Kind<Assignment>, pub: Published, slices: seq<Slice>, las: seq<Assignment>)
    requires IsTranslation(env, slices, las) && AllValid(kind, las)
    requires NamedByCluster(kind)
    ensures Publishes(env, Effect(kind, pub, Replace(las)), AllSlices(FileAll(slices))) <==> Harmless(env, slices)
  {
    var pub' := Effect(kind, pub, Replace(las));
    PublishedByReplace(env, kind, pub, slices, las);
    PublishesStoredIff(env, pub', slices);
  }

  lemma PublishesStoredIff(env: Env, pub: Published, slices: seq<Slice>)
    requires pub.Keys == NamesOf(Elements(slices)) && RightFor(env, Bag(env, slices), pub)
    ensures Publishes(env, pub, AllSlices(FileAll(slices))) <==> Harmless(env, slices)
  {
    if Harmless(env, slices) {
      HarmlessStored(env, slices);
    }
    if Publishes(env, pub, AllSlices(FileAll(slices))) {
      DroppedNameNothing(slices);
      DroppedPlaceNothing(env, pub, slices);
    }
  }

  lemma HarmlessStored(env: Env, slices: seq<Slice>)
    requires Harmless(env, slices)
    ensures Bag(env, slices) == BagOf(env, AllSlices(FileAll(slices)))
    ensures NamesOf(Elements(slices)) == NamesOf(AllSlices(FileAll(slices)))
  {
    StoredAndDropped(env, slices);
    NamesOfUnion(AllSlices(FileAll(slices)), Elements(Dropped(slices)));
  }

  lemma DroppedNameNothing(slices: seq<Slice>)
    ensures NamesOf(Elements(Dropped(slices))) <= NamesOf(Elements(slices))
  {
    KeptOrDropped(slices);
    NamesOfUnion(Elements(Kept(slices)), Elements(Dropped(slices)));
  }

  lemma DroppedPlaceNothing(env: Env, pub: Published, slices: seq<Slice>)
    requires Publishes(env, pub, AllSlices(FileAll(slices)))
    requires RightFor(env, Bag(env, slices), pub)
    requires NamesOf(Elements(Dropped(slices))) <= pub.Keys
    ensures Bag(env, Dropped(slices)) == multiset{}
  {
    var stored, dropped := AllSlices(FileAll(slices)), Dropped(slices);
    StoredAndDropped(env, slices);
    BagConcat(env, Listing(stored), dropped);
    forall p ensures Bag(env, dropped)[p] == 0 {
      if p.cluster in NamesOf(Elements(dropped)) {
        NothingMore(env, Listing(stored), dropped, pub[p.cluster], p);
      } else {
        SlicesStayNamed(env, dropped, p);
      }
    }
    assert Bag(env, dropped) == multiset{};
  }

  lemma {:induction false} ApartDropsNothing(slices: seq<Slice>)
    requires KeysApart(slices)
    ensures Dropped(slices) == []
  {
    if slices != [] {
      ApartDropsNothing(slices[1..]);
    }
  }

  /** Slices whose services and names differ are stored and published in full. */
  lemma ApartIsHarmless(env: Env, slices: seq<Slice>)
    requires KeysApart(slices)
    ensures Harmless(env, slices) && AllSlices(FileAll(slices)) == Elements(slices)
  {
    ApartDropsNothing(slices);
    StoredAndDropped(env, slices);
  }

  /** Duplicates can do harm: here a cluster is published that no stored slice names. */
  lemma DuplicatesBreakReplace(env: Env) returns (first: Slice, last: Slice)
    ensures WellNamed(first) && WellNamed(last) && SameKey(first, last)
    ensures !Harmless(env, [first, last])
  {
    first := Slice("ns", "s", map[], [Port(Some("p"), Some(1), Some("TCP"))], []);
    last := Slice("ns", "s", map[], [], []);
    OneOverwrites(first, last);
    assert first in Elements([first]) && first.ports[0] in first.ports;
    EmptyNameIffUnsupported("ns", "", "p", 1, "TCP");
    assert PortCluster(first, first.ports[0]).Some?;
    assert PortCluster(first, first.ports[0]).value.name in NamesOf(Elements([first]));
    assert NamesOf({last}) == {};
  }

  lemma OneOverwrites(a: Slice, b: Slice)
    requires SameKey(a, b)
    ensures AllSlices(FileAll([a, b])) == {b} && Dropped([a, b]) == [a]
  {
    assert [a, b][1] == b && Overwritten([a, b]);
    assert [a, b][1..] == [b] && [b][1..] == [];
    assert Dropped([b]) == [];
    FileAllFiles([a, b]);
    assert IsLastOfKey([a, b], 1, b);
  }

  /* ---- Stored slices and live slices ---- */

  /** What the cluster has, by namespace and name. */
  type Live = map<NamespacedName, Slice>

  function KeyOf(es: Slice): NamespacedName {
    NamespacedName(es.namespace, es.name)
  }

  function LiveAfter(live: Live, op: Op, es: Slice): Live {
    if op.DeleteSlice? then live - {KeyOf(es)} else live[KeyOf(es) := es]
  }

  ghost predicate Synced(store: Store, live: Live) {
    && (forall k :: k in live ==> KeyOf(live[k]) == k)
    && AllSlices(store) == live.Values
  }

  /** Found under the service, in terms of what SlicesOf gives. */
  lemma StoredBySlices(store: Store, svc: NamespacedName, t: Slice)
    ensures Stored(store, svc, t) <==> t.name in SlicesOf(store, svc) && SlicesOf(store, svc)[t.name] == t
  {
  }

  lemma OtherServiceStays(store: Store, svc: NamespacedName, slices: map<string, Slice>, other: NamespacedName)
    requires other != svc
    ensures SlicesOf(Refiled(store, svc, slices), other) == SlicesOf(store, other)
  {
  }

  lemma StoredAfter(store: Store, op: Op, es: Slice, t: Slice)
    requires Filed(store)
    ensures t in AllSlices(StoreAfter(store, op, es)) <==>
      if SameKey(t, es) then !op.DeleteSlice? && t == es else t in AllSlices(store)
  {
    var svc, store' := ServiceOf(es), StoreAfter(store, op, es);
    var after := Edited(op, SlicesOf(store, svc), es);
    UpdateKeepsFiled(store, op, es);
    StoredWhere(store, t);
    StoredWhere(store', t);
    StoredBySlices(store, ServiceOf(t), t);
    StoredBySlices(store', ServiceOf(t), t);
    if ServiceOf(t) == svc {
      RefiledSlices(store, svc, after);
    } else {
      OtherServiceStays(store, svc, after, ServiceOf(t));
    }
  }

  lemma LiveSlices(live: Live, op: Op, es: Slice, t: Slice)
    requires forall k :: k in live ==> KeyOf(live[k]) == k
    ensures t in live.Values <==> KeyOf(t) in live && live[KeyOf(t)] == t
    ensures t in LiveAfter(live, op, es).Values <==>
      if KeyOf(t) == KeyOf(es) then !op.DeleteSlice? && t == es else t in live.Values
  {
    var live' := LiveAfter(live, op, es);
    if t in live.Values { var k :| k in live && live[k] == t; }
    if t in live'.Values { var k :| k in live' && live'[k] == t; }
    if KeyOf(t) in live' && live'[KeyOf(t)] == t { assert t in live'.Values; }
  }

  /** The index keeps up with an event exactly when the slice was not known before, or under
      the same service: a changed service label leaves the old copy behind. */
  lemma KeepsUpIffLabelStable(store: Store, live: Live, op: Op, es: Slice)
    requires Filed(store) && Synced(store, live)
    ensures Synced(StoreAfter(store, op, es), LiveAfter(live, op, es)) <==>
      (KeyOf(es) in live ==> ServiceOf(live[KeyOf(es)]) == ServiceOf(es))
  {
    var store', live' := StoreAfter(store, op, es), LiveAfter(live, op, es);
    if KeyOf(es) in live && ServiceOf(live[KeyOf(es)]) != ServiceOf(es) {
      var t := live[KeyOf(es)];
      LiveSlices(live, op, es, t);
      StoredAfter(store, op, es, t);
    } else {
      forall t ensures t in AllSlices(store') <==> t in live'.Values {
        SliceKeepsUp(store, live, op, es, t);
      }
    }
  }

  lemma SliceKeepsUp(store: Store, live: Live, op: Op, es: Slice, t: Slice)
    requires Filed(store) && Synced(store, live)
    requires KeyOf(es) in live ==> ServiceOf(live[KeyOf(es)]) == ServiceOf(es)
    ensures t in AllSlices(StoreAfter(store, op, es)) <==> t in LiveAfter(live, op, es).Values
  {
    LiveSlices(live, op, es, t);
    StoredAfter(store, op, es, t);
  }
}
