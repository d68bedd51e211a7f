/** What is published after any sequence of service events. Updates only ever add clusters,
    so what is promised for live services is more than what is promised for dropped ports. */
module ClusterRuns {
  import Naming
  import opened Options
  import opened Overrides
  import opened Registry
  import opened Sequences
  import opened Services
  import Slices

  type Key = Slices.NamespacedName

  type Published = map<string, Cluster>

  /** The services that exist, as last seen. */
  type Live = map<Key, Service>

  /** What the reflector passes: a service, possibly a nil pointer, or something else. */
  datatype Object = ServiceObject(svc: Option<Service>) | OtherObject

  datatype Event = Add(obj: Object) | Update(obj: Object) | Delete(obj: Object) | ReplaceAll(objs: seq<Object>)

  function KeyOf(s: Service): Key {
    Slices.NamespacedName(s.namespace, s.name)
  }

  ghost predicate NamedByCluster(kind: Kind<Cluster>) {
    forall c :: kind.name(c) == c.name
  }

  predicate OnlyServices(objs: seq<Object>) {
    forall o :: o in objs ==> o.ServiceObject?
  }

  /** The translations of all services of a listing, one after the other. */
  function FromAll(cfg: Settings, objs: seq<Object>): seq<Cluster>
    requires OnlyServices(objs)
  {
    if objs == [] then [] else
    FromAll(cfg, objs[..|objs| - 1]) + FromService(cfg, objs[|objs| - 1].svc)
  }

  datatype Outcome = Outcome(pub: Published, ok: bool)

  function Added(kind: Kind<Cluster>, pub: Published, cs: seq<Cluster>): Outcome {
    Outcome(Effect(kind, pub, Call.Add(cs)), AllValid(kind, cs))
  }

  function Handled(cfg: Settings, kind: Kind<Cluster>, pub: Published, e: Event): Outcome {
    match e
    case Add(ServiceObject(svc)) => Added(kind, pub, FromService(cfg, svc))
    case Update(ServiceObject(svc)) => Added(kind, pub, FromService(cfg, svc))
    case Delete(ServiceObject(svc)) => Outcome(pub - NamesIn(FromService(cfg, svc)), true)
    case ReplaceAll(objs) =>
      if OnlyServices(objs) then
        Outcome(Effect(kind, pub, Call.Replace(FromAll(cfg, objs))), AllValid(kind, FromAll(cfg, objs)))
      else Outcome(pub, false)
    case Add(OtherObject) => Outcome(pub, false)
    case Update(OtherObject) => Outcome(pub, false)
    case Delete(OtherObject) => Outcome(pub, false)
  }

  function LiveOf(objs: seq<Object>): Live
    requires OnlyServices(objs)
  {
    if objs == [] then map[] else
    var live, svc := LiveOf(objs[..|objs| - 1]), objs[|objs| - 1].svc;
    if svc.None? then live else live[KeyOf(svc.value) := svc.value]
  }

  function LiveAfter(live: Live, e: Event): Live {
    match e
    case Add(ServiceObject(Some(s))) => live[KeyOf(s) := s]
    case Update(ServiceObject(Some(s))) => live[KeyOf(s) := s]
    case Delete(ServiceObject(Some(s))) => live - {KeyOf(s)}
    case ReplaceAll(objs) => if OnlyServices(objs) then LiveOf(objs) else live
    case _ => live
  }

  /** The names of all live services' clusters. */
  ghost function LiveNames(cfg: Settings, live: Live): set<string> {
    set k, n | k in live && n in NamesIn(FromService(cfg, Some(live[k]))) :: n
  }

  /* ---- Names apart ---- */

  /** Within the service a name tells the cluster. */
  ghost predicate OwnNames(cfg: Settings, s: Service) {
    forall c, d | c in FromService(cfg, Some(s)) && d in FromService(cfg, Some(s)) && c.name == d.name :: c == d
  }

  predicate NamesApart(cfg: Settings, s: Service, t: Service) {
    NamesIn(FromService(cfg, Some(s))) !! NamesIn(FromService(cfg, Some(t)))
  }

  /** No other live service has a cluster of a name of this one's. */
  ghost predicate OthersNamedApart(cfg: Settings, live: Live, s: Service) {
    forall k :: k in live && k != KeyOf(s) ==> NamesApart(cfg, live[k], s)
  }

  ghost predicate Keyed(live: Live) {
    forall k :: k in live ==> KeyOf(live[k]) == k
  }

  /** The live services have no cluster names in common, and each none twice. However the
      names come about: by the ports, or set by an override. */
  ghost predicate WellKept(cfg: Settings, live: Live) {
    && Keyed(live)
    && forall k :: k in live ==> OwnNames(cfg, live[k]) && OthersNamedApart(cfg, live, live[k])
  }

  /** Every live service's current translation is published. */
  ghost predicate Shown(cfg: Settings, pub: Published, live: Live) {
    forall k, c | k in live && c in FromService(cfg, Some(live[k])) :: c.name in pub && pub[c.name] == c
  }

  /** And nothing else is. */
  ghost predicate Exact(cfg: Settings, pub: Published, live: Live) {
    Shown(cfg, pub, live) && pub.Keys == LiveNames(cfg, live)
  }

  /* ---- One service apart ---- */

  lemma LiveNamesSplit(cfg: Settings, live: Live, k: Key)
    ensures LiveNames(cfg, live) ==
      LiveNames(cfg, live - {k}) + if k in live then NamesIn(FromService(cfg, Some(live[k]))) else {}
  {
    forall n ensures n in LiveNames(cfg, live) <==>
      n in LiveNames(cfg, live - {k}) || (k in live && n in NamesIn(FromService(cfg, Some(live[k]))))
    {
      if n in LiveNames(cfg, live) {
        var j :| j in live && n in NamesIn(FromService(cfg, Some(live[j])));
        if j != k { assert j in live - {k}; }
      }
      if n in LiveNames(cfg, live - {k}) {
        var j :| j in live - {k} && n in NamesIn(FromService(cfg, Some(live[j])));
        assert j in live;
      }
    }
  }

  lemma LosesNothing<T>(rest: set<T>, before: set<T>, after: set<T>)
    requires rest !! before
    ensures rest + before + after == rest + after <==> before - after == {}
  {
    if before - after == {} {
      forall x | x in before ensures x in after { assert x !in before - after; }
    } else {
      var x :| x in before - after;
      assert x in rest + before + after && x !in rest + after;
    }
  }

  lemma LeavesNothing<T>(rest: set<T>, before: set<T>, own: set<T>)
    requires rest !! before && rest !! own
    ensures rest + before - own == rest <==> before - own == {}
  {
    if before - own == {} {
      forall x | x in before ensures x in own { assert x !in before - own; }
    } else {
      var x :| x in before - own;
      assert x in rest + before - own && x !in rest;
    }
  }

  /** The names of the live services after a service has changed are those before, and its
      own, exactly if it lost none. */
  lemma NamesAfterChange(cfg: Settings, live: Live, s: Service)
    requires WellKept(cfg, live)
    ensures LiveNames(cfg, live) + NamesIn(FromService(cfg, Some(s))) == LiveNames(cfg, live[KeyOf(s) := s])
      <==> DroppedNames(cfg, live, s) == {}
  {
    var k, after := KeyOf(s), NamesIn(FromService(cfg, Some(s)));
    LiveNamesSplit(cfg, live, k);
    LiveNamesSplit(cfg, live[k := s], k);
    assert live[k := s] - {k} == live - {k};
    if k in live {
      OthersApart(cfg, live, live[k]);
      LosesNothing(LiveNames(cfg, live - {k}), NamesIn(FromService(cfg, Some(live[k]))), after);
    }
  }

  lemma OthersApart(cfg: Settings, live: Live, s: Service)
    requires OthersNamedApart(cfg, live, s)
    ensures LiveNames(cfg, live - {KeyOf(s)}) !! NamesIn(FromService(cfg, Some(s)))
  {
    forall n | n in LiveNames(cfg, live - {KeyOf(s)}) ensures n !in NamesIn(FromService(cfg, Some(s))) {
      var k :| k in live - {KeyOf(s)} && n in NamesIn(FromService(cfg, Some(live[k])));
      assert NamesApart(cfg, live[k], s);
    }
  }

  /** The names the service had that its new translation lacks. */
  ghost function DroppedNames(cfg: Settings, live: Live, s: Service): set<string> {
    if KeyOf(s) in live then NamesIn(FromService(cfg, Some(live[KeyOf(s)]))) - NamesIn(FromService(cfg, Some(s))) else {}
  }

  lemma NamesAreNamesIn(kind: Kind<Cluster>, cs: seq<Cluster>)
    requires NamedByCluster(kind)
    ensures Names(kind, cs) == NamesIn(cs)
  {
    forall n | n in NamesIn(cs) ensures n in Names(kind, cs) {
      var c :| c in cs && c.name == n;
      var i :| 0 <= i < |cs| && cs[i] == c;
      assert kind.name(cs[i]) == n;
    }
  }

  lemma AllOfIt(kind: Kind<Cluster>, cs: seq<Cluster>)
    requires AllValid(kind, cs)
    ensures cs[..FirstInvalid(kind, cs)] == cs
  {
  }

  /** Filing clusters keeps what is on file exactly where no cluster of another value is
      filed under the name. */
  lemma FilingKeepsIff(kind: Kind<Cluster>, pub: Published, cs: seq<Cluster>, c: Cluster)
    requires NamedByCluster(kind) && c.name in pub && pub[c.name] == c
    requires forall d, e | d in cs && e in cs && d.name == e.name :: d == e
    ensures c.name in PutAll(kind, pub, cs)
    ensures PutAll(kind, pub, cs)[c.name] == c <==> forall d :: d in cs && d.name == c.name ==> d == c
  {
    LastWins(kind, pub, cs);
    NamesAreNamesIn(kind, cs);
    if c.name in NamesIn(cs) {
      var i := HasLastNamed(kind, cs, c.name);
      assert cs[i] in cs && PutAll(kind, pub, cs)[c.name] == cs[i];
    } else {
      forall d | d in cs ensures d.name != c.name { assert d.name in NamesIn(cs); }
    }
  }

  lemma OwnAreFiled(kind: Kind<Cluster>, pub: Published, cs: seq<Cluster>, c: Cluster)
    requires NamedByCluster(kind) && c in cs
    requires forall d, e | d in cs && e in cs && d.name == e.name :: d == e
    ensures c.name in PutAll(kind, pub, cs) && PutAll(kind, pub, cs)[c.name] == c
  {
    LastWins(kind, pub, cs);
    NamesAreNamesIn(kind, cs);
    var i := HasLastNamed(kind, cs, c.name);
    assert cs[i] in cs;
  }

  /* ---- Add and Update ---- */

  /** Where a cluster of another live service and one of this service have one name, they are
      one cluster. */
  ghost predicate Agrees(cfg: Settings, live: Live, s: Service) {
    forall k, c, d | k in live && k != KeyOf(s) && c in FromService(cfg, Some(live[k]))
      && d in FromService(cfg, Some(s)) && d.name == c.name :: d == c
  }

  lemma ApartAgrees(cfg: Settings, live: Live, s: Service)
    requires OthersNamedApart(cfg, live, s)
    ensures Agrees(cfg, live, s)
  {
    forall k, c, d | k in live && k != KeyOf(s) && c in FromService(cfg, Some(live[k])) && d in FromService(cfg, Some(s))
      ensures d.name != c.name
    {
      assert NamesApart(cfg, live[k], s);
      assert c.name in NamesIn(FromService(cfg, Some(live[k]))) && d.name in NamesIn(FromService(cfg, Some(s)));
    }
  }

  /** After an Add or Update every live service's current translation is published exactly if
      the service has no cluster of another's name and of another value. */
  lemma AddKeepsShownIff(cfg: Settings, kind: Kind<Cluster>, pub: Published, live: Live, s: Service)
    requires Shown(cfg, pub, live) && NamedByCluster(kind) && OwnNames(cfg, s)
    requires AllValid(kind, FromService(cfg, Some(s)))
    ensures Shown(cfg, Effect(kind, pub, Call.Add(FromService(cfg, Some(s)))), live[KeyOf(s) := s])
      <==> Agrees(cfg, live, s)
  {
    var cs, live' := FromService(cfg, Some(s)), live[KeyOf(s) := s];
    AllOfIt(kind, cs);
    forall c | c in cs ensures c.name in PutAll(kind, pub, cs) && PutAll(kind, pub, cs)[c.name] == c {
      OwnAreFiled(kind, pub, cs, c);
    }
    forall k, c | k in live && k != KeyOf(s) && c in FromService(cfg, Some(live[k]))
      ensures c.name in PutAll(kind, pub, cs)
      ensures PutAll(kind, pub, cs)[c.name] == c <==> forall d :: d in cs && d.name == c.name ==> d == c
    {
      FilingKeepsIff(kind, pub, cs, c);
    }
    ShownAfterAdd(cfg, PutAll(kind, pub, cs), live, s);
  }

  lemma ShownAfterAdd(cfg: Settings, pub: Published, live: Live, s: Service)
    requires forall c :: c in FromService(cfg, Some(s)) ==> c.name in pub && pub[c.name] == c
    requires forall k, c | k in live && k != KeyOf(s) && c in FromService(cfg, Some(live[k])) ::
      && c.name in pub
      && (pub[c.name] == c <==> forall d :: d in FromService(cfg, Some(s)) && d.name == c.name ==> d == c)
    ensures Shown(cfg, pub, live[KeyOf(s) := s]) <==> Agrees(cfg, live, s)
  {
    var live' := live[KeyOf(s) := s];
    if Shown(cfg, pub, live') {
      forall k, c, d | k in live && k != KeyOf(s) && c in FromService(cfg, Some(live[k]))
        && d in FromService(cfg, Some(s)) && d.name == c.name
        ensures d == c
      {
        assert live'[k] == live[k];
      }
    }
  }

  /** So after an Add or Update of a service that is apart from the others, all are shown. */
  lemma AddKeepsShown(cfg: Settings, kind: Kind<Cluster>, pub: Published, live: Live, s: Service)
    requires Shown(cfg, pub, live) && NamedByCluster(kind) && OwnNames(cfg, s) && OthersNamedApart(cfg, live, s)
    requires AllValid(kind, FromService(cfg, Some(s)))
    ensures Shown(cfg, Effect(kind, pub, Call.Add(FromService(cfg, Some(s)))), live[KeyOf(s) := s])
  {
    ApartAgrees(cfg, live, s);
    AddKeepsShownIff(cfg, kind, pub, live, s);
  }

  lemma AddKeepsKept(cfg: Settings, live: Live, s: Service)
    requires WellKept(cfg, live) && OwnNames(cfg, s) && OthersNamedApart(cfg, live, s)
    ensures WellKept(cfg, live[KeyOf(s) := s])
  {
    var live' := live[KeyOf(s) := s];
    forall k | k in live' ensures OthersNamedApart(cfg, live', live'[k]) {
      forall j | j in live' && j != k ensures NamesApart(cfg, live'[j], live'[k]) {
        if k != KeyOf(s) && j != KeyOf(s) { assert OthersNamedApart(cfg, live, live[k]); }
      }
    }
  }

  /** And nothing else is published exactly if the service did not lose a cluster name. */
  lemma AddIsExactIff(cfg: Settings, kind: Kind<Cluster>, pub: Published, live: Live, s: Service)
    requires Exact(cfg, pub, live) && WellKept(cfg, live) && NamedByCluster(kind)
    requires OwnNames(cfg, s) && OthersNamedApart(cfg, live, s) && AllValid(kind, FromService(cfg, Some(s)))
    ensures Exact(cfg, Effect(kind, pub, Call.Add(FromService(cfg, Some(s)))), live[KeyOf(s) := s])
      <==> DroppedNames(cfg, live, s) == {}
  {
    var cs := FromService(cfg, Some(s));
    AddKeepsShown(cfg, kind, pub, live, s);
    AllOfIt(kind, cs);
    LastWins(kind, pub, cs);
    NamesAreNamesIn(kind, cs);
    NamesAfterChange(cfg, live, s);
  }

  /* ---- Delete ---- */

  /** Deleting leaves the clusters of the other services exactly if they have no name in common
      with the object passed. */
  lemma DeleteKeepsShownIff(cfg: Settings, pub: Published, live: Live, s: Service)
    requires Shown(cfg, pub, live)
    ensures Shown(cfg, pub - NamesIn(FromService(cfg, Some(s))), live - {KeyOf(s)}) <==> OthersNamedApart(cfg, live, s)
  {
    var own := NamesIn(FromService(cfg, Some(s)));
    if Shown(cfg, pub - own, live - {KeyOf(s)}) {
      forall k | k in live && k != KeyOf(s) ensures NamesApart(cfg, live[k], s) {
        forall n | n in NamesIn(FromService(cfg, Some(live[k]))) ensures n !in own {
          var c :| c in FromService(cfg, Some(live[k])) && c.name == n;
          assert k in live - {KeyOf(s)};
        }
      }
    }
    if OthersNamedApart(cfg, live, s) {
      forall k, c | k in live - {KeyOf(s)} && c in FromService(cfg, Some(live[k]))
        ensures c.name in pub - own && pub[c.name] == c
      {
        assert NamesApart(cfg, live[k], s) && c.name in NamesIn(FromService(cfg, Some(live[k])));
      }
    }
  }

  lemma NamesAfterDelete(cfg: Settings, live: Live, s: Service)
    requires WellKept(cfg, live) && OthersNamedApart(cfg, live, s)
    ensures LiveNames(cfg, live) - NamesIn(FromService(cfg, Some(s))) == LiveNames(cfg, live - {KeyOf(s)})
      <==> DroppedNames(cfg, live, s) == {}
  {
    var k, own := KeyOf(s), NamesIn(FromService(cfg, Some(s)));
    LiveNamesSplit(cfg, live, k);
    OthersApart(cfg, live, s);
    if k in live {
      OthersApart(cfg, live, live[k]);
      LeavesNothing(LiveNames(cfg, live - {k}), NamesIn(FromService(cfg, Some(live[k]))), own);
    } else {
      assert LiveNames(cfg, live) - own == LiveNames(cfg, live - {k});
    }
  }

  /** And its own all go exactly if the object passed still names every cluster it had. */
  lemma DeleteIsExactIff(cfg: Settings, pub: Published, live: Live, s: Service)
    requires Exact(cfg, pub, live) && WellKept(cfg, live) && OthersNamedApart(cfg, live, s)
    ensures Exact(cfg, pub - NamesIn(FromService(cfg, Some(s))), live - {KeyOf(s)}) <==> DroppedNames(cfg, live, s) == {}
  {
    DeleteKeepsShownIff(cfg, pub, live, s);
    NamesAfterDelete(cfg, live, s);
  }

  lemma DeleteKeepsKept(cfg: Settings, live: Live, k: Key)
    requires WellKept(cfg, live)
    ensures WellKept(cfg, live - {k})
  {
    var live' := live - {k};
    forall i | i in live' ensures OthersNamedApart(cfg, live', live'[i]) {
      assert OthersNamedApart(cfg, live, live[i]);
    }
  }

  /* ---- Replace ---- */

  /** The services of a listing. */
  ghost function ServicesIn(objs: seq<Object>): set<Service> {
    set o | o in objs && o.ServiceObject? && o.svc.Some? :: o.svc.value
  }

  /** Of each service the listing has one version. */
  ghost predicate OneVersion(objs: seq<Object>) {
    forall s, t | s in ServicesIn(objs) && t in ServicesIn(objs) && SameService(s, t) :: s == t
  }

  lemma ListingGrows(objs: seq<Object>)
    requires objs != []
    ensures var o := objs[|objs| - 1];
      ServicesIn(objs) == ServicesIn(objs[..|objs| - 1]) + if o.ServiceObject? && o.svc.Some? then {o.svc.value} else {}
  {
    assert objs == objs[..|objs| - 1] + [objs[|objs| - 1]];
  }

  lemma {:induction false} ListedTranslations(cfg: Settings, objs: seq<Object>)
    requires OnlyServices(objs)
    ensures forall c :: c in FromAll(cfg, objs) <==> exists s :: s in ServicesIn(objs) && c in FromService(cfg, Some(s))
  {
    if objs != [] {
      ListingGrows(objs);
      ListedTranslations(cfg, objs[..|objs| - 1]);
    }
  }

  lemma {:induction false} ListedLive(objs: seq<Object>)
    requires OnlyServices(objs) && OneVersion(objs)
    ensures LiveOf(objs).Values == ServicesIn(objs)
    ensures forall k :: k in LiveOf(objs) ==> KeyOf(LiveOf(objs)[k]) == k
  {
    if objs != [] {
      var init, o := objs[..|objs| - 1], objs[|objs| - 1];
      ListingGrows(objs);
      ListedLive(init);
      if o.svc.Some? {
        ListedOneMore(LiveOf(init), o.svc.value);
      }
    }
  }

  lemma ListedOneMore(live: Live, s: Service)
    requires forall k :: k in live ==> KeyOf(live[k]) == k
    requires forall t :: t in live.Values && SameService(s, t) ==> t == s
    ensures live[KeyOf(s) := s].Values == live.Values + {s}
  {
    var live' := live[KeyOf(s) := s];
    forall t | t in live.Values + {s} ensures t in live'.Values {
      if t == s {
        assert live'[KeyOf(s)] == s;
      } else {
        var k :| k in live && live[k] == t;
        assert live'[k] == t;
      }
    }
  }

  /** Clusters of one name in the listing are one cluster. */
  ghost predicate ListingAgrees(cfg: Settings, objs: seq<Object>)
    requires OnlyServices(objs)
  {
    forall c, d | c in FromAll(cfg, objs) && d in FromAll(cfg, objs) && c.name == d.name :: c == d
  }

  /** After a Replace exactly the clusters of the services listed are published by name; and
      each service's own translation exactly if clusters of one name are one cluster. */
  lemma ReplaceIsExactIff(cfg: Settings, kind: Kind<Cluster>, pub: Published, objs: seq<Object>)
    requires OnlyServices(objs) && OneVersion(objs) && NamedByCluster(kind) && AllValid(kind, FromAll(cfg, objs))
    ensures var pub' := Effect(kind, pub, Call.Replace(FromAll(cfg, objs)));
      && pub'.Keys == LiveNames(cfg, LiveOf(objs))
      && (Exact(cfg, pub', LiveOf(objs)) <==> ListingAgrees(cfg, objs))
  {
    var cs, live := FromAll(cfg, objs), LiveOf(objs);
    LastWins(kind, map[], cs);
    NamesAreNamesIn(kind, cs);
    NamesOfListing(cfg, objs);
    if ListingAgrees(cfg, objs) {
      forall k, c | k in live && c in FromService(cfg, Some(live[k]))
        ensures c.name in PutAll(kind, map[], cs) && PutAll(kind, map[], cs)[c.name] == c
      {
        LiveIsListed(cfg, objs, k, c);
        OwnAreFiled(kind, map[], cs, c);
      }
    }
    if Shown(cfg, PutAll(kind, map[], cs), live) {
      forall c | c in cs ensures PutAll(kind, map[], cs)[c.name] == c {
        var k := ListedIsLive(cfg, objs, c);
      }
    }
  }

  lemma LiveIsListed(cfg: Settings, objs: seq<Object>, k: Key, c: Cluster)
    requires OnlyServices(objs) && OneVersion(objs) && k in LiveOf(objs) && c in FromService(cfg, Some(LiveOf(objs)[k]))
    ensures c in FromAll(cfg, objs)
  {
    ListedLive(objs);
    ListedTranslations(cfg, objs);
    assert LiveOf(objs)[k] in LiveOf(objs).Values;
  }

  lemma ListedIsLive(cfg: Settings, objs: seq<Object>, c: Cluster) returns (k: Key)
    requires OnlyServices(objs) && OneVersion(objs) && c in FromAll(cfg, objs)
    ensures k in LiveOf(objs) && c in FromService(cfg, Some(LiveOf(objs)[k]))
  {
    ListedLive(objs);
    ListedTranslations(cfg, objs);
    var s :| s in ServicesIn(objs) && c in FromService(cfg, Some(s));
    assert s in LiveOf(objs).Values;
    k :| k in LiveOf(objs) && LiveOf(objs)[k] == s;
  }

  /** The services of the listing have no cluster names in common, and each none twice. */
  ghost predicate ListingApart(cfg: Settings, objs: seq<Object>) {
    && (forall s :: s in ServicesIn(objs) ==> OwnNames(cfg, s))
    && forall s, t | s in ServicesIn(objs) && t in ServicesIn(objs) && !SameService(s, t) :: NamesApart(cfg, s, t)
  }

  lemma ReplaceIsExact(cfg: Settings, kind: Kind<Cluster>, pub: Published, objs: seq<Object>)
    requires OnlyServices(objs) && OneVersion(objs) && ListingApart(cfg, objs)
    requires NamedByCluster(kind) && AllValid(kind, FromAll(cfg, objs))
    ensures Exact(cfg, Effect(kind, pub, Call.Replace(FromAll(cfg, objs))), LiveOf(objs)) && WellKept(cfg, LiveOf(objs))
  {
    ApartListingAgrees(cfg, objs);
    ReplaceIsExactIff(cfg, kind, pub, objs);
    ApartListingKept(cfg, objs);
  }

  lemma ApartListingAgrees(cfg: Settings, objs: seq<Object>)
    requires OnlyServices(objs) && OneVersion(objs) && ListingApart(cfg, objs)
    ensures ListingAgrees(cfg, objs)
  {
    ListedTranslations(cfg, objs);
    forall c, d | c in FromAll(cfg, objs) && d in FromAll(cfg, objs) ensures c.name == d.name ==> c == d {
      var s :| s in ServicesIn(objs) && c in FromService(cfg, Some(s));
      var t :| t in ServicesIn(objs) && d in FromService(cfg, Some(t));
      assert c.name in NamesIn(FromService(cfg, Some(s))) && d.name in NamesIn(FromService(cfg, Some(t)));
      if SameService(s, t) {
        assert s == t && OwnNames(cfg, s);
      } else {
        assert NamesApart(cfg, s, t);
        assert c.name != d.name;
      }
    }
  }

  lemma ApartListingKept(cfg: Settings, objs: seq<Object>)
    requires OnlyServices(objs) && OneVersion(objs) && ListingApart(cfg, objs)
    ensures WellKept(cfg, LiveOf(objs))
  {
    var live := LiveOf(objs);
    ListedLive(objs);
    forall k | k in live ensures live[k] in ServicesIn(objs) { assert live[k] in live.Values; }
    forall k | k in live ensures OthersNamedApart(cfg, live, live[k]) {
      forall j | j in live && j != k ensures NamesApart(cfg, live[j], live[k]) {
        assert KeyOf(live[j]) == j && KeyOf(live[k]) == k;
      }
    }
  }

  lemma NamesOfListing(cfg: Settings, objs: seq<Object>)
    requires OnlyServices(objs) && OneVersion(objs)
    ensures NamesIn(FromAll(cfg, objs)) == LiveNames(cfg, LiveOf(objs))
  {
    forall n ensures n in NamesIn(FromAll(cfg, objs)) <==> n in LiveNames(cfg, LiveOf(objs)) {
      NameOfListing(cfg, objs, n);
    }
  }

  lemma NameOfListing(cfg: Settings, objs: seq<Object>, n: string)
    requires OnlyServices(objs) && OneVersion(objs)
    ensures n in NamesIn(FromAll(cfg, objs)) <==> n in LiveNames(cfg, LiveOf(objs))
  {
    var live := LiveOf(objs);
    if n in NamesIn(FromAll(cfg, objs)) {
      var c :| c in FromAll(cfg, objs) && c.name == n;
      var k := ListedIsLive(cfg, objs, c);
      assert n in NamesIn(FromService(cfg, Some(live[k])));
    }
    if n in LiveNames(cfg, live) {
      var k :| k in live && n in NamesIn(FromService(cfg, Some(live[k])));
      var c :| c in FromService(cfg, Some(live[k])) && c.name == n;
      LiveIsListed(cfg, objs, k, c);
    }
  }

  /* ---- Runs ---- */

  /** The event keeps to the conditions: clusters that validate, one version of each service
      in a listing, and no cluster name in common with another live service. */
  ghost predicate Orderly(cfg: Settings, kind: Kind<Cluster>, live: Live, e: Event) {
    match e
    case Add(ServiceObject(Some(s))) => Fits(cfg, kind, live, s)
    case Update(ServiceObject(Some(s))) => Fits(cfg, kind, live, s)
    case Delete(ServiceObject(Some(s))) => OthersNamedApart(cfg, live, s)
    case ReplaceAll(objs) =>
      OnlyServices(objs) ==> AllValid(kind, FromAll(cfg, objs)) && OneVersion(objs) && ListingApart(cfg, objs)
    case _ => true
  }

  ghost predicate Fits(cfg: Settings, kind: Kind<Cluster>, live: Live, s: Service) {
    AllValid(kind, FromService(cfg, Some(s))) && OwnNames(cfg, s) && OthersNamedApart(cfg, live, s)
  }

  /** No cluster name is dropped by this event. */
  ghost predicate DropsNothing(cfg: Settings, live: Live, e: Event) {
    match e
    case Add(ServiceObject(Some(s))) => DroppedNames(cfg, live, s) == {}
    case Update(ServiceObject(Some(s))) => DroppedNames(cfg, live, s) == {}
    case Delete(ServiceObject(Some(s))) => DroppedNames(cfg, live, s) == {}
    case _ => true
  }

  ghost predicate Keeps(cfg: Settings, pub: Published, live: Live, pub': Published, live': Live, nothingDropped: bool) {
    && Shown(cfg, pub', live') && WellKept(cfg, live')
    && (Exact(cfg, pub, live) ==> (Exact(cfg, pub', live') <==> nothingDropped))
  }

  lemma AddKeeps(cfg: Settings, kind: Kind<Cluster>, pub: Published, live: Live, s: Service)
    requires Shown(cfg, pub, live) && WellKept(cfg, live) && NamedByCluster(kind) && Fits(cfg, kind, live, s)
    ensures Keeps(cfg, pub, live, Effect(kind, pub, Call.Add(FromService(cfg, Some(s)))), live[KeyOf(s) := s],
      DroppedNames(cfg, live, s) == {})
  {
    AddKeepsShown(cfg, kind, pub, live, s);
    AddKeepsKept(cfg, live, s);
    if Exact(cfg, pub, live) { AddIsExactIff(cfg, kind, pub, live, s); }
  }

  lemma DeleteKeeps(cfg: Settings, pub: Published, live: Live, s: Service)
    requires Shown(cfg, pub, live) && WellKept(cfg, live) && OthersNamedApart(cfg, live, s)
    ensures Keeps(cfg, pub, live, pub - NamesIn(FromService(cfg, Some(s))), live - {KeyOf(s)},
      DroppedNames(cfg, live, s) == {})
  {
    DeleteKeepsShownIff(cfg, pub, live, s);
    DeleteKeepsKept(cfg, live, KeyOf(s));
    if Exact(cfg, pub, live) { DeleteIsExactIff(cfg, pub, live, s); }
  }

  lemma NothingKeeps(cfg: Settings, kind: Kind<Cluster>, pub: Published, live: Live)
    requires Shown(cfg, pub, live) && WellKept(cfg, live)
    ensures Keeps(cfg, pub, live, Effect(kind, pub, Call.Add([])), live, true)
    ensures Keeps(cfg, pub, live, pub - NamesIn([]), live, true)
  {
    assert NamesIn([]) == {} && pub - {} == pub;
  }

  lemma EventKeeps(cfg: Settings, kind: Kind<Cluster>, pub: Published, live: Live, e: Event)
    requires Shown(cfg, pub, live) && WellKept(cfg, live) && NamedByCluster(kind) && Orderly(cfg, kind, live, e)
    ensures e.ReplaceAll? || Keeps(cfg, pub, live, Handled(cfg, kind, pub, e).pub, LiveAfter(live, e), DropsNothing(cfg, live, e))
    ensures e.ReplaceAll? ==> Keeps(cfg, pub, live, Handled(cfg, kind, pub, e).pub, LiveAfter(live, e), true)
  {
    NothingKeeps(cfg, kind, pub, live);
    match e
    case Add(ServiceObject(Some(s))) => AddKeeps(cfg, kind, pub, live, s);
    case Update(ServiceObject(Some(s))) => AddKeeps(cfg, kind, pub, live, s);
    case Delete(ServiceObject(Some(s))) => DeleteKeeps(cfg, pub, live, s);
    case ReplaceAll(objs) => if OnlyServices(objs) { ReplaceIsExact(cfg, kind, pub, objs); }
    case _ =>
  }

  function PublishedAfter(cfg: Settings, kind: Kind<Cluster>, events: seq<Event>): Published {
    if events == [] then map[] else
    Handled(cfg, kind, PublishedAfter(cfg, kind, events[..|events| - 1]), events[|events| - 1]).pub
  }

  function LivesAfter(events: seq<Event>): Live {
    if events == [] then map[] else LiveAfter(LivesAfter(events[..|events| - 1]), events[|events| - 1])
  }

  ghost predicate AllOrderly(cfg: Settings, kind: Kind<Cluster>, events: seq<Event>) {
    events != [] ==>
      && AllOrderly(cfg, kind, events[..|events| - 1])
      && Orderly(cfg, kind, LivesAfter(events[..|events| - 1]), events[|events| - 1])
  }

  ghost predicate NothingDropped(cfg: Settings, events: seq<Event>) {
    events != [] ==>
      && NothingDropped(cfg, events[..|events| - 1])
      && DropsNothing(cfg, LivesAfter(events[..|events| - 1]), events[|events| - 1])
  }

  lemma AfterOneMore(cfg: Settings, kind: Kind<Cluster>, events: seq<Event>, e: Event)
    ensures PublishedAfter(cfg, kind, events + [e]) == Handled(cfg, kind, PublishedAfter(cfg, kind, events), e).pub
    ensures LivesAfter(events + [e]) == LiveAfter(LivesAfter(events), e)
    ensures AllOrderly(cfg, kind, events + [e]) <==> AllOrderly(cfg, kind, events) && Orderly(cfg, kind, LivesAfter(events), e)
  {
    assert (events + [e])[..|events|] == events;
  }

  /** After any orderly run every live service's current translation is published, and
      nothing else if no event dropped a cluster name; overrides may set names. */
  lemma {:induction false} PublishesLiveServices(cfg: Settings, kind: Kind<Cluster>, events: seq<Event>)
    requires NamedByCluster(kind) && AllOrderly(cfg, kind, events)
    ensures Shown(cfg, PublishedAfter(cfg, kind, events), LivesAfter(events)) && WellKept(cfg, LivesAfter(events))
    ensures NothingDropped(cfg, events) ==> Exact(cfg, PublishedAfter(cfg, kind, events), LivesAfter(events))
    decreases |events|
  {
    if events == [] {
      assert LiveNames(cfg, map[]) == {};
    } else {
      var n := |events| - 1;
      PublishesLiveServices(cfg, kind, events[..n]);
      EventKeeps(cfg, kind, PublishedAfter(cfg, kind, events[..n]), LivesAfter(events[..n]), events[n]);
    }
  }

  /* ---- The calls made to the manager ---- */

  function NameList(cs: seq<Cluster>): seq<string> {
    seq(|cs|, i requires 0 <= i < |cs| => cs[i].name)
  }

  function CallsFor(cfg: Settings, e: Event): seq<Call<Cluster>> {
    match e
    case Add(ServiceObject(svc)) => [Call.Add(FromService(cfg, svc))]
    case Update(ServiceObject(svc)) => [Call.Add(FromService(cfg, svc))]
    case Delete(ServiceObject(svc)) => Deletions(NameList(FromService(cfg, svc)))
    case ReplaceAll(objs) => if OnlyServices(objs) then [Call.Replace(FromAll(cfg, objs))] else []
    case Add(OtherObject) => []
    case Update(OtherObject) => []
    case Delete(OtherObject) => []
  }

  function CallsAfter(cfg: Settings, events: seq<Event>): seq<Call<Cluster>> {
    if events == [] then [] else CallsAfter(cfg, events[..|events| - 1]) + CallsFor(cfg, events[|events| - 1])
  }

  lemma NameListNames(cs: seq<Cluster>)
    ensures Elements(NameList(cs)) == NamesIn(cs)
  {
    forall n | n in NamesIn(cs) ensures n in NameList(cs) {
      var c :| c in cs && c.name == n;
      var i :| 0 <= i < |cs| && cs[i] == c;
      assert NameList(cs)[i] == n;
    }
  }

  lemma EventIsItsCalls(cfg: Settings, kind: Kind<Cluster>, calls: seq<Call<Cluster>>, e: Event)
    ensures Effects(kind, calls + CallsFor(cfg, e)) == Handled(cfg, kind, Effects(kind, calls), e).pub
  {
    match e
    case Add(ServiceObject(svc)) => EffectsGrow(kind, calls, Call.Add(FromService(cfg, svc)));
    case Update(ServiceObject(svc)) => EffectsGrow(kind, calls, Call.Add(FromService(cfg, svc)));
    case Delete(ServiceObject(svc)) =>
      NameListNames(FromService(cfg, svc));
      EffectsOfDeletions(kind, calls, NameList(FromService(cfg, svc)));
    case ReplaceAll(objs) =>
      if OnlyServices(objs) {
        EffectsGrow(kind, calls, Call.Replace(FromAll(cfg, objs)));
      } else {
        assert calls + [] == calls;
      }
    case Add(OtherObject) => assert calls + [] == calls;
    case Update(OtherObject) => assert calls + [] == calls;
    case Delete(OtherObject) => assert calls + [] == calls;
  }

  /** What is published is what the calls do to an empty manager. */
  lemma {:induction false} RunIsItsCalls(cfg: Settings, kind: Kind<Cluster>, events: seq<Event>)
    ensures Effects(kind, CallsAfter(cfg, events)) == PublishedAfter(cfg, kind, events)
    decreases |events|
  {
    if events != [] {
      var n := |events| - 1;
      RunIsItsCalls(cfg, kind, events[..n]);
      EventIsItsCalls(cfg, kind, CallsAfter(cfg, events[..n]), events[n]);
    }
  }

  /* ---- Names made by the ports alone ---- */

  /** The event brings services put together properly, one version of each in a listing, and
      clusters that validate. */
  ghost predicate ProperEvent(cfg: Settings, kind: Kind<Cluster>, e: Event) {
    match e
    case Add(ServiceObject(Some(s))) => Proper(s) && AllValid(kind, FromService(cfg, Some(s)))
    case Update(ServiceObject(Some(s))) => Proper(s) && AllValid(kind, FromService(cfg, Some(s)))
    case Delete(ServiceObject(Some(s))) => Proper(s)
    case ReplaceAll(objs) =>
      OnlyServices(objs) ==>
        AllValid(kind, FromAll(cfg, objs)) && OneVersion(objs) && forall s :: s in ServicesIn(objs) ==> Proper(s)
    case _ => true
  }

  ghost predicate AllProper(live: Live) {
    Keyed(live) && forall k :: k in live ==> Proper(live[k])
  }

  lemma ProperNames(cfg: Settings, s: Service)
    requires KeepsNames(cfg.rules) && Proper(s)
    ensures OwnNames(cfg, s)
  {
    forall c, d | c in FromService(cfg, Some(s)) && d in FromService(cfg, Some(s)) && c.name == d.name ensures c == d {
      NameTellsCluster(cfg, s, c, d);
    }
  }

  lemma ProperApart(cfg: Settings, live: Live, s: Service)
    requires KeepsNames(cfg.rules) && AllProper(live) && Proper(s)
    ensures OthersNamedApart(cfg, live, s)
  {
    forall k | k in live && k != KeyOf(s) ensures NamesApart(cfg, live[k], s) {
      assert KeyOf(live[k]) == k;
      ServicesApart(cfg, live[k], s);
    }
  }

  lemma ProperListing(cfg: Settings, objs: seq<Object>)
    requires KeepsNames(cfg.rules) && OnlyServices(objs) && OneVersion(objs)
    requires forall s :: s in ServicesIn(objs) ==> Proper(s)
    ensures ListingApart(cfg, objs) && AllProper(LiveOf(objs))
  {
    forall s | s in ServicesIn(objs) ensures OwnNames(cfg, s) { ProperNames(cfg, s); }
    forall s, t | s in ServicesIn(objs) && t in ServicesIn(objs) && !SameService(s, t) ensures NamesApart(cfg, s, t) {
      ServicesApart(cfg, s, t);
    }
    ListedLive(objs);
    forall k | k in LiveOf(objs) ensures Proper(LiveOf(objs)[k]) { assert LiveOf(objs)[k] in LiveOf(objs).Values; }
  }

  lemma ProperIsOrderly(cfg: Settings, kind: Kind<Cluster>, live: Live, e: Event)
    requires KeepsNames(cfg.rules) && AllProper(live) && ProperEvent(cfg, kind, e)
    ensures Orderly(cfg, kind, live, e) && AllProper(LiveAfter(live, e))
  {
    match e
    case Add(ServiceObject(Some(s))) => ProperNames(cfg, s); ProperApart(cfg, live, s);
    case Update(ServiceObject(Some(s))) => ProperNames(cfg, s); ProperApart(cfg, live, s);
    case Delete(ServiceObject(Some(s))) => ProperApart(cfg, live, s);
    case ReplaceAll(objs) => if OnlyServices(objs) { ProperListing(cfg, objs); }
    case _ =>
  }

  /** Where overrides set no names, colon-free identifiers and distinct ports are enough. */
  lemma {:induction false} ProperRunsAreOrderly(cfg: Settings, kind: Kind<Cluster>, events: seq<Event>)
    requires KeepsNames(cfg.rules) && forall i :: 0 <= i < |events| ==> ProperEvent(cfg, kind, events[i])
    ensures AllOrderly(cfg, kind, events) && AllProper(LivesAfter(events))
    decreases |events|
  {
    if events != [] {
      var n := |events| - 1;
      ProperRunsAreOrderly(cfg, kind, events[..n]);
      ProperIsOrderly(cfg, kind, LivesAfter(events[..n]), events[n]);
    }
  }

  lemma PublishesProperServices(cfg: Settings, kind: Kind<Cluster>, events: seq<Event>)
    requires KeepsNames(cfg.rules) && forall i :: 0 <= i < |events| ==> ProperEvent(cfg, kind, events[i])
    requires NamedByCluster(kind)
    ensures Shown(cfg, PublishedAfter(cfg, kind, events), LivesAfter(events))
    ensures NothingDropped(cfg, events) ==> Exact(cfg, PublishedAfter(cfg, kind, events), LivesAfter(events))
  {
    ProperRunsAreOrderly(cfg, kind, events);
    PublishesLiveServices(cfg, kind, events);
  }

  /* ---- Two runs ---- */

  /** A service is added, then updated: exact exactly if no name is dropped. */
  lemma AddThenUpdate(cfg: Settings, kind: Kind<Cluster>, s: Service, t: Service)
    requires NamedByCluster(kind) && KeyOf(s) == KeyOf(t) && Fits(cfg, kind, map[], s) && Fits(cfg, kind, map[], t)
    ensures var events := [Event.Add(ServiceObject(Some(s))), Update(ServiceObject(Some(t)))];
      && AllOrderly(cfg, kind, events)
      && (Exact(cfg, PublishedAfter(cfg, kind, events), LivesAfter(events)) <==>
            NamesIn(FromService(cfg, Some(s))) <= NamesIn(FromService(cfg, Some(t))))
  {
    var e1, e2 := Event.Add(ServiceObject(Some(s))), Update(ServiceObject(Some(t)));
    FirstAdd(cfg, kind, s);
    SecondEvent(cfg, kind, e1, e2);
    UpdateOfOne(cfg, kind, PublishedAfter(cfg, kind, [e1]), s, t);
  }

  lemma SecondEvent(cfg: Settings, kind: Kind<Cluster>, e1: Event, e2: Event)
    ensures PublishedAfter(cfg, kind, [e1, e2]) == Handled(cfg, kind, PublishedAfter(cfg, kind, [e1]), e2).pub
    ensures LivesAfter([e1, e2]) == LiveAfter(LivesAfter([e1]), e2)
    ensures AllOrderly(cfg, kind, [e1, e2]) <==> AllOrderly(cfg, kind, [e1]) && Orderly(cfg, kind, LivesAfter([e1]), e2)
  {
    assert [e1, e2] == [e1] + [e2];
    AfterOneMore(cfg, kind, [e1], e2);
  }

  lemma UpdateOfOne(cfg: Settings, kind: Kind<Cluster>, pub: Published, s: Service, t: Service)
    requires var live := map[KeyOf(s) := s]; Exact(cfg, pub, live) && WellKept(cfg, live)
    requires NamedByCluster(kind) && KeyOf(s) == KeyOf(t) && Fits(cfg, kind, map[], t)
    ensures Fits(cfg, kind, map[KeyOf(s) := s], t)
    ensures Exact(cfg, Effect(kind, pub, Call.Add(FromService(cfg, Some(t)))), map[KeyOf(s) := s][KeyOf(t) := t]) <==>
      NamesIn(FromService(cfg, Some(s))) <= NamesIn(FromService(cfg, Some(t)))
  {
    AddIsExactIff(cfg, kind, pub, map[KeyOf(s) := s], t);
    NoneMissing(NamesIn(FromService(cfg, Some(s))), NamesIn(FromService(cfg, Some(t))));
  }

  lemma NoneMissing<T>(xs: set<T>, ys: set<T>)
    ensures xs - ys == {} <==> xs <= ys
  {
    if xs - ys == {} {
      forall x | x in xs ensures x in ys { assert x !in xs - ys; }
    }
  }

  lemma FirstAdd(cfg: Settings, kind: Kind<Cluster>, s: Service)
    requires NamedByCluster(kind) && Fits(cfg, kind, map[], s)
    ensures var events := [Event.Add(ServiceObject(Some(s)))];
      && AllOrderly(cfg, kind, events) && LivesAfter(events) == map[KeyOf(s) := s]
      && Exact(cfg, PublishedAfter(cfg, kind, events), LivesAfter(events)) && WellKept(cfg, LivesAfter(events))
  {
    var e := Event.Add(ServiceObject(Some(s)));
    assert [] + [e] == [e];
    AfterOneMore(cfg, kind, [], e);
    assert LiveNames(cfg, map[]) == {};
    AddKeeps(cfg, kind, map[], map[], s);
  }

  /** A dropped port's cluster stays: a service with one port, then without it. */
  lemma DroppedPortStays(cfg: Settings, kind: Kind<Cluster>) returns (first: Service, second: Service)
    requires cfg.rules == [] && NamedByCluster(kind) && forall c :: kind.valid(c)
    ensures Proper(first) && Proper(second) && KeyOf(first) == KeyOf(second)
    ensures var events := [Event.Add(ServiceObject(Some(first))), Update(ServiceObject(Some(second)))];
      AllOrderly(cfg, kind, events) && !Exact(cfg, PublishedAfter(cfg, kind, events), LivesAfter(events))
  {
    first := Service("ns", "svc", [ServicePort("http", 80, "TCP")]);
    second := Service("ns", "svc", []);
    ProperNames(cfg, first);
    ProperNames(cfg, second);
    OneClusterNamed(cfg, first);
    assert FromService(cfg, Some(second)) == [];
    AddThenUpdate(cfg, kind, first, second);
  }

  lemma OneClusterNamed(cfg: Settings, s: Service)
    requires cfg.rules == [] && |s.ports| == 1 && Naming.Supported(s.ports[0].protocol)
    ensures NamesIn(FromService(cfg, Some(s))) != {}
  {
    var p := s.ports[0];
    Naming.EmptyNameIffUnsupported(s.namespace, s.name, p.name, p.number, p.protocol);
    assert FromPort(cfg, s, p).Some?;
    FromPortsOf(cfg, s, s.ports);
    var c := FromPort(cfg, s, p).value;
    assert c in FromPorts(cfg, s, s.ports);
    assert c.name in NamesIn(FromService(cfg, Some(s)));
  }

  /** A rule that gives every port of this name one cluster name. */
  function SharingRule(portName: string, name: string): Rule {
    Rule([Some(Matcher("", portName))], Some(Cluster(name, None, None, [], None)), false)
  }

  lemma SharedCluster(cfg: Settings, s: Service, port: ServicePort, name: string)
    requires cfg.rules == [SharingRule(port.name, name)] && cfg.base.discovery == None
    requires port.name != "" && name != "" && s.ports == [port] && Naming.Supported(port.protocol)
    ensures |FromService(cfg, Some(s))| == 1
    ensures var c := FromService(cfg, Some(s))[0];
      c.name == name && c.load == Some(SingleTarget(name, HostName(s), port.number, Naming.ProtocolOf(port.protocol)))
  {
    Naming.EmptyNameIffUnsupported(s.namespace, s.name, port.name, port.number, port.protocol);
    var c := cfg.base.(name := NameOf(s, port).name);
    var rule := SharingRule(port.name, name);
    assert Evaluate(rule.matchers[0], c.name, Some(port));
    assert cfg.rules[1..] == [];
    assert Fold(cfg.rules, c, Some(port)) == Some(Merge(c, rule.override.value));
    OnePort(cfg, s, port);
  }

  lemma OnePort(cfg: Settings, s: Service, port: ServicePort)
    requires s.ports == [port] && FromPort(cfg, s, port).Some?
    ensures FromService(cfg, Some(s)) == [FromPort(cfg, s, port).value]
  {
    assert [port][..0] == [];
    assert FromPorts(cfg, s, []) == [];
  }

  lemma ClustersDiffer(cfg: Settings, s: Service, t: Service, port: ServicePort, name: string)
    requires cfg.rules == [SharingRule(port.name, name)] && cfg.base.discovery == None && HostName(s) != HostName(t)
    requires port.name != "" && name != "" && s.ports == [port] == t.ports && Naming.Supported(port.protocol)
    ensures OwnNames(cfg, s) && OwnNames(cfg, t)
    ensures exists c, d :: c in FromService(cfg, Some(s)) && d in FromService(cfg, Some(t)) && c.name == d.name && c != d
  {
    SharedCluster(cfg, s, port, name);
    SharedCluster(cfg, t, port, name);
    LoadsDiffer(FromService(cfg, Some(s))[0], FromService(cfg, Some(t))[0], name, HostName(s), HostName(t), port);
    assert FromService(cfg, Some(s))[0] in FromService(cfg, Some(s));
    assert FromService(cfg, Some(t))[0] in FromService(cfg, Some(t));
  }

  lemma LoadsDiffer(c: Cluster, d: Cluster, name: string, host1: string, host2: string, port: ServicePort)
    requires c.load == Some(SingleTarget(name, host1, port.number, Naming.ProtocolOf(port.protocol)))
    requires d.load == Some(SingleTarget(name, host2, port.number, Naming.ProtocolOf(port.protocol)))
    requires host1 != host2
    ensures c != d
  {
    assert c.load.value.groups[0].endpoints[0].address == host1;
  }

  /** Two services whose http ports a rule names alike: the one added last wins, and the
      other's cluster, with the other's address, is no longer published. */
  lemma SharedNameLosesOne(base: Cluster, kind: Kind<Cluster>) returns (cfg: Settings, s: Service, t: Service)
    requires base.discovery == None && NamedByCluster(kind) && forall c :: kind.valid(c)
    ensures cfg.base == base && Proper(s) && Proper(t) && !SameService(s, t)
    ensures var events := [Event.Add(ServiceObject(Some(s))), Event.Add(ServiceObject(Some(t)))];
      !Shown(cfg, PublishedAfter(cfg, kind, events), LivesAfter(events))
  {
    var port;
    s, t, port := LikePorts();
    cfg := Settings(base, [SharingRule(port.name, "shared")]);
    ClustersDiffer(cfg, s, t, port, "shared");
    LastAddWins(cfg, kind, s, t);
  }

  lemma LikePorts() returns (s: Service, t: Service, port: ServicePort)
    ensures Proper(s) && Proper(t) && !SameService(s, t) && HostName(s) != HostName(t)
    ensures s.ports == [port] == t.ports && port.name != "" && Naming.Supported(port.protocol)
  {
    port := ServicePort("http", 80, "TCP");
    s, t := Service("ns", "a", [port]), Service("ns", "b", [port]);
    assert HostName(s)[0] != HostName(t)[0];
  }

  lemma LastAddWins(cfg: Settings, kind: Kind<Cluster>, s: Service, t: Service)
    requires NamedByCluster(kind) && (forall c :: kind.valid(c)) && KeyOf(s) != KeyOf(t)
    requires OwnNames(cfg, s) && OwnNames(cfg, t)
    requires exists c, d :: c in FromService(cfg, Some(s)) && d in FromService(cfg, Some(t)) && c.name == d.name && c != d
    ensures var events := [Event.Add(ServiceObject(Some(s))), Event.Add(ServiceObject(Some(t)))];
      !Shown(cfg, PublishedAfter(cfg, kind, events), LivesAfter(events))
  {
    var e1, e2 := Event.Add(ServiceObject(Some(s))), Event.Add(ServiceObject(Some(t)));
    FirstAdd(cfg, kind, s);
    SecondEvent(cfg, kind, e1, e2);
    SecondAddHides(cfg, kind, PublishedAfter(cfg, kind, [e1]), s, t);
  }

  lemma SecondAddHides(cfg: Settings, kind: Kind<Cluster>, pub: Published, s: Service, t: Service)
    requires NamedByCluster(kind) && (forall c :: kind.valid(c)) && KeyOf(s) != KeyOf(t) && OwnNames(cfg, t)
    requires Shown(cfg, pub, map[KeyOf(s) := s])
    requires exists c, d :: c in FromService(cfg, Some(s)) && d in FromService(cfg, Some(t)) && c.name == d.name && c != d
    ensures !Shown(cfg, Effect(kind, pub, Call.Add(FromService(cfg, Some(t)))), map[KeyOf(s) := s][KeyOf(t) := t])
  {
    LastDisagrees(cfg, map[KeyOf(s) := s], s, t);
    AddKeepsShownIff(cfg, kind, pub, map[KeyOf(s) := s], t);
  }

  lemma LastDisagrees(cfg: Settings, live: Live, s: Service, t: Service)
    requires KeyOf(s) in live && live[KeyOf(s)] == s && KeyOf(s) != KeyOf(t)
    requires exists c, d :: c in FromService(cfg, Some(s)) && d in FromService(cfg, Some(t)) && c.name == d.name && c != d
    ensures !Agrees(cfg, live, t)
  {
    var c, d :| c in FromService(cfg, Some(s)) && d in FromService(cfg, Some(t)) && c.name == d.name && c != d;
  }
}
