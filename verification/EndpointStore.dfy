/** The endpoint store as the object it is: an index of slices changed in place, and a
    manager that every change is passed on to. */
module EndpointStoreObject {
  import opened EndpointIndex
  import opened EndpointRuns
  import opened ManagerObject
  import opened Options
  import opened Registry
  import opened Sequences
  import opened Slices
  import opened Text
  import opened Translation
  import opened TranslationLaws

  /** What clients can see between the steps of one update: a cluster is there unless it is
      one of those to go, and reads as before the update or as after it. */
  ghost predicate Between(pub: Published, gone: set<string>, las: seq<Assignment>, h: Published) {
    && (forall c :: c in pub && c !in gone ==> c in h)
    && forall c :: c in h ==>
         (c in pub && h[c] == pub[c]) || (exists i :: 0 <= i < |las| && las[i].cluster == c && h[c] == las[i])
  }

  /** The maps from position n on are all in between. */
  ghost predicate BetweenFrom(
    n: nat, pub: Published, gone: set<string>, las: seq<Assignment>, history: seq<Published>) {
    forall k :: n <= k < |history| ==> Between(pub, gone, las, history[k])
  }

  /** maps.Values. */
  method Values(slices: map<string, Slice>) returns (xs: seq<Slice>)
    ensures ListsValues(xs, slices)
  {
    xs := [];
    ghost var ks: seq<string> := [];
    var rest := slices.Keys;
    while rest != {}
      invariant rest <= slices.Keys && Enumerates(ks, slices.Keys - rest) && |ks| == |xs|
      invariant forall i :: 0 <= i < |ks| ==> ks[i] in slices && xs[i] == slices[ks[i]]
    {
      var k :| k in rest;
      xs := xs + [slices[k]];
      assert k !in ks;
      ks := ks + [k];
      rest := rest - {k};
    }
    assert Enumerates(ks, slices.Keys);
  }

  /** The two naming passes over one map: the names found without looking at endpoints are
      those of the full translation, the clusters with nothing in them included. */
  method NamePasses(env: Env, slices: map<string, Slice>) returns (names: set<string>, result: seq<Assignment>)
    ensures names == ClustersOf(result)
    ensures forall i, j :: 0 <= i < j < |result| ==> Less(result[i].cluster, result[j].cluster)
    ensures exists xs :: ListsValues(xs, slices) && forall i :: 0 <= i < |result| ==>
      (result[i].groups == [] <==> !HasEndpoints(env, xs, result[i].cluster))
  {
    names := ClusterNames(slices);
    var xs := Values(slices);
    result := LoadAssignments(env, xs);
    ValuesAreElements(xs, slices);
    forall i | 0 <= i < |result| ensures result[i].groups == [] <==> !HasEndpoints(env, xs, result[i].cluster) {
      EmptyIffNothingLeads(env, xs, result[i]);
    }
  }

  /** Strikes the clusters of the assignments off the names. */
  method Unlisted(names: set<string>, las: seq<Assignment>) returns (rest: set<string>)
    ensures rest == names - ClustersOf(las)
  {
    rest := names;
    for i := 0 to |las|
      invariant rest == names - ClustersOf(las[..i])
    {
      assert las[..i + 1] == las[..i] + [las[i]];
      ClustersGrow(las[..i], las[i]);
      rest := rest - {las[i].cluster};
    }
    assert las[..|las|] == las;
  }

  /** The inner map of one service, changed in place. */
  class SliceMap {
    var slices: map<string, Slice>

    constructor ()
      ensures slices == map[]
    {
      slices := map[];
    }

    /** updateFn: puts the slice in, or takes it out. */
    method Apply(op: Op, es: Slice)
      modifies this
      ensures slices == Edited(op, old(slices), es)
    {
      if op == DeleteSlice {
        slices := slices - {es.name};
      } else {
        slices := slices[es.name := es];
      }
    }
  }

  type Shelf = map<NamespacedName, SliceMap>

  /** No inner map serves two services. */
  ghost predicate Apart(shelf: Shelf) {
    forall s, t :: s in shelf && t in shelf && shelf[s] == shelf[t] ==> s == t
  }

  /** The inner maps hold what the index says. */
  ghost predicate Holds(shelf: Shelf, store: Store)
    reads shelf.Values
  {
    && Apart(shelf) && shelf.Keys == store.Keys
    && forall svc :: svc in shelf ==> shelf[svc].slices == store[svc]
  }

  /** The slices of a listing, and new inner maps with them; None if something else is among
      the objects. */
  method FileObjects(objs: seq<Object>) returns (r: Option<(seq<Slice>, Shelf)>)
    ensures r.Some? <==> OnlySlices(objs)
    ensures r.Some? ==> r.value.0 == SlicesIn(objs) && Holds(r.value.1, FileAll(SlicesIn(objs)))
    ensures r.Some? ==> forall m :: m in r.value.1.Values ==> fresh(m)
  {
    var endpoints: seq<Slice> := [];
    var serviceEps: Shelf := map[];
    for i := 0 to |objs|
      invariant OnlySlices(objs[..i]) && endpoints == SlicesIn(objs[..i])
      invariant forall m :: m in serviceEps.Values ==> fresh(m)
      invariant Holds(serviceEps, FileAll(endpoints))
    {
      if objs[i].OtherObject? {
        assert objs[i] in objs;
        return None;
      }
      FileOneMore(endpoints, objs[i].es);
      ListOneMore(objs, i);
      serviceEps := FileSlice(serviceEps, objs[i].es, FileAll(endpoints));
      endpoints := endpoints + [objs[i].es];
    }
    assert objs[..|objs|] == objs;
    return Some((endpoints, serviceEps));
  }

  /** Puts a slice into its service's inner map. */
  method FileSlice(shelf: Shelf, es: Slice, ghost store: Store) returns (after: Shelf)
    requires Holds(shelf, store)
    modifies shelf.Values
    ensures forall m :: m in after.Values ==> m in shelf.Values || fresh(m)
    ensures Holds(after, store[ServiceOf(es) := SlicesOf(store, ServiceOf(es))[es.name := es]])
  {
    var svcESs;
    after, svcESs := Fetch(shelf, ServiceOf(es), store);
    svcESs.slices := svcESs.slices[es.name := es];
  }

  /** The inner map of a service, made if missing. */
  method Fetch(shelf: Shelf, svc: NamespacedName, ghost store: Store) returns (after: Shelf, svcESs: SliceMap)
    requires Holds(shelf, store)
    ensures svc in after && after[svc] == svcESs
    ensures Holds(after, store[svc := SlicesOf(store, svc)])
    ensures forall m :: m in after.Values ==> m in shelf.Values || fresh(m)
  {
    after := shelf;
    if svc in shelf {
      svcESs := shelf[svc];
    } else {
      svcESs := new SliceMap();
      after := after[svc := svcESs];
    }
  }

  lemma ListOneMore(objs: seq<Object>, i: nat)
    requires i < |objs| && OnlySlices(objs[..i]) && objs[i].SliceObject?
    ensures OnlySlices(objs[..i + 1]) && SlicesIn(objs[..i + 1]) == SlicesIn(objs[..i]) + [objs[i].es]
  {
    assert objs[..i + 1] == objs[..i] + [objs[i]];
  }

  lemma FileOneMore(slices: seq<Slice>, es: Slice)
    ensures var svc := ServiceOf(es);
      FileAll(slices + [es]) == FileAll(slices)[svc := SlicesOf(FileAll(slices), svc)[es.name := es]]
  {
    assert (slices + [es])[..|slices|] == slices;
    assert es.name in SlicesOf(FileAll(slices), ServiceOf(es))[es.name := es];
  }

  class EndpointStore {
    const env: Env
    const srv: Manager<Assignment>
    var serverESs: Shelf

    /** What serverESs holds. */
    ghost var store: Store

    ghost predicate Valid()
      reads this, srv, serverESs.Values
    {
      Holds(serverESs, store) && Served()
    }

    /** The manager is in order. */
    ghost predicate Served()
      reads srv
    {
      srv.Valid() && NamedByCluster(srv.kind)
    }

    ghost function State(): Index
      reads this, srv
    {
      Index(store, srv.resources, srv.calls)
    }

    constructor (env: Env, srv: Manager<Assignment>)
      ensures this.env == env && this.srv == srv && serverESs == map[] && store == map[]
    {
      this.env, this.srv, serverESs, store := env, srv, map[], map[];
    }

    method Add(obj: Object) returns (ok: bool, ghost w: Choices)
      requires Valid()
      modifies this`serverESs, this`store, serverESs.Values, srv`resources, srv`version, srv`history, srv`calls, srv.sessions
      ensures Valid() && Changed(old(State()), old(srv.history), AddSlice, obj, ok, w)
      ensures obj.OtherObject? ==> !ok && State() == old(State())
    {
      ok, w := Change(AddSlice, obj);
    }

    method Update(obj: Object) returns (ok: bool, ghost w: Choices)
      requires Valid()
      modifies this`serverESs, this`store, serverESs.Values, srv`resources, srv`version, srv`history, srv`calls, srv.sessions
      ensures Valid() && Changed(old(State()), old(srv.history), UpdateSlice, obj, ok, w)
      ensures obj.OtherObject? ==> !ok && State() == old(State())
    {
      ok, w := Change(UpdateSlice, obj);
    }

    method Delete(obj: Object) returns (ok: bool, ghost w: Choices)
      requires Valid()
      modifies this`serverESs, this`store, serverESs.Values, srv`resources, srv`version, srv`history, srv`calls, srv.sessions
      ensures Valid() && Changed(old(State()), old(srv.history), DeleteSlice, obj, ok, w)
      ensures obj.OtherObject? ==> !ok && State() == old(State())
    {
      ok, w := Change(DeleteSlice, obj);
    }

    /** The event is handled as the index demands, and every map the manager went through is
        in between the one before and the one after. */
    ghost predicate Changed(before: Index, history: seq<Published>, op: Op, obj: Object, ok: bool, w: Choices)
      reads this, srv
    {
      && Handles(env, srv.kind, before, Event.Change(op, obj), State(), ok)
      && history <= srv.history
      && match obj
         case OtherObject => srv.history == history
         case SliceObject(es) =>
           && Changes(env, srv.kind, before, op, es, State(), ok, w)
           && BetweenFrom(|history|, before.pub, Elements(w.gone), w.las, srv.history)
    }

    method Change(op: Op, obj: Object) returns (ok: bool, ghost w: Choices)
      requires Valid()
      modifies this`serverESs, this`store, serverESs.Values, srv`resources, srv`version, srv`history, srv`calls, srv.sessions
      ensures Valid() && Changed(old(State()), old(srv.history), op, obj, ok, w)
      ensures obj.OtherObject? ==> !ok && State() == old(State())
    {
      if obj.OtherObject? {
        return false, Choices([], [], []);
      }
      ghost var before := State();
      ok, w := ChangeSlice(op, obj.es);
      assert Handles(env, srv.kind, before, Event.Change(op, obj), State(), ok);
    }

    /** Puts the slice into its service's inner map, or takes it out; also returns the
        clusters the service named before. */
    method Edit(op: Op, svc: NamespacedName, es: Slice) returns (svcESs: SliceMap, prevClusters: set<string>)
      requires Holds(serverESs, store)
      modifies this`serverESs, this`store, serverESs.Values
      ensures Holds(serverESs, store) && svc in serverESs && serverESs[svc] == svcESs
      ensures forall m :: m in serverESs.Values ==> m in old(serverESs.Values) || fresh(m)
      ensures svcESs.slices == Edited(op, SlicesOf(old(store), svc), es)
      ensures store == old(store)[svc := svcESs.slices]
      ensures prevClusters == NamesOf(SlicesOf(old(store), svc).Values)
    {
      serverESs, svcESs := Fetch(serverESs, svc, store);
      prevClusters := ClusterNames(svcESs.slices);
      svcESs.Apply(op, es);
      store := store[svc := svcESs.slices];
    }

    /** The service's assignments now, and which of the clusters it named before are gone. */
    method Retranslate(svcESs: SliceMap, prevClusters: set<string>)
      returns (las: seq<Assignment>, left: set<string>, ghost xs: seq<Slice>)
      ensures ListsValues(xs, svcESs.slices) && IsTranslation(env, xs, las) && left == prevClusters - ClustersOf(las)
    {
      var slices := Values(svcESs.slices);
      xs := slices;
      las := LoadAssignments(env, slices);
      left := Unlisted(prevClusters, las);
    }

    method ChangeSlice(op: Op, es: Slice) returns (ok: bool, ghost w: Choices)
      requires Valid()
      modifies this`serverESs, this`store, serverESs.Values, srv`resources, srv`version, srv`history, srv`calls, srv.sessions
      ensures Valid() && Changes(env, srv.kind, old(State()), op, es, State(), ok, w)
      ensures old(srv.history) <= srv.history
      ensures BetweenFrom(|old(srv.history)|, old(State()).pub, Elements(w.gone), w.las, srv.history)
    {
      var svc := ServiceOf(es);
      ghost var before := State();
      var svcESs, prevClusters := Edit(op, svc, es);
      ghost var xs, gone;
      var las;
      ghost var slices := svcESs.slices;
      assert srv.resources == before.pub && srv.calls == before.calls && srv.history == old(srv.history);
      las, prevClusters, xs := Retranslate(svcESs, prevClusters);
      ok, gone := PassOn(svc, prevClusters, las);
      w := Choices(xs, las, gone);
      RefiledInSteps(before.store, svc, slices);
    }

    /** Deletes the clusters that no longer exist, forgets the service if it has no slices
        left, and sets the new assignments. */
    method PassOn(svc: NamespacedName, names: set<string>, las: seq<Assignment>) returns (ok: bool, ghost gone: seq<string>)
      requires Valid() && svc in serverESs
      modifies this`serverESs, this`store, srv`resources, srv`version, srv`history, srv`calls, srv.sessions
      ensures Valid() && ok == AllValid(srv.kind, las) && Enumerates(gone, names) && Elements(gone) == names
      ensures store == if |old(store)[svc]| == 0 then old(store) - {svc} else old(store)
      ensures srv.resources == Effect(srv.kind, old(srv.resources) - names, Call.Add(las))
      ensures srv.calls == old(srv.calls) + Deletions(gone) + [Call.Add(las)]
      ensures old(srv.history) <= srv.history
      ensures BetweenFrom(|old(srv.history)|, old(srv.resources), names, las, srv.history)
    {
      gone := Retire(svc, names, las);
      ok := AddAll(las, old(srv.resources), names, old(srv.history));
    }

    method Retire(svc: NamespacedName, names: set<string>, ghost las: seq<Assignment>) returns (ghost gone: seq<string>)
      requires Valid() && svc in serverESs
      modifies this`serverESs, this`store, srv`resources, srv`version, srv`history, srv`calls, srv.sessions
      ensures Valid() && Enumerates(gone, names) && Elements(gone) == names
      ensures store == if |old(store)[svc]| == 0 then old(store) - {svc} else old(store)
      ensures srv.resources == old(srv.resources) - names && srv.calls == old(srv.calls) + Deletions(gone)
      ensures old(srv.history) <= srv.history
      ensures BetweenFrom(|old(srv.history)|, old(srv.resources), names, las, srv.history)
    {
      gone := DeleteAll(names, las);
      Forget(svc);
    }

    /** Forgets a service that has no slices left. */
    method Forget(svc: NamespacedName)
      requires Holds(serverESs, store) && svc in serverESs
      modifies this`serverESs, this`store
      ensures Holds(serverESs, store) && store == if |old(store)[svc]| == 0 then old(store) - {svc} else old(store)
    {
      if |serverESs[svc].slices| == 0 {
        serverESs, store := serverESs - {svc}, store - {svc};
      }
    }

    method AddAll(las: seq<Assignment>, ghost pub: Published, ghost gone: set<string>, ghost start: seq<Published>)
      returns (ok: bool)
      requires Served() && srv.resources == pub - gone
      requires start <= srv.history && BetweenFrom(|start|, pub, gone, las, srv.history)
      modifies srv`resources, srv`version, srv`history, srv`calls, srv.sessions
      ensures Served() && ok == AllValid(srv.kind, las)
      ensures srv.resources == Effect(srv.kind, pub - gone, Call.Add(las)) && srv.calls == old(srv.calls) + [Call.Add(las)]
      ensures start <= srv.history && BetweenFrom(|start|, pub, gone, las, srv.history)
    {
      ghost var history := srv.history;
      var missed;
      ok, missed := srv.Add(las);
      AddedBetween(srv.kind, pub, gone, las);
      BetweenJoins(|start|, pub, gone, las, history, srv.history);
    }

    method DeleteAll(names: set<string>, ghost las: seq<Assignment>) returns (ghost gone: seq<string>)
      requires Served()
      modifies srv`resources, srv`version, srv`history, srv`calls, srv.sessions
      ensures Served() && Enumerates(gone, names)
      ensures srv.resources == old(srv.resources) - names && srv.calls == old(srv.calls) + Deletions(gone)
      ensures old(srv.history) <= srv.history
      ensures BetweenFrom(|old(srv.history)|, old(srv.resources), names, las, srv.history)
    {
      gone := [];
      var rest := names;
      assert srv.calls + Deletions([]) == srv.calls;
      while rest != {}
        invariant rest <= names && Served() && Enumerates(gone, names - rest)
        invariant srv.resources == old(srv.resources) - (names - rest)
        invariant srv.calls == old(srv.calls) + Deletions(gone)
        invariant old(srv.history) <= srv.history
        invariant BetweenFrom(|old(srv.history)|, old(srv.resources), names, las, srv.history)
      {
        var n :| n in rest;
        var missed := srv.Delete(n);
        assert Deletions<Assignment>(gone + [n]) == Deletions(gone) + [Call.Delete(n)];
        assert n !in gone;
        gone := gone + [n];
        rest := rest - {n};
      }
    }

    /** All or nothing: refused or invalid, it leaves index and map as they were; otherwise
        the index is rebuilt, the map changes in one step, and exactly the names on file
        before or after are announced. */
    method Replace(objs: seq<Object>) returns (ok: bool, ghost missed: set<Session>)
      requires Valid()
      modifies this`serverESs, this`store, serverESs.Values, srv`resources, srv`version, srv`history, srv`calls, srv.sessions
      ensures Valid() && Handles(env, srv.kind, old(State()), ReplaceAll(objs), State(), ok)
      ensures OtherObject in objs ==> !ok && State() == old(State())
      ensures srv.history == old(srv.history) + if ok then [srv.resources] else []
      ensures !ok ==> srv.version == old(srv.version)
      ensures var names := old(srv.resources).Keys + srv.resources.Keys;
        forall s :: s in srv.sessions ==>
          s.inbox == if ok && names != {} && s !in missed then old(s.inbox) + [names] else old(s.inbox)
    {
      missed := {};
      var filed := FileObjects(objs);
      if filed.None? {
        return false, {};
      }
      ghost var las;
      ok, missed, las := ReplaceSlices(filed.value.0, filed.value.1);
      assert Replaces(env, srv.kind, old(State()), SlicesIn(objs), State(), ok, las);
    }

    method ReplaceSlices(slices: seq<Slice>, serviceEps: Shelf)
      returns (ok: bool, ghost missed: set<Session>, ghost las: seq<Assignment>)
      requires Valid() && Holds(serviceEps, FileAll(slices))
      modifies this`serverESs, this`store, srv`resources, srv`version, srv`history, srv`calls, srv.sessions
      ensures Valid() && Replaces(env, srv.kind, old(State()), slices, State(), ok, las)
      ensures srv.history == old(srv.history) + if ok then [srv.resources] else []
      ensures !ok ==> srv.version == old(srv.version)
      ensures var names := old(srv.resources).Keys + srv.resources.Keys;
        forall s :: s in srv.sessions ==>
          s.inbox == if ok && names != {} && s !in missed then old(s.inbox) + [names] else old(s.inbox)
    {
      ok, missed, las := Rebuild(slices);
      TakeOver(ok, serviceEps, FileAll(slices));
    }

    /** The new inner maps take the place of the old ones, if all went well. */
    method TakeOver(ok: bool, shelf: Shelf, ghost after: Store)
      requires Holds(serverESs, store) && Holds(shelf, after)
      modifies this`serverESs, this`store
      ensures Holds(serverESs, store) && store == if ok then after else old(store)
    {
      if ok {
        serverESs, store := shelf, after;
      }
    }

    /** Translates the slices and replaces everything with the result. */
    method Rebuild(slices: seq<Slice>) returns (ok: bool, ghost missed: set<Session>, ghost las: seq<Assignment>)
      requires Served()
      modifies srv`resources, srv`version, srv`history, srv`calls, srv.sessions
      ensures Served() && IsTranslation(env, slices, las) && ok == AllValid(srv.kind, las)
      ensures srv.resources == Effect(srv.kind, old(srv.resources), Call.Replace(las))
      ensures srv.calls == old(srv.calls) + [Call.Replace(las)]
      ensures srv.history == old(srv.history) + if ok then [srv.resources] else []
      ensures !ok ==> srv.version == old(srv.version)
      ensures var names := old(srv.resources).Keys + srv.resources.Keys;
        forall s :: s in srv.sessions ==>
          s.inbox == if ok && names != {} && s !in missed then old(s.inbox) + [names] else old(s.inbox)
    {
      var loadAssignments := LoadAssignments(env, slices);
      las := loadAssignments;
      var unsent;
      ok, unsent := srv.Replace(loadAssignments);
      missed := unsent;
      LastWins(srv.kind, map[], las);
      assert ok ==> srv.resources.Keys == Names(srv.kind, las);
    }
  }

  /* ---- What the methods need ---- */

  lemma RefiledInSteps(store: Store, svc: NamespacedName, slices: map<string, Slice>)
    ensures Refiled(store, svc, slices) == if |slices| == 0 then store[svc := slices] - {svc} else store[svc := slices]
  {
    assert |slices| == 0 <==> slices == map[];
    assert store[svc := slices] - {svc} == store - {svc};
  }

  /** Filing some of the new assignments, after the deletions, stays in between. */
  lemma AddedBetween(kind: Kind<Assignment>, pub: Published, gone: set<string>, las: seq<Assignment>)
    requires NamedByCluster(kind)
    ensures BetweenFrom(0, pub, gone, las, FilingTrace(kind, pub - gone, las[..FirstInvalid(kind, las)]))
  {
    var k := FirstInvalid(kind, las);
    var trace := FilingTrace(kind, pub - gone, las[..k]);
    forall j | 0 <= j < |trace| ensures Between(pub, gone, las, trace[j]) {
      assert las[..k][..j + 1] == las[..j + 1];
      FiledBetween(kind, pub, gone, las, j + 1);
    }
  }

  lemma BetweenJoins(
    n: nat, pub: Published, gone: set<string>, las: seq<Assignment>, h1: seq<Published>, h2: seq<Published>)
    requires BetweenFrom(n, pub, gone, las, h1) && h1 <= h2 && BetweenFrom(|h1|, pub, gone, las, h2)
    ensures BetweenFrom(n, pub, gone, las, h2)
  {
    forall k | n <= k < |h1| ensures Between(pub, gone, las, h2[k]) {
      assert h2[k] == h1[k];
    }
  }

  lemma FiledBetween(kind: Kind<Assignment>, pub: Published, gone: set<string>, las: seq<Assignment>, j: nat)
    requires NamedByCluster(kind) && j <= |las|
    ensures Between(pub, gone, las, PutAll(kind, pub - gone, las[..j]))
  {
    var h := PutAll(kind, pub - gone, las[..j]);
    LastWins(kind, pub - gone, las[..j]);
    forall c | c in h
      ensures (c in pub && h[c] == pub[c]) || exists i :: 0 <= i < |las| && las[i].cluster == c && h[c] == las[i]
    {
      if c in Names(kind, las[..j]) {
        var i := HasLastNamed(kind, las[..j], c);
        assert las[i].cluster == c && h[c] == las[i];
      }
    }
  }

  /* ---- Make before break ---- */

  /** At every moment of an update, a cluster published before and after it stays published,
      what is missing is on its way out, and the clusters of other services are untouched. */
  lemma MakeBeforeBreak(
    env: Env, kind: Kind<Assignment>, s: Index, op: Op, es: Slice, s': Index, ok: bool, w: Choices, h: Published)
    requires Faithful(env, s) && WellNamed(es) && NamedByCluster(kind)
    requires Changes(env, kind, s, op, es, s', ok, w) && Between(s.pub, Elements(w.gone), w.las, h)
    ensures forall c :: c in s.pub && c in s'.pub ==> c in h
    ensures forall c :: c in s.pub && c !in h ==> c in Leaving(s, op, es)
    ensures forall c :: c in NamesOf(Others(s.store, ServiceOf(es))) ==> c in s.pub && c in h && h[c] == s.pub[c]
  {
    GoneAreLeaving(env, kind, s, op, es, s', ok, w);
    OneServiceAside(s.store, op, es);
    UpdateDropsGone(kind, s.pub, w);
    NamesOfUnion(SlicesOf(s.store, ServiceOf(es)).Values, Others(s.store, ServiceOf(es)));
  }

  lemma GoneAreLeaving(
    env: Env, kind: Kind<Assignment>, s: Index, op: Op, es: Slice, s': Index, ok: bool, w: Choices)
    requires Filed(s.store) && Changes(env, kind, s, op, es, s', ok, w)
    ensures Elements(w.gone) == Leaving(s, op, es)
    ensures ClustersOf(w.las) == NamesOf(Edited(op, SlicesOf(s.store, ServiceOf(es)), es).Values)
  {
    TranslatesOwn(env, kind, s, op, es, s', ok, w);
  }

  lemma UpdateDropsGone(kind: Kind<Assignment>, pub: Published, w: Choices)
    requires NamedByCluster(kind) && Elements(w.gone) !! ClustersOf(w.las)
    ensures Effect(kind, pub - Elements(w.gone), Call.Add(w.las)).Keys !! Elements(w.gone)
  {
    var filed := w.las[..FirstInvalid(kind, w.las)];
    LastWins(kind, pub - Elements(w.gone), filed);
    forall c | c in Names(kind, filed) ensures c in ClustersOf(w.las) {
      var i :| 0 <= i < |filed| && kind.name(filed[i]) == c;
      assert w.las[i] in w.las;
    }
  }

  /** The clusters the service names before the update and not after. */
  ghost function Leaving(s: Index, op: Op, es: Slice): set<string> {
    var before := SlicesOf(s.store, ServiceOf(es));
    NamesOf(before.Values) - NamesOf(Edited(op, before, es).Values)
  }
}
