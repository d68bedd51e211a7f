/** Runs of the endpoint index: any sequence of events, and what is published after it. */
module EndpointRuns {
  import opened EndpointIndex
  import opened Naming
  import opened Options
  import opened Registry
  import opened Sequences
  import opened Slices
  import opened Translation
  import opened TranslationLaws

  datatype Event = Change(op: Op, obj: Object) | ReplaceAll(objs: seq<Object>)

  /** serverESs, what the endpoints manager holds, and the calls made to it. */
  datatype Index = Index(store: Store, pub: Published, calls: seq<Call<Assignment>>)

  const EMPTY := Index(map[], map[], [])

  /** What one update leaves to map iteration and sorting: the order of the slices, the
      translation, and the order of the deletions. */
  datatype Choices = Choices(xs: seq<Slice>, las: seq<Assignment>, gone: seq<string>)

  predicate OnlySlices(objs: seq<Object>) {
    forall o :: o in objs ==> o.SliceObject?
  }

  function SlicesIn(objs: seq<Object>): seq<Slice>
    requires OnlySlices(objs)
  {
    seq(|objs|, i requires 0 <= i < |objs| => objs[i].es)
  }

  ghost predicate Changes(
    env: Env, kind: Kind<Assignment>, s: Index, op: Op, es: Slice, s': Index, ok: bool, w: Choices) {
    && s'.store == StoreAfter(s.store, op, es)
    && Updates(env, kind, s.store, s.pub, op, es, s'.pub, ok, w.xs, w.las)
    && Enumerates(w.gone, NamesOf(SlicesOf(s.store, ServiceOf(es)).Values) - ClustersOf(w.las))
    && s'.calls == s.calls + Deletions(w.gone) + [Call.Add(w.las)]
  }

  ghost predicate Replaces(
    env: Env, kind: Kind<Assignment>, s: Index, slices: seq<Slice>, s': Index, ok: bool, las: seq<Assignment>) {
    && IsTranslation(env, slices, las) && ok == AllValid(kind, las)
    && s'.store == (if ok then FileAll(slices) else s.store)
    && s'.pub == Effect(kind, s.pub, Call.Replace(las))
    && s'.calls == s.calls + [Call.Replace(las)]
  }

  /** One event. An object that is not a slice is refused, before anything is done. */
  ghost predicate Handles(env: Env, kind: Kind<Assignment>, s: Index, e: Event, s': Index, ok: bool) {
    match e
    case Change(_, OtherObject) => s' == s && !ok
    case Change(op, SliceObject(es)) => exists w :: Changes(env, kind, s, op, es, s', ok, w)
    case ReplaceAll(objs) =>
      if OnlySlices(objs) then exists las :: Replaces(env, kind, s, SlicesIn(objs), s', ok, las)
      else s' == s && !ok
  }

  /** A run from nothing: the states it goes through, and what each event reported. */
  ghost predicate IsRun(env: Env, kind: Kind<Assignment>, events: seq<Event>, states: seq<Index>, oks: seq<bool>)
    decreases |events|
  {
    && |states| == |events| + 1 && |oks| == |events| && states[0] == EMPTY
    && (events != [] ==>
          var n := |events| - 1;
          && IsRun(env, kind, events[..n], states[..n + 1], oks[..n])
          && Handles(env, kind, states[n], events[n], states[n + 1], oks[n]))
  }

  /* ---- Replace is all or nothing ---- */

  /** Replace that fails changes neither the index nor the manager's map; Replace that
      succeeds files the slices given, the last of each service and name. */
  lemma ReplaceAllOrNothing(env: Env, kind: Kind<Assignment>, s: Index, objs: seq<Object>, s': Index, ok: bool)
    requires Handles(env, kind, s, ReplaceAll(objs), s', ok) && NamedByCluster(kind)
    ensures !ok ==> s'.store == s.store && s'.pub == s.pub
    ensures ok ==> Rebuilt(s', objs)
  {
    if ok {
      var las :| Replaces(env, kind, s, SlicesIn(objs), s', ok, las);
      FileAllFiles(SlicesIn(objs));
      PublishedByReplace(env, kind, s.pub, SlicesIn(objs), las);
    }
  }

  ghost predicate Rebuilt(s: Index, objs: seq<Object>) {
    && OnlySlices(objs) && Filed(s.store)
    && (forall t :: t in AllSlices(s.store) <==> exists i :: IsLastOfKey(SlicesIn(objs), i, t))
    && s.pub.Keys == NamesOf(Elements(SlicesIn(objs)))
  }

  /* ---- The index refines the full translation ---- */

  /** The event keeps to the conditions under which the index is right: colon-free
      identifiers, no harmful duplicates in a Replace, and no update whose assignments fail
      to validate. */
  ghost predicate Proper(env: Env, e: Event, ok: bool) {
    match e
    case Change(_, OtherObject) => true
    case Change(_, SliceObject(es)) => WellNamed(es) && ok
    case ReplaceAll(objs) =>
      OnlySlices(objs) ==> AllWellNamed(Elements(SlicesIn(objs))) && Harmless(env, SlicesIn(objs))
  }

  /** Slices are filed under their own service and name, services without slices are
      forgotten, and the manager holds what translating all stored slices gives. */
  ghost predicate Faithful(env: Env, s: Index) {
    && Filed(s.store) && AllWellNamed(AllSlices(s.store)) && Publishes(env, s.pub, AllSlices(s.store))
  }

  lemma EventKeepsFaithful(env: Env, kind: Kind<Assignment>, s: Index, e: Event, s': Index, ok: bool)
    requires Faithful(env, s) && Handles(env, kind, s, e, s', ok) && Proper(env, e, ok) && NamedByCluster(kind)
    ensures Faithful(env, s')
  {
    match e
    case Change(op, SliceObject(es)) =>
      var w :| Changes(env, kind, s, op, es, s', ok, w);
      UpdateKeepsFiled(s.store, op, es);
      UpdateKeepsPublished(env, kind, s.store, s.pub, op, es, s'.pub, w.xs, w.las);
    case ReplaceAll(objs) =>
      if OnlySlices(objs) {
        var las :| Replaces(env, kind, s, SlicesIn(objs), s', ok, las);
        if ok {
          ReplaceKeepsFaithful(env, kind, s, SlicesIn(objs), s', las);
        }
      }
    case Change(_, OtherObject) =>
  }

  lemma ReplaceKeepsFaithful(
    env: Env, kind: Kind<Assignment>, s: Index, slices: seq<Slice>, s': Index, las: seq<Assignment>)
    requires Replaces(env, kind, s, slices, s', true, las) && NamedByCluster(kind)
    requires AllWellNamed(Elements(slices)) && Harmless(env, slices)
    ensures Faithful(env, s')
  {
    ReplacePublishesIff(env, kind, s.pub, slices, las);
    StoredAndDropped(env, slices);
  }

  /** Validation does not mind the order of groups. */
  ghost predicate OrderBlind(env: Env, kind: Kind<Assignment>) {
    forall a, b | SameUpToEqualLocality(env, a, b) :: kind.valid(a) == kind.valid(b)
  }

  ghost predicate AllPublishedValid(kind: Kind<Assignment>, pub: Published) {
    forall c :: c in pub ==> kind.valid(pub[c])
  }

  lemma ChangeKeepsValid(env: Env, kind: Kind<Assignment>, s: Index, op: Op, es: Slice, s': Index, ok: bool, w: Choices)
    requires AllPublishedValid(kind, s.pub) && Changes(env, kind, s, op, es, s', ok, w)
    ensures AllPublishedValid(kind, s'.pub)
  {
    var gone := NamesOf(SlicesOf(s.store, ServiceOf(es)).Values) - ClustersOf(w.las);
    FilingKeepsValid(kind, s.pub - gone, w.las[..FirstInvalid(kind, w.las)]);
  }

  lemma EventKeepsValid(env: Env, kind: Kind<Assignment>, s: Index, e: Event, s': Index, ok: bool)
    requires AllPublishedValid(kind, s.pub) && Handles(env, kind, s, e, s', ok)
    ensures AllPublishedValid(kind, s'.pub)
  {
    match e
    case Change(op, SliceObject(es)) =>
      var w :| Changes(env, kind, s, op, es, s', ok, w);
      ChangeKeepsValid(env, kind, s, op, es, s', ok, w);
    case ReplaceAll(objs) =>
      if OnlySlices(objs) {
        var las :| Replaces(env, kind, s, SlicesIn(objs), s', ok, las);
        if ok { FilingKeepsValid(kind, map[], las); }
      }
    case Change(_, OtherObject) =>
  }

  lemma {:induction false} FilingKeepsValid(kind: Kind<Assignment>, pub: Published, las: seq<Assignment>)
    requires AllPublishedValid(kind, pub) && AllValid(kind, las)
    ensures AllPublishedValid(kind, PutAll(kind, pub, las))
    decreases |las|
  {
    if las != [] {
      FilingKeepsValid(kind, Put(kind, pub, las[0]), las[1..]);
    }
  }

  lemma {:induction false} RunPublishesValid(
    env: Env, kind: Kind<Assignment>, events: seq<Event>, states: seq<Index>, oks: seq<bool>)
    requires IsRun(env, kind, events, states, oks)
    ensures AllPublishedValid(kind, states[|events|].pub)
    decreases |events|
  {
    if events != [] {
      var n := |events| - 1;
      RunPublishesValid(env, kind, events[..n], states[..n + 1], oks[..n]);
      EventKeepsValid(env, kind, states[n], events[n], states[n + 1], oks[n]);
    }
  }

  /** An update keeps the index faithful exactly when it reports success: an assignment that
      does not validate leaves its cluster missing or out of date. */
  lemma FaithfulIffReportedOk(
    env: Env, kind: Kind<Assignment>, s: Index, op: Op, es: Slice, s': Index, ok: bool, w: Choices)
    requires Faithful(env, s) && AllPublishedValid(kind, s.pub) && WellNamed(es)
    requires NamedByCluster(kind) && OrderBlind(env, kind) && Injective(env.endpointKey)
    requires Changes(env, kind, s, op, es, s', ok, w)
    ensures Faithful(env, s') <==> ok
  {
    var e := Change(op, SliceObject(es));
    assert Handles(env, kind, s, e, s', ok);
    if ok {
      EventKeepsFaithful(env, kind, s, e, s', ok);
    } else if Faithful(env, s') {
      EventKeepsValid(env, kind, s, e, s', ok);
      var a := w.las[FirstInvalid(kind, w.las)];
      assert a in w.las;
      FailingIsRight(env, kind, s, op, es, s', w, a);
      AssignmentsAgree(env, BagOf(env, AllSlices(s'.store)), s'.pub[a.cluster], a);
    }
  }

  lemma TranslatesOwn(
    env: Env, kind: Kind<Assignment>, s: Index, op: Op, es: Slice, s': Index, ok: bool, w: Choices)
    requires Filed(s.store) && Changes(env, kind, s, op, es, s', ok, w)
    ensures Enumerates(w.xs, Edited(op, SlicesOf(s.store, ServiceOf(es)), es).Values)
    ensures ClustersOf(w.las) == NamesOf(Edited(op, SlicesOf(s.store, ServiceOf(es)), es).Values)
  {
    var before := SlicesOf(s.store, ServiceOf(es));
    EditedFiled(op, ServiceOf(es), before, es);
    ListedOnce(w.xs, Edited(op, before, es));
    assert Elements(w.xs) == Edited(op, before, es).Values;
  }

  lemma FailingIsRight(
    env: Env, kind: Kind<Assignment>, s: Index, op: Op, es: Slice, s': Index, w: Choices, a: Assignment)
    requires Faithful(env, s) && WellNamed(es) && a in w.las
    requires Changes(env, kind, s, op, es, s', false, w)
    ensures a.cluster in NamesOf(AllSlices(s'.store)) && IsAssignment(env, BagOf(env, AllSlices(s'.store)), a)
  {
    var after := Edited(op, SlicesOf(s.store, ServiceOf(es)), es);
    OneServiceAside(s.store, op, es);
    TranslatesOwn(env, kind, s, op, es, s', false, w);
    assert a.cluster in ClustersOf(w.las);
    NamesOfUnion(after.Values, Others(s.store, ServiceOf(es)));
    RightAmongOthers(env, Others(s.store, ServiceOf(es)), after.Values, w.xs, a);
  }

  /** After any run of events the index is faithful to what it stores. */
  lemma {:induction false} RunIsFaithful(
    env: Env, kind: Kind<Assignment>, events: seq<Event>, states: seq<Index>, oks: seq<bool>)
    requires IsRun(env, kind, events, states, oks) && NamedByCluster(kind)
    requires forall i :: 0 <= i < |events| ==> Proper(env, events[i], oks[i])
    ensures Faithful(env, states[|events|])
    decreases |events|
  {
    if events == [] {
      EmptyIsFaithful(env);
    } else {
      var n := |events| - 1;
      RunIsFaithful(env, kind, events[..n], states[..n + 1], oks[..n]);
      EventKeepsFaithful(env, kind, states[n], events[n], states[n + 1], oks[n]);
    }
  }

  lemma EmptyIsFaithful(env: Env)
    ensures Faithful(env, EMPTY)
  {
    assert AllSlices(EMPTY.store) == {} && NamesOf({}) == {};
  }

  /** The incremental index refines the full rebuild: after any run, the manager holds the
      clusters of any from-scratch translation of the stored slices, in any order, and the
      same assignments, up to the order of groups whose localities read the same. */
  lemma RefinesFullRebuild(
    env: Env, kind: Kind<Assignment>, events: seq<Event>, states: seq<Index>, oks: seq<bool>,
    xs: seq<Slice>, full: seq<Assignment>)
    requires IsRun(env, kind, events, states, oks) && NamedByCluster(kind)
    requires forall i :: 0 <= i < |events| ==> Proper(env, events[i], oks[i])
    requires Injective(env.endpointKey)
    requires Enumerates(xs, AllSlices(states[|events|].store)) && IsTranslation(env, xs, full)
    ensures states[|events|].pub.Keys == ClustersOf(full)
    ensures forall i :: 0 <= i < |full| ==> SameUpToEqualLocality(env, states[|events|].pub[full[i].cluster], full[i])
  {
    RunIsFaithful(env, kind, events, states, oks);
    PublishedIsFromScratch(env, states[|events|].pub, AllSlices(states[|events|].store), xs, full);
  }

  /* ---- Keeping up with the cluster ---- */

  ghost predicate Distinct(slices: seq<Slice>) {
    forall i, j :: 0 <= i < j < |slices| ==> KeyOf(slices[i]) != KeyOf(slices[j])
  }

  lemma DistinctAreApart(slices: seq<Slice>)
    requires Distinct(slices)
    ensures KeysApart(slices)
  {
    forall i, j | 0 <= i < j < |slices|
      ensures ServiceOf(slices[i]) != ServiceOf(slices[j]) || slices[i].name != slices[j].name
    {
      assert KeyOf(slices[i]) != KeyOf(slices[j]);
    }
  }

  /** What the cluster has after the event. Objects that are not slices tell nothing. */
  ghost predicate Lives(live: Live, e: Event, live': Live) {
    match e
    case Change(_, OtherObject) => live' == live
    case Change(op, SliceObject(es)) => live' == LiveAfter(live, op, es)
    case ReplaceAll(objs) =>
      if OnlySlices(objs) then (forall k :: k in live' ==> KeyOf(live'[k]) == k) && live'.Values == Elements(SlicesIn(objs))
      else live' == live
  }

  /** A changed slice keeps its service, a listing names no slice twice, and what can
      succeed does. */
  ghost predicate Orderly(live: Live, e: Event, ok: bool) {
    match e
    case Change(_, OtherObject) => true
    case Change(_, SliceObject(es)) =>
      WellNamed(es) && ok && (KeyOf(es) in live ==> ServiceOf(live[KeyOf(es)]) == ServiceOf(es))
    case ReplaceAll(objs) =>
      OnlySlices(objs) ==> ok && AllWellNamed(Elements(SlicesIn(objs))) && Distinct(SlicesIn(objs))
  }

  lemma OrderlyIsProper(env: Env, live: Live, e: Event, ok: bool)
    requires Orderly(live, e, ok)
    ensures Proper(env, e, ok)
  {
    if e.ReplaceAll? && OnlySlices(e.objs) {
      DistinctAreApart(SlicesIn(e.objs));
      ApartIsHarmless(env, SlicesIn(e.objs));
    }
  }

  lemma EventKeepsSynced(
    env: Env, kind: Kind<Assignment>, s: Index, e: Event, s': Index, ok: bool, live: Live, live': Live)
    requires Filed(s.store) && Synced(s.store, live)
    requires Handles(env, kind, s, e, s', ok) && Orderly(live, e, ok) && Lives(live, e, live')
    ensures Synced(s'.store, live')
  {
    match e
    case Change(op, SliceObject(es)) => KeepsUpIffLabelStable(s.store, live, op, es);
    case ReplaceAll(objs) =>
      if OnlySlices(objs) {
        DistinctAreApart(SlicesIn(objs));
        ApartIsHarmless(env, SlicesIn(objs));
      }
    case Change(_, OtherObject) =>
  }

  /** After any orderly run the manager holds the translation of what the cluster has. */
  lemma {:induction false} PublishesWhatLives(
    env: Env, kind: Kind<Assignment>, events: seq<Event>, states: seq<Index>, oks: seq<bool>, lives: seq<Live>)
    requires IsRun(env, kind, events, states, oks) && NamedByCluster(kind)
    requires |lives| == |events| + 1 && lives[0] == map[]
    requires forall i :: 0 <= i < |events| ==> Lives(lives[i], events[i], lives[i + 1])
    requires forall i :: 0 <= i < |events| ==> Orderly(lives[i], events[i], oks[i])
    ensures Faithful(env, states[|events|]) && Synced(states[|events|].store, lives[|events|])
    ensures Publishes(env, states[|events|].pub, lives[|events|].Values)
    decreases |events|
  {
    if events == [] {
      EmptyIsFaithful(env);
    } else {
      var n := |events| - 1;
      PublishesWhatLives(env, kind, events[..n], states[..n + 1], oks[..n], lives[..n + 1]);
      OrderlyIsProper(env, lives[n], events[n], oks[n]);
      EventKeepsFaithful(env, kind, states[n], events[n], states[n + 1], oks[n]);
      EventKeepsSynced(env, kind, states[n], events[n], states[n + 1], oks[n], lives[n], lives[n + 1]);
    }
  }

  /* ---- A changed service label ---- */

  /** After a slice has changed its service, the index still stores the old copy, and the
      manager still publishes every cluster that copy names. */
  lemma RelabelledSliceLingers(
    env: Env, kind: Kind<Assignment>, s: Index, live: Live, op: Op, es: Slice, s': Index, w: Choices)
    requires Faithful(env, s) && Synced(s.store, live) && WellNamed(es) && NamedByCluster(kind)
    requires KeyOf(es) in live && ServiceOf(live[KeyOf(es)]) != ServiceOf(es)
    requires Changes(env, kind, s, op, es, s', true, w)
    ensures var t := live[KeyOf(es)];
      && Faithful(env, s') && !Synced(s'.store, LiveAfter(live, op, es))
      && t in AllSlices(s'.store) && NamesOf({t}) <= s'.pub.Keys
  {
    FaithfulAfterChange(env, kind, s, op, es, s', w);
    KeepsUpIffLabelStable(s.store, live, op, es);
    OldCopyStays(s.store, live, op, es);
    NamesWithin(live[KeyOf(es)], AllSlices(s'.store));
  }

  lemma OldCopyStays(store: Store, live: Live, op: Op, es: Slice)
    requires Filed(store) && Synced(store, live)
    requires KeyOf(es) in live && ServiceOf(live[KeyOf(es)]) != ServiceOf(es)
    ensures live[KeyOf(es)] in AllSlices(StoreAfter(store, op, es))
  {
    assert live[KeyOf(es)] in live.Values;
    StoredAfter(store, op, es, live[KeyOf(es)]);
  }

  lemma NamesWithin(t: Slice, slices: set<Slice>)
    requires t in slices
    ensures NamesOf({t}) <= NamesOf(slices)
  {
    NamesOfUnion({t}, slices);
    assert {t} + slices == slices;
  }

  lemma FaithfulAfterChange(env: Env, kind: Kind<Assignment>, s: Index, op: Op, es: Slice, s': Index, w: Choices)
    requires Faithful(env, s) && WellNamed(es) && NamedByCluster(kind) && Changes(env, kind, s, op, es, s', true, w)
    ensures Faithful(env, s')
  {
    var e := Change(op, SliceObject(es));
    assert Handles(env, kind, s, e, s', true);
    EventKeepsFaithful(env, kind, s, e, s', true);
  }

  /** Until the old copy is deleted: then index and manager are right again. */
  lemma DeletingOldCopyMends(
    env: Env, kind: Kind<Assignment>, s: Index, live: Live, op: Op, es: Slice, s1: Index, w1: Choices,
    s2: Index, w2: Choices)
    requires Faithful(env, s) && Synced(s.store, live) && WellNamed(es) && NamedByCluster(kind)
    requires KeyOf(es) in live && ServiceOf(live[KeyOf(es)]) != ServiceOf(es)
    requires Changes(env, kind, s, op, es, s1, true, w1)
    requires Changes(env, kind, s1, DeleteSlice, live[KeyOf(es)], s2, true, w2)
    ensures Synced(s2.store, LiveAfter(live, op, es)) && Publishes(env, s2.pub, LiveAfter(live, op, es).Values)
  {
    var t, live' := live[KeyOf(es)], LiveAfter(live, op, es);
    FaithfulAfterChange(env, kind, s, op, es, s1, w1);
    OldCopyNamed(s.store, live, es);
    FaithfulAfterChange(env, kind, s1, DeleteSlice, t, s2, w2);
    Mends(s.store, live, op, es);
  }

  lemma OldCopyNamed(store: Store, live: Live, es: Slice)
    requires Synced(store, live) && AllWellNamed(AllSlices(store)) && KeyOf(es) in live
    ensures WellNamed(live[KeyOf(es)])
  {
    assert live[KeyOf(es)] in live.Values;
  }

  lemma Mends(store: Store, live: Live, op: Op, es: Slice)
    requires Filed(store) && Synced(store, live)
    requires KeyOf(es) in live && ServiceOf(live[KeyOf(es)]) != ServiceOf(es)
    ensures Synced(StoreAfter(StoreAfter(store, op, es), DeleteSlice, live[KeyOf(es)]), LiveAfter(live, op, es))
  {
    var live' := LiveAfter(live, op, es);
    forall u ensures
      u in AllSlices(StoreAfter(StoreAfter(store, op, es), DeleteSlice, live[KeyOf(es)])) <==> u in live'.Values
    {
      MendsSlice(store, live, op, es, u);
    }
  }

  lemma MendsSlice(store: Store, live: Live, op: Op, es: Slice, u: Slice)
    requires Filed(store) && Synced(store, live)
    requires KeyOf(es) in live && ServiceOf(live[KeyOf(es)]) != ServiceOf(es)
    ensures u in AllSlices(StoreAfter(StoreAfter(store, op, es), DeleteSlice, live[KeyOf(es)])) <==>
      u in LiveAfter(live, op, es).Values
  {
    var t := live[KeyOf(es)];
    UpdateKeepsFiled(store, op, es);
    StoredAfter(store, op, es, u);
    StoredAfter(StoreAfter(store, op, es), DeleteSlice, t, u);
    LiveSlices(live, op, es, u);
    assert KeyOf(t) == KeyOf(es);
  }

  /** A slice with one nameable port and no endpoints translates to one empty assignment. */
  lemma BareTranslation(env: Env, es: Slice, port: Port)
    requires es.ports == [port] && es.endpoints == [] && PortCluster(es, port).Some?
    ensures IsTranslation(env, [es], [Assignment(PortCluster(es, port).value.name, [])])
  {
    var name := PortCluster(es, port).value.name;
    var a := Assignment(name, []);
    BagOfOne(env, es);
    assert [port][..0] == [] && PortBag(env, es, [port]) == multiset{};
    assert GroupsByNode(env, Bag(env, [es]), name, [], []) by {
      forall n ensures !HasNode(Bag(env, [es]), name, n) {}
    }
    assert IsAssignment(env, Bag(env, [es]), a);
    assert es in [es] && port in es.ports && a in [a];
    assert ClustersOf([a]) == {name} == NamesOf(Elements([es]));
  }

  /** What adding such a slice to a service that had none leads to. */
  lemma BareChange(env: Env, kind: Kind<Assignment>, s: Index, op: Op, es: Slice, port: Port) returns (s': Index)
    requires es.ports == [port] && es.endpoints == [] && PortCluster(es, port).Some?
    requires ServiceOf(es) !in s.store && !op.DeleteSlice? && forall a :: kind.valid(a)
    ensures Handles(env, kind, s, Change(op, SliceObject(es)), s', true)
  {
    var las := [Assignment(PortCluster(es, port).value.name, [])];
    var w := Choices([es], las, []);
    BareTranslation(env, es, port);
    BareListing(s.store, op, es);
    s' := ChangeTo(env, kind, s, op, es, w);
    assert Changes(env, kind, s, op, es, s', AllValid(kind, las), w);
    assert AllValid(kind, las);
  }

  /** Every choice the maps and sorts leave open leads somewhere. */
  lemma ChangeTo(env: Env, kind: Kind<Assignment>, s: Index, op: Op, es: Slice, w: Choices) returns (s': Index)
    requires ListsValues(w.xs, Edited(op, SlicesOf(s.store, ServiceOf(es)), es)) && IsTranslation(env, w.xs, w.las)
    requires Enumerates(w.gone, NamesOf(SlicesOf(s.store, ServiceOf(es)).Values) - ClustersOf(w.las))
    ensures Changes(env, kind, s, op, es, s', AllValid(kind, w.las), w)
  {
    var leaving := NamesOf(SlicesOf(s.store, ServiceOf(es)).Values) - ClustersOf(w.las);
    s' := Index(StoreAfter(s.store, op, es), Effect(kind, s.pub - leaving, Call.Add(w.las)),
      s.calls + Deletions(w.gone) + [Call.Add(w.las)]);
  }

  lemma BareListing(store: Store, op: Op, es: Slice)
    requires ServiceOf(es) !in store && !op.DeleteSlice?
    ensures ListsValues([es], Edited(op, SlicesOf(store, ServiceOf(es)), es))
    ensures forall gone :: NamesOf(SlicesOf(store, ServiceOf(es)).Values) - gone == {}
  {
    var after := Edited(op, SlicesOf(store, ServiceOf(es)), es);
    assert after == map[es.name := es] && Enumerates([es.name], after.Keys);
    assert SlicesOf(store, ServiceOf(es)).Values == {} && NamesOf({}) == {};
  }

  lemma RunGrows(
    env: Env, kind: Kind<Assignment>, events: seq<Event>, states: seq<Index>, oks: seq<bool>, e: Event, s: Index, ok: bool)
    requires IsRun(env, kind, events, states, oks) && Handles(env, kind, states[|events|], e, s, ok)
    ensures IsRun(env, kind, events + [e], states + [s], oks + [ok])
  {
    assert (events + [e])[..|events|] == events && (states + [s])[..|states|] == states && (oks + [ok])[..|oks|] == oks;
  }

  lemma TwoEventRun(env: Env, kind: Kind<Assignment>, e1: Event, e2: Event, s1: Index, s2: Index)
    requires Handles(env, kind, EMPTY, e1, s1, true) && Handles(env, kind, s1, e2, s2, true)
    ensures IsRun(env, kind, [e1, e2], [EMPTY, s1, s2], [true, true])
  {
    Listed(e1, e2, e2);
    Listed(true, true, true);
    Listed(EMPTY, s1, s2);
    RunGrows(env, kind, [], [EMPTY], [], e1, s1, true);
    RunGrows(env, kind, [e1], [EMPTY, s1], [true], e2, s2, true);
  }

  lemma Listed<T>(a: T, b: T, c: T)
    ensures [] + [a] == [a] && [a] + [b] == [a, b] && [a, b] + [c] == [a, b, c]
  {
  }

  /** A run in which one slice is first of one service, then of another, and after which the
      cluster of the first service is still published though nothing in the cluster names it. */
  lemma RelabelledRun(env: Env, kind: Kind<Assignment>) returns (first: Slice, relabelled: Slice, states: seq<Index>)
    requires NamedByCluster(kind) && forall a :: kind.valid(a)
    ensures KeyOf(first) == KeyOf(relabelled) && WellNamed(first) && WellNamed(relabelled)
    ensures IsRun(env, kind, [Change(AddSlice, SliceObject(first)), Change(UpdateSlice, SliceObject(relabelled))],
              states, [true, true])
    ensures exists c :: c in states[2].pub && c !in NamesOf({relabelled})
  {
    var port;
    first, relabelled, port := RelabelledPair();
    var s1 := BareChange(env, kind, EMPTY, AddSlice, first, port);
    FirstSlice(env, kind, first, s1);
    OnlyItsService(s1.store, first);
    var s2 := BareChange(env, kind, s1, UpdateSlice, relabelled, port);
    RelabelledClusterLingers(env, kind, s1, first, relabelled, port, s2);
    TwoEventRun(env, kind, Change(AddSlice, SliceObject(first)), Change(UpdateSlice, SliceObject(relabelled)), s1, s2);
    states := [EMPTY, s1, s2];
  }

  lemma OnlyItsService(store: Store, es: Slice)
    requires Filed(store) && Synced(store, map[KeyOf(es) := es])
    ensures forall svc :: svc in store ==> svc == ServiceOf(es)
  {
    forall svc | svc in store ensures svc == ServiceOf(es) {
      var n :| n in store[svc];
      assert store[svc][n] in AllSlices(store);
    }
  }

  lemma RelabelledPair() returns (first: Slice, relabelled: Slice, port: Port)
    ensures WellNamed(first) && WellNamed(relabelled)
    ensures KeyOf(first) == KeyOf(relabelled) && ServiceOf(first) != ServiceOf(relabelled)
    ensures first.ports == [port] == relabelled.ports && first.endpoints == [] == relabelled.endpoints
    ensures PortCluster(first, port).Some? && PortCluster(relabelled, port).Some?
  {
    port := Port(Some("p"), Some(80), Some("TCP"));
    first := Slice("ns", "s", map[SERVICE_LABEL := "old"], [port], []);
    relabelled := Slice("ns", "s", map[SERVICE_LABEL := "new"], [port], []);
    EmptyNameIffUnsupported("ns", "old", "p", 80, "TCP");
    EmptyNameIffUnsupported("ns", "new", "p", 80, "TCP");
  }

  lemma FirstSlice(env: Env, kind: Kind<Assignment>, es: Slice, s: Index)
    requires Handles(env, kind, EMPTY, Change(AddSlice, SliceObject(es)), s, true)
    requires WellNamed(es) && NamedByCluster(kind)
    ensures Faithful(env, s) && Synced(s.store, map[KeyOf(es) := es])
  {
    EmptyIsFaithful(env);
    EventKeepsFaithful(env, kind, EMPTY, Change(AddSlice, SliceObject(es)), s, true);
    KeepsUpIffLabelStable(EMPTY.store, map[], AddSlice, es);
  }

  lemma RelabelledClusterLingers(
    env: Env, kind: Kind<Assignment>, s: Index, first: Slice, relabelled: Slice, port: Port, s': Index)
    requires Faithful(env, s) && Synced(s.store, map[KeyOf(first) := first]) && NamedByCluster(kind)
    requires WellNamed(first) && WellNamed(relabelled)
    requires KeyOf(first) == KeyOf(relabelled) && ServiceOf(first) != ServiceOf(relabelled)
    requires port in first.ports && PortCluster(first, port).Some?
    requires Handles(env, kind, s, Change(UpdateSlice, SliceObject(relabelled)), s', true)
    ensures exists c :: c in s'.pub && c !in NamesOf({relabelled})
  {
    var w :| Changes(env, kind, s, UpdateSlice, relabelled, s', true, w);
    RelabelledSliceLingers(env, kind, s, map[KeyOf(first) := first], UpdateSlice, relabelled, s', w);
    NamesApart(first, relabelled, port);
    assert PortCluster(first, port).value.name in s'.pub;
  }

  lemma NamesApart(a: Slice, b: Slice, port: Port)
    requires WellNamed(a) && WellNamed(b) && ServiceOf(a) != ServiceOf(b)
    requires port in a.ports && PortCluster(a, port).Some?
    ensures PortCluster(a, port).value.name in NamesOf({a}) && PortCluster(a, port).value.name !in NamesOf({b})
  {
    assert a in {a};
    ServicesNameApart({a}, {b});
  }

  /* ---- The calls made to the manager ---- */

  /** What the manager holds is what the calls do to an empty one. */
  lemma {:induction false} RunIsItsCalls(
    env: Env, kind: Kind<Assignment>, events: seq<Event>, states: seq<Index>, oks: seq<bool>)
    requires IsRun(env, kind, events, states, oks)
    ensures states[|events|].pub == Effects(kind, states[|events|].calls)
    decreases |events|
  {
    if events != [] {
      var n := |events| - 1;
      RunIsItsCalls(env, kind, events[..n], states[..n + 1], oks[..n]);
      EventIsItsCalls(env, kind, states[n], events[n], states[n + 1], oks[n]);
    }
  }

  lemma ChangeIsItsCalls(env: Env, kind: Kind<Assignment>, s: Index, op: Op, es: Slice, s': Index, ok: bool, w: Choices)
    requires Changes(env, kind, s, op, es, s', ok, w) && s.pub == Effects(kind, s.calls)
    ensures s'.pub == Effects(kind, s'.calls)
  {
    var names := NamesOf(SlicesOf(s.store, ServiceOf(es)).Values) - ClustersOf(w.las);
    assert Elements(w.gone) == names;
    EffectsOfDeletions(kind, s.calls, w.gone);
    EffectsGrow(kind, s.calls + Deletions(w.gone), Call.Add(w.las));
  }

  lemma EventIsItsCalls(env: Env, kind: Kind<Assignment>, s: Index, e: Event, s': Index, ok: bool)
    requires Handles(env, kind, s, e, s', ok) && s.pub == Effects(kind, s.calls)
    ensures s'.pub == Effects(kind, s'.calls)
  {
    match e
    case Change(op, SliceObject(es)) =>
      var w :| Changes(env, kind, s, op, es, s', ok, w);
      ChangeIsItsCalls(env, kind, s, op, es, s', ok, w);
    case ReplaceAll(objs) =>
      if OnlySlices(objs) {
        var las :| Replaces(env, kind, s, SlicesIn(objs), s', ok, las);
        EffectsGrow(kind, s.calls, Call.Replace(las));
      }
    case Change(_, OtherObject) =>
  }
}
