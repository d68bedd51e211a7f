/** From the cluster's endpoint slices to what a client holds: the index is the manager's
    only writer, and the manager's clients agree with it once everything has come to rest. */
module EndToEnd {
  import ClusterRuns
  import opened EndpointIndex
  import opened EndpointRuns
  import Options
  import opened Overrides
  import opened Protocol
  import ProtocolConvergence
  import opened ProtocolProgress
  import opened ProtocolRuns
  import opened Registry
  import opened Sequences
  import Services
  import opened Slices
  import opened Translation
  import opened TranslationLaws

  /** On this name the entries say what translating the slices says: an assignment that is
      right for all of them together, or nothing if none names the cluster. */
  ghost predicate Tells(env: Env, slices: set<Slice>, entries: seq<Entry<Assignment>>, n: string) {
    && (n in NamesOf(slices) ==> exists e :: e in entries && e.name == n)
    && forall e :: e in entries && e.name == n ==>
         n in NamesOf(slices) && e.value.cluster == n && IsAssignment(env, BagOf(env, slices), e.value)
  }

  lemma ShowsTells(env: Env, pub: Published, slices: set<Slice>, entries: seq<Entry<Assignment>>, n: string)
    requires Publishes(env, pub, slices) && Shows(entries, pub, n)
    ensures Tells(env, slices, entries, n)
  {
    if n in pub {
      assert Entry(n, pub[n]) in entries;
    }
  }

  /** What a client holds, if it was handed anything. */
  function Held<R>(c: Conn<R>): seq<Entry<R>> {
    if c.delivered == [] then [] else c.delivered[|c.delivered| - 1].entries
  }

  /** The run of the manager carries out the calls, one after the other, and loses no
      update. */
  ghost predicate Serves<R>(p: Params<R>, steps: seq<Step<R>>, t: State<R>, calls: seq<Call<R>>) {
    Runs(p, Initial(), steps, t) && OneWriter(p, Initial(), steps) && Lossless(p, Initial(), steps) && CallsOf(t.muts) == calls
  }

  /** Where nothing can go on by itself, the manager holds what the calls of its one writer
      make of an empty map. */
  lemma ManagerHoldsCalls<R(!new)>(p: Params<R>, steps: seq<Step<R>>, t: State<R>, calls: seq<Call<R>>)
    requires Serves(p, steps, t, calls) && Stuck(t)
    ensures t.resources == Effects(p.kind, calls) && AtRest(t)
  {
    assert Reachable(p, t);
    ReachableInvariant(p, t);
    StuckIsAtRest(p, t);
    OneWriterEffects(p, Initial(), steps, t);
  }

  lemma HoldsTheMap<R(!new)>(p: Params<R>, steps: seq<Step<R>>, t: State<R>, i: nat, n: string)
    requires Runs(p, Initial(), steps, t) && Lossless(p, Initial(), steps) && Stuck(t)
    requires i < |t.streams| && ProtocolConvergence.Following(t.streams[i])
    requires Wants(t.streams[i].local.subscription, n)
    ensures Shows(Held(t.streams[i]), t.resources, n)
  {
    assert Reachable(p, t);
    ReachableInvariant(p, t);
    StuckIsAtRest(p, t);
    LosslessRun(p, Initial(), steps, t);
    RestingClientAgrees(p, t, i, n);
  }

  /* ---- Endpoints ---- */

  /** The endpoints manager at rest holds what the index published. */
  lemma ManagerHoldsIndex(
    env: Env, p: Params<Assignment>, events: seq<Event>, states: seq<Index>, oks: seq<bool>,
    steps: seq<Step<Assignment>>, t: State<Assignment>)
    requires IsRun(env, p.kind, events, states, oks)
    requires Serves(p, steps, t, states[|events|].calls) && Stuck(t)
    ensures t.resources == states[|events|].pub && AtRest(t)
  {
    RunIsItsCalls(env, p.kind, events, states, oks);
    ManagerHoldsCalls(p, steps, t, states[|events|].calls);
  }

  /** Every remaining client that has said who it is, or been answered without, and has not
      widened its subscription since its last response, holds, on every cluster it asked for, the
      translation of the slices the cluster has now: whatever happened before, in whatever
      order updates, pushes, requests and exits interleaved. */
  lemma ClientsHoldTheTranslation(
    env: Env, p: Params<Assignment>, events: seq<Event>, states: seq<Index>, oks: seq<bool>, lives: seq<EndpointIndex.Live>,
    steps: seq<Step<Assignment>>, t: State<Assignment>, i: nat, n: string)
    requires IsRun(env, p.kind, events, states, oks) && NamedByCluster(p.kind)
    requires |lives| == |events| + 1 && lives[0] == map[]
    requires forall k :: 0 <= k < |events| ==> Lives(lives[k], events[k], lives[k + 1]) && Orderly(lives[k], events[k], oks[k])
    requires Serves(p, steps, t, states[|events|].calls) && Stuck(t)
    requires i < |t.streams| && ProtocolConvergence.Following(t.streams[i])
    requires Wants(t.streams[i].local.subscription, n)
    ensures Tells(env, lives[|events|].Values, Held(t.streams[i]), n)
  {
    ManagerHoldsIndex(env, p, events, states, oks, steps, t);
    PublishesWhatLives(env, p.kind, events, states, oks, lives);
    HoldsTheMap(p, steps, t, i, n);
    ShowsTells(env, t.resources, lives[|events|].Values, Held(t.streams[i]), n);
  }

  /** The same against a translation from scratch: the client has the cluster exactly if the
      translation has it, and then with the same assignment, up to the order of groups whose
      localities read the same. */
  lemma TellsWhatIsTranslated(
    env: Env, slices: set<Slice>, entries: seq<Entry<Assignment>>, n: string, xs: seq<Slice>, full: seq<Assignment>)
    requires Tells(env, slices, entries, n) && Injective(env.endpointKey)
    requires Enumerates(xs, slices) && IsTranslation(env, xs, full)
    ensures (exists e :: e in entries && e.name == n) <==> n in ClustersOf(full)
    ensures forall e, j :: e in entries && e.name == n && 0 <= j < |full| && full[j].cluster == n ==>
      SameUpToEqualLocality(env, e.value, full[j])
  {
    BagOfListing(env, xs, slices);
    forall e, j | e in entries && e.name == n && 0 <= j < |full| && full[j].cluster == n
      ensures SameUpToEqualLocality(env, e.value, full[j])
    {
      AssignmentsAgree(env, BagOf(env, slices), e.value, full[j]);
    }
  }

  /* ---- Clusters ---- */

  /** At rest every such client holds, on every name it asked for, the current translations of
      the services that exist; and nothing else if no event dropped a cluster name. */
  lemma ClientsHoldTheClusters(
    cfg: Services.Settings, p: Params<Cluster>, events: seq<ClusterRuns.Event>,
    steps: seq<Step<Cluster>>, t: State<Cluster>, i: nat, n: string)
    requires ClusterRuns.NamedByCluster(p.kind) && ClusterRuns.AllOrderly(cfg, p.kind, events)
    requires Serves(p, steps, t, ClusterRuns.CallsAfter(cfg, events)) && Stuck(t)
    requires i < |t.streams| && ProtocolConvergence.Following(t.streams[i])
    requires Wants(t.streams[i].local.subscription, n)
    ensures forall c :: Translates(cfg, ClusterRuns.LivesAfter(events), c) && c.name == n ==> Entry(n, c) in Held(t.streams[i])
    ensures ClusterRuns.NothingDropped(cfg, events) ==> forall e :: e in Held(t.streams[i]) && e.name == n ==>
      Translates(cfg, ClusterRuns.LivesAfter(events), e.value)
  {
    ClusterRuns.RunIsItsCalls(cfg, p.kind, events);
    ManagerHoldsCalls(p, steps, t, ClusterRuns.CallsAfter(cfg, events));
    ClusterRuns.PublishesLiveServices(cfg, p.kind, events);
    HoldsTheMap(p, steps, t, i, n);
    var pub, live := t.resources, ClusterRuns.LivesAfter(events);
    if ClusterRuns.NothingDropped(cfg, events) {
      forall e | e in Held(t.streams[i]) && e.name == n ensures Translates(cfg, live, e.value) {
        PublishedTranslates(cfg, pub, live, n);
      }
    }
  }

  /** The cluster is in the current translation of a service that exists. */
  ghost predicate Translates(cfg: Services.Settings, live: ClusterRuns.Live, c: Cluster) {
    exists k :: k in live && c in Services.FromService(cfg, Options.Some(live[k]))
  }

  lemma PublishedTranslates(cfg: Services.Settings, pub: map<string, Cluster>, live: ClusterRuns.Live, n: string)
    requires ClusterRuns.Exact(cfg, pub, live) && n in pub
    ensures Translates(cfg, live, pub[n])
  {
    var k :| k in live && n in Services.NamesIn(Services.FromService(cfg, Options.Some(live[k])));
    var c :| c in Services.FromService(cfg, Options.Some(live[k])) && c.name == n;
    assert pub[c.name] == c;
  }
}
