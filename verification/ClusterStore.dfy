/** The cluster store as the object it is: it translates what it is passed and hands the
    clusters on; the manager's map is all the state there is. */
module ClusterStoreObject {
  import opened ClusterConfigObject
  import opened ClusterRuns
  import opened ManagerObject
  import opened Options
  import opened Overrides
  import opened Registry
  import opened Services

  class ClusterStore {
    const cfg: ClusterConfig
    const srv: Manager<Cluster>

    ghost predicate Valid()
      reads srv
    {
      srv.Valid() && NamedByCluster(srv.kind)
    }

    constructor (cfg: ClusterConfig, srv: Manager<Cluster>)
      ensures this.cfg == cfg && this.srv == srv
    {
      this.cfg, this.srv := cfg, srv;
    }

    /** The manager's map, the calls made to it, and the report are as the event demands. */
    ghost predicate Follows(cfg: Settings, pub: Published, calls: seq<Call<Cluster>>, e: Event, ok: bool)
      reads srv
    {
      Outcome(srv.resources, ok) == Handled(cfg, srv.kind, pub, e) && srv.calls == calls + CallsFor(cfg, e)
    }

    method Add(obj: Object) returns (ok: bool)
      requires Valid()
      modifies srv`resources, srv`version, srv`history, srv`calls, srv.sessions
      ensures Valid() && Follows(old(cfg.Settings()), old(srv.resources), old(srv.calls), Event.Add(obj), ok)
      ensures obj.OtherObject? ==> !ok && srv.resources == old(srv.resources) && srv.calls == old(srv.calls)
    {
      if obj.OtherObject? {
        return false;
      }
      ok := AddClusters(obj.svc);
    }

    method Update(obj: Object) returns (ok: bool)
      requires Valid()
      modifies srv`resources, srv`version, srv`history, srv`calls, srv.sessions
      ensures Valid() && Follows(old(cfg.Settings()), old(srv.resources), old(srv.calls), Event.Update(obj), ok)
      ensures obj.OtherObject? ==> !ok && srv.resources == old(srv.resources) && srv.calls == old(srv.calls)
    {
      if obj.OtherObject? {
        return false;
      }
      ok := AddClusters(obj.svc);
    }

    method AddClusters(svc: Option<Service>) returns (ok: bool)
      requires Valid()
      modifies srv`resources, srv`version, srv`history, srv`calls, srv.sessions
      ensures Valid() && ok == AllValid(srv.kind, FromService(old(cfg.Settings()), svc))
      ensures srv.resources == Effect(srv.kind, old(srv.resources), Call.Add(FromService(old(cfg.Settings()), svc)))
      ensures srv.calls == old(srv.calls) + [Call.Add(FromService(old(cfg.Settings()), svc))]
    {
      ghost var settings := cfg.Settings();
      var messages := cfg.ClustersFromService(svc);
      var clusters := Values(messages);
      assert clusters == FromService(settings, svc);
      var missed;
      ok, missed := srv.Add(clusters);
    }

    method Delete(obj: Object) returns (ok: bool)
      requires Valid()
      modifies srv`resources, srv`version, srv`history, srv`calls, srv.sessions
      ensures Valid() && Follows(old(cfg.Settings()), old(srv.resources), old(srv.calls), Event.Delete(obj), ok)
      ensures (ok <==> obj.ServiceObject?) && (!ok ==> srv.resources == old(srv.resources) && srv.calls == old(srv.calls))
    {
      if obj.OtherObject? {
        return false;
      }
      ghost var settings := cfg.Settings();
      var messages := cfg.ClustersFromService(obj.svc);
      var clusters := Values(messages);
      assert clusters == FromService(settings, obj.svc);
      DeleteClusters(clusters);
      return true;
    }

    method DeleteClusters(clusters: seq<Cluster>)
      requires Valid()
      modifies srv`resources, srv`version, srv`history, srv`calls, srv.sessions
      ensures Valid() && srv.resources == old(srv.resources) - NamesIn(clusters)
      ensures srv.calls == old(srv.calls) + Deletions(NameList(clusters))
    {
      assert srv.calls == srv.calls + Deletions(NameList(clusters[..0]));
      for i := 0 to |clusters|
        invariant Valid()
        invariant srv.resources == old(srv.resources) - NamesIn(clusters[..i])
        invariant srv.calls == old(srv.calls) + Deletions(NameList(clusters[..i]))
      {
        assert clusters[..i + 1] == clusters[..i] + [clusters[i]];
        NamesGrow(clusters[..i], clusters[i]);
        var missed := srv.Delete(clusters[i].name);
      }
      assert clusters[..|clusters|] == clusters;
    }

    /** The clusters of all services listed; None if something else is among them. */
    method TranslateAll(objs: seq<Object>) returns (r: Option<seq<Cluster>>)
      ensures r.Some? <==> OnlyServices(objs)
      ensures cfg.Settings() == old(cfg.Settings())
      ensures r.Some? ==> r.value == FromAll(cfg.Settings(), objs)
    {
      ghost var settings := cfg.Settings();
      var clusters: seq<Cluster> := [];
      for i := 0 to |objs|
        invariant cfg.Settings() == settings
        invariant OnlyServices(objs[..i]) && clusters == FromAll(settings, objs[..i])
      {
        if objs[i].OtherObject? {
          assert objs[i] in objs;
          return None;
        }
        assert objs[..i + 1] == objs[..i] + [objs[i]] && objs[..i + 1][..i] == objs[..i];
        var more := cfg.ClustersFromService(objs[i].svc);
        clusters := clusters + Values(more);
      }
      assert objs[..|objs|] == objs;
      return Some(clusters);
    }

    /** All or nothing; exactly the names published before or after are announced. */
    method Replace(objs: seq<Object>) returns (ok: bool, ghost missed: set<Session>)
      requires Valid()
      modifies srv`resources, srv`version, srv`history, srv`calls, srv.sessions
      ensures Valid() && Follows(old(cfg.Settings()), old(srv.resources), old(srv.calls), ReplaceAll(objs), ok)
      ensures OtherObject in objs ==> !ok && srv.resources == old(srv.resources) && srv.calls == old(srv.calls)
      ensures srv.history == old(srv.history) + if ok then [srv.resources] else []
      ensures var names := old(srv.resources).Keys + srv.resources.Keys;
        forall s :: s in srv.sessions ==>
          s.inbox == if ok && names != {} && s !in missed then old(s.inbox) + [names] else old(s.inbox)
    {
      missed := {};
      ghost var settings, pub := cfg.Settings(), srv.resources;
      var clusters := TranslateAll(objs);
      if clusters.None? {
        return false, {};
      }
      var unsent;
      ok, unsent := srv.Replace(clusters.value);
      missed := unsent;
      LastWins(srv.kind, map[], clusters.value);
      assert ok ==> srv.resources.Keys == Names(srv.kind, clusters.value);
      HandlesReplace(settings, srv.kind, pub, objs);
    }
  }

  lemma HandlesReplace(cfg: Settings, kind: Kind<Cluster>, pub: Published, objs: seq<Object>)
    requires OnlyServices(objs)
    ensures Handled(cfg, kind, pub, ReplaceAll(objs)) ==
      Outcome(Effect(kind, pub, Call.Replace(FromAll(cfg, objs))), AllValid(kind, FromAll(cfg, objs)))
  {
  }

  lemma NamesGrow(cs: seq<Cluster>, c: Cluster)
    ensures NamesIn(cs + [c]) == NamesIn(cs) + {c.name}
    ensures Deletions<Cluster>(NameList(cs + [c])) == Deletions(NameList(cs)) + [Call.Delete(c.name)]
  {
    assert NameList(cs + [c]) == NameList(cs) + [c.name];
    assert c in cs + [c];
  }
}
