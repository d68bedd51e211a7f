/** The manager as the object it is: its fields change in place, one call at a time. How
    calls and streams interleave is the subject of the Protocol module, whose steps file,
    reset, remove and take snapshots as these methods do. */
module ManagerObject {
  import opened Options
  import opened Registry
  import Text

  /** A registered stream's channel, as the updates it has been handed. */
  class Session {
    var inbox: seq<set<string>>

    constructor ()
      ensures inbox == []
    {
      inbox := [];
    }
  }

  datatype Response<R> = Response(versionInfo: string, typeUrl: string, nonce: string, entries: seq<Entry<R>>)

  /** The map after each resource filed. */
  ghost function FilingTrace<R>(kind: Kind<R>, m: map<string, R>, rs: seq<R>): seq<map<string, R>> {
    seq(|rs|, i requires 0 <= i < |rs| => PutAll(kind, m, rs[..i + 1]))
  }

  class Manager<R> {
    const kind: Kind<R>
    const typeUrl: string
    const versionPrefix: string
    var resources: map<string, R>
    var version: nat
    var sessions: set<Session>

    /** The map after every critical section that changed it, and the calls made so far. */
    ghost var history: seq<map<string, R>>
    ghost var calls: seq<Call<R>>

    ghost predicate Valid()
      reads this
    {
      resources == Effects(kind, calls)
    }

    /** The version with the manager's prefix. */
    function VersionString(): string
      reads this
    {
      versionPrefix + Text.Itoa(version)
    }

    constructor (kind: Kind<R>, typeUrl: string, versionPrefix: string)
      ensures this.kind == kind && this.typeUrl == typeUrl && this.versionPrefix == versionPrefix
      ensures resources == map[] && version == 0 && sessions == {}
      ensures history == [] && calls == [] && Valid()
    {
      this.kind, this.typeUrl, this.versionPrefix := kind, typeUrl, versionPrefix;
      resources, version, sessions := map[], 0, {};
      history, calls := [], [];
    }

    /** Hands the changed names to every session: first to those that are ready, then to
        the blocked ones as they become ready, until the context expires. Which session is
        ready when, and when time is up, is up to the environment. */
    method Notify(changed: seq<string>) returns (missed: set<Session>)
      modifies this`version, sessions
      ensures changed == [] ==> missed == {} && version == old(version)
      ensures changed != [] ==> missed <= sessions && version == old(version) + 1
      ensures forall s :: s in sessions ==>
        s.inbox == if changed == [] || s in missed then old(s.inbox) else old(s.inbox) + [set n | n in changed]
    {
      if |changed| < 1 {
        return {};
      }
      version := version + 1;
      var update := set n | n in changed;
      var blocked: set<Session> := {};
      var pending := sessions;
      while pending != {}
        invariant pending + blocked <= sessions && pending !! blocked && version == old(version) + 1
        invariant forall s :: s in sessions ==>
          s.inbox == if s in pending + blocked then old(s.inbox) else old(s.inbox) + [update]
      {
        var s :| s in pending;
        pending := pending - {s};
        var ready: bool := *;
        if ready {
          s.inbox := s.inbox + [update];
        } else {
          blocked := blocked + {s};
        }
      }
      missed := AwaitBlocked(update, blocked);
    }

    /** The second pass: round after round over the blocked sessions, a tick at a time. */
    method AwaitBlocked(update: set<string>, waiting: set<Session>) returns (missed: set<Session>)
      requires waiting <= sessions
      modifies sessions
      ensures missed <= waiting
      ensures forall s :: s in sessions ==>
        s.inbox == if s in waiting - missed then old(s.inbox) + [update] else old(s.inbox)
    {
      var blocked := waiting;
      var ticks: nat := *;
      while blocked != {}
        invariant blocked <= waiting
        invariant forall s :: s in sessions ==>
          s.inbox == if s in waiting - blocked then old(s.inbox) + [update] else old(s.inbox)
        decreases |blocked| + ticks
      {
        ghost var start, before := blocked, |blocked| + ticks;
        var round := blocked;
        while round != {}
          invariant round <= blocked <= waiting
          invariant forall s :: s in sessions ==>
            s.inbox == if s in waiting - blocked then old(s.inbox) + [update] else old(s.inbox)
          invariant |blocked| + ticks < before || (|blocked| + ticks == before && round == blocked == start)
          decreases |round|
        {
          var s :| s in round;
          assert |round - {s}| < |round|;
          round := round - {s};
          var ready: bool := *;
          if ready {
            s.inbox := s.inbox + [update];
            assert |blocked - {s}| == |blocked| - 1;
            blocked := blocked - {s};
          } else if ticks == 0 {
            return blocked;
          } else {
            ticks := ticks - 1;
          }
        }
      }
      return {};
    }

    /** Files resources one by one; an invalid one stops it, keeps the earlier ones filed,
        and leaves them unannounced. */
    method Add(rs: seq<R>) returns (ok: bool, missed: set<Session>)
      modifies this`resources, this`version, this`history, this`calls, sessions
      ensures ok == AllValid(kind, rs) && (ok <==> forall i :: 0 <= i < |rs| ==> kind.valid(rs[i]))
      ensures calls == old(calls) + [Call.Add(rs)]
      ensures resources == Effect(kind, old(resources), Call.Add(rs))
      ensures old(Valid()) ==> Valid()
      ensures history == old(history) + FilingTrace(kind, old(resources), rs[..FirstInvalid(kind, rs)])
      ensures version == old(version) + if ok && rs != [] then 1 else 0
      ensures missed <= sessions
      ensures forall s :: s in sessions ==>
        s.inbox == if ok && rs != [] && s !in missed then old(s.inbox) + [Names(kind, rs)] else old(s.inbox)
    {
      missed := {};
      calls := calls + [Call.Add(rs)];
      var changed;
      ok, changed := File(rs);
      if !ok {
        EffectsGrow(kind, old(calls), Call.Add(rs));
        return;
      }
      missed := Notify(changed);
      EffectsGrow(kind, old(calls), Call.Add(rs));
    }

    /** The loop of Add: one critical section, and one change of the map, for each resource up
        to the first invalid one. */
    method File(rs: seq<R>) returns (ok: bool, changed: seq<string>)
      modifies this`resources, this`history
      ensures ok == AllValid(kind, rs)
      ensures resources == Effect(kind, old(resources), Call.Add(rs))
      ensures history == old(history) + FilingTrace(kind, old(resources), rs[..FirstInvalid(kind, rs)])
      ensures ok ==> |changed| == |rs| && (set n | n in changed) == Names(kind, rs)
    {
      changed := [];
      ghost var k := FirstInvalid(kind, rs);
      for i := 0 to |rs|
        invariant i <= k && resources == PutAll(kind, old(resources), rs[..i])
        invariant |changed| == i && forall j :: 0 <= j < i ==> changed[j] == kind.name(rs[j])
        invariant history == old(history) + FilingTrace(kind, old(resources), rs[..i])
      {
        var n := kind.name(rs[i]);
        ValidUpTo(kind, rs, i);
        if !kind.valid(rs[i]) {
          ok := false;
          return;
        }
        changed := changed + [n];
        FileOne(kind, old(resources), rs, i);
        resources := resources[n := rs[i]];
        history := history + [resources];
      }
      assert rs[..|rs|] == rs;
      ok := true;
      ChangedAreNames(kind, rs, changed);
    }

    /** All or nothing: an invalid resource leaves everything as it was. Every name on file
        before or after is announced, once. */
    method Replace(rs: seq<R>) returns (ok: bool, missed: set<Session>)
      modifies this`resources, this`version, this`history, this`calls, sessions
      ensures ok == AllValid(kind, rs) && (ok <==> forall i :: 0 <= i < |rs| ==> kind.valid(rs[i]))
      ensures calls == old(calls) + [Call.Replace(rs)]
      ensures resources == Effect(kind, old(resources), Call.Replace(rs))
      ensures resources == if ok then PutAll(kind, map[], rs) else old(resources)
      ensures old(Valid()) ==> Valid()
      ensures history == old(history) + if ok then [resources] else []
      ensures var names := old(resources).Keys + Names(kind, rs);
        && version == old(version) + (if ok && names != {} then 1 else 0)
        && missed <= sessions
        && forall s :: s in sessions ==>
             s.inbox == if ok && names != {} && s !in missed then old(s.inbox) + [names] else old(s.inbox)
    {
      missed := {};
      calls := calls + [Call.Replace(rs)];
      EffectsGrow(kind, old(calls), Call.Replace(rs));
      for i := 0 to |rs|
        invariant forall j :: 0 <= j < i ==> kind.valid(rs[j])
      {
        if !kind.valid(rs[i]) {
          ok := false;
          return;
        }
      }
      var changed := Refile(rs);
      history := history + [resources];
      ok := true;
      missed := Notify(changed);
    }

    /** The critical section of Replace: a fresh map, and the names that were on file before
        or are now. */
    method Refile(rs: seq<R>) returns (changed: seq<string>)
      modifies this`resources
      ensures resources == PutAll(kind, map[], rs)
      ensures (set n | n in changed) == old(resources).Keys + Names(kind, rs)
      ensures changed == [] <==> old(resources).Keys + Names(kind, rs) == {}
    {
      changed := [];
      var previous := resources;
      resources := map[];
      for i := 0 to |rs|
        invariant resources == PutAll(kind, map[], rs[..i])
        invariant forall n :: n in changed <==> n in Names(kind, rs[..i])
        invariant previous.Keys == old(resources).Keys - Names(kind, rs[..i])
      {
        var n := kind.name(rs[i]);
        FileOne(kind, map[], rs, i);
        if n in previous {
          previous := previous - {n};
        }
        changed := changed + [n];
        resources := resources[n := rs[i]];
      }
      assert rs[..|rs|] == rs;
      var rest := previous.Keys;
      while rest != {}
        invariant rest <= previous.Keys
        invariant forall n :: n in changed <==> n in Names(kind, rs) + (previous.Keys - rest)
      {
        var n :| n in rest;
        changed := changed + [n];
        rest := rest - {n};
      }
      if changed != [] {
        assert changed[0] in changed;
        assert changed[0] in old(resources).Keys + Names(kind, rs);
      }
    }

    /** Removes one resource; a name that is not on file is not announced. */
    method Delete(n: string) returns (missed: set<Session>)
      modifies this`resources, this`version, this`history, this`calls, sessions
      ensures calls == old(calls) + [Call.Delete(n)]
      ensures resources == Effect(kind, old(resources), Call.Delete(n)) == old(resources) - {n}
      ensures old(Valid()) ==> Valid()
      ensures history == old(history) + if n in old(resources) then [resources] else []
      ensures version == old(version) + if n in old(resources) then 1 else 0
      ensures missed <= sessions
      ensures forall s :: s in sessions ==>
        s.inbox == if n in old(resources) && s !in missed then old(s.inbox) + [{n}] else old(s.inbox)
    {
      calls := calls + [Call.Delete(n)];
      EffectsGrow(kind, old(calls), Call.Delete(n));
      missed := {};
      if n in resources {
        resources := resources - {n};
        history := history + [resources];
        missed := Notify([n]);
        assert (set x | x in [n]) == {n};
      } else {
        assert resources - {n} == resources;
      }
    }

    /** snapshot: the wanted resources that exist, or all; None if one cannot be marshalled. */
    method Snapshot(want: seq<string>) returns (r: Option<seq<Entry<R>>>)
      ensures r.Some? ==> IsSnapshot(resources, want, r.value)
      ensures r.None? <==> exists n :: n in resources && Wants(want, n) && !kind.encodes(resources[n])
    {
      var entries: seq<Entry<R>> := [];
      if |want| == 0 {
        var rest := resources.Keys;
        while rest != {}
          invariant rest <= resources.Keys && |entries| + |rest| == |resources|
          invariant forall e :: e in entries ==> e.name in resources.Keys - rest && resources[e.name] == e.value
          invariant forall n :: n in resources.Keys - rest ==>
            Entry(n, resources[n]) in entries && kind.encodes(resources[n])
        {
          var n :| n in rest;
          if !kind.encodes(resources[n]) {
            return None;
          }
          entries := entries + [Entry(n, resources[n])];
          assert |rest - {n}| == |rest| - 1;
          rest := rest - {n};
        }
        return Some(entries);
      }
      for i := 0 to |want|
        invariant entries == Pick(resources, want[..i])
        invariant forall j :: 0 <= j < i && want[j] in resources ==> kind.encodes(resources[want[j]])
      {
        assert want[..i + 1][..i] == want[..i];
        if want[i] !in resources {
          continue;
        }
        if !kind.encodes(resources[want[i]]) {
          return None;
        }
        entries := entries + [Entry(want[i], resources[want[i]])];
      }
      assert want[..|want|] == want;
      return Some(entries);
    }

    /** A response with the wanted resources, the current version and a nonce of its own;
        None if a resource cannot be marshalled or the response does not validate. */
    method BuildDiscoveryResponse(want: seq<string>, hash: string) returns (r: Option<Response<R>>)
      ensures r.Some? ==>
        && IsSnapshot(resources, want, r.value.entries) && Buildable(kind, r.value.entries)
        && (forall e :: e in r.value.entries ==> kind.encodes(e.value)) && kind.admits(r.value.entries)
        && r.value.versionInfo == VersionString() && r.value.typeUrl == typeUrl
        && r.value.nonce == "nonce-" + VersionString() + "-" + hash
      ensures r.None? ==> exists entries :: IsSnapshot(resources, want, entries) && !Buildable(kind, entries)
      ensures r.None? ==>
        || (exists n :: n in resources && Wants(want, n) && !kind.encodes(resources[n]))
        || exists entries :: IsSnapshot(resources, want, entries) && !kind.admits(entries)
    {
      var entries := Snapshot(want);
      if entries.None? {
        UnencodableSpoils(kind, resources, want);
        return None;
      }
      AllEncode(kind, resources, want, entries.value);
      var text := VersionString();
      var res := Response(text, typeUrl, "nonce-" + text + "-" + hash, entries.value);
      if !kind.admits(res.entries) {
        return None;
      }
      return Some(res);
    }
  }

  /* ---- What the methods need ---- */

  lemma UnencodableSpoils<R>(kind: Kind<R>, m: map<string, R>, want: seq<string>)
    requires exists n :: n in m && Wants(want, n) && !kind.encodes(m[n])
    ensures exists entries :: IsSnapshot(m, want, entries) && !Buildable(kind, entries)
  {
    var n :| n in m && Wants(want, n) && !kind.encodes(m[n]);
    var entries := SnapshotExists(m, want);
    SnapshotShows(m, want, entries, n);
    var k :| 0 <= k < |entries| && entries[k] == Entry(n, m[n]);
    assert !kind.encodes(entries[k].value);
  }

  lemma AllEncode<R>(kind: Kind<R>, m: map<string, R>, want: seq<string>, entries: seq<Entry<R>>)
    requires IsSnapshot(m, want, entries) && forall n :: n in m && Wants(want, n) ==> kind.encodes(m[n])
    ensures forall k :: 0 <= k < |entries| ==> kind.encodes(entries[k].value)
  {
    PickShows(m, want);
    forall k | 0 <= k < |entries| ensures kind.encodes(entries[k].value) {
      assert entries[k] in entries;
    }
  }

  lemma {:induction false} ValidUpTo<R>(kind: Kind<R>, rs: seq<R>, i: nat)
    requires i < |rs| && i <= FirstInvalid(kind, rs)
    ensures kind.valid(rs[i]) ==> i < FirstInvalid(kind, rs)
    ensures !kind.valid(rs[i]) ==> i == FirstInvalid(kind, rs)
  {
  }

  lemma FileOne<R>(kind: Kind<R>, m: map<string, R>, rs: seq<R>, i: nat)
    requires i < |rs|
    ensures PutAll(kind, m, rs[..i + 1]) == Put(kind, PutAll(kind, m, rs[..i]), rs[i])
    ensures FilingTrace(kind, m, rs[..i + 1]) == FilingTrace(kind, m, rs[..i]) + [PutAll(kind, m, rs[..i + 1])]
    ensures Names(kind, rs[..i + 1]) == Names(kind, rs[..i]) + {kind.name(rs[i])}
  {
    assert rs[..i + 1] == rs[..i] + [rs[i]];
    PutAllSplits(kind, m, rs[..i], [rs[i]]);
    assert PutAll(kind, PutAll(kind, m, rs[..i]), [rs[i]]) == Put(kind, PutAll(kind, m, rs[..i]), rs[i]) by {
      assert [rs[i]][1..] == [];
    }
    forall j | 0 <= j < i
      ensures FilingTrace(kind, m, rs[..i + 1])[j] == FilingTrace(kind, m, rs[..i])[j]
    {
      assert rs[..i + 1][..j + 1] == rs[..i][..j + 1];
    }
    assert rs[..i + 1][..i + 1] == rs[..i + 1];
    forall n | n in Names(kind, rs[..i]) + {kind.name(rs[i])} ensures n in Names(kind, rs[..i + 1]) {
      if n == kind.name(rs[i]) {
        assert rs[..i + 1][i] == rs[i];
      } else {
        var j :| 0 <= j < i && kind.name(rs[..i][j]) == n;
        assert rs[..i + 1][j] == rs[..i][j];
      }
    }
    forall n | n in Names(kind, rs[..i + 1]) ensures n in Names(kind, rs[..i]) + {kind.name(rs[i])} {
      var j :| 0 <= j < i + 1 && kind.name(rs[..i + 1][j]) == n;
      if j < i { assert rs[..i][j] == rs[..i + 1][j]; }
    }
  }

  lemma ChangedAreNames<R>(kind: Kind<R>, rs: seq<R>, changed: seq<string>)
    requires |changed| == |rs| && forall j :: 0 <= j < |rs| ==> changed[j] == kind.name(rs[j])
    ensures (set n | n in changed) == Names(kind, rs)
  {
    forall n | n in Names(kind, rs) ensures n in changed {
      var j :| 0 <= j < |rs| && kind.name(rs[j]) == n;
      assert changed[j] == n;
    }
    forall n | n in changed ensures n in Names(kind, rs) {
      var j :| 0 <= j < |changed| && changed[j] == n;
      assert kind.name(rs[j]) == n;
    }
  }
}
