/** Versions and contents: which mutations a response labelled with a version reflects. */
module ProtocolHistory {
  import opened Registry
  import opened StreamCore
  import opened Protocol

  function Redo<R>(kind: Kind<R>, m: map<string, R>, change: Change<R>): map<string, R> {
    match change
    case Filed(name, value) => m[name := value]
    case Reset(rs) => PutAll(kind, map[], rs)
    case Removed(name) => m - {name}
  }

  /** The map a sequence of writes leads to, from the empty map. */
  function Replay<R>(kind: Kind<R>, writes: seq<Write<R>>): map<string, R> {
    if writes == [] then map[]
    else Redo(kind, Replay(kind, writes[..|writes| - 1]), writes[|writes| - 1].change)
  }

  lemma ReplayAppends<R>(kind: Kind<R>, writes: seq<Write<R>>, w: Write<R>)
    ensures Replay(kind, writes + [w]) == Redo(kind, Replay(kind, writes), w.change)
  {
    assert (writes + [w])[..|writes|] == writes;
  }

  /** The mutator is past its last write. */
  predicate DoneWriting<R>(ph: Phase<R>) {
    !ph.Adding? && !ph.Replacing? && !ph.Deleting?
  }

  ghost predicate Wrote<R>(s: State<R>, m: nat) {
    exists w :: 0 <= w < |s.writes| && s.writes[w].author == m
  }

  /** An Add that met an invalid resource: it returns without announcing what it filed. */
  ghost predicate Refused<R>(p: Params<R>, mut: Mutator<R>) {
    mut.call.Add? && !AllValid(p.kind, mut.call.rs)
  }

  /** Where a mutator stands relative to its writes and to its version bump. */
  ghost predicate MutatorTimed<R>(p: Params<R>, s: State<R>, m: nat)
    requires m < |s.muts|
  {
    var ph, call := s.muts[m].phase, s.muts[m].call;
    && (ph.Adding? ==> call.Add? && |ph.todo| <= |call.rs| && ph.todo == call.rs[|call.rs| - |ph.todo|..])
    && (ph.Adding? ==> (Wrote(s, m) <==> ph.changed != {}))
    && (ph.Adding? ==> AllValid(p.kind, call.rs[..|call.rs| - |ph.todo|]))
    && (ph.Replacing? || ph.Deleting? ==> !call.Add? && !Wrote(s, m))
    && (!DoneWriting(ph) || ph.Bumping? ==> m !in s.bumps)
    && (ph.Locking? || ph.Trying? || ph.Waiting? ==> m in s.bumps)
    && (m in s.bumps || ph.Bumping? ==> Wrote(s, m) && !Refused(p, s.muts[m]))
    && (ph.Returned? && Wrote(s, m) && m !in s.bumps ==> Refused(p, s.muts[m]))
  }

  /** The map is what the writes made it, the version counts the bumps, and nobody bumps
      twice. */
  ghost predicate Numbered<R>(p: Params<R>, s: State<R>) {
    && s.resources == Replay(p.kind, s.writes)
    && s.version == |s.bumps|
    && (forall j, k :: 0 <= j < k < |s.bumps| ==> s.bumps[j] != s.bumps[k])
    && (forall k :: 0 <= k < |s.bumps| ==> s.bumps[k] < |s.muts|)
    && (forall w :: 0 <= w < |s.writes| ==> s.writes[w].author < |s.muts|)
  }

  ghost predicate Timeline<R>(p: Params<R>, s: State<R>) {
    Numbered(p, s) && forall m: nat :: m < |s.muts| ==> MutatorTimed(p, s, m)
  }

  lemma TimedFrame<R>(p: Params<R>, s: State<R>, t: State<R>, k: nat)
    requires k < |s.muts| && k < |t.muts| && s.muts[k] == t.muts[k]
    requires Wrote(s, k) == Wrote(t, k) && (k in s.bumps <==> k in t.bumps)
    requires MutatorTimed(p, s, k)
    ensures MutatorTimed(p, t, k)
  {
  }

  lemma WroteGrows<R>(s: State<R>, t: State<R>, m: nat)
    requires t.writes == s.writes || (|t.writes| == |s.writes| + 1 && t.writes[..|s.writes|] == s.writes
                                      && t.writes[|s.writes|].author == m)
    ensures forall k: nat :: Wrote(t, k) <==> Wrote(s, k) || (k == m && t.writes != s.writes)
  {
    forall k: nat ensures Wrote(t, k) <==> Wrote(s, k) || (k == m && t.writes != s.writes) {
      if Wrote(s, k) {
        var w :| 0 <= w < |s.writes| && s.writes[w].author == k;
        assert t.writes[w] == s.writes[w];
      }
      if t.writes != s.writes {
        assert t.writes[|s.writes|].author == m;
      }
    }
  }

  lemma MutationKeepsNumbers<R>(p: Params<R>, s: State<R>, m: nat, a: MutateStep)
    requires Numbered(p, s) && CanMutate(s, m, a)
    ensures var t := Mutated(p, s, m, a);
      && Numbered(p, t) && |t.muts| == |s.muts| && t.bumps == s.bumps
      && (forall k: nat :: k < |s.muts| && k != m ==> t.muts[k] == s.muts[k])
      && (forall k: nat :: Wrote(t, k) <==> Wrote(s, k) || (k == m && t.writes != s.writes))
  {
    var t := Mutated(p, s, m, a);
    MutationWrites(p, s, m, a);
    if t.writes != s.writes {
      ReplayAppends(p.kind, s.writes, t.writes[|s.writes|]);
      assert t.writes[..|s.writes|] == s.writes;
    }
    WroteGrows(s, t, m);
  }

  predicate WritesOne<R(==)>(p: Params<R>, s: State<R>, t: State<R>, m: nat, w: Write<R>) {
    t.writes == s.writes + [w] && w.author == m && t.resources == Redo(p.kind, s.resources, w.change)
  }

  /** A mutation step writes at most once, and changes the map as its write says. */
  lemma MutationWrites<R>(p: Params<R>, s: State<R>, m: nat, a: MutateStep)
    requires CanMutate(s, m, a)
    ensures var t := Mutated(p, s, m, a);
      && |t.muts| == |s.muts| && t.bumps == s.bumps && t.version == s.version
      && (forall k: nat :: k < |s.muts| && k != m ==> t.muts[k] == s.muts[k])
      && (t.writes == s.writes ==> t.resources == s.resources)
      && (t.writes != s.writes ==> |t.writes| == |s.writes| + 1 && WritesOne(p, s, t, m, t.writes[|s.writes|]))
  {
    var t := Mutated(p, s, m, a);
    assert |t.writes| > |s.writes| ==> t.writes == s.writes + [t.writes[|s.writes|]];
  }

  lemma FilingTimed<R>(p: Params<R>, s: State<R>, m: nat)
    requires CanMutate(s, m, FileNext) && MutatorTimed(p, s, m)
    requires var t := OnFileNext(p, s, m); Wrote(t, m) <==> Wrote(s, m) || t.writes != s.writes
    ensures MutatorTimed(p, OnFileNext(p, s, m), m)
  {
    var ph, call := s.muts[m].phase, s.muts[m].call;
    var k := |call.rs| - |ph.todo|;
    assert ph.todo[0] == call.rs[k];
    assert call.rs[..k + 1] == call.rs[..k] + [call.rs[k]];
  }

  lemma MutationTimed<R>(p: Params<R>, s: State<R>, m: nat, a: MutateStep)
    requires CanMutate(s, m, a) && MutatorTimed(p, s, m)
    requires var t := Mutated(p, s, m, a); Wrote(t, m) <==> Wrote(s, m) || t.writes != s.writes
    ensures MutatorTimed(p, Mutated(p, s, m, a), m)
  {
    match a
    case FileNext => FilingTimed(p, s, m);
    case FileDone =>
      var ph, call := s.muts[m].phase, s.muts[m].call;
      assert call.rs[..|call.rs| - |ph.todo|] == call.rs;
    case ReplaceNow =>
    case DeleteNow =>
  }

  lemma MutationKeepsTimeline<R>(p: Params<R>, s: State<R>, m: nat, a: MutateStep)
    requires Timeline(p, s) && CanMutate(s, m, a)
    ensures Timeline(p, Mutated(p, s, m, a))
  {
    var t := Mutated(p, s, m, a);
    MutationKeepsNumbers(p, s, m, a);
    MutationTimed(p, s, m, a);
    forall k: nat | k < |t.muts| && k != m ensures MutatorTimed(p, t, k) {
      TimedFrame(p, s, t, k);
    }
  }

  lemma TellingTimed<R>(p: Params<R>, s: State<R>, m: nat, a: NotifyStep)
    requires CanTell(s, m, a) && MutatorTimed(p, s, m)
    ensures MutatorTimed(p, Told(s, m, a), m)
  {
    var t := Told(s, m, a);
    assert Wrote(t, m) == Wrote(s, m);
  }

  lemma TellingFrame<R>(s: State<R>, m: nat, a: NotifyStep)
    requires CanTell(s, m, a)
    ensures var t := Told(s, m, a);
      && |t.muts| == |s.muts| && t.writes == s.writes && t.resources == s.resources
      && t.bumps == (if a.Bump? then s.bumps + [m] else s.bumps)
      && t.version == (if a.Bump? then s.version + 1 else s.version)
      && (forall k: nat :: k < |s.muts| && k != m ==> t.muts[k] == s.muts[k])
      && |t.streams| == |s.streams|
      && (forall i: nat :: i < |s.streams| ==>
           && t.streams[i].built == s.streams[i].built && t.streams[i].delivered == s.streams[i].delivered
           && (t.streams[i].phase == s.streams[i].phase || (s.streams[i].phase.Idle? && t.streams[i].phase.Building?)))
  {
  }

  lemma TellingKeepsTimeline<R>(p: Params<R>, s: State<R>, m: nat, a: NotifyStep)
    requires Timeline(p, s) && CanTell(s, m, a)
    ensures Timeline(p, Told(s, m, a))
  {
    var t := Told(s, m, a);
    TellingFrame(s, m, a);
    TellingTimed(p, s, m, a);
    assert a.Bump? ==> m !in s.bumps by { assert MutatorTimed(p, s, m); }
    forall k: nat | k < |t.muts| && k != m ensures MutatorTimed(p, t, k) {
      assert Wrote(t, k) == Wrote(s, k);
      TimedFrame(p, s, t, k);
    }
  }

  lemma StepKeepsTimeline<R>(p: Params<R>, s: State<R>, step: Step<R>)
    requires Timeline(p, s) && Enabled(s, step)
    ensures Timeline(p, Apply(p, s, step))
  {
    match step
    case Mutate(m, a) => MutationKeepsTimeline(p, s, m, a);
    case Tell(m, a) => TellingKeepsTimeline(p, s, m, a);
    case Stream(_, _) | Start(_) | Join =>
      var t := Apply(p, s, step);
      forall k: nat | k < |t.muts| ensures MutatorTimed(p, t, k) {
        assert Wrote(t, k) == Wrote(s, k);
        if k < |s.muts| { TimedFrame(p, s, t, k); }
      }
  }

  /* ---- Counting versions ---- */

  /** The mutation is complete, changed something, and is due a version of its own. */
  ghost predicate Completed<R>(p: Params<R>, s: State<R>, m: nat) {
    m < |s.muts| && DoneWriting(s.muts[m].phase) && Wrote(s, m) && !Refused(p, s.muts[m])
  }

  ghost function SetOf(xs: seq<nat>): set<nat> {
    set x | x in xs
  }

  lemma {:induction false} DistinctCount(xs: seq<nat>)
    requires forall j, k :: 0 <= j < k < |xs| ==> xs[j] != xs[k]
    ensures |SetOf(xs)| == |xs|
  {
    if xs != [] {
      var n := |xs| - 1;
      var init := xs[..n];
      DistinctCount(init);
      assert xs == init + [xs[n]];
      assert SetOf(xs) == SetOf(init) + {xs[n]};
      assert SetOf(init) * {xs[n]} == {};
    }
  }

  ghost function AllCompleted<R>(p: Params<R>, s: State<R>): set<nat> {
    set m: nat | m < |s.muts| && Completed(p, s, m)
  }

  ghost function AwaitingBump<R>(s: State<R>): set<nat> {
    set m: nat | m < |s.muts| && s.muts[m].phase.Bumping?
  }

  /** The version, plus the completed mutations still waiting for their bump, counts the
      completed mutations. */
  lemma VersionCountsMutations<R>(p: Params<R>, s: State<R>)
    requires Timeline(p, s)
    ensures s.version + |AwaitingBump(s)| == |AllCompleted(p, s)|
  {
    var bumped := SetOf(s.bumps);
    DistinctCount(s.bumps);
    forall m: nat | m < |s.muts| ensures m in AllCompleted(p, s) <==> m in bumped + AwaitingBump(s) {
      assert MutatorTimed(p, s, m);
    }
    assert AllCompleted(p, s) == bumped + AwaitingBump(s);
    assert bumped * AwaitingBump(s) == {} by {
      forall m | m in AwaitingBump(s) ensures m !in bumped { assert MutatorTimed(p, s, m); }
    }
  }

  /* ---- Responses ---- */

  /** The response shows the map as it was after its first `at` writes, and every write of
      the mutations behind the first `version` bumps is among those. */
  ghost predicate Truthful<R>(p: Params<R>, s: State<R>, b: Built<R>) {
    && b.at <= |s.writes| && IsSnapshot(Replay(p.kind, s.writes[..b.at]), b.want, b.entries)
    && b.version <= |s.bumps|
    && forall k, w :: 0 <= k < b.version && 0 <= w < |s.writes| && s.writes[w].author == s.bumps[k] ==> w < b.at
  }

  ghost predicate AllTruthful<R>(p: Params<R>, s: State<R>, built: seq<Built<R>>) {
    forall j :: 0 <= j < |built| ==> Truthful(p, s, built[j])
  }

  ghost predicate InOrder<R>(built: seq<Built<R>>) {
    forall j, k :: 0 <= j < k < |built| ==> built[j].version <= built[k].version && built[j].at <= built[k].at
  }

  /** What the client was given are the responses built, in order, up to the one on offer. */
  ghost predicate Handed<R>(c: Conn<R>) {
    && (c.phase.Idle? || c.phase.Building? ==> c.delivered == c.built)
    && (c.phase.Sending? ==> c.built != [] && c.delivered == c.built[..|c.built| - 1])
    && c.delivered <= c.built
  }

  ghost predicate Responding<R>(p: Params<R>, s: State<R>, c: Conn<R>) {
    AllTruthful(p, s, c.built) && InOrder(c.built) && Handed(c)
  }

  ghost predicate Responses<R>(p: Params<R>, s: State<R>) {
    forall i: nat :: i < |s.streams| ==> Responding(p, s, s.streams[i])
  }

  lemma TruthfulFrame<R>(p: Params<R>, s: State<R>, t: State<R>, b: Built<R>)
    requires Truthful(p, s, b)
    requires s.writes <= t.writes && s.bumps <= t.bumps
    requires forall w :: |s.writes| <= w < |t.writes| ==> t.writes[w].author !in s.bumps
    ensures Truthful(p, t, b)
  {
    assert t.writes[..b.at] == s.writes[..b.at];
    forall k, w | 0 <= k < b.version && 0 <= w < |t.writes| && t.writes[w].author == t.bumps[k]
      ensures w < b.at
    {
      assert t.bumps[k] == s.bumps[k];
      if w < |s.writes| {
        assert s.writes[w] == t.writes[w];
      }
    }
  }

  lemma RespondingFrame<R>(p: Params<R>, s: State<R>, t: State<R>, c: Conn<R>, d: Conn<R>)
    requires Responding(p, s, c)
    requires s.writes <= t.writes && s.bumps <= t.bumps
    requires forall w :: |s.writes| <= w < |t.writes| ==> t.writes[w].author !in s.bumps
    requires d.built == c.built && d.delivered == c.delivered
    requires d.phase == c.phase || d.phase.Exiting? || d.phase.Closed? || (c.phase.Idle? && d.phase.Building?)
    ensures Responding(p, t, d)
  {
    forall j | 0 <= j < |c.built| ensures Truthful(p, t, c.built[j]) {
      TruthfulFrame(p, s, t, c.built[j]);
    }
  }

  lemma BuildTruthful<R>(p: Params<R>, s: State<R>, i: nat, entries: seq<Entry<R>>)
    requires Timeline(p, s) && i < |s.streams| && Responding(p, s, s.streams[i])
    requires CanStream(s, i, Build(entries))
    ensures Responding(p, s, OnBuild(p, s, i, entries))
  {
    var c := s.streams[i];
    var d := OnBuild(p, s, i, entries);
    if d.phase.Sending? {
      var b := d.built[|c.built|];
      assert s.writes[..b.at] == s.writes;
      assert Truthful(p, s, b);
    } else {
      RespondingFrame(p, s, s, c, d);
    }
  }

  lemma PushHands<R>(p: Params<R>, c: Conn<R>, nonce: string)
    requires InOrder(c.built) && Handed(c) && c.phase.Sending?
    ensures var d := OnPushOk(p, c, nonce); d.built == c.built && Handed(d)
  {
    assert c.built == c.built[..|c.built| - 1] + [c.built[|c.built| - 1]];
  }

  lemma StreamResponds<R>(p: Params<R>, s: State<R>, i: nat, a: StreamStep<R>)
    requires Timeline(p, s) && CanStream(s, i, a) && Responding(p, s, s.streams[i])
    ensures Responding(p, s, ConnAfter(p, s, i, a))
  {
    match a
    case Build(entries) => BuildTruthful(p, s, i, entries);
    case PushOk(nonce) => PushHands(p, s.streams[i], nonce);
    case _ => RespondingFrame(p, s, s, s.streams[i], ConnAfter(p, s, i, a));
  }

  lemma StreamKeepsResponses<R>(p: Params<R>, s: State<R>, i: nat, a: StreamStep<R>)
    requires Timeline(p, s) && Responses(p, s) && CanStream(s, i, a)
    ensures Responses(p, Streamed(p, s, i, a))
  {
    var t := Streamed(p, s, i, a);
    StreamResponds(p, s, i, a);
    var d := ConnAfter(p, s, i, a);
    RespondingFrame(p, s, t, d, d);
    forall k: nat | k < |t.streams| && k != i ensures Responding(p, t, t.streams[k]) {
      RespondingFrame(p, s, t, s.streams[k], t.streams[k]);
    }
  }

  lemma MutationFrame<R>(p: Params<R>, s: State<R>, m: nat, a: MutateStep)
    requires CanMutate(s, m, a)
    ensures var t := Mutated(p, s, m, a);
      && t.bumps == s.bumps && s.writes <= t.writes
      && (forall w :: |s.writes| <= w < |t.writes| ==> t.writes[w].author == m)
      && |t.streams| == |s.streams|
      && forall i: nat :: i < |s.streams| ==>
           t.streams[i] == s.streams[i].(lost := t.streams[i].lost)
  {
  }

  lemma StepKeepsResponses<R>(p: Params<R>, s: State<R>, step: Step<R>)
    requires Timeline(p, s) && Responses(p, s) && Enabled(s, step)
    ensures Responses(p, Apply(p, s, step))
  {
    var t := Apply(p, s, step);
    match step
    case Stream(i, a) => StreamKeepsResponses(p, s, i, a);
    case Mutate(m, a) =>
      MutationFrame(p, s, m, a);
      assert m !in s.bumps by { assert MutatorTimed(p, s, m); }
      forall i: nat | i < |t.streams| ensures Responding(p, t, t.streams[i]) {
        RespondingFrame(p, s, t, s.streams[i], t.streams[i]);
      }
    case Tell(m, a) =>
      TellingFrame(s, m, a);
      forall i: nat | i < |t.streams| ensures Responding(p, t, t.streams[i]) {
        RespondingFrame(p, s, t, s.streams[i], t.streams[i]);
      }
    case Start(_) | Join =>
      forall i: nat | i < |t.streams| ensures Responding(p, t, t.streams[i]) {
        if i < |s.streams| { RespondingFrame(p, s, t, s.streams[i], t.streams[i]); }
      }
  }
}
