/** The protocol's guarantees over whole runs, and the runs that show why they carry the
    conditions they do. */
module ProtocolRuns {
  import opened Registry
  import opened StreamCore
  import opened Protocol
  import opened ProtocolSafety
  import opened ProtocolHistory
  import opened ProtocolConvergence
  import opened ProtocolProgress

  ghost predicate Reachable<R(!new)>(p: Params<R>, s: State<R>) {
    exists steps :: Runs(p, Initial(), steps, s)
  }

  /** Everything a step keeps. */
  ghost predicate Invariant<R>(p: Params<R>, s: State<R>) {
    && Sessions(s) && Timeline(p, s) && Responses(p, s)
    && Converging(s) && AllAnswered(s)
  }

  lemma StepKeepsInvariant<R>(p: Params<R>, s: State<R>, step: Step<R>)
    requires Invariant(p, s) && Enabled(s, step)
    ensures Invariant(p, Apply(p, s, step))
  {
    StepKeepsSessions(p, s, step);
    StepKeepsTimeline(p, s, step);
    StepKeepsResponses(p, s, step);
    StepKeepsConverging(p, s, step);
    StepKeepsAnswered(p, s, step);
  }

  lemma {:induction false} RunKeepsInvariant<R>(p: Params<R>, s: State<R>, steps: seq<Step<R>>, t: State<R>)
    requires Invariant(p, s) && Runs(p, s, steps, t)
    ensures Invariant(p, t)
    decreases |steps|
  {
    if steps != [] {
      StepKeepsInvariant(p, s, steps[0]);
      RunKeepsInvariant(p, Apply(p, s, steps[0]), steps[1..], t);
    }
  }

  lemma ReachableInvariant<R(!new)>(p: Params<R>, s: State<R>)
    requires Reachable(p, s)
    ensures Invariant(p, s)
  {
    var steps :| Runs(p, Initial(), steps, s);
    RunKeepsInvariant(p, Initial(), steps, s);
  }

  /* ---- Safety ---- */

  /** No run sends on a closed session channel, and whoever waits while holding sessionsMu
      waits for registered streams only. */
  lemma NeverPanics<R(!new)>(p: Params<R>, s: State<R>)
    requires Reachable(p, s)
    ensures !s.panicked
    ensures forall m, i :: 0 <= m < |s.muts| && i in Unserved(s.muts[m].phase) ==>
              s.holder == m && i < |s.streams| && !s.streams[i].phase.Closed?
  {
    ReachableInvariant(p, s);
    forall m, i | 0 <= m < |s.muts| && i in Unserved(s.muts[m].phase)
      ensures s.holder == m && i < |s.streams| && !s.streams[i].phase.Closed?
    {
      assert Holding(s.muts[m].phase) && i in s.sessions;
    }
  }

  /* ---- Versions ---- */

  /** Whatever the interleaving: the version and the pending bumps count the completed
      mutations, a response contains every write of the mutations behind its version, and
      the versions of one stream's responses never decrease. */
  lemma VersionCausality<R(!new)>(p: Params<R>, s: State<R>, i: nat)
    requires Reachable(p, s) && i < |s.streams|
    ensures s.version + |AwaitingBump(s)| == |AllCompleted(p, s)|
    ensures Responding(p, s, s.streams[i])
  {
    ReachableInvariant(p, s);
    VersionCountsMutations(p, s);
  }

  /** A response shows every write of the mutations its version counts. */
  lemma CountedIsShown<R>(p: Params<R>, s: State<R>, b: Built<R>, w: nat)
    requires Truthful(p, s, b) && w < |s.writes| && s.writes[w].author in s.bumps[..b.version]
    ensures w < b.at
  {
    var v :| 0 <= v < b.version && s.bumps[..b.version][v] == s.writes[w].author;
  }

  /** When one version means one moment: two responses of one version, on whatever streams,
      show the map after the same writes exactly if every write between them belongs to a
      mutation that the version already counts. */
  lemma OneVersionOneMoment<R(!new)>(p: Params<R>, s: State<R>, i: nat, j: nat, k: nat, l: nat)
    requires Reachable(p, s) && i < |s.streams| && k < |s.streams|
    requires j < |s.streams[i].built| && l < |s.streams[k].built|
    requires s.streams[i].built[j].version == s.streams[k].built[l].version
    requires s.streams[i].built[j].at <= s.streams[k].built[l].at
    ensures var b, c := s.streams[i].built[j], s.streams[k].built[l];
      && b.version <= |s.bumps| && c.at <= |s.writes|
      && (b.at == c.at <==> forall w :: b.at <= w < c.at ==> s.writes[w].author in s.bumps[..b.version])
  {
    ReachableInvariant(p, s);
    var b, c := s.streams[i].built[j], s.streams[k].built[l];
    assert Responding(p, s, s.streams[i]) && Responding(p, s, s.streams[k]);
    assert Truthful(p, s, b) && Truthful(p, s, c);
    forall w: nat | w < |s.writes| && s.writes[w].author in s.bumps[..b.version] ensures w < b.at {
      CountedIsShown(p, s, b, w);
    }
  }

  /** No call stands between its first write and its version bump, and no Add has been
      refused after it had filed something. */
  ghost predicate Quiet<R>(p: Params<R>, s: State<R>) {
    forall m: nat | m < |s.muts| ::
      var ph := s.muts[m].phase;
      !(ph.Adding? && ph.changed != {}) && !ph.Bumping? && !(Refused(p, s.muts[m]) && ph.Returned? && Wrote(s, m))
  }

  /** It is quiet exactly if the version counts the author of every write. */
  lemma QuietIffCounted<R>(p: Params<R>, s: State<R>)
    requires Timeline(p, s)
    ensures Quiet(p, s) <==> forall w :: 0 <= w < |s.writes| ==> s.writes[w].author in s.bumps
  {
    if Quiet(p, s) {
      forall w | 0 <= w < |s.writes| ensures s.writes[w].author in s.bumps {
        assert Wrote(s, s.writes[w].author) && MutatorTimed(p, s, s.writes[w].author);
      }
    } else {
      var m: nat :| m < |s.muts| && var ph := s.muts[m].phase;
        (ph.Adding? && ph.changed != {}) || ph.Bumping? || (Refused(p, s.muts[m]) && ph.Returned? && Wrote(s, m));
      assert MutatorTimed(p, s, m) && Wrote(s, m);
      var w :| 0 <= w < |s.writes| && s.writes[w].author == m;
      assert m !in s.bumps;
    }
  }

  lemma StepGrows<R>(p: Params<R>, s: State<R>, step: Step<R>)
    requires Enabled(s, step)
    ensures s.writes <= Apply(p, s, step).writes && s.bumps <= Apply(p, s, step).bumps
  {
    match step
    case Mutate(m, a) => MutationFrame(p, s, m, a);
    case Tell(m, a) => TellingFrame(s, m, a);
    case Stream(_, _) =>
    case Start(_) | Join =>
  }

  lemma {:induction false} RunGrows<R>(p: Params<R>, s: State<R>, steps: seq<Step<R>>, t: State<R>)
    requires Runs(p, s, steps, t)
    ensures s.writes <= t.writes && s.bumps <= t.bumps
    decreases |steps|
  {
    if steps != [] {
      StepGrows(p, s, steps[0]);
      RunGrows(p, Apply(p, s, steps[0]), steps[1..], t);
    }
  }

  /** In a quiet state the version means the contents: of all responses ever labelled with
      it, on any stream and in any continuation, those built by then show this very map. */
  lemma QuietVersionIsContents<R(!new)>(
    p: Params<R>, s: State<R>, steps: seq<Step<R>>, t: State<R>, k: nat, l: nat)
    requires Reachable(p, s) && Quiet(p, s) && Runs(p, s, steps, t)
    requires k < |t.streams| && l < |t.streams[k].built|
    requires t.streams[k].built[l].version == s.version && t.streams[k].built[l].at <= |s.writes|
    ensures var b := t.streams[k].built[l];
      b.at == |s.writes| && forall n :: Wants(b.want, n) ==> Shows(b.entries, s.resources, n)
  {
    ReachableInvariant(p, s);
    RunKeepsInvariant(p, s, steps, t);
    RunGrows(p, s, steps, t);
    QuietIffCounted(p, s);
    var b := t.streams[k].built[l];
    assert Responding(p, t, t.streams[k]) && Truthful(p, t, b);
    assert t.bumps[..b.version] == s.bumps;
    if s.writes != [] {
      var last := |s.writes| - 1;
      assert t.writes[last] == s.writes[last];
      CountedIsShown(p, t, b, last);
    }
    assert t.writes[..b.at] == s.writes;
    forall n | Wants(b.want, n) ensures Shows(b.entries, s.resources, n) {
      SnapshotShows(s.resources, b.want, b.entries, n);
    }
  }

  /** So a response built when it is quiet shows, on every name that both were asked for,
      what every earlier response of its version shows. */
  lemma SameVersionSameMap<R(!new)>(
    p: Params<R>, s: State<R>, i: nat, entries: seq<Entry<R>>, steps: seq<Step<R>>, t: State<R>, k: nat, l: nat)
    requires Reachable(p, s) && Quiet(p, s) && CanStream(s, i, Build(entries)) && Runs(p, s, steps, t)
    requires k < |t.streams| && l < |t.streams[k].built|
    requires t.streams[k].built[l].version == s.version && t.streams[k].built[l].at <= |s.writes|
    ensures var b := t.streams[k].built[l];
      forall n, v :: Wants(b.want, n) && Wants(s.streams[i].local.subscription, n) ==>
        (Entry(n, v) in b.entries <==> Entry(n, v) in entries)
  {
    QuietVersionIsContents(p, s, steps, t, k, l);
    var b, want := t.streams[k].built[l], s.streams[i].local.subscription;
    forall n, v | Wants(b.want, n) && Wants(want, n) ensures Entry(n, v) in b.entries <==> Entry(n, v) in entries {
      SnapshotShows(s.resources, want, entries, n);
      assert Shows(b.entries, s.resources, n) && Shows(entries, s.resources, n);
      assert Entry(n, v).name == n && Entry(n, v).value == v;
    }
  }

  /* ---- Progress ---- */

  /** In every reachable state a session that a notifier waits for takes the update, or is in
      the middle of a push that ends without anybody's help. */
  lemma WaitingEnds<R(!new)>(p: Params<R>, s: State<R>, m: nat, i: nat) returns (step: Step<R>)
    requires Reachable(p, s) && m < |s.muts| && s.muts[m].phase.Waiting? && i in s.muts[m].phase.blocked
    ensures Enabled(s, step) && Unforced(step)
    ensures step == Tell(m, WaitSend(i)) || (step.Stream? && step.i == i && !step.streaming.Hangup?)
  {
    ReachableInvariant(p, s);
    step := WaitedForStreamMoves(s, m, i);
  }

  /** In every reachable state that is not at rest something can move, and no notifier has to
      time out for it. */
  lemma NeverWedged<R(!new)>(p: Params<R>, s: State<R>) returns (step: Step<R>)
    requires Reachable(p, s) && !AtRest(s)
    ensures Enabled(s, step) && Unforced(step)
  {
    ReachableInvariant(p, s);
    step := NoDeadlock(s);
  }

  /* ---- Convergence ---- */

  /** In every reachable state, for every live stream and every name it wants: a client that
      gave its node id has been answered or is just being answered; and once it has been, the
      last response built is right about the name, or a mutator still has to tell the stream,
      or the stream is about to answer such an update, or the news was lost. */
  lemma Convergence<R(!new)>(p: Params<R>, s: State<R>, i: nat, n: string)
    requires Reachable(p, s) && i < |s.streams| && Live(s.streams[i])
    requires Wants(s.streams[i].local.subscription, n)
    ensures s.streams[i].local.node != "" && s.streams[i].built == [] ==> s.streams[i].phase.Building?
    ensures s.streams[i].built != [] ==>
      || UpToDate(s.resources, s.streams[i], n)
      || OnItsWay(s.muts, i, n)
      || (s.streams[i].phase.Building? && n in s.streams[i].phase.cause)
      || n in s.streams[i].lost
  {
    ReachableInvariant(p, s);
    if s.streams[i].built != [] {
      assert Follows(s, i, n);
    }
  }

  ghost predicate ClientAgrees<R>(s: State<R>, i: nat, n: string)
    requires i < |s.streams|
  {
    var c := s.streams[i];
    c.delivered != [] && Shows(c.delivered[|c.delivered| - 1].entries, s.resources, n)
  }

  /** At rest, what the client was last given agrees with the map on every name it wants
      that was not lost. */
  lemma RestingClientAgrees<R>(p: Params<R>, s: State<R>, i: nat, n: string)
    requires Invariant(p, s) && AtRest(s)
    requires i < |s.streams| && Following(s.streams[i])
    requires Wants(s.streams[i].local.subscription, n) && n !in s.streams[i].lost
    ensures ClientAgrees(s, i, n)
  {
    assert Responding(p, s, s.streams[i]) && Answered(s.streams[i]);
    assert Follows(s, i, n);
  }

  /** Names are lost only by a notifier timing out or an Add meeting an invalid resource. */
  predicate Loses<R>(p: Params<R>, s: State<R>, step: Step<R>) {
    match step
    case Tell(_, a) => a.WaitTimeout?
    case Mutate(m, a) => a.FileNext? && CanMutate(s, m, a) && !p.kind.valid(s.muts[m].phase.todo[0])
    case _ => false
  }

  ghost predicate Lossless<R>(p: Params<R>, s: State<R>, steps: seq<Step<R>>)
    decreases |steps|
  {
    steps != [] ==> !Loses(p, s, steps[0]) && (Enabled(s, steps[0]) ==> Lossless(p, Apply(p, s, steps[0]), steps[1..]))
  }

  lemma LosslessStep<R>(p: Params<R>, s: State<R>, step: Step<R>)
    requires Enabled(s, step) && !Loses(p, s, step)
    requires forall i: nat :: i < |s.streams| ==> s.streams[i].lost == {}
    ensures forall i: nat :: i < |Apply(p, s, step).streams| ==> Apply(p, s, step).streams[i].lost == {}
  {
    var t := Apply(p, s, step);
    match step
    case Tell(m, a) => forall i: nat | i < |t.streams| ensures t.streams[i].lost == {} { TellingStream(s, m, a, i); }
    case Stream(i, a) => assert t.streams[i].lost == {};
    case Mutate(m, a) => assert t.streams == s.streams;
    case Start(_) | Join =>
  }

  lemma {:induction false} LosslessRun<R>(p: Params<R>, s: State<R>, steps: seq<Step<R>>, t: State<R>)
    requires Runs(p, s, steps, t) && Lossless(p, s, steps)
    requires forall i: nat :: i < |s.streams| ==> s.streams[i].lost == {}
    ensures forall i: nat :: i < |t.streams| ==> t.streams[i].lost == {}
    decreases |steps|
  {
    if steps != [] {
      LosslessStep(p, s, steps[0]);
      LosslessRun(p, Apply(p, s, steps[0]), steps[1..], t);
    }
  }

  /* ---- Coming to rest ---- */

  ghost predicate AllInternal<R>(steps: seq<Step<R>>) {
    forall k :: 0 <= k < |steps| ==> Internal(steps[k])
  }

  lemma {:induction false} InternalRunsAreBounded<R>(p: Params<R>, s: State<R>, steps: seq<Step<R>>, t: State<R>)
    requires Runs(p, s, steps, t) && AllInternal(steps)
    ensures |steps| + Work(t) <= Work(s)
    decreases |steps|
  {
    if steps != [] {
      InternalStepsWork(p, s, steps[0]);
      InternalRunsAreBounded(p, Apply(p, s, steps[0]), steps[1..], t);
    }
  }

  /** Only the environment, or a notifier giving up, could still do something. */
  ghost predicate Stuck<R(!new)>(s: State<R>) {
    forall step: Step<R> :: Unforced(step) ==> !Enabled(s, step)
  }

  ghost predicate ClientsAgree<R>(s: State<R>) {
    forall i: nat, n | i < |s.streams| && Following(s.streams[i])
      && Wants(s.streams[i].local.subscription, n) && n !in s.streams[i].lost :: ClientAgrees(s, i, n)
  }

  lemma StuckIsAtRest<R(!new)>(p: Params<R>, s: State<R>)
    requires Invariant(p, s) && Stuck(s)
    ensures AtRest(s)
  {
    if !AtRest(s) {
      var step := NoDeadlock(s);
    }
  }

  /** A state is stuck exactly if it is at rest: no call and no stream is ever left hanging
      halfway with nothing to move it. */
  lemma StuckIffAtRest<R(!new)>(p: Params<R>, s: State<R>)
    requires Reachable(p, s)
    ensures Stuck(s) <==> AtRest(s)
  {
    ReachableInvariant(p, s);
    if Stuck(s) {
      StuckIsAtRest(p, s);
    }
    if AtRest(s) {
      forall step: Step<R> | Unforced(step) ensures !Enabled(s, step) {
        RestingCannotMove(s, step);
      }
    }
  }

  lemma RestingCannotMove<R>(s: State<R>, step: Step<R>)
    requires AtRest(s) && Unforced(step)
    ensures !Enabled(s, step)
  {
    match step
    case Mutate(m, a) =>
    case Tell(m, a) =>
    case Stream(i, a) =>
  }

  /** Left to itself, from any reachable state and under any scheduler, the system makes at
      most Work(s) steps; where it cannot go on, every call has returned, every exiting
      stream is gone, and every remaining client that has said who it is, or been answered
      without, and has not widened its subscription since, holds the map as far as
      it wants it and no news was lost. */
  lemma ComesToAgreement<R(!new)>(p: Params<R>, s: State<R>, steps: seq<Step<R>>, t: State<R>)
    requires Reachable(p, s) && Runs(p, s, steps, t) && AllInternal(steps)
    ensures |steps| <= Work(s)
    ensures Stuck(t) ==> AtRest(t) && ClientsAgree(t)
  {
    ReachableInvariant(p, s);
    RunKeepsInvariant(p, s, steps, t);
    InternalRunsAreBounded(p, s, steps, t);
    if Stuck(t) {
      StuckIsAtRest(p, t);
      forall i: nat, n | i < |t.streams| && Following(t.streams[i])
        && Wants(t.streams[i].local.subscription, n) && n !in t.streams[i].lost
        ensures ClientAgrees(t, i, n)
      {
        RestingClientAgrees(p, t, i, n);
      }
    }
  }

  /* ---- One writer ---- */

  function CallsOf<R>(muts: seq<Mutator<R>>): seq<Call<R>> {
    seq(|muts|, i requires 0 <= i < |muts| => muts[i].call)
  }

  predicate AllReturned<R>(muts: seq<Mutator<R>>) {
    forall m :: 0 <= m < |muts| ==> muts[m].phase.Returned?
  }

  /** A call is made only when the one before has returned, as a store holding its own
      lock makes them. */
  ghost predicate OneWriter<R>(p: Params<R>, s: State<R>, steps: seq<Step<R>>)
    decreases |steps|
  {
    steps != [] ==>
      && (steps[0].Start? ==> AllReturned(s.muts))
      && (Enabled(s, steps[0]) ==> OneWriter(p, Apply(p, s, steps[0]), steps[1..]))
  }

  /** What is left of a call to do to the map. */
  function Remainder<R>(kind: Kind<R>, m: map<string, R>, ph: Phase<R>): map<string, R> {
    match ph
    case Adding(todo, _) => Effect(kind, m, Add(todo))
    case Replacing(rs) => Effect(kind, m, Replace(rs))
    case Deleting(name) => Effect(kind, m, Delete(name))
    case _ => m
  }

  ghost predicate InSequence<R>(p: Params<R>, s: State<R>) {
    if s.muts == [] then s.resources == map[] else
    && AllReturned(s.muts[..|s.muts| - 1])
    && Remainder(p.kind, s.resources, s.muts[|s.muts| - 1].phase) == Effects(p.kind, CallsOf(s.muts))
  }

  lemma MutationRemainder<R>(p: Params<R>, s: State<R>, m: nat, a: MutateStep)
    requires CanMutate(s, m, a)
    ensures var t := Mutated(p, s, m, a);
      Remainder(p.kind, t.resources, t.muts[m].phase) == Remainder(p.kind, s.resources, s.muts[m].phase)
  {
    var ph := s.muts[m].phase;
    match a
    case FileNext =>
      if p.kind.valid(ph.todo[0]) {
        var k := FirstInvalid(p.kind, ph.todo);
        assert ph.todo[..k][0] == ph.todo[0] && ph.todo[..k][1..] == ph.todo[1..][..k - 1];
      } else {
        assert ph.todo[..0] == [];
      }
    case FileDone => assert ph.todo[..0] == [];
    case ReplaceNow =>
      if ph.rs != [] {
        assert p.kind.name(ph.rs[0]) in Names(p.kind, ph.rs);
      } else if s.resources.Keys == {} {
        assert s.resources == map[];
      }
    case DeleteNow =>
      assert ph.name !in s.resources ==> s.resources - {ph.name} == s.resources;
  }

  lemma SameCallsSameEffects<R>(s: State<R>, t: State<R>)
    requires |s.muts| == |t.muts| && forall m :: 0 <= m < |s.muts| ==> s.muts[m].call == t.muts[m].call
    ensures CallsOf(s.muts) == CallsOf(t.muts)
  {
  }

  lemma OnlyLastMoves<R>(p: Params<R>, s: State<R>, t: State<R>, m: nat)
    requires InSequence(p, s) && m < |s.muts| == |t.muts| && !s.muts[m].phase.Returned?
    requires forall k: nat :: k < |s.muts| && k != m ==> t.muts[k] == s.muts[k]
    requires t.muts[m].call == s.muts[m].call
    requires Remainder(p.kind, t.resources, t.muts[m].phase) == Remainder(p.kind, s.resources, s.muts[m].phase)
    ensures InSequence(p, t)
  {
    assert t.muts[..m] == s.muts[..m];
    SameCallsSameEffects(s, t);
  }

  lemma StartKeepsSequence<R>(p: Params<R>, s: State<R>, call: Call<R>)
    requires InSequence(p, s) && AllReturned(s.muts)
    ensures InSequence(p, Started(s, call))
  {
    var t := Started(s, call);
    assert t.muts[..|s.muts|] == s.muts;
    assert CallsOf(t.muts)[..|s.muts|] == CallsOf(s.muts);
    assert Remainder(p.kind, t.resources, FirstPhase(call)) == Effect(p.kind, s.resources, call);
  }

  lemma MutationKeepsSequence<R>(p: Params<R>, s: State<R>, m: nat, a: MutateStep)
    requires InSequence(p, s) && CanMutate(s, m, a)
    ensures InSequence(p, Mutated(p, s, m, a))
  {
    MutationRemainder(p, s, m, a);
    OnlyLastMoves(p, s, Mutated(p, s, m, a), m);
  }

  lemma TellingKeepsSequence<R>(p: Params<R>, s: State<R>, m: nat, a: NotifyStep)
    requires InSequence(p, s) && CanTell(s, m, a)
    ensures InSequence(p, Told(s, m, a))
  {
    TellingTouchesOne(s, m, a);
    TellingFrame(s, m, a);
    OnlyLastMoves(p, s, Told(s, m, a), m);
  }

  lemma StepKeepsSequence<R>(p: Params<R>, s: State<R>, step: Step<R>)
    requires InSequence(p, s) && Enabled(s, step) && (step.Start? ==> AllReturned(s.muts))
    ensures InSequence(p, Apply(p, s, step))
  {
    match step
    case Start(call) => StartKeepsSequence(p, s, call);
    case Mutate(m, a) => MutationKeepsSequence(p, s, m, a);
    case Tell(m, a) => TellingKeepsSequence(p, s, m, a);
    case Stream(_, _) | Join =>
  }

  /** With one writer, a system at rest holds what its calls do one after the other. */
  lemma {:induction false} OneWriterEffects<R>(p: Params<R>, s: State<R>, steps: seq<Step<R>>, t: State<R>)
    requires InSequence(p, s) && Runs(p, s, steps, t) && OneWriter(p, s, steps)
    ensures InSequence(p, t)
    ensures AllReturned(t.muts) ==> t.resources == Effects(p.kind, CallsOf(t.muts))
    decreases |steps|
  {
    if steps != [] {
      StepKeepsSequence(p, s, steps[0]);
      OneWriterEffects(p, Apply(p, s, steps[0]), steps[1..], t);
    } else if t.muts == [] {
      assert CallsOf(t.muts) == [];
    }
  }
}
