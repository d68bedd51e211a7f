/** The streams of the protocol are the select loop: over any run, a stream has made of its
    events what the loop makes of them. */
module ProtocolStreams {
  import opened Registry
  import opened StreamCore
  import opened StreamLedger
  import opened Protocol
  import opened ProtocolConvergence
  import opened ProtocolHistory
  import opened ProtocolRuns
  import opened StreamReports
  import Text

  /* ---- The events of a stream ---- */

  /** The event, with this end of the push it has caused. */
  function EndingIn(e: Event, push: PushResult): Event {
    match e
    case GotRequest(req, _) => GotRequest(req, push)
    case GotUpdate(names, _) => GotUpdate(names, push)
    case Tick(_) => e
    case Stop(_) => e
  }

  function Concluded(es: seq<Event>, push: PushResult): seq<Event> {
    if es == [] then es else es[..|es| - 1] + [EndingIn(es[|es| - 1], push)]
  }

  /** The names a notifier passes on. */
  function Passed<R>(ph: Phase<R>): set<string> {
    match ph
    case Trying(names, _, _) => names
    case Waiting(names, _) => names
    case _ => {}
  }

  /** What a step of the stream itself adds to its events: an input, or the end of the push
      that the last input has caused. Until then it is filed as failing to build. */
  function Acts<R>(p: Params<R>, c: Conn<R>, a: StreamStep<R>, es: seq<Event>): seq<Event> {
    match a
    case Ask(req) => es + [GotRequest(req, BuildFailed)]
    case Clock(expired) => es + [Tick(expired)]
    case Leave(why) => es + [Stop(why)]
    case Build(entries) =>
      if (forall k :: 0 <= k < |entries| ==> p.kind.encodes(entries[k].value)) && p.kind.admits(entries) then es
      else Concluded(es, BuildFailed)
    case PushOk(nonce) =>
      if c.built == [] then es
      else Concluded(es, Pushed(nonce, p.prefix + Text.Itoa(c.built[|c.built| - 1].version)))
    case PushTimeout => Concluded(es, TimedOut)
    case Hangup => es
  }

  /** What a step adds to the events of stream i: also every update that a notifier sends it. */
  function Adds<R>(p: Params<R>, s: State<R>, step: Step<R>, i: nat, es: seq<Event>): seq<Event>
    requires i < |s.streams|
  {
    match step
    case Stream(j, a) => if j == i then Acts(p, s.streams[i], a, es) else es
    case Tell(m, TrySend(j)) =>
      if j == i && m < |s.muts| then es + [GotUpdate(Passed(s.muts[m].phase), BuildFailed)] else es
    case Tell(m, WaitSend(j)) =>
      if j == i && m < |s.muts| then es + [GotUpdate(Passed(s.muts[m].phase), BuildFailed)] else es
    case _ => es
  }

  /** The events of stream i over a run, after those in es. */
  ghost function EventsOf<R>(p: Params<R>, s: State<R>, steps: seq<Step<R>>, i: nat, es: seq<Event>): seq<Event>
    decreases |steps|
  {
    if steps == [] || !Enabled(s, steps[0]) then es
    else EventsOf(p, Apply(p, s, steps[0]), steps[1..], i, if i < |s.streams| then Adds(p, s, steps[0], i, es) else es)
  }

  /* ---- The loop and its mirror ---- */

  /** The loop is in the middle of a push: it has taken the last event in, and what is left to
      do depends on how the push ends. */
  ghost predicate Midway(typeUrl: string, local: StreamState, es: seq<Event>) {
    es != [] &&
    var e := es[|es| - 1];
    var st := Run(typeUrl, FRESH, es[..|es| - 1]);
    Pushes(typeUrl, st, e) && local == if e.GotRequest? then Admit(st, e.req) else st
  }

  ghost predicate Mirrors<R>(p: Params<R>, c: Conn<R>, es: seq<Event>) {
    match c.phase
    case Idle => c.local == Run(p.typeUrl, FRESH, es) && c.local.status.Running?
    case Building(cause) =>
      Midway(p.typeUrl, c.local, es) && cause == if es[|es| - 1].GotUpdate? then es[|es| - 1].names else {}
    case Sending => Midway(p.typeUrl, c.local, es) && c.built != []
    case Exiting => c.local == Run(p.typeUrl, FRESH, es) && c.local.status.Ended?
    case Closed => c.local == Run(p.typeUrl, FRESH, es) && c.local.status.Ended?
  }

  lemma RunOneMore(typeUrl: string, es: seq<Event>, e: Event)
    ensures Run(typeUrl, FRESH, es + [e]) == StreamCore.Step(typeUrl, Run(typeUrl, FRESH, es), e)
  {
    assert (es + [e])[..|es|] == es;
  }

  /** However the push ends, the loop goes on as after the event with that end. */
  lemma PushConcludes(typeUrl: string, local: StreamState, es: seq<Event>, push: PushResult)
    requires Midway(typeUrl, local, es)
    ensures Run(typeUrl, FRESH, Concluded(es, push)) == Push(local, push)
    ensures local.status.Running?
  {
    var n := |es| - 1;
    RunOneMore(typeUrl, es[..n], EndingIn(es[n], push));
  }

  lemma AskMirrors<R>(p: Params<R>, c: Conn<R>, req: Request, es: seq<Event>)
    requires c.phase.Idle? && Mirrors(p, c, es)
    ensures Mirrors(p, OnRequest(p, c, req), es + [GotRequest(req, BuildFailed)])
  {
    var e := GotRequest(req, BuildFailed);
    RunOneMore(p.typeUrl, es, e);
    assert (es + [e])[..|es|] == es;
    assert Admit(c.local, req).status.Running?;
  }

  lemma InputMirrors<R>(p: Params<R>, s: State<R>, i: nat, a: StreamStep<R>, es: seq<Event>)
    requires CanStream(s, i, a) && Mirrors(p, s.streams[i], es) && (a.Ask? || a.Clock? || a.Leave? || a.Hangup?)
    ensures Mirrors(p, ConnAfter(p, s, i, a), Acts(p, s.streams[i], a, es))
  {
    match a
    case Ask(req) => AskMirrors(p, s.streams[i], req, es);
    case Clock(expired) => RunOneMore(p.typeUrl, es, Tick(expired));
    case Leave(why) => RunOneMore(p.typeUrl, es, Stop(why));
    case _ =>
  }

  lemma PushMirrors<R>(p: Params<R>, s: State<R>, i: nat, a: StreamStep<R>, es: seq<Event>)
    requires CanStream(s, i, a) && Mirrors(p, s.streams[i], es) && (a.Build? || a.PushOk? || a.PushTimeout?)
    ensures Mirrors(p, ConnAfter(p, s, i, a), Acts(p, s.streams[i], a, es))
  {
    var c := s.streams[i];
    match a
    case Build(entries) => PushConcludes(p.typeUrl, c.local, es, BuildFailed);
    case PushOk(nonce) => PushConcludes(p.typeUrl, c.local, es, Pushed(nonce, Label(p, c.built[|c.built| - 1].version)));
    case _ => PushConcludes(p.typeUrl, c.local, es, TimedOut);
  }

  lemma StreamMirrors<R>(p: Params<R>, s: State<R>, i: nat, a: StreamStep<R>, es: seq<Event>)
    requires CanStream(s, i, a) && Mirrors(p, s.streams[i], es)
    ensures Mirrors(p, ConnAfter(p, s, i, a), Acts(p, s.streams[i], a, es))
  {
    if a.Ask? || a.Clock? || a.Leave? || a.Hangup? {
      InputMirrors(p, s, i, a, es);
    } else {
      PushMirrors(p, s, i, a, es);
    }
  }

  /** A stream that is sent an update pushes if it is running and the update is relevant; to
      one that has returned it makes no difference. */
  lemma UpdateMirrors<R>(p: Params<R>, s: State<R>, i: nat, names: set<string>, es: seq<Event>)
    requires i < |s.streams| && Receptive(s.streams[i]) && Mirrors(p, s.streams[i], es)
    ensures Mirrors(p, Receive(s, i, names).streams[i], es + [GotUpdate(names, BuildFailed)])
  {
    var e := GotUpdate(names, BuildFailed);
    RunOneMore(p.typeUrl, es, e);
    assert (es + [e])[..|es|] == es;
  }

  /** The stream is where it was, as far as its loop goes. */
  predicate SameLoop<R>(c: Conn<R>, d: Conn<R>) {
    d.local == c.local && d.phase == c.phase && |d.built| == |c.built|
  }

  lemma SendMirrors<R>(p: Params<R>, s: State<R>, m: nat, a: NotifyStep, i: nat, es: seq<Event>)
    requires CanTell(s, m, a) && i < |s.streams| && Mirrors(p, s.streams[i], es)
    requires a == TrySend(i) || a == WaitSend(i)
    ensures |Told(s, m, a).streams| == |s.streams|
    ensures Mirrors(p, Told(s, m, a).streams[i], es + [GotUpdate(Passed(s.muts[m].phase), BuildFailed)])
  {
    var t := SetMut(s, m, PhaseAfter(s.muts[m].phase, s.sessions, a));
    assert t.streams == s.streams;
    UpdateMirrors(p, t, i, Passed(s.muts[m].phase), es);
  }

  lemma OthersUntold<R>(s: State<R>, m: nat, a: NotifyStep, i: nat)
    requires CanTell(s, m, a) && i < |s.streams| && a != TrySend(i) && a != WaitSend(i)
    ensures |Told(s, m, a).streams| == |s.streams| && SameLoop(s.streams[i], Told(s, m, a).streams[i])
  {
  }

  lemma TellMirrors<R>(p: Params<R>, s: State<R>, m: nat, a: NotifyStep, i: nat, es: seq<Event>)
    requires CanTell(s, m, a) && i < |s.streams| && Mirrors(p, s.streams[i], es)
    ensures |Told(s, m, a).streams| == |s.streams| && Mirrors(p, Told(s, m, a).streams[i], Adds(p, s, Tell(m, a), i, es))
  {
    if a == TrySend(i) || a == WaitSend(i) {
      SendMirrors(p, s, m, a, i, es);
    } else {
      OthersUntold(s, m, a, i);
      assert Adds(p, s, Tell(m, a), i, es) == es;
    }
  }

  lemma OthersUnmoved<R>(p: Params<R>, s: State<R>, step: Step<R>, i: nat)
    requires Enabled(s, step) && i < |s.streams| && !step.Tell? && !(step.Stream? && step.i == i)
    ensures i < |Apply(p, s, step).streams| && SameLoop(s.streams[i], Apply(p, s, step).streams[i])
  {
    if step.Mutate? {
      MutationFrame(p, s, step.m, step.mutation);
    }
  }

  lemma StepMirrors<R>(p: Params<R>, s: State<R>, step: Step<R>, i: nat, es: seq<Event>)
    requires Enabled(s, step) && i < |s.streams| && Mirrors(p, s.streams[i], es)
    ensures i < |Apply(p, s, step).streams| && Mirrors(p, Apply(p, s, step).streams[i], Adds(p, s, step, i, es))
  {
    if step.Tell? {
      TellMirrors(p, s, step.m, step.telling, i, es);
    } else if step.Stream? && step.i == i {
      StreamMirrors(p, s, i, step.streaming, es);
    } else {
      OthersUnmoved(p, s, step, i);
      assert Adds(p, s, step, i, es) == es;
    }
  }

  /** A stream that is still to come has no events. */
  ghost predicate MirrorsAt<R>(p: Params<R>, s: State<R>, i: nat, es: seq<Event>) {
    if i < |s.streams| then Mirrors(p, s.streams[i], es) else es == []
  }

  lemma NewcomerMirrors<R>(p: Params<R>, s: State<R>, step: Step<R>, i: nat)
    requires Enabled(s, step) && i >= |s.streams|
    ensures MirrorsAt(p, Apply(p, s, step), i, [])
  {
    var t := Apply(p, s, step);
    if step.Mutate? {
      MutationFrame(p, s, step.m, step.mutation);
    } else if step.Tell? {
      TellingFrame(s, step.m, step.telling);
    } else if step.Join? && i == |s.streams| {
      assert t.streams[i].local == FRESH == Run(p.typeUrl, FRESH, []);
    }
  }

  lemma StepMirrorsAt<R>(p: Params<R>, s: State<R>, step: Step<R>, i: nat, es: seq<Event>)
    requires Enabled(s, step) && MirrorsAt(p, s, i, es)
    ensures MirrorsAt(p, Apply(p, s, step), i, if i < |s.streams| then Adds(p, s, step, i, es) else es)
  {
    if i < |s.streams| {
      StepMirrors(p, s, step, i, es);
    } else {
      NewcomerMirrors(p, s, step, i);
    }
  }

  lemma {:induction false} RunMirrors<R>(
    p: Params<R>, s: State<R>, steps: seq<Step<R>>, t: State<R>, i: nat, es: seq<Event>)
    requires Runs(p, s, steps, t) && MirrorsAt(p, s, i, es)
    ensures MirrorsAt(p, t, i, EventsOf(p, s, steps, i, es))
    decreases |steps|
  {
    if steps != [] {
      StepMirrorsAt(p, s, steps[0], i, es);
      RunMirrors(p, Apply(p, s, steps[0]), steps[1..], t, i, if i < |s.streams| then Adds(p, s, steps[0], i, es) else es);
    }
  }

  /** Over every run a stream's state is what the loop makes of the stream's events, up to a
      push that is still under way; and the stream has left its loop exactly if the loop has
      ended. */
  lemma StreamsAreLoops<R>(p: Params<R>, steps: seq<Step<R>>, s: State<R>, i: nat) returns (es: seq<Event>)
    requires Runs(p, Initial(), steps, s) && i < |s.streams|
    ensures es == EventsOf(p, Initial(), steps, i, []) && Mirrors(p, s.streams[i], es)
    ensures var c := s.streams[i];
      && (c.phase.Exiting? || c.phase.Closed? <==> c.local.status.Ended?)
      && (if c.phase.Building? || c.phase.Sending?
          then forall push :: Run(p.typeUrl, FRESH, Concluded(es, push)) == Push(c.local, push)
          else c.local == Run(p.typeUrl, FRESH, es))
  {
    es := EventsOf(p, Initial(), steps, i, []);
    RunMirrors(p, Initial(), steps, s, i, []);
    var c := s.streams[i];
    if c.phase.Building? || c.phase.Sending? {
      forall push ensures Run(p.typeUrl, FRESH, Concluded(es, push)) == Push(c.local, push) {
        PushConcludes(p.typeUrl, c.local, es, push);
      }
      PushConcludes(p.typeUrl, c.local, es, BuildFailed);
    }
  }

  /* ---- Leaving ---- */

  predicate Left<R>(c: Conn<R>) {
    c.phase.Exiting? || c.phase.Closed?
  }

  lemma StepKeepsLeft<R>(p: Params<R>, s: State<R>, step: Step<R>, i: nat)
    requires Enabled(s, step) && i < |s.streams| && Left(s.streams[i])
    ensures i < |Apply(p, s, step).streams| && Left(Apply(p, s, step).streams[i])
  {
    if step.Tell? {
      TellingFrame(s, step.m, step.telling);
    } else if !(step.Stream? && step.i == i) {
      OthersUnmoved(p, s, step, i);
    }
  }

  lemma {:induction false} WhoLeftIsGone<R>(p: Params<R>, s: State<R>, steps: seq<Step<R>>, t: State<R>, i: nat)
    requires Runs(p, s, steps, t) && i < |s.streams| && Left(s.streams[i])
    ensures i < |t.streams| && Left(t.streams[i])
    decreases |steps|
  {
    if steps != [] {
      StepKeepsLeft(p, s, steps[0], i);
      WhoLeftIsGone(p, Apply(p, s, steps[0]), steps[1..], t, i);
    }
  }

  /** A stream that knows its client and is asked for anything but what was asked for before
      leaves its loop at once, and whatever happens then it is never in it again. */
  lemma ResubscribedStreamLeaves<R(!new)>(
    p: Params<R>, before: seq<Step<R>>, s: State<R>, i: nat, req: Request, after: seq<Step<R>>, t: State<R>)
    requires Runs(p, Initial(), before, s) && Enabled(s, Stream(i, Ask(req)))
    requires s.streams[i].local.node != "" && req.names != s.streams[i].local.subscription
    requires Runs(p, Apply(p, s, Stream(i, Ask(req))), after, t)
    ensures i < |t.streams| && Left(t.streams[i])
    ensures Apply(p, s, Stream(i, Ask(req))).streams[i].local.status == Ended(SubscriptionChanged)
  {
    var es := StreamsAreLoops(p, before, s, i);
    var e := GotRequest(req, BuildFailed);
    StreamMirrors(p, s, i, Ask(req), es);
    RunOneMore(p.typeUrl, es, e);
    StepEnds(p.typeUrl, Run(p.typeUrl, FRESH, es), e, SubscriptionChanged);
    WhoLeftIsGone(p, Apply(p, s, Stream(i, Ask(req))), after, t, i);
  }

  /** What holds for the loop holds for every stream: with distinct nonces, its ledger balances
      whenever no push is under way. */
  lemma StreamsKeepTheirLedger<R>(p: Params<R>, steps: seq<Step<R>>, s: State<R>, i: nat)
    requires Runs(p, Initial(), steps, s) && i < |s.streams|
    requires FreshNonces(p.typeUrl, FRESH, EventsOf(p, Initial(), steps, i, []))
    requires !s.streams[i].phase.Building? && !s.streams[i].phase.Sending?
    ensures Ledger(s.streams[i].local)
  {
    var es := StreamsAreLoops(p, steps, s, i);
    LedgerFromTheStart(p.typeUrl, es);
  }

  /* ---- What clients are handed ---- */

  /** Every response that the loop counts as sent was built by the manager, in this order, and
      carries the version it had then. */
  ghost predicate HandsOn<R>(p: Params<R>, c: Conn<R>) {
    && |c.local.sent| == |c.delivered|
    && forall k :: 0 <= k < |c.delivered| ==>
         && c.local.sent[k].version == p.prefix + Text.Itoa(c.delivered[k].version)
         && c.delivered[k] in c.built
  }

  ghost predicate AllHandOn<R>(p: Params<R>, s: State<R>) {
    forall i: nat :: i < |s.streams| ==> HandsOn(p, s.streams[i])
  }

  lemma StreamHandsOn<R>(p: Params<R>, s: State<R>, i: nat, a: StreamStep<R>)
    requires CanStream(s, i, a) && HandsOn(p, s.streams[i])
    ensures HandsOn(p, ConnAfter(p, s, i, a))
  {
    var c, d := s.streams[i], ConnAfter(p, s, i, a);
    if a.PushOk? {
      assert d.built == c.built;
    } else {
      assert d.local.sent == c.local.sent && d.delivered == c.delivered;
    }
  }

  lemma StepHandsOn<R>(p: Params<R>, s: State<R>, step: Step<R>)
    requires Enabled(s, step) && AllHandOn(p, s)
    ensures AllHandOn(p, Apply(p, s, step))
  {
    var t := Apply(p, s, step);
    match step
    case Tell(m, a) => forall i: nat | i < |t.streams| ensures HandsOn(p, t.streams[i]) { TellingStream(s, m, a, i); }
    case Stream(i, a) => StreamHandsOn(p, s, i, a);
    case Mutate(m, a) => MutationFrame(p, s, m, a);
    case Start(_) | Join =>
  }

  lemma {:induction false} RunHandsOn<R>(p: Params<R>, s: State<R>, steps: seq<Step<R>>, t: State<R>)
    requires Runs(p, s, steps, t) && AllHandOn(p, s)
    ensures AllHandOn(p, t)
    decreases |steps|
  {
    if steps != [] {
      StepHandsOn(p, s, steps[0]);
      RunHandsOn(p, Apply(p, s, steps[0]), steps[1..], t);
    }
  }

  lemma VersionsAreHandedOn<R(!new)>(p: Params<R>, s: State<R>, i: nat)
    requires Reachable(p, s) && i < |s.streams|
    ensures HandsOn(p, s.streams[i])
  {
    var steps :| Runs(p, Initial(), steps, s);
    RunHandsOn(p, Initial(), steps, s);
  }

  /* ---- Responses are moments of the run ---- */

  lemma StepKeepsBuilt<R>(p: Params<R>, s: State<R>, step: Step<R>, i: nat)
    requires Enabled(s, step) && i < |s.streams|
    ensures i < |Apply(p, s, step).streams| && s.streams[i].built <= Apply(p, s, step).streams[i].built
    ensures Apply(p, s, step).streams[i].built == s.streams[i].built || BuildsAt(p, s, step, i)
  {
    if step.Tell? {
      TellingFrame(s, step.m, step.telling);
    } else if step.Mutate? {
      MutationFrame(p, s, step.m, step.mutation);
    }
  }

  lemma {:induction false} RunKeepsBuilt<R>(p: Params<R>, s: State<R>, steps: seq<Step<R>>, t: State<R>, i: nat)
    requires Runs(p, s, steps, t) && i < |s.streams|
    ensures i < |t.streams| && s.streams[i].built <= t.streams[i].built
    decreases |steps|
  {
    if steps != [] {
      StepKeepsBuilt(p, s, steps[0], i);
      RunKeepsBuilt(p, Apply(p, s, steps[0]), steps[1..], t, i);
    }
  }

  /** The step builds a response for the stream. */
  ghost predicate BuildsAt<R>(p: Params<R>, s: State<R>, step: Step<R>, i: nat) {
    step.Stream? && step.i == i && step.streaming.Build? && Buildable(p.kind, step.streaming.entries)
  }

  /** The response tells what the map and the version were in this state, as far as the stream
      then wanted to know. */
  ghost predicate TellsOf<R>(s: State<R>, i: nat, b: Built<R>) {
    && i < |s.streams| && b.version == s.version && b.at == |s.writes|
    && b.want == s.streams[i].local.subscription && IsSnapshot(s.resources, b.want, b.entries)
  }

  lemma NewcomerHasBuiltNothing<R>(p: Params<R>, s: State<R>, step: Step<R>, i: nat)
    requires Enabled(s, step) && i >= |s.streams| && i < |Apply(p, s, step).streams|
    ensures Apply(p, s, step).streams[i].built == []
  {
    if step.Tell? {
      TellingFrame(s, step.m, step.telling);
    } else if step.Mutate? {
      MutationFrame(p, s, step.m, step.mutation);
    }
  }

  lemma FirstStepBuilds<R>(p: Params<R>, s: State<R>, step: Step<R>, i: nat, j: nat)
    requires Enabled(s, step) && i < |Apply(p, s, step).streams| && j < |Apply(p, s, step).streams[i].built|
    requires i < |s.streams| ==> j >= |s.streams[i].built|
    ensures BuildsAt(p, s, step, i) && TellsOf(s, i, Apply(p, s, step).streams[i].built[j])
    ensures i < |s.streams| && j == |s.streams[i].built|
  {
    if i >= |s.streams| {
      NewcomerHasBuiltNothing(p, s, step, i);
    } else {
      StepKeepsBuilt(p, s, step, i);
    }
  }

  /** Every response of a run was built in one of the states the run went through, and tells
      version and contents of that one state. */
  lemma {:induction false} ResponsesAreMoments<R>(
    p: Params<R>, s: State<R>, steps: seq<Step<R>>, t: State<R>, i: nat, j: nat) returns (k: nat, u: State<R>)
    requires Runs(p, s, steps, t) && i < |t.streams| && j < |t.streams[i].built|
    requires i < |s.streams| ==> j >= |s.streams[i].built|
    ensures k < |steps| && Runs(p, s, steps[..k], u)
    ensures BuildsAt(p, u, steps[k], i) && TellsOf(u, i, t.streams[i].built[j]) && j == |u.streams[i].built|
    decreases |steps|
  {
    var v := Apply(p, s, steps[0]);
    if i < |v.streams| && j < |v.streams[i].built| {
      FirstStepBuilds(p, s, steps[0], i, j);
      RunKeepsBuilt(p, v, steps[1..], t, i);
      k, u := 0, s;
    } else {
      var k', u' := ResponsesAreMoments(p, v, steps[1..], t, i, j);
      k, u := k' + 1, u';
      assert steps[..k][1..] == steps[1..][..k'];
    }
  }
}
