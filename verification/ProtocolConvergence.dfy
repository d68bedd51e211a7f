/** Convergence: a stream's last response is right about every name the stream wants,
    unless news about that name is still on its way, or was lost. */
module ProtocolConvergence {
  import opened Registry
  import opened StreamCore
  import opened Protocol
  import opened ProtocolHistory
  import opened ProtocolSafety

  /** The mutator has changed n and has still to tell the stream i. */
  predicate News<R>(ph: Phase<R>, i: nat, n: string) {
    match ph
    case Adding(_, changed) => n in changed
    case Bumping(changed) => n in changed
    case Locking(names) => n in names
    case Trying(names, pending, blocked) => n in names && i in pending + blocked
    case Waiting(names, blocked) => n in names && i in blocked
    case _ => false
  }

  ghost predicate OnItsWay<R>(muts: seq<Mutator<R>>, i: nat, n: string) {
    exists m :: 0 <= m < |muts| && News(muts[m].phase, i, n)
  }

  /** A stream that has not returned. */
  predicate InLoop<R>(c: Conn<R>) {
    c.phase.Idle? || c.phase.Building? || c.phase.Sending?
  }

  /** And no request has widened its subscription since its last response. */
  predicate Live<R>(c: Conn<R>) {
    InLoop(c) && !c.widened
  }

  /** And its client has said who it is, or has been answered without. */
  predicate Following<R>(c: Conn<R>) {
    Live(c) && (c.local.node != "" || c.built != [])
  }

  /** Whoever has given a node id has been answered, or is about to be; and whoever has an
      open transaction has been answered. */
  predicate Answered<R>(c: Conn<R>) {
    && (c.local.node != "" && (c.phase.Idle? || c.phase.Sending?) ==> c.built != [])
    && (c.local.txs != map[] ==> c.built != [])
  }

  predicate AllAnswered<R>(s: State<R>) {
    forall i: nat :: i < |s.streams| ==> Answered(s.streams[i])
  }

  lemma StreamAnswers<R>(p: Params<R>, s: State<R>, i: nat, a: StreamStep<R>)
    requires CanStream(s, i, a) && Answered(s.streams[i])
    ensures Answered(ConnAfter(p, s, i, a))
  {
    var c, d := s.streams[i], ConnAfter(p, s, i, a);
    if a.Ask? && c.local.txs == map[] {
      assert Judge(p.typeUrl, Admit(c.local, a.req), a.req).Settle? ==> a.req.nonce in c.local.txs;
    }
  }

  lemma StepKeepsAnswered<R>(p: Params<R>, s: State<R>, step: Step<R>)
    requires AllAnswered(s) && Enabled(s, step)
    ensures AllAnswered(Apply(p, s, step))
  {
    var t := Apply(p, s, step);
    match step
    case Mutate(m, a) => MutationFrame(p, s, m, a);
    case Tell(m, a) => forall i: nat | i < |t.streams| ensures Answered(t.streams[i]) { TellingStream(s, m, a, i); }
    case Stream(i, a) => StreamAnswers(p, s, i, a);
    case Start(_) | Join =>
  }

  /** It has built a response. */
  predicate Responded<R>(c: Conn<R>) {
    Live(c) && c.built != []
  }

  ghost predicate UpToDate<R>(m: map<string, R>, c: Conn<R>, n: string)
    requires c.built != []
  {
    Shows(c.built[|c.built| - 1].entries, m, n)
  }

  /** The last response is right about n, or n was lost, or the stream is about to answer
      an update that names n. */
  ghost predicate Settled<R>(m: map<string, R>, c: Conn<R>, n: string)
    requires c.built != []
  {
    UpToDate(m, c, n) || n in c.lost || (c.phase.Building? && n in c.phase.cause)
  }

  ghost predicate Follows<R>(s: State<R>, i: nat, n: string)
    requires i < |s.streams| && s.streams[i].built != []
  {
    Settled(s.resources, s.streams[i], n) || OnItsWay(s.muts, i, n)
  }

  ghost predicate Converging<R>(s: State<R>) {
    forall i: nat, n :: i < |s.streams| && Responded(s.streams[i]) && Wants(s.streams[i].local.subscription, n)
      ==> Follows(s, i, n)
  }

  lemma NewsStays<R>(s: State<R>, t: State<R>, m: nat, i: nat, n: string)
    requires m < |s.muts| <= |t.muts|
    requires forall k: nat :: k < |s.muts| && k != m ==> t.muts[k] == s.muts[k]
    requires OnItsWay(s.muts, i, n)
    requires News(s.muts[m].phase, i, n) ==> News(t.muts[m].phase, i, n)
    ensures OnItsWay(t.muts, i, n)
  {
    var k :| 0 <= k < |s.muts| && News(s.muts[k].phase, i, n);
    assert News(t.muts[k].phase, i, n);
  }

  /** Names whose entry a mutation step changes are news the mutator holds afterwards. */
  lemma MutationMakesNews<R>(p: Params<R>, s: State<R>, m: nat, a: MutateStep, i: nat, n: string)
    requires CanMutate(s, m, a)
    ensures var t := Mutated(p, s, m, a);
      !News(t.muts[m].phase, i, n) ==>
        && (n in s.resources <==> n in t.resources)
        && (n in s.resources ==> s.resources[n] == t.resources[n])
        && (News(s.muts[m].phase, i, n) && i < |t.streams| ==> n in t.streams[i].lost)
  {
    if a.ReplaceNow? {
      LastWins(p.kind, map[], s.muts[m].phase.rs);
    }
  }

  lemma MutationKeepsConverging<R>(p: Params<R>, s: State<R>, m: nat, a: MutateStep)
    requires Converging(s) && CanMutate(s, m, a)
    ensures Converging(Mutated(p, s, m, a))
  {
    var t := Mutated(p, s, m, a);
    forall i: nat, n | i < |t.streams| && Responded(t.streams[i]) && Wants(t.streams[i].local.subscription, n)
      ensures Follows(t, i, n)
    {
      MutationMakesNews(p, s, m, a, i, n);
      assert t.streams[i] == s.streams[i].(lost := t.streams[i].lost) && s.streams[i].lost <= t.streams[i].lost;
      if News(t.muts[m].phase, i, n) {
        assert OnItsWay(t.muts, i, n);
      } else {
        assert Follows(s, i, n);
        if OnItsWay(s.muts, i, n) && !News(s.muts[m].phase, i, n) {
          NewsStays(s, t, m, i, n);
        }
      }
    }
  }

  /** What a notify step does for one stream: the news stays, or it reaches the stream, or
      it is lost, or it is of no interest. */
  lemma TellingSettles<R>(s: State<R>, m: nat, a: NotifyStep, i: nat, n: string)
    requires Sessions(s) && CanTell(s, m, a) && i < |s.streams| && Responded(s.streams[i])
    requires News(s.muts[m].phase, i, n) && Wants(s.streams[i].local.subscription, n)
    ensures var t := Told(s, m, a);
      || News(t.muts[m].phase, i, n)
      || n in t.streams[i].lost
      || (t.streams[i].phase.Building? && n in t.streams[i].phase.cause)
  {
  }

  lemma TellingStream<R>(s: State<R>, m: nat, a: NotifyStep, i: nat)
    requires CanTell(s, m, a) && i < |s.streams|
    ensures var t := Told(s, m, a); var c, d := s.streams[i], t.streams[i];
      && |t.streams| == |s.streams| && t.resources == s.resources
      && d == c.(phase := d.phase, lost := d.lost) && c.lost <= d.lost
      && (d.phase == c.phase || (c.phase.Idle? && d.phase.Building?))
  {
  }

  lemma TellingKeepsConverging<R>(s: State<R>, m: nat, a: NotifyStep)
    requires Converging(s) && Sessions(s) && CanTell(s, m, a)
    ensures Converging(Told(s, m, a))
  {
    var t := Told(s, m, a);
    forall i: nat, n | i < |t.streams| && Responded(t.streams[i]) && Wants(t.streams[i].local.subscription, n)
      ensures Follows(t, i, n)
    {
      TellingStream(s, m, a, i);
      assert Follows(s, i, n);
      if OnItsWay(s.muts, i, n) {
        if News(s.muts[m].phase, i, n) {
          TellingSettles(s, m, a, i, n);
        } else {
          NewsStays(s, t, m, i, n);
        }
      }
    }
  }

  /** A request that does not widen the subscription leaves nothing new to want. */
  lemma RequestNarrows<R>(p: Params<R>, c: Conn<R>, req: Request, n: string)
    ensures var d := OnRequest(p, c, req);
      && d.built == c.built && d.lost == c.lost && (c.widened ==> d.widened)
      && (!d.widened && Wants(d.local.subscription, n) ==> Wants(c.local.subscription, n))
  {
  }

  /** Only a client widens its subscription that has asked for something by name and not said
      who it is: one that gives its node id with its first request never does. */
  lemma OnlyTheUnknownWiden<R>(p: Params<R>, c: Conn<R>, req: Request)
    requires OnRequest(p, c, req).widened && !c.widened
    ensures c.local.node == "" && c.local.subscription != [] && Widens(c.local.subscription, req.names)
  {
  }

  /** A stream step leaves the stream right about what it wants, if it was. */
  lemma StreamSettles<R>(p: Params<R>, s: State<R>, i: nat, a: StreamStep<R>, n: string)
    requires Converging(s) && CanStream(s, i, a)
    requires Responded(ConnAfter(p, s, i, a)) && Wants(ConnAfter(p, s, i, a).local.subscription, n)
    ensures Settled(s.resources, ConnAfter(p, s, i, a), n) || OnItsWay(s.muts, i, n)
  {
    var c, d := s.streams[i], ConnAfter(p, s, i, a);
    if a.Build? {
      SnapshotShows(s.resources, c.local.subscription, a.entries, n);
      assert d.built[|d.built| - 1].entries == a.entries;
    } else {
      if a.Ask? {
        RequestNarrows(p, c, a.req, n);
      }
      assert d.built == c.built && Wants(c.local.subscription, n);
      assert Responded(c);
      assert Follows(s, i, n);
    }
  }

  lemma StreamKeepsConverging<R>(p: Params<R>, s: State<R>, i: nat, a: StreamStep<R>)
    requires Converging(s) && CanStream(s, i, a)
    ensures Converging(Streamed(p, s, i, a))
  {
    var t := Streamed(p, s, i, a);
    forall k: nat, n | k < |t.streams| && Responded(t.streams[k]) && Wants(t.streams[k].local.subscription, n)
      ensures Follows(t, k, n)
    {
      if k == i {
        StreamSettles(p, s, i, a, n);
      } else {
        assert Follows(s, k, n);
      }
    }
  }

  lemma StepKeepsConverging<R>(p: Params<R>, s: State<R>, step: Step<R>)
    requires Converging(s) && Sessions(s) && Enabled(s, step)
    ensures Converging(Apply(p, s, step))
  {
    match step
    case Mutate(m, a) => MutationKeepsConverging(p, s, m, a);
    case Tell(m, a) => TellingKeepsConverging(s, m, a);
    case Stream(i, a) => StreamKeepsConverging(p, s, i, a);
    case Join =>
    case Start(call) =>
      var t := Started(s, call);
      forall i: nat, n | i < |t.streams| && Responded(t.streams[i]) && Wants(t.streams[i].local.subscription, n)
        ensures Follows(t, i, n)
      {
        assert Follows(s, i, n);
        if OnItsWay(s.muts, i, n) {
          var k :| 0 <= k < |s.muts| && News(s.muts[k].phase, i, n);
          assert News(t.muts[k].phase, i, n);
        }
      }
  }
}
