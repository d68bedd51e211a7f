/** What a stream tells others over a whole run: whom OnAck hears from, which transactions
    are open, and what a stream ends for. */
module StreamReports {
  import opened StreamCore
  import opened StreamLedger

  /* ---- Node and subscription ---- */

  /** The first node id that is not empty among the requests, if any. */
  function FirstNode(es: seq<Event>): string {
    if es == [] then "" else
    var before := FirstNode(es[..|es| - 1]);
    if before == "" && es[|es| - 1].GotRequest? then es[|es| - 1].req.nodeId else before
  }

  /** What the last request up to that one asked for; nothing in particular, before any. */
  function LastWish(es: seq<Event>): seq<string> {
    if es == [] then [] else
    if FirstNode(es[..|es| - 1]) == "" && es[|es| - 1].GotRequest? then es[|es| - 1].req.names
    else LastWish(es[..|es| - 1])
  }

  /** While it runs, a stream's node is the first that was named, and its subscription what was
      asked for until then. */
  lemma {:induction false} KnowsItsClient(typeUrl: string, es: seq<Event>)
    requires Run(typeUrl, FRESH, es).status.Running?
    ensures Run(typeUrl, FRESH, es).node == FirstNode(es) && Run(typeUrl, FRESH, es).subscription == LastWish(es)
  {
    if es != [] {
      var init, e := es[..|es| - 1], es[|es| - 1];
      KnowsItsClient(typeUrl, init);
      SubscribesOnce(typeUrl, Run(typeUrl, FRESH, init), e);
    }
  }

  /* ---- What OnAck is told ---- */

  /** The stream accepts the request and knows its nonce: the client says who it is now or
      asks for what it asked for before, of the right type. */
  predicate Acknowledges(typeUrl: string, st: StreamState, req: Request) {
    && st.status.Running? && (st.node == "" || req.names == st.subscription)
    && req.typeUrl == typeUrl && req.nonce in st.txs
  }

  ghost predicate AcknowledgesAt(typeUrl: string, es: seq<Event>, k: int) {
    0 <= k < |es| && es[k].GotRequest? && Acknowledges(typeUrl, Run(typeUrl, FRESH, es[..k]), es[k].req)
  }

  /** OnAck hears of the transaction with the request's nonce: accepted unless the request
      carries an error, with the version the client has in use, from the node that was named
      first. */
  predicate Tells(s: Settled, es: seq<Event>, k: nat)
    requires k < |es| && es[k].GotRequest?
  {
    var req := es[k].req;
    && s.tx.nonce == req.nonce && (s.ack.accepted <==> !req.rejected)
    && s.ack.version == req.version && s.ack.node == FirstNode(es[..k + 1])
  }

  lemma StepSettles(typeUrl: string, st: StreamState, e: Event)
    ensures Step(typeUrl, st, e).settled == st.settled +
      if e.GotRequest? && Acknowledges(typeUrl, st, e.req)
      then [Settled(st.txs[e.req.nonce],
              Ack(if st.node == "" then e.req.nodeId else st.node, e.req.version, !e.req.rejected))]
      else []
  {
    if st.status.Running? && e.GotRequest? {
      assert Admit(st, e.req).txs == st.txs && Admit(st, e.req).settled == st.settled;
    }
  }

  predicate ByNonce(txs: map<string, Tx>) {
    forall k :: k in txs ==> txs[k].nonce == k
  }

  lemma {:induction false} FiledByNonce(typeUrl: string, es: seq<Event>)
    ensures ByNonce(Run(typeUrl, FRESH, es).txs)
  {
    if es != [] {
      FiledByNonce(typeUrl, es[..|es| - 1]);
      StepFilesByNonce(typeUrl, Run(typeUrl, FRESH, es[..|es| - 1]), es[|es| - 1]);
    }
  }

  lemma StepFilesByNonce(typeUrl: string, st: StreamState, e: Event)
    requires ByNonce(st.txs)
    ensures ByNonce(Step(typeUrl, st, e).txs)
  {
  }

  lemma LastTells(typeUrl: string, es: seq<Event>)
    requires es != [] && AcknowledgesAt(typeUrl, es, |es| - 1)
    ensures var init := Run(typeUrl, FRESH, es[..|es| - 1]).settled;
      exists s :: Run(typeUrl, FRESH, es).settled == init + [s] && Tells(s, es, |es| - 1)
  {
    var n := |es| - 1;
    var st, req := Run(typeUrl, FRESH, es[..n]), es[n].req;
    KnowsItsClient(typeUrl, es[..n]);
    FiledByNonce(typeUrl, es[..n]);
    StepSettles(typeUrl, st, es[n]);
    assert es[..n + 1] == es;
    var s := Settled(st.txs[req.nonce], Ack(if st.node == "" then req.nodeId else st.node, req.version, !req.rejected));
    assert Tells(s, es, n);
  }

  /** These are the requests that OnAck was called for. */
  ghost predicate Hears(typeUrl: string, es: seq<Event>, settled: seq<Settled>, at: seq<nat>) {
    && |at| == |settled|
    && (forall i :: 0 <= i < |at| ==> AcknowledgesAt(typeUrl, es, at[i]) && Tells(settled[i], es, at[i]))
    && (forall i, j :: 0 <= i < j < |at| ==> at[i] < at[j])
    && (forall k :: AcknowledgesAt(typeUrl, es, k) ==> k in at)
  }

  lemma SameBefore(typeUrl: string, es: seq<Event>, k: nat)
    requires k < |es| - 1
    ensures AcknowledgesAt(typeUrl, es, k) == AcknowledgesAt(typeUrl, es[..|es| - 1], k)
    ensures es[..k + 1] == es[..|es| - 1][..k + 1]
  {
    assert es[..|es| - 1][..k] == es[..k];
  }

  lemma HearsOn(typeUrl: string, es: seq<Event>, settled: seq<Settled>, at: seq<nat>)
    requires es != [] && Hears(typeUrl, es[..|es| - 1], settled, at) && !AcknowledgesAt(typeUrl, es, |es| - 1)
    ensures Hears(typeUrl, es, settled, at)
  {
    forall i | 0 <= i < |at| ensures AcknowledgesAt(typeUrl, es, at[i]) && Tells(settled[i], es, at[i]) {
      SameBefore(typeUrl, es, at[i]);
    }
    forall k | AcknowledgesAt(typeUrl, es, k) ensures k in at {
      SameBefore(typeUrl, es, k);
    }
  }

  lemma HearsOneMore(typeUrl: string, es: seq<Event>, settled: seq<Settled>, at: seq<nat>, s: Settled)
    requires es != [] && Hears(typeUrl, es[..|es| - 1], settled, at)
    requires AcknowledgesAt(typeUrl, es, |es| - 1) && Tells(s, es, |es| - 1)
    ensures Hears(typeUrl, es, settled + [s], at + [|es| - 1])
  {
    forall i | 0 <= i < |at| ensures AcknowledgesAt(typeUrl, es, at[i]) && Tells(settled[i], es, at[i]) {
      SameBefore(typeUrl, es, at[i]);
    }
    forall k | AcknowledgesAt(typeUrl, es, k) ensures k in at + [|es| - 1] {
      if k < |es| - 1 {
        SameBefore(typeUrl, es, k);
      }
    }
  }

  /** OnAck is called for exactly the accepted requests with a nonce that is open, once each
      and in order, and told what each of them says. */
  lemma {:induction false} OnAckIsTold(typeUrl: string, es: seq<Event>) returns (at: seq<nat>)
    ensures Hears(typeUrl, es, Run(typeUrl, FRESH, es).settled, at)
  {
    if es == [] {
      at := [];
    } else {
      var n := |es| - 1;
      var settled := Run(typeUrl, FRESH, es[..n]).settled;
      at := OnAckIsTold(typeUrl, es[..n]);
      if AcknowledgesAt(typeUrl, es, n) {
        LastTells(typeUrl, es);
        var s :| Run(typeUrl, FRESH, es).settled == settled + [s] && Tells(s, es, n);
        HearsOneMore(typeUrl, es, settled, at, s);
        at := at + [n];
      } else {
        StepSettles(typeUrl, Run(typeUrl, FRESH, es[..n]), es[n]);
        assert Run(typeUrl, FRESH, es).settled == settled;
        HearsOn(typeUrl, es, settled, at);
      }
    }
  }

  /* ---- Open transactions ---- */

  /** An accepted request that acknowledges nothing open, or an update to something that the
      client asked for; whoever asked for nothing in particular asked for everything. */
  predicate Prompts(typeUrl: string, st: StreamState, e: Event) {
    && st.status.Running?
    && match e
       case GotRequest(req, _) =>
         (st.node == "" || req.names == st.subscription) && req.typeUrl == typeUrl && req.nonce !in st.txs
       case GotUpdate(names, _) => st.subscription == [] || exists n :: n in st.subscription && n in names
       case _ => false
  }

  lemma PromptsPush(typeUrl: string, st: StreamState, e: Event)
    ensures Pushes(typeUrl, st, e) == Prompts(typeUrl, st, e)
  {
  }

  /** The event makes the stream hand out a response with this nonce and version. */
  predicate Opens(typeUrl: string, st: StreamState, e: Event, nonce: string, version: string) {
    Prompts(typeUrl, st, e) && Outcome(e) == Pushed(nonce, version)
  }

  /** It accounts for the response: by acknowledging it, or because it is too old. */
  predicate Closes(typeUrl: string, st: StreamState, e: Event, nonce: string) {
    && st.status.Running?
    && match e
       case GotRequest(req, _) => Acknowledges(typeUrl, st, req) && req.nonce == nonce
       case Tick(expired) => nonce in expired
       case _ => false
  }

  ghost predicate OpensAt(typeUrl: string, es: seq<Event>, k: int, nonce: string, version: string) {
    0 <= k < |es| && Opens(typeUrl, Run(typeUrl, FRESH, es[..k]), es[k], nonce, version)
  }

  ghost predicate ClosesAt(typeUrl: string, es: seq<Event>, k: int, nonce: string) {
    0 <= k < |es| && Closes(typeUrl, Run(typeUrl, FRESH, es[..k]), es[k], nonce)
  }

  /** Handed out at k under this version, and neither accounted for nor handed out again. */
  ghost predicate OpenSince(typeUrl: string, es: seq<Event>, k: int, nonce: string, version: string) {
    && OpensAt(typeUrl, es, k, nonce, version)
    && forall l :: k < l < |es| ==> !ClosesAt(typeUrl, es, l, nonce) && !OpensAgain(typeUrl, es, l, nonce)
  }

  ghost predicate OpensAgain(typeUrl: string, es: seq<Event>, k: int, nonce: string) {
    exists version :: OpensAt(typeUrl, es, k, nonce, version)
  }

  predicate OpensSome(typeUrl: string, st: StreamState, e: Event, nonce: string) {
    Prompts(typeUrl, st, e) && Outcome(e).Pushed? && Outcome(e).nonce == nonce
  }

  lemma StepOpens(typeUrl: string, st: StreamState, e: Event, nonce: string)
    requires ByNonce(st.txs)
    ensures var txs := Step(typeUrl, st, e).txs;
      if OpensSome(typeUrl, st, e, nonce) then nonce in txs && txs[nonce].version == Outcome(e).version
      else if Closes(typeUrl, st, e, nonce) then nonce !in txs
      else (nonce in txs <==> nonce in st.txs) && (nonce in txs ==> txs[nonce] == st.txs[nonce])
  {
    PromptsPush(typeUrl, st, e);
    if st.status.Running? && e.GotRequest? {
      assert Admit(st, e.req).txs == st.txs;
    }
  }

  lemma AgainIffSome(typeUrl: string, es: seq<Event>, nonce: string)
    requires es != []
    ensures OpensAgain(typeUrl, es, |es| - 1, nonce) <==>
      OpensSome(typeUrl, Run(typeUrl, FRESH, es[..|es| - 1]), es[|es| - 1], nonce)
  {
    var st, e := Run(typeUrl, FRESH, es[..|es| - 1]), es[|es| - 1];
    if OpensSome(typeUrl, st, e, nonce) {
      assert OpensAt(typeUrl, es, |es| - 1, nonce, Outcome(e).version);
    }
  }

  /** A response is open exactly if it was handed out and has not been accounted for since. */
  lemma {:induction false} OpenIff(typeUrl: string, es: seq<Event>, nonce: string, version: string)
    ensures var txs := Run(typeUrl, FRESH, es).txs;
      nonce in txs && txs[nonce].version == version <==> exists k :: OpenSince(typeUrl, es, k, nonce, version)
  {
    if es != [] {
      OpenIff(typeUrl, es[..|es| - 1], nonce, version);
      OpenOneMore(typeUrl, es, nonce, version);
      OpenSinceLast(typeUrl, es, nonce, version);
    }
  }

  lemma OpenOneMore(typeUrl: string, es: seq<Event>, nonce: string, version: string)
    requires es != []
    ensures var n := |es| - 1; var before, after := Run(typeUrl, FRESH, es[..n]).txs, Run(typeUrl, FRESH, es).txs;
      nonce in after && after[nonce].version == version <==>
        OpensAt(typeUrl, es, n, nonce, version)
        || (!ClosesAt(typeUrl, es, n, nonce) && !OpensAgain(typeUrl, es, n, nonce)
            && nonce in before && before[nonce].version == version)
  {
    FiledByNonce(typeUrl, es[..|es| - 1]);
    StepOpens(typeUrl, Run(typeUrl, FRESH, es[..|es| - 1]), es[|es| - 1], nonce);
    AgainIffSome(typeUrl, es, nonce);
  }

  lemma SameUntilLast(typeUrl: string, es: seq<Event>, k: nat, nonce: string)
    requires k < |es| - 1
    ensures forall v :: OpensAt(typeUrl, es, k, nonce, v) == OpensAt(typeUrl, es[..|es| - 1], k, nonce, v)
    ensures ClosesAt(typeUrl, es, k, nonce) == ClosesAt(typeUrl, es[..|es| - 1], k, nonce)
    ensures OpensAgain(typeUrl, es, k, nonce) == OpensAgain(typeUrl, es[..|es| - 1], k, nonce)
  {
    var init := es[..|es| - 1];
    assert init[..k] == es[..k];
    forall v ensures OpensAt(typeUrl, es, k, nonce, v) == OpensAt(typeUrl, init, k, nonce, v) {}
    if OpensAgain(typeUrl, es, k, nonce) {
      var v :| OpensAt(typeUrl, es, k, nonce, v);
      assert OpensAt(typeUrl, init, k, nonce, v);
    }
  }

  lemma StaysOpen(typeUrl: string, es: seq<Event>, k: nat, nonce: string, version: string)
    requires k < |es| - 1
    ensures OpenSince(typeUrl, es, k, nonce, version) <==>
      && OpenSince(typeUrl, es[..|es| - 1], k, nonce, version)
      && !ClosesAt(typeUrl, es, |es| - 1, nonce) && !OpensAgain(typeUrl, es, |es| - 1, nonce)
  {
    var init := es[..|es| - 1];
    SameUntilLast(typeUrl, es, k, nonce);
    forall l | k < l < |init|
      ensures ClosesAt(typeUrl, es, l, nonce) == ClosesAt(typeUrl, init, l, nonce)
      ensures OpensAgain(typeUrl, es, l, nonce) == OpensAgain(typeUrl, init, l, nonce)
    {
      SameUntilLast(typeUrl, es, l, nonce);
    }
  }

  lemma OpenSinceLast(typeUrl: string, es: seq<Event>, nonce: string, version: string)
    requires es != []
    ensures var n := |es| - 1;
      (exists k :: OpenSince(typeUrl, es, k, nonce, version)) <==>
        OpensAt(typeUrl, es, n, nonce, version)
        || (!ClosesAt(typeUrl, es, n, nonce) && !OpensAgain(typeUrl, es, n, nonce)
            && exists k :: OpenSince(typeUrl, es[..n], k, nonce, version))
  {
    var n := |es| - 1;
    if OpensAt(typeUrl, es, n, nonce, version) {
      assert OpenSince(typeUrl, es, n, nonce, version);
    }
    if k :| OpenSince(typeUrl, es, k, nonce, version) && k != n {
      StaysOpen(typeUrl, es, k, nonce, version);
    }
    if k :| OpenSince(typeUrl, es[..n], k, nonce, version) {
      StaysOpen(typeUrl, es, k, nonce, version);
    }
  }

  /* ---- What a stream ends for ---- */

  predicate PushEnds(push: PushResult, why: Exit) {
    (push.TimedOut? && why == PushTimedOut) || (push.BuildFailed? && why == ResponseNotBuilt)
  }

  /** Another subscription comes before another type, and both before a push that fails. */
  predicate EndsFor(typeUrl: string, st: StreamState, e: Event, why: Exit) {
    && st.status.Running?
    && match e
       case GotRequest(req, push) =>
         if st.node != "" && req.names != st.subscription then why == SubscriptionChanged
         else if req.typeUrl != typeUrl then why == WrongType
         else req.nonce !in st.txs && PushEnds(push, why)
       case GotUpdate(names, push) =>
         (st.subscription == [] || exists n :: n in st.subscription && n in names) && PushEnds(push, why)
       case Tick(_) => false
       case Stop(reason) => why == reason
  }

  lemma PushEndsIt(st: StreamState, push: PushResult, why: Exit)
    requires st.status.Running?
    ensures Push(st, push).status == Ended(why) <==> PushEnds(push, why)
  {
  }

  lemma RequestEnds(typeUrl: string, st: StreamState, req: Request, push: PushResult, why: Exit)
    requires st.status.Running?
    ensures Step(typeUrl, st, GotRequest(req, push)).status == Ended(why) <==> EndsFor(typeUrl, st, GotRequest(req, push), why)
  {
    var st' := Admit(st, req);
    assert st'.txs == st.txs && st'.status == st.status;
    PushEndsIt(st', push, why);
  }

  lemma StepEnds(typeUrl: string, st: StreamState, e: Event, why: Exit)
    requires st.status.Running?
    ensures Step(typeUrl, st, e).status == Ended(why) <==> EndsFor(typeUrl, st, e, why)
  {
    match e
    case GotRequest(req, push) => RequestEnds(typeUrl, st, req, push, why);
    case GotUpdate(names, push) => PushEndsIt(st, push, why);
    case Tick(_) =>
    case Stop(_) =>
  }

  ghost predicate EndsAt(typeUrl: string, es: seq<Event>, k: int, why: Exit) {
    0 <= k < |es| && EndsFor(typeUrl, Run(typeUrl, FRESH, es[..k]), es[k], why)
  }

  lemma EndsBefore(typeUrl: string, es: seq<Event>, k: nat, why: Exit)
    requires k < |es| - 1
    ensures EndsAt(typeUrl, es, k, why) == EndsAt(typeUrl, es[..|es| - 1], k, why)
  {
    assert es[..|es| - 1][..k] == es[..k];
  }

  lemma EndsOneMore(typeUrl: string, es: seq<Event>, init: seq<Event>, why: Exit)
    requires es != [] && init == es[..|es| - 1]
    ensures (exists k :: EndsAt(typeUrl, es, k, why)) <==>
      EndsAt(typeUrl, es, |es| - 1, why) || exists k :: EndsAt(typeUrl, init, k, why)
  {
    if k :| EndsAt(typeUrl, es, k, why) && k < |es| - 1 {
      EndsBefore(typeUrl, es, k, why);
    }
    if k :| EndsAt(typeUrl, init, k, why) {
      EndsBefore(typeUrl, es, k, why);
    }
  }

  /** A stream has ended, and for this reason, exactly if some event gave it while the stream
      was running; no later event changes it. */
  lemma {:induction false} EndedIff(typeUrl: string, es: seq<Event>, why: Exit)
    ensures Run(typeUrl, FRESH, es).status == Ended(why) <==> exists k :: EndsAt(typeUrl, es, k, why)
  {
    if es != [] {
      var n := |es| - 1;
      var st := Run(typeUrl, FRESH, es[..n]);
      EndedIff(typeUrl, es[..n], why);
      EndsOneMore(typeUrl, es, es[..n], why);
      if st.status.Running? {
        StepEnds(typeUrl, st, es[n], why);
      }
    }
  }
}
