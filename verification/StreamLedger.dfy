/** What every run of one stream keeps. */
module StreamLedger {
  import opened StreamCore

  lemma PushKeepsBalance(st: StreamState, r: PushResult)
    requires Balanced(st)
    requires r.Pushed? ==> forall t :: t in st.sent ==> t.nonce != r.nonce
    ensures Balanced(Push(st, r))
  {
    var st' := Push(st, r);
    forall t ensures WasSettled(st', t) == WasSettled(st, t) && IsStale(st', t) == IsStale(st, t) {}
    if r.Pushed? {
      var tx := Tx(r.nonce, r.version, st.spans);
      assert r.nonce !in st.txs by {
        if r.nonce in st.txs { assert IsOpen(st, st.txs[r.nonce]); }
      }
      assert forall t :: IsOpen(st', t) <==> t == tx || IsOpen(st, t);
      assert !WasSettled(st, tx) && !IsStale(st, tx);
    } else {
      assert forall t :: IsOpen(st', t) <==> IsOpen(st, t);
    }
  }

  lemma SettleKeepsBalance(st: StreamState, req: Request)
    requires Balanced(st) && req.nonce in st.txs
    ensures Balanced(SettleTx(st, st.txs[req.nonce], req))
  {
    var tx := st.txs[req.nonce];
    var st' := SettleTx(st, tx, req);
    assert IsOpen(st, tx);
    assert st'.settled[..|st.settled|] == st.settled;
    forall t ensures WasSettled(st', t) <==> WasSettled(st, t) || t == tx {
      assert st'.settled[|st.settled|].tx == tx;
      if WasSettled(st, t) {
        var i :| 0 <= i < |st.settled| && st.settled[i].tx == t;
        assert st'.settled[i].tx == t;
      }
    }
    assert forall t :: IsOpen(st', t) <==> IsOpen(st, t) && t != tx;
    assert forall t :: IsStale(st', t) == IsStale(st, t);
    assert forall i :: 0 <= i < |st.settled| ==> st.settled[i].tx != tx by {
      forall i | 0 <= i < |st.settled| ensures st.settled[i].tx != tx {
        assert WasSettled(st, st.settled[i].tx);
      }
    }
  }

  lemma OpenNotStale(st: StreamState)
    requires Balanced(st)
    ensures forall k :: k in st.txs ==> k !in st.stale
  {
    forall k | k in st.txs ensures k !in st.stale {
      assert IsOpen(st, st.txs[k]);
      if k in st.stale {
        assert IsStale(st, st.stale[k]);
      }
    }
  }

  lemma SweepMoves(st: StreamState, expired: set<string>, t: Tx)
    requires forall k :: k in st.txs ==> k !in st.stale
    ensures var st' := Sweep(st, expired);
      && WasSettled(st', t) == WasSettled(st, t)
      && (IsOpen(st', t) <==> IsOpen(st, t) && t.nonce !in expired)
      && (IsStale(st', t) <==> IsStale(st, t) || (IsOpen(st, t) && t.nonce in expired))
  {
  }

  lemma SweepKeepsBalance(st: StreamState, expired: set<string>)
    requires Balanced(st)
    ensures Balanced(Sweep(st, expired))
  {
    var st' := Sweep(st, expired);
    OpenNotStale(st);
    SplitCount(st.txs, expired, st.stale);
    forall t
      ensures t in st'.sent <==> WasSettled(st', t) || IsStale(st', t) || IsOpen(st', t)
      ensures !(WasSettled(st', t) && IsStale(st', t)) && !(WasSettled(st', t) && IsOpen(st', t))
           && !(IsStale(st', t) && IsOpen(st', t))
    {
      SweepMoves(st, expired, t);
    }
  }

  lemma SplitCount(txs: map<string, Tx>, expired: set<string>, stale: map<string, Tx>)
    requires (map k | k in txs && k in expired :: txs[k]).Keys !! stale.Keys
    ensures |stale + map k | k in txs && k in expired :: txs[k]| + |txs - expired| == |stale| + |txs|
  {
    var dropped := map k | k in txs && k in expired :: txs[k];
    var kept := txs - expired;
    assert (stale + dropped).Keys == stale.Keys + dropped.Keys;
    assert |(stale + dropped).Keys| == |stale.Keys| + |dropped.Keys|;
    assert txs.Keys == kept.Keys + dropped.Keys && kept.Keys !! dropped.Keys;
    assert |txs.Keys| == |kept.Keys| + |dropped.Keys|;
  }

  lemma CloseKeepsBalance(st: StreamState, why: Exit)
    requires Balanced(st)
    ensures Balanced(Close(st, why))
  {
    var st' := Close(st, why);
    assert forall t :: WasSettled(st', t) == WasSettled(st, t) && IsStale(st', t) == IsStale(st, t)
                    && IsOpen(st', t) == IsOpen(st, t);
  }

  lemma AdmitKeepsLedger(st: StreamState, req: Request)
    requires Ledger(st)
    ensures Ledger(Admit(st, req))
  {
    var st' := Admit(st, req);
    assert forall t :: WasSettled(st', t) == WasSettled(st, t) && IsStale(st', t) == IsStale(st, t)
                    && IsOpen(st', t) == IsOpen(st, t);
  }

  /** The open transactions have spans of their own, started and not abandoned. */
  ghost predicate OpenApart(st: StreamState) {
    && (forall x :: x in st.abandoned ==> x < st.spans)
    && (forall k :: k in st.txs ==> st.txs[k].span < st.spans && st.txs[k].span !in st.abandoned)
    && (forall k, l :: k in st.txs && l in st.txs && st.txs[k].span == st.txs[l].span ==> k == l)
  }

  lemma LedgerOpenApart(st: StreamState)
    requires Balanced(st) && SpansApart(st)
    ensures OpenApart(st)
  {
    forall k | k in st.txs ensures IsOpen(st, st.txs[k]) && st.txs[k] in st.sent {}
  }

  lemma InOpenSpans(txs: map<string, Tx>, k: string)
    requires k in txs
    ensures txs[k].span in OpenSpans(txs)
  {
  }

  lemma ClosingFinishes(st: StreamState, why: Exit)
    requires OpenApart(st) && FinishedOnce(st) && st.status.Running?
    ensures FinishedOnce(Close(st, why))
  {
  }

  lemma OpenSpansGrow(txs: map<string, Tx>, nonce: string, tx: Tx)
    requires nonce !in txs
    ensures OpenSpans(txs[nonce := tx]) == OpenSpans(txs) + {tx.span}
  {
    var txs' := txs[nonce := tx];
    InOpenSpans(txs', nonce);
    forall k | k in txs ensures txs[k].span in OpenSpans(txs') {
      InOpenSpans(txs', k);
      assert txs'[k] == txs[k];
    }
  }

  lemma PushFinishes(st: StreamState, r: PushResult)
    requires OpenApart(st) && FinishedOnce(st) && st.status.Running?
    requires r.Pushed? ==> r.nonce !in st.txs
    ensures FinishedOnce(Push(st, r))
  {
    match r
    case Pushed(nonce, version) =>
      OpenSpansGrow(st.txs, nonce, Tx(nonce, version, st.spans));
    case TimedOut =>
      var st' := st.(spans := st.spans + 1, finished := st.finished + multiset{st.spans});
      assert forall x: nat :: st'.finished[x] == st.finished[x] + if x == st.spans then 1 else 0;
      ClosingFinishes(st', PushTimedOut);
    case BuildFailed =>
      var st' := st.(spans := st.spans + 1, abandoned := st.abandoned + {st.spans});
      ClosingFinishes(st', ResponseNotBuilt);
  }

  lemma SettlingFinishes(st: StreamState, req: Request)
    requires OpenApart(st) && FinishedOnce(st) && st.status.Running?
    requires req.nonce in st.txs && st.txs[req.nonce].nonce == req.nonce
    ensures FinishedOnce(SettleTx(st, st.txs[req.nonce], req))
  {
    var span := st.txs[req.nonce].span;
    var txs' := st.txs - {req.nonce};
    InOpenSpans(st.txs, req.nonce);
    forall k | k in txs' ensures txs'[k].span in OpenSpans(txs') {
      InOpenSpans(txs', k);
    }
    forall x | x in OpenSpans(st.txs) && x != span ensures x in OpenSpans(txs') {
      var k :| k in st.txs && st.txs[k].span == x;
      assert k in txs';
    }
    assert OpenSpans(txs') == OpenSpans(st.txs) - {span};
    forall x: nat ensures SettleTx(st, st.txs[req.nonce], req).finished[x] == st.finished[x] + if x == span then 1 else 0 {}
  }

  lemma SweepFinishes(st: StreamState, expired: set<string>)
    requires OpenApart(st) && FinishedOnce(st) && st.status.Running?
    ensures FinishedOnce(Sweep(st, expired))
  {
    var txs' := st.txs - expired;
    var dropped := map k | k in st.txs && k in expired :: st.txs[k];
    SpansSplit(st, expired, txs', dropped);
    forall x: nat ensures Sweep(st, expired).finished[x] == st.finished[x] + if x in OpenSpans(dropped) then 1 else 0 {}
  }

  lemma SpansSplit(st: StreamState, expired: set<string>, txs': map<string, Tx>, dropped: map<string, Tx>)
    requires OpenApart(st) && txs' == st.txs - expired
    requires dropped == map k | k in st.txs && k in expired :: st.txs[k]
    ensures OpenSpans(txs') !! OpenSpans(dropped) && OpenSpans(st.txs) == OpenSpans(txs') + OpenSpans(dropped)
  {
    forall k | k in txs' ensures txs'[k].span in OpenSpans(txs') { InOpenSpans(txs', k); }
    forall k | k in dropped ensures dropped[k].span in OpenSpans(dropped) { InOpenSpans(dropped, k); }
    forall x | x in OpenSpans(st.txs) ensures x in OpenSpans(txs') + OpenSpans(dropped) {
      var k :| k in st.txs && st.txs[k].span == x;
      assert k in txs' || k in dropped;
    }
  }

  lemma PushKeepsSpans(st: StreamState, r: PushResult)
    requires SpansApart(st)
    ensures SpansApart(Push(st, r))
  {
    var st' := Push(st, r);
    if r.Pushed? {
      assert st'.sent == st.sent + [Tx(r.nonce, r.version, st.spans)] && st'.abandoned == st.abandoned;
      forall i, j | 0 <= i < j < |st'.sent| ensures st'.sent[i].span != st'.sent[j].span {
        assert st.sent[i] in st.sent;
      }
    }
  }

  lemma SweepKeepsLedger(st: StreamState, expired: set<string>)
    requires Ledger(st) && st.status.Running?
    ensures Ledger(Sweep(st, expired))
  {
    LedgerOpenApart(st);
    SweepKeepsBalance(st, expired);
    SweepFinishes(st, expired);
  }

  lemma UnusedIsNotOpen(st: StreamState, nonce: string)
    requires Balanced(st) && forall t :: t in st.sent ==> t.nonce != nonce
    ensures nonce !in st.txs
  {
    if nonce in st.txs {
      assert IsOpen(st, st.txs[nonce]);
    }
  }

  lemma PushKeepsLedger(st: StreamState, r: PushResult)
    requires Ledger(st) && st.status.Running?
    requires r.Pushed? ==> forall t :: t in st.sent ==> t.nonce != r.nonce
    ensures Ledger(Push(st, r))
  {
    if r.Pushed? {
      UnusedIsNotOpen(st, r.nonce);
    }
    LedgerOpenApart(st);
    PushKeepsSpans(st, r);
    PushKeepsBalance(st, r);
    PushFinishes(st, r);
  }

  lemma CloseKeepsLedger(st: StreamState, why: Exit)
    requires Ledger(st) && st.status.Running?
    ensures Ledger(Close(st, why))
  {
    LedgerOpenApart(st);
    CloseKeepsBalance(st, why);
    ClosingFinishes(st, why);
  }

  lemma SettleKeepsLedger(typeUrl: string, st: StreamState, req: Request)
    requires Ledger(st) && st.status.Running? && Judge(typeUrl, st, req).Settle?
    ensures Ledger(SettleTx(st, Judge(typeUrl, st, req).tx, req))
  {
    LedgerOpenApart(st);
    SettleKeepsBalance(st, req);
    SettlingFinishes(st, req);
  }

  lemma RequestKeepsLedger(typeUrl: string, st: StreamState, req: Request, push: PushResult)
    requires Ledger(st) && st.status.Running? && FreshNonce(st, typeUrl, GotRequest(req, push))
    ensures Ledger(Step(typeUrl, st, GotRequest(req, push)))
  {
    AdmitKeepsLedger(st, req);
    var st' := Admit(st, req);
    match Judge(typeUrl, st', req) {
      case Refuse(why) => CloseKeepsLedger(st', why);
      case Settle(tx) => SettleKeepsLedger(typeUrl, st', req);
      case Resend => PushKeepsLedger(st', push);
    }
  }

  lemma StepKeepsLedger(typeUrl: string, st: StreamState, e: Event)
    requires Ledger(st) && FreshNonce(st, typeUrl, e)
    ensures Ledger(Step(typeUrl, st, e))
  {
    if st.status.Running? {
      match e
      case GotRequest(req, push) => RequestKeepsLedger(typeUrl, st, req, push);
      case GotUpdate(names, push) => UpdateKeepsLedger(typeUrl, st, names, push);
      case Tick(expired) => TickKeepsLedger(typeUrl, st, expired);
      case Stop(why) => StopKeepsLedger(typeUrl, st, why);
    }
  }

  lemma UpdateKeepsLedger(typeUrl: string, st: StreamState, names: set<string>, push: PushResult)
    requires Ledger(st) && st.status.Running? && FreshNonce(st, typeUrl, GotUpdate(names, push))
    ensures Ledger(Step(typeUrl, st, GotUpdate(names, push)))
  {
    if Relevant(st.subscription, names) {
      assert Step(typeUrl, st, GotUpdate(names, push)) == Push(st, push);
      PushKeepsLedger(st, push);
    }
  }

  lemma TickKeepsLedger(typeUrl: string, st: StreamState, expired: set<string>)
    requires Ledger(st) && st.status.Running?
    ensures Ledger(Step(typeUrl, st, Tick(expired)))
  {
    assert Step(typeUrl, st, Tick(expired)) == Sweep(st, expired);
    SweepKeepsLedger(st, expired);
  }

  lemma StopKeepsLedger(typeUrl: string, st: StreamState, why: Exit)
    requires Ledger(st) && st.status.Running?
    ensures Ledger(Step(typeUrl, st, Stop(why)))
  {
    assert Step(typeUrl, st, Stop(why)) == Close(st, why);
    CloseKeepsLedger(st, why);
  }

  /** The nonces of a run are new up to its last event, and there. */
  lemma FreshBefore(typeUrl: string, st: StreamState, es: seq<Event>)
    requires FreshNonces(typeUrl, st, es) && es != []
    ensures FreshNonces(typeUrl, st, es[..|es| - 1])
    ensures FreshNonce(Run(typeUrl, st, es[..|es| - 1]), typeUrl, es[|es| - 1])
  {
    var init := es[..|es| - 1];
    forall k | 0 <= k < |init| ensures FreshNonce(Run(typeUrl, st, init[..k]), typeUrl, init[k]) {
      assert init[..k] == es[..k];
    }
  }

  /** Over any run whose responses carry distinct nonces: responses sent are the ones
      acknowledged once, the stale ones and the open ones, and spans are finished once. */
  lemma {:induction false} RunKeepsLedger(typeUrl: string, st: StreamState, es: seq<Event>)
    requires Ledger(st) && FreshNonces(typeUrl, st, es)
    ensures Ledger(Run(typeUrl, st, es))
  {
    if es != [] {
      var init := es[..|es| - 1];
      FreshBefore(typeUrl, st, es);
      RunKeepsLedger(typeUrl, st, init);
      StepKeepsLedger(typeUrl, Run(typeUrl, st, init), es[|es| - 1]);
    }
  }

  lemma LedgerFromTheStart(typeUrl: string, es: seq<Event>)
    requires FreshNonces(typeUrl, FRESH, es)
    ensures Ledger(Run(typeUrl, FRESH, es))
  {
    RunKeepsLedger(typeUrl, FRESH, es);
  }

  lemma PushFacts(st: StreamState, r: PushResult)
    ensures var st' := Push(st, r);
      && st'.node == st.node && st'.subscription == st.subscription
      && (r.BuildFailed? ==> st.spans in st'.abandoned)
      && (!r.BuildFailed? ==> st'.abandoned == st.abandoned)
      && |st'.sent| == |st.sent| + if r.Pushed? then 1 else 0
  {
  }

  lemma StepFacts(typeUrl: string, st: StreamState, e: Event)
    ensures var st' := Step(typeUrl, st, e);
      && (st.node != "" ==> st'.node == st.node && st'.subscription == st.subscription)
      && (if Pushes(typeUrl, st, e) && Outcome(e).BuildFailed? then st.spans in st'.abandoned
          else st'.abandoned == st.abandoned)
      && |st'.sent| == |st.sent| + if Pushes(typeUrl, st, e) && Outcome(e).Pushed? then 1 else 0
  {
    if st.status.Running? {
      match e
      case GotRequest(req, push) =>
        var st' := Admit(st, req);
        match Judge(typeUrl, st', req) {
          case Refuse(why) =>
          case Settle(tx) =>
          case Resend => PushFacts(st', push);
        }
      case GotUpdate(names, push) => PushFacts(st, push);
      case Tick(expired) =>
      case Stop(why) =>
    }
  }

  ghost predicate BuildFailedAt(typeUrl: string, es: seq<Event>, k: nat)
    requires k < |es|
  {
    Pushes(typeUrl, Run(typeUrl, FRESH, es[..k]), es[k]) && Outcome(es[k]).BuildFailed?
  }

  lemma {:induction false} AbandonedByBuilds(typeUrl: string, es: seq<Event>)
    ensures Run(typeUrl, FRESH, es).abandoned == {} <==> forall k :: 0 <= k < |es| ==> !BuildFailedAt(typeUrl, es, k)
  {
    if es != [] {
      var n := |es| - 1;
      var init := es[..n];
      AbandonedByBuilds(typeUrl, init);
      forall k | 0 <= k < n ensures BuildFailedAt(typeUrl, es, k) == BuildFailedAt(typeUrl, init, k) {
        assert init[..k] == es[..k];
      }
      StepFacts(typeUrl, Run(typeUrl, FRESH, init), es[n]);
      assert (forall k :: 0 <= k < |es| ==> !BuildFailedAt(typeUrl, es, k)) <==>
             (forall k :: 0 <= k < n ==> !BuildFailedAt(typeUrl, init, k)) && !BuildFailedAt(typeUrl, es, n);
    }
  }

  /** A stream that has returned has finished every span it started exactly once, if and
      only if no response failed to build: that path returns without finishing its span. */
  lemma SpansFinishedUnlessBuildFailed(typeUrl: string, es: seq<Event>)
    requires FreshNonces(typeUrl, FRESH, es) && Run(typeUrl, FRESH, es).status.Ended?
    ensures var st := Run(typeUrl, FRESH, es);
      (forall x: nat :: st.finished[x] == if x < st.spans then 1 else 0)
      <==> forall k :: 0 <= k < |es| ==> !BuildFailedAt(typeUrl, es, k)
  {
    var st := Run(typeUrl, FRESH, es);
    LedgerFromTheStart(typeUrl, es);
    AbandonedByBuilds(typeUrl, es);
    if st.abandoned != {} {
      var x :| x in st.abandoned;
      assert st.finished[x] == 0 && x < st.spans;
    }
  }

  /** An update before any request, for which no response can be built: the span of the push
      is started and, the stream having returned, never finished. */
  lemma LeakedSpan(typeUrl: string)
    ensures var es := [GotUpdate({}, BuildFailed)]; var st := Run(typeUrl, FRESH, es);
      FreshNonces(typeUrl, FRESH, es) && st.status.Ended? && st.spans == 1 && st.finished[0] == 0
  {
    var e := GotUpdate({}, BuildFailed);
    assert [e][..0] == [];
    assert Run(typeUrl, FRESH, [e]) == Step(typeUrl, Run(typeUrl, FRESH, []), e);
  }

  /** Once the node is known, the subscription never changes. */
  lemma {:induction false} SubscriptionFrozen(typeUrl: string, st: StreamState, es: seq<Event>)
    requires st.node != ""
    ensures var st' := Run(typeUrl, st, es); st'.node == st.node && st'.subscription == st.subscription
  {
    if es != [] {
      var init, e := es[..|es| - 1], es[|es| - 1];
      SubscriptionFrozen(typeUrl, st, init);
      StepFacts(typeUrl, Run(typeUrl, st, init), e);
    }
  }

  /** And a run with a request that names other resources has ended the stream, whatever
      came before and after. */
  lemma {:induction false} ResubscribingEnds(typeUrl: string, st: StreamState, es: seq<Event>, k: nat)
    requires st.node != "" && k < |es| && es[k].GotRequest? && es[k].req.names != st.subscription
    ensures Run(typeUrl, st, es).status.Ended?
  {
    SubscriptionFrozen(typeUrl, st, es[..k]);
    OtherNamesEnd(typeUrl, Run(typeUrl, st, es[..k]), es[k].req, es[k].push);
    assert es[..k + 1][..k] == es[..k];
    EndedStays(typeUrl, st, es, k + 1);
  }

  lemma {:induction false} EndedStays(typeUrl: string, st: StreamState, es: seq<Event>, n: nat)
    requires n <= |es| && Run(typeUrl, st, es[..n]).status.Ended?
    ensures Run(typeUrl, st, es) == Run(typeUrl, st, es[..n])
  {
    if n < |es| {
      assert es[..|es| - 1][..n] == es[..n];
      EndedStays(typeUrl, st, es[..|es| - 1], n);
    } else {
      assert es[..n] == es;
    }
  }

  lemma OtherNamesEnd(typeUrl: string, st: StreamState, req: Request, push: PushResult)
    requires st.node != "" && req.names != st.subscription
    ensures Step(typeUrl, st, GotRequest(req, push)).status.Ended?
  {
  }

  /** A client that never gives a node id changes its subscription at will. */
  lemma AnonymousClientResubscribes(typeUrl: string)
    ensures exists es :: var st := Run(typeUrl, FRESH, es);
      st.status.Running? && |es| == 2 && st.subscription != Run(typeUrl, FRESH, es[..1]).subscription
  {
    var first := GotRequest(Request("", ["a"], typeUrl, "", "", false), Pushed("n1", "1"));
    var second := GotRequest(Request("", ["b"], typeUrl, "", "", false), Pushed("n2", "1"));
    var es := [first, second];
    assert es[..1] == [first] && [first][..0] == [];
    assert Run(typeUrl, FRESH, [first]) == Step(typeUrl, Run(typeUrl, FRESH, []), first);
    assert Run(typeUrl, FRESH, es).subscription == ["b"];
  }

  /* ---- When the stream pushes ---- */

  /** A response with this nonce was sent here and is neither settled nor stale. */
  ghost predicate Recognised(st: StreamState, nonce: string) {
    exists t :: t in st.sent && t.nonce == nonce && !WasSettled(st, t) && !IsStale(st, t)
  }

  /** What should make a stream subscribed to `sub` push. */
  ghost predicate CallsForPush(typeUrl: string, sub: seq<string>, st: StreamState, e: Event) {
    && st.status.Running?
    && match e
       case GotRequest(req, _) => req.names == sub && req.typeUrl == typeUrl && !Recognised(st, req.nonce)
       case GotUpdate(names, _) => sub == [] || exists n | n in sub :: n in names
       case _ => false
  }

  ghost predicate NoFailingPush(typeUrl: string, st: StreamState, es: seq<Event>) {
    forall k :: 0 <= k < |es| && Pushes(typeUrl, Run(typeUrl, st, es[..k]), es[k]) ==> Outcome(es[k]).Pushed?
  }

  ghost function Calls(typeUrl: string, st: StreamState, es: seq<Event>): set<nat> {
    set k: nat | k < |es| && CallsForPush(typeUrl, st.subscription, Run(typeUrl, st, es[..k]), es[k])
  }

  lemma RecognisedIsOpen(st: StreamState, nonce: string)
    requires Balanced(st)
    ensures Recognised(st, nonce) <==> nonce in st.txs
  {
    if nonce in st.txs {
      assert IsOpen(st, st.txs[nonce]);
    }
  }

  /** The number of responses is the number of accepted requests whose nonce is not that
      of an unaccounted response, plus the number of relevant updates; so acknowledging an
      open response never causes a push. */
  lemma {:induction false} PushDiscipline(typeUrl: string, st: StreamState, es: seq<Event>)
    requires st.node != "" && Ledger(st)
    requires FreshNonces(typeUrl, st, es) && NoFailingPush(typeUrl, st, es)
    ensures |Run(typeUrl, st, es).sent| == |st.sent| + |Calls(typeUrl, st, es)|
  {
    if es != [] {
      var n := |es| - 1;
      var init := es[..n];
      RunPrefix(typeUrl, st, es);
      PushDiscipline(typeUrl, st, init);
      RunKeepsLedger(typeUrl, st, init);
      SubscriptionFrozen(typeUrl, st, init);
      var now := Run(typeUrl, st, init);
      CallsArePushes(typeUrl, now, es[n]);
      StepFacts(typeUrl, now, es[n]);
      CallsGrow(typeUrl, st, es);
    }
  }

  lemma RunPrefix(typeUrl: string, st: StreamState, es: seq<Event>)
    requires es != [] && FreshNonces(typeUrl, st, es) && NoFailingPush(typeUrl, st, es)
    ensures FreshNonces(typeUrl, st, es[..|es| - 1]) && NoFailingPush(typeUrl, st, es[..|es| - 1])
  {
    var init := es[..|es| - 1];
    forall k | 0 <= k < |init| ensures init[..k] == es[..k] {}
  }

  lemma CallsArePushes(typeUrl: string, st: StreamState, e: Event)
    requires st.node != "" && Balanced(st)
    ensures CallsForPush(typeUrl, st.subscription, st, e) == Pushes(typeUrl, st, e)
  {
    if e.GotRequest? {
      RecognisedIsOpen(st, e.req.nonce);
    }
  }

  lemma CallsGrow(typeUrl: string, st: StreamState, es: seq<Event>)
    requires es != []
    ensures var n := |es| - 1;
      |Calls(typeUrl, st, es)| == |Calls(typeUrl, st, es[..n])| +
        if CallsForPush(typeUrl, st.subscription, Run(typeUrl, st, es[..n]), es[n]) then 1 else 0
  {
    var n := |es| - 1;
    var init := es[..n];
    var called := CallsForPush(typeUrl, st.subscription, Run(typeUrl, st, init), es[n]);
    forall k: nat ensures k in Calls(typeUrl, st, es) <==> k in Calls(typeUrl, st, init) || (called && k == n) {
      CallsPrefix(typeUrl, st, es, k);
    }
    assert n !in Calls(typeUrl, st, init);
    CountGrows(Calls(typeUrl, st, init), Calls(typeUrl, st, es), n, called);
  }

  lemma CallsPrefix(typeUrl: string, st: StreamState, es: seq<Event>, k: nat)
    requires es != []
    ensures k in Calls(typeUrl, st, es) <==>
      if k == |es| - 1 then CallsForPush(typeUrl, st.subscription, Run(typeUrl, st, es[..|es| - 1]), es[|es| - 1])
      else k in Calls(typeUrl, st, es[..|es| - 1])
  {
    if k < |es| - 1 {
      assert es[..|es| - 1][..k] == es[..k];
    }
  }

  lemma CountGrows(before: set<nat>, after: set<nat>, n: nat, called: bool)
    requires n !in before && forall k: nat :: k in after <==> k in before || (called && k == n)
    ensures |after| == |before| + if called then 1 else 0
  {
    assert after == if called then before + {n} else before;
  }

  /* ---- From the first event on ---- */

  predicate NoRequest(es: seq<Event>) {
    forall k :: 0 <= k < |es| ==> !es[k].GotRequest?
  }

  /** What the first request asks for; everything, before there is one. */
  function SubscriptionOf(es: seq<Event>): seq<string> {
    if es == [] then [] else
    var init, e := es[..|es| - 1], es[|es| - 1];
    if e.GotRequest? && NoRequest(init) then e.req.names else SubscriptionOf(init)
  }

  /** Every request carries a node id. */
  predicate Named(es: seq<Event>) {
    forall k :: 0 <= k < |es| && es[k].GotRequest? ==> es[k].req.nodeId != ""
  }

  /** The events that should make the stream push, counted from its start. */
  ghost function CallsFromTheStart(typeUrl: string, es: seq<Event>): set<nat> {
    set k: nat | k < |es| && CallsAt(typeUrl, es, k)
  }

  ghost predicate CallsAt(typeUrl: string, es: seq<Event>, k: nat)
    requires k < |es|
  {
    CallsForPush(typeUrl, SubscriptionOf(es[..k + 1]), Run(typeUrl, FRESH, es[..k]), es[k])
  }

  lemma {:induction false} SubscribedAsAsked(typeUrl: string, es: seq<Event>)
    requires Named(es) && Run(typeUrl, FRESH, es).status.Running?
    ensures var st := Run(typeUrl, FRESH, es);
      st.subscription == SubscriptionOf(es) && (st.node == "" <==> NoRequest(es))
  {
    if es != [] {
      var init, e := es[..|es| - 1], es[|es| - 1];
      SubscribedAsAsked(typeUrl, init);
      assert NoRequest(es) <==> NoRequest(init) && !e.GotRequest?;
      SubscribesOnce(typeUrl, Run(typeUrl, FRESH, init), e);
    }
  }

  lemma SubscribesOnce(typeUrl: string, st: StreamState, e: Event)
    requires Step(typeUrl, st, e).status.Running?
    ensures var st' := Step(typeUrl, st, e);
      if st.node == "" && e.GotRequest? then st'.node == e.req.nodeId && st'.subscription == e.req.names
      else st'.node == st.node && st'.subscription == st.subscription
  {
  }

  lemma CallsArePushesFromTheStart(typeUrl: string, init: seq<Event>, e: Event)
    requires Named(init + [e]) && Balanced(Run(typeUrl, FRESH, init))
    ensures CallsForPush(typeUrl, SubscriptionOf(init + [e]), Run(typeUrl, FRESH, init), e)
      == Pushes(typeUrl, Run(typeUrl, FRESH, init), e)
  {
    var now := Run(typeUrl, FRESH, init);
    assert (init + [e])[..|init|] == init && (init + [e])[|init|] == e;
    if now.status.Running? {
      assert Named(init) by { forall k | 0 <= k < |init| ensures init[k] == (init + [e])[k] {} }
      SubscribedAsAsked(typeUrl, init);
      if e.GotRequest? {
        RecognisedIsOpen(now, e.req.nonce);
      }
    }
  }

  lemma CallsGrowFromTheStart(typeUrl: string, init: seq<Event>, e: Event)
    ensures |CallsFromTheStart(typeUrl, init + [e])| == |CallsFromTheStart(typeUrl, init)| +
      if CallsForPush(typeUrl, SubscriptionOf(init + [e]), Run(typeUrl, FRESH, init), e) then 1 else 0
  {
    var n, es := |init|, init + [e];
    var called := CallsForPush(typeUrl, SubscriptionOf(es), Run(typeUrl, FRESH, init), e);
    forall k: nat
      ensures k in CallsFromTheStart(typeUrl, es) <==> k in CallsFromTheStart(typeUrl, init) || (called && k == n)
    {
      CallsAtPrefix(typeUrl, init, e, k);
    }
    assert n !in CallsFromTheStart(typeUrl, init);
    CountGrows(CallsFromTheStart(typeUrl, init), CallsFromTheStart(typeUrl, es), n, called);
  }

  lemma CallsAtPrefix(typeUrl: string, init: seq<Event>, e: Event, k: nat)
    ensures k in CallsFromTheStart(typeUrl, init + [e]) <==>
      if k == |init| then CallsForPush(typeUrl, SubscriptionOf(init + [e]), Run(typeUrl, FRESH, init), e)
      else k in CallsFromTheStart(typeUrl, init)
  {
    var es := init + [e];
    if k < |init| {
      assert init[..k] == es[..k] && init[..k + 1] == es[..k + 1];
    } else if k == |init| {
      assert es[..k] == init && es[..k + 1] == es;
    }
  }

  lemma LastEvent(es: seq<Event>)
    requires es != []
    ensures es == es[..|es| - 1] + [es[|es| - 1]]
  {
  }

  lemma SentGrows(typeUrl: string, es: seq<Event>)
    requires es != [] && NoFailingPush(typeUrl, FRESH, es)
    ensures var init, e := es[..|es| - 1], es[|es| - 1];
      |Run(typeUrl, FRESH, es).sent| == |Run(typeUrl, FRESH, init).sent| +
        if Pushes(typeUrl, Run(typeUrl, FRESH, init), e) then 1 else 0
  {
    StepFacts(typeUrl, Run(typeUrl, FRESH, es[..|es| - 1]), es[|es| - 1]);
  }

  /** For a client that gives its node id, and as long as pushes do not fail: the responses
      are as many as the requests that name what the first one named, are of the right type
      and acknowledge no response still open, plus the updates that meet the first request's
      names (all of them before the first request, or if it named nothing). */
  lemma {:induction false} PushDisciplineFromTheStart(typeUrl: string, es: seq<Event>)
    requires Named(es) && FreshNonces(typeUrl, FRESH, es) && NoFailingPush(typeUrl, FRESH, es)
    ensures |Run(typeUrl, FRESH, es).sent| == |CallsFromTheStart(typeUrl, es)|
  {
    if es != [] {
      var init, e := es[..|es| - 1], es[|es| - 1];
      LastEvent(es);
      RunPrefix(typeUrl, FRESH, es);
      PushDisciplineFromTheStart(typeUrl, init);
      LedgerFromTheStart(typeUrl, init);
      CallsArePushesFromTheStart(typeUrl, init, e);
      SentGrows(typeUrl, es);
      CallsGrowFromTheStart(typeUrl, init, e);
    }
  }
}
