/** The select loop of Manager.Stream as a function of its events. Channels, clocks and
    the client are inputs: an event carries what the environment decided. */
module StreamCore {

  /** A transaction: one response handed to the client and not yet accounted for. `span`
      numbers the pushes of this stream in the order they were started. */
  datatype Tx = Tx(nonce: string, version: string, span: nat)

  /** What OnAck is told. */
  datatype Ack = Ack(node: string, version: string, accepted: bool)

  datatype Settled = Settled(tx: Tx, ack: Ack)

  datatype Exit =
    | Draining | Cancelled | RequestsClosed
    | SubscriptionChanged | WrongType | ResponseNotBuilt | PushTimedOut

  datatype Status = Running | Ended(why: Exit)

  datatype Request = Request(
    nodeId: string, names: seq<string>, typeUrl: string,
    nonce: string, version: string, rejected: bool)

  /** How a push ends: accepted by resCh, timed out there, or the response was never built. */
  datatype PushResult = Pushed(nonce: string, version: string) | TimedOut | BuildFailed

  datatype Event =
    | GotRequest(req: Request, push: PushResult)
    | GotUpdate(names: set<string>, push: PushResult)
    | Tick(expired: set<string>)   // nonces of the transactions older than a minute
    | Stop(why: Exit)

  /** The locals of Stream, then the traces it leaves: responses handed over, OnAck calls,
      transactions dropped as stale, and the spans it started, finished or abandoned. */
  datatype StreamState = StreamState(
    node: string, subscription: seq<string>, txs: map<string, Tx>, status: Status,
    sent: seq<Tx>, settled: seq<Settled>, stale: map<string, Tx>,
    spans: nat, finished: multiset<nat>, abandoned: set<nat>)

  const FRESH := StreamState("", [], map[], Running, [], [], map[], 0, multiset{}, {})

  function OpenSpans(txs: map<string, Tx>): set<nat> {
    set k | k in txs :: txs[k].span
  }

  /** The deferred cleanup finishes the spans of whatever is still open. */
  function Close(st: StreamState, why: Exit): StreamState {
    st.(status := Ended(why), finished := st.finished + multiset(OpenSpans(st.txs)))
  }

  function Push(st: StreamState, r: PushResult): StreamState {
    match r
    case Pushed(nonce, version) =>
      var tx := Tx(nonce, version, st.spans);
      st.(txs := st.txs[nonce := tx], sent := st.sent + [tx], spans := st.spans + 1)
    case TimedOut =>
      Close(st.(spans := st.spans + 1, finished := st.finished + multiset{st.spans}), PushTimedOut)
    case BuildFailed =>
      Close(st.(spans := st.spans + 1, abandoned := st.abandoned + {st.spans}), ResponseNotBuilt)
  }

  /** While the node is unknown, a request sets both the node and the subscription. */
  function Admit(st: StreamState, req: Request): StreamState {
    if st.node == "" then st.(node := req.nodeId, subscription := req.names) else st
  }

  datatype Verdict = Refuse(why: Exit) | Settle(tx: Tx) | Resend

  function Judge(typeUrl: string, st: StreamState, req: Request): Verdict {
    if st.subscription != req.names then Refuse(SubscriptionChanged)
    else if req.typeUrl != typeUrl then Refuse(WrongType)
    else if req.nonce in st.txs then Settle(st.txs[req.nonce])
    else Resend
  }

  function SettleTx(st: StreamState, tx: Tx, req: Request): StreamState {
    st.(txs := st.txs - {tx.nonce},
        settled := st.settled + [Settled(tx, Ack(st.node, req.version, !req.rejected))],
        finished := st.finished + multiset{tx.span})
  }

  predicate Relevant(subscription: seq<string>, names: set<string>) {
    subscription == [] || exists n | n in subscription :: n in names
  }

  function Sweep(st: StreamState, expired: set<string>): StreamState {
    var dropped := map k | k in st.txs && k in expired :: st.txs[k];
    st.(txs := st.txs - expired, stale := st.stale + dropped,
        finished := st.finished + multiset(OpenSpans(dropped)))
  }

  /** One turn of the loop; nothing happens after it has returned. */
  function Step(typeUrl: string, st: StreamState, e: Event): StreamState {
    if st.status.Ended? then st else
    match e
    case GotRequest(req, push) =>
      var st' := Admit(st, req);
      (match Judge(typeUrl, st', req)
       case Refuse(why) => Close(st', why)
       case Settle(tx) => SettleTx(st', tx, req)
       case Resend => Push(st', push))
    case GotUpdate(names, push) => if Relevant(st.subscription, names) then Push(st, push) else st
    case Tick(expired) => Sweep(st, expired)
    case Stop(why) => Close(st, why)
  }

  function Run(typeUrl: string, st: StreamState, es: seq<Event>): StreamState {
    if es == [] then st else Step(typeUrl, Run(typeUrl, st, es[..|es| - 1]), es[|es| - 1])
  }

  /** The event makes the loop push, and with which outcome. */
  predicate Pushes(typeUrl: string, st: StreamState, e: Event) {
    && st.status.Running?
    && match e
       case GotRequest(req, _) => Judge(typeUrl, Admit(st, req), req).Resend?
       case GotUpdate(names, _) => Relevant(st.subscription, names)
       case _ => false
  }

  function Outcome(e: Event): PushResult
    requires e.GotRequest? || e.GotUpdate?
  {
    e.push
  }

  /** Every response of the run carries a nonce this stream has not used before. */
  ghost predicate FreshNonces(typeUrl: string, st: StreamState, es: seq<Event>) {
    forall k :: 0 <= k < |es| ==> FreshNonce(Run(typeUrl, st, es[..k]), typeUrl, es[k])
  }

  ghost predicate FreshNonce(st: StreamState, typeUrl: string, e: Event) {
    Pushes(typeUrl, st, e) && Outcome(e).Pushed? ==>
      forall t :: t in st.sent ==> t.nonce != Outcome(e).nonce
  }

  /* ---- The transaction ledger ---- */

  ghost predicate WasSettled(st: StreamState, tx: Tx) {
    exists i :: 0 <= i < |st.settled| && st.settled[i].tx == tx
  }

  ghost predicate IsStale(st: StreamState, tx: Tx) {
    tx.nonce in st.stale && st.stale[tx.nonce] == tx
  }

  ghost predicate IsOpen(st: StreamState, tx: Tx) {
    tx.nonce in st.txs && st.txs[tx.nonce] == tx
  }

  /** Every response sent is in exactly one of three places: acknowledged by one OnAck
      call, dropped as stale, or open. Nothing else is in any of them. */
  ghost predicate Balanced(st: StreamState) {
    && (forall i, j :: 0 <= i < j < |st.sent| ==> st.sent[i].nonce != st.sent[j].nonce)
    && (forall t :: t in st.sent <==> WasSettled(st, t) || IsStale(st, t) || IsOpen(st, t))
    && (forall t :: !(WasSettled(st, t) && IsStale(st, t)) && !(WasSettled(st, t) && IsOpen(st, t))
                 && !(IsStale(st, t) && IsOpen(st, t)))
    && (forall i, j :: 0 <= i < j < |st.settled| ==> st.settled[i].tx != st.settled[j].tx)
    && (forall k :: k in st.txs ==> st.txs[k].nonce == k)
    && (forall k :: k in st.stale ==> st.stale[k].nonce == k)
    && |st.sent| == |st.settled| + |st.stale| + |st.txs|
  }

  /** A span has been finished once, unless it is abandoned or still open. */
  ghost predicate FinishedOnce(st: StreamState) {
    forall x: nat ::
      st.finished[x] ==
      (if x < st.spans && x !in st.abandoned && (st.status.Ended? || x !in OpenSpans(st.txs)) then 1 else 0)
  }

  /** Responses carry different spans, all started and none abandoned. */
  ghost predicate SpansApart(st: StreamState) {
    && (forall i, j :: 0 <= i < j < |st.sent| ==> st.sent[i].span != st.sent[j].span)
    && (forall t :: t in st.sent ==> t.span < st.spans && t.span !in st.abandoned)
    && (forall x :: x in st.abandoned ==> x < st.spans)
  }

  ghost predicate Ledger(st: StreamState) {
    Balanced(st) && SpansApart(st) && FinishedOnce(st)
  }
}
