/** Manager.Stream as the loop it is: locals updated in place, one event at a time. */
module StreamLoop {
  import opened ManagerObject
  import opened Options
  import opened Registry
  import opened StreamCore
  import Text

  /** What a manager holds at one moment. */
  datatype Moment<R> = Moment(resources: map<string, R>, version: nat)

  /** A way a push can end: a response is built of a snapshot of what is wanted, labelled with
      the version of that moment and a nonce made of it, and the client takes it or does not
      in time; or no response can be made of the snapshot. */
  ghost predicate Offers<R(!new)>(
    kind: Kind<R>, prefix: string, now: Moment<R>, want: seq<string>, hash: string, taken: bool, push: PushResult)
  {
    var text := prefix + Text.Itoa(now.version);
    exists entries :: IsSnapshot(now.resources, want, entries) &&
      push == if !Buildable(kind, entries) then BuildFailed
              else if taken then Pushed("nonce-" + text + "-" + hash, text) else TimedOut
  }

  /** What the select comes up with, and what would decide a push: the random part of its
      nonce, and whether the client takes it. */
  datatype Input = Asked(req: Request) | Told(names: set<string>) | Ticked(expired: set<string>) | Stopped(why: Exit)

  datatype Turn = Turn(input: Input, hash: string, taken: bool)

  function EventOf(input: Input, push: PushResult): Event {
    match input
    case Asked(req) => GotRequest(req, push)
    case Told(names) => GotUpdate(names, push)
    case Ticked(expired) => Tick(expired)
    case Stopped(why) => Stop(why)
  }

  /** The event is the turn's input; and if it makes the stream push, the push ends as the
      manager at that moment lets it. */
  ghost predicate Answers<R(!new)>(
    typeUrl: string, st: StreamState, turn: Turn, kind: Kind<R>, prefix: string, now: Moment<R>, e: Event)
  {
    exists push :: e == EventOf(turn.input, push)
      && (Pushes(typeUrl, st, e) ==>
            Offers(kind, prefix, now, if turn.input.Asked? then Admit(st, turn.input.req).subscription else st.subscription,
              turn.hash, turn.taken, push))
  }

  ghost predicate SpansDiffer(txs: map<string, Tx>) {
    forall k, l :: k in txs && l in txs && txs[k].span == txs[l].span ==> k == l
  }

  class Stream {
    const typeUrl: string
    var node: string
    var subscription: seq<string>
    var txs: map<string, Tx>
    var status: Status

    // Traces for the specification.
    ghost var sent: seq<Tx>
    ghost var settled: seq<Settled>
    ghost var stale: map<string, Tx>
    var spans: nat
    ghost var finished: multiset<nat>
    ghost var abandoned: set<nat>

    ghost function State(): StreamState
      reads this
    {
      StreamState(node, subscription, txs, status, sent, settled, stale, spans, finished, abandoned)
    }

    /** Transactions are filed under their nonces and have spans of their own. */
    ghost predicate Valid()
      reads this
    {
      && (forall k :: k in txs ==> txs[k].nonce == k && txs[k].span < spans)
      && SpansDiffer(txs)
    }

    constructor (typeUrl: string)
      ensures Valid() && State() == FRESH && this.typeUrl == typeUrl
    {
      this.typeUrl := typeUrl;
      node, subscription, txs, status := "", [], map[], Running;
      sent, settled, stale, spans, finished, abandoned := [], [], map[], 0, multiset{}, {};
    }

    /** The deferred cleanup: finish the span of every open transaction. */
    method Cleanup(why: Exit)
      requires Valid()
      modifies this`status, this`finished
      ensures Valid() && State() == Close(old(State()), why)
    {
      var rest := txs.Keys;
      ghost var done: map<string, Tx> := map[];
      while rest != {}
        invariant rest <= txs.Keys
        invariant done.Keys == txs.Keys - rest && forall k :: k in done ==> done[k] == txs[k]
        invariant finished == old(finished) + multiset(OpenSpans(done))
      {
        var k :| k in rest;
        DroppedSpan(txs, done, k);
        finished := finished + multiset{txs[k].span};
        done := done[k := txs[k]];
        rest := rest - {k};
      }
      assert done == txs;
      status := Ended(why);
    }

    /** sendUpdate, and the return that follows when it fails: the manager builds a response
        for the subscription, and the client takes it or does not in time. */
    method SendUpdate<R(!new)>(m: Manager<R>, hash: string, taken: bool) returns (push: PushResult)
      requires Valid()
      modifies this
      ensures Valid() && State() == Push(old(State()), push)
      ensures Offers(m.kind, m.versionPrefix, Moment(m.resources, m.version), old(subscription), hash, taken, push)
    {
      var res := m.BuildDiscoveryResponse(subscription, hash);
      push :=
        if res.None? then BuildFailed else if taken then Pushed(res.value.nonce, res.value.versionInfo) else TimedOut;
      assert Offers(m.kind, m.versionPrefix, Moment(m.resources, m.version), subscription, hash, taken, push);
      Account(push);
    }

    /** What the three ends of a push leave behind. */
    method Account(push: PushResult)
      requires Valid()
      modifies this
      ensures Valid() && State() == Push(old(State()), push)
    {
      var span := spans;
      spans := spans + 1;
      match push
      case BuildFailed =>
        abandoned := abandoned + {span};
        Cleanup(ResponseNotBuilt);
      case TimedOut =>
        finished := finished + multiset{span};
        Cleanup(PushTimedOut);
      case Pushed(nonce, version) =>
        var tx := Tx(nonce, version, span);
        txs := txs[nonce := tx];
        sent := sent + [tx];
    }

    /** handleTx. */
    method HandleTx(tx: Tx, req: Request)
      requires Valid() && tx.nonce in txs
      modifies this`txs, this`settled, this`finished
      ensures Valid() && State() == SettleTx(old(State()), tx, req)
    {
      var accepted := true;
      if req.rejected {
        accepted := false;
      }
      settled := settled + [Settled(tx, Ack(node, req.version, accepted))];
      finished := finished + multiset{tx.span};
      txs := txs - {tx.nonce};
    }

    method HandleRequest<R(!new)>(req: Request, m: Manager<R>, hash: string, taken: bool) returns (push: PushResult)
      requires Valid() && status.Running?
      modifies this
      ensures Valid() && State() == Step(typeUrl, old(State()), GotRequest(req, push))
      ensures Pushes(typeUrl, old(State()), GotRequest(req, push)) ==>
        Offers(m.kind, m.versionPrefix, Moment(m.resources, m.version), Admit(old(State()), req).subscription,
          hash, taken, push)
    {
      push := BuildFailed;
      if node == "" {
        node := req.nodeId;
        subscription := req.names;
      }
      if subscription != req.names {
        Cleanup(SubscriptionChanged);
        return;
      }
      if req.typeUrl != typeUrl {
        Cleanup(WrongType);
        return;
      }
      if req.nonce in txs {
        HandleTx(txs[req.nonce], req);
        return;
      }
      push := SendUpdate(m, hash, taken);
    }

    method HandleUpdate<R(!new)>(names: set<string>, m: Manager<R>, hash: string, taken: bool) returns (push: PushResult)
      requires Valid() && status.Running?
      modifies this
      ensures Valid() && State() == Step(typeUrl, old(State()), GotUpdate(names, push))
      ensures Relevant(old(subscription), names) ==>
        Offers(m.kind, m.versionPrefix, Moment(m.resources, m.version), old(subscription), hash, taken, push)
    {
      push := BuildFailed;
      var send := false;
      for i := 0 to |subscription|
        invariant !send && forall j :: 0 <= j < i ==> subscription[j] !in names
        invariant Valid() && State() == old(State())
      {
        if subscription[i] in names {
          send := true;
          break;
        }
      }
      if |subscription| == 0 || send {
        push := SendUpdate(m, hash, taken);
      }
    }

    /** The cleanup ticker: drop the transactions that have been forgotten. */
    method HandleTick(expired: set<string>)
      requires Valid() && status.Running?
      modifies this
      ensures Valid() && State() == Step(typeUrl, old(State()), Tick(expired))
    {
      ghost var dropped := DropExpired(expired);
      stale := stale + dropped;
    }

    method DropExpired(expired: set<string>) returns (ghost dropped: map<string, Tx>)
      requires Valid()
      modifies this`txs, this`finished
      ensures dropped == map k | k in old(txs) && k in expired :: old(txs)[k]
      ensures txs == old(txs) - expired
      ensures finished == old(finished) + multiset(OpenSpans(dropped))
    {
      ghost var all := txs;
      ghost var gone: set<string> := {};
      dropped := map[];
      var rest := txs.Keys;
      while rest != {}
        invariant rest <= all.Keys && Split(all, gone, dropped, txs)
        invariant forall k :: k in gone <==> k in all && k in expired && k !in rest
        invariant finished == old(finished) + multiset(OpenSpans(dropped))
      {
        var k :| k in rest;
        rest := rest - {k};
        if k in expired {
          MoveAside(all, gone, dropped, txs, k);
          Drop(k);
          dropped := dropped[k := all[k]];
          gone := gone + {k};
        }
      }
      assert gone == all.Keys * expired;
      SplitDone(all, expired, dropped, txs);
    }

    method Drop(k: string)
      requires k in txs
      modifies this`txs, this`finished
      ensures txs == old(txs) - {k} && finished == old(finished) + multiset{old(txs)[k].span}
    {
      finished := finished + multiset{txs[k].span};
      txs := txs - {k};
    }

    /** One turn of the select loop; nothing happens after it has returned. */
    method TakeTurn<R(!new)>(m: Manager<R>, turn: Turn) returns (ghost e: Event)
      requires Valid()
      modifies this
      ensures Valid() && State() == Step(typeUrl, old(State()), e)
      ensures Answers(typeUrl, old(State()), turn, m.kind, m.versionPrefix, Moment(m.resources, m.version), e)
    {
      ghost var push := BuildFailed;
      if status.Running? {
        match turn.input {
          case Asked(req) => push := HandleRequest(req, m, turn.hash, turn.taken);
          case Told(names) => push := HandleUpdate(names, m, turn.hash, turn.taken);
          case Ticked(expired) => HandleTick(expired);
          case Stopped(why) => Cleanup(why);
        }
      }
      e := EventOf(turn.input, push);
    }

    /** The select loop. Between two turns the manager changes as others please; `moments`
        records what it held at each turn, and `es` what then happened. */
    method Serve<R(!new)>(m: Manager<R>, turns: seq<Turn>) returns (ghost es: seq<Event>, ghost moments: seq<Moment<R>>)
      requires Valid()
      modifies this, m`resources, m`version
      ensures Valid() && |es| == |moments| == |turns| && State() == Run(typeUrl, old(State()), es)
      ensures forall i :: 0 <= i < |turns| ==>
        Answers(typeUrl, Run(typeUrl, old(State()), es[..i]), turns[i], m.kind, m.versionPrefix, moments[i], es[i])
    {
      es, moments := [], [];
      for i := 0 to |turns|
        invariant Valid() && |es| == |moments| == i && State() == Run(typeUrl, old(State()), es)
        invariant forall k :: 0 <= k < i ==>
          Answers(typeUrl, Run(typeUrl, old(State()), es[..k]), turns[k], m.kind, m.versionPrefix, moments[k], es[k])
      {
        Meanwhile(m);
        ghost var e;
        e := TakeTurn(m, turns[i]);
        assert (es + [e])[..i] == es;
        forall k | 0 <= k < i ensures (es + [e])[..k] == es[..k] {}
        es, moments := es + [e], moments + [Moment(m.resources, m.version)];
      }
    }
  }

  /** What other goroutines may do to the manager. */
  method Meanwhile<R>(m: Manager<R>)
    modifies m`resources, m`version
  {
    var resources: map<string, R> := *;
    var version: nat := *;
    m.resources, m.version := resources, version;
  }

  lemma DroppedSpan(all: map<string, Tx>, dropped: map<string, Tx>, k: string)
    requires SpansDiffer(all) && k in all && k !in dropped
    requires forall l :: l in dropped ==> l in all && dropped[l] == all[l]
    ensures multiset(OpenSpans(dropped[k := all[k]])) == multiset(OpenSpans(dropped)) + multiset{all[k].span}
  {
    var after := dropped[k := all[k]];
    assert OpenSpans(after) == OpenSpans(dropped) + {all[k].span} by {
      assert after[k].span in OpenSpans(after);
      forall l | l in dropped ensures dropped[l].span in OpenSpans(after) { assert after[l] == dropped[l]; }
    }
    assert all[k].span !in OpenSpans(dropped);
  }

  /** `out` of the transactions have been moved aside. */
  ghost predicate Split(all: map<string, Tx>, out: set<string>, dropped: map<string, Tx>, left: map<string, Tx>) {
    && dropped.Keys == out && left.Keys == all.Keys - out
    && (forall k :: k in dropped ==> k in all && dropped[k] == all[k])
    && (forall k :: k in left ==> left[k] == all[k])
  }

  lemma MoveAside(
    all: map<string, Tx>, out: set<string>, dropped: map<string, Tx>, left: map<string, Tx>, k: string)
    requires Split(all, out, dropped, left) && SpansDiffer(all) && k in all && k !in out
    ensures k in left && left[k] == all[k] && Split(all, out + {k}, dropped[k := all[k]], left - {k})
    ensures multiset(OpenSpans(dropped[k := all[k]])) == multiset(OpenSpans(dropped)) + multiset{all[k].span}
  {
    DroppedSpan(all, dropped, k);
  }

  lemma SplitDone(all: map<string, Tx>, expired: set<string>, dropped: map<string, Tx>, left: map<string, Tx>)
    requires Split(all, all.Keys * expired, dropped, left)
    ensures dropped == map k | k in all && k in expired :: all[k]
    ensures left == all - expired
  {
  }
}
