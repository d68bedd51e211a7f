/** Sessions are safe: nothing is ever sent on a closed channel, one mutator at a time
    holds sessionsMu, and it only waits for streams that are registered. */
module ProtocolSafety {
  import opened Registry
  import opened StreamCore
  import opened Protocol

  predicate Holding<R>(ph: Phase<R>) {
    ph.Trying? || ph.Waiting?
  }

  /** The sessions a notifier still has to serve. */
  function Unserved<R>(ph: Phase<R>): set<nat> {
    match ph
    case Trying(_, pending, blocked) => pending + blocked
    case Waiting(_, blocked) => blocked
    case _ => {}
  }

  ghost predicate Sessions<R>(s: State<R>) {
    && !s.panicked
    && (forall i: nat :: i in s.sessions <==> i < |s.streams| && !s.streams[i].phase.Closed?)
    && (s.holder == FREE || 0 <= s.holder < |s.muts|)
    && (forall m :: 0 <= m < |s.muts| ==> (Holding(s.muts[m].phase) <==> s.holder == m))
    && (forall m :: 0 <= m < |s.muts| ==> Unserved(s.muts[m].phase) <= s.sessions)
  }

  lemma StreamKeepsSessions<R>(p: Params<R>, s: State<R>, i: nat, a: StreamStep<R>)
    requires Sessions(s) && CanStream(s, i, a)
    ensures Sessions(Streamed(p, s, i, a))
  {
    assert ConnAfter(p, s, i, a).phase.Closed? <==> a.Hangup?;
  }

  lemma MutationKeepsSessions<R>(p: Params<R>, s: State<R>, m: nat, a: MutateStep)
    requires Sessions(s) && CanMutate(s, m, a)
    ensures Sessions(Mutated(p, s, m, a))
  {
  }

  lemma TellingKeepsSessions<R>(s: State<R>, m: nat, a: NotifyStep)
    requires Sessions(s) && CanTell(s, m, a)
    ensures Sessions(Told(s, m, a))
  {
  }

  lemma StepKeepsSessions<R>(p: Params<R>, s: State<R>, step: Step<R>)
    requires Sessions(s) && Enabled(s, step)
    ensures Sessions(Apply(p, s, step))
  {
    match step
    case Start(call) =>
    case Join =>
    case Mutate(m, a) => MutationKeepsSessions(p, s, m, a);
    case Tell(m, a) => TellingKeepsSessions(s, m, a);
    case Stream(i, a) => StreamKeepsSessions(p, s, i, a);
  }
}
