/** No deadlock and no endless internal activity: left alone, the system comes to rest
    after a bounded number of steps, whatever their order. */
module ProtocolProgress {
  import opened Registry
  import opened StreamCore
  import opened Protocol
  import opened ProtocolSafety

  /** Steps the environment does not choose: mutators, pushes and hang-ups. */
  predicate Internal<R>(step: Step<R>) {
    match step
    case Start(_) | Join => false
    case Mutate(_, _) | Tell(_, _) => true
    case Stream(_, a) => a.Build? || a.PushOk? || a.PushTimeout? || a.Hangup?
  }

  /** Nothing is in flight: calls have returned and streams are in their select or gone. */
  ghost predicate AtRest<R>(s: State<R>) {
    && (forall m :: 0 <= m < |s.muts| ==> s.muts[m].phase.Returned?)
    && (forall i :: 0 <= i < |s.streams| ==> s.streams[i].phase.Idle? || s.streams[i].phase.Closed?)
  }

  /** Work a mutator has before it, when n sessions are registered: serving a session
      costs more than the push it may cause. */
  function MutatorWork<R>(ph: Phase<R>, n: nat): nat {
    match ph
    case Returned => 0
    case Waiting(_, blocked) => 1 + 5 * |blocked|
    case Trying(_, pending, blocked) => 2 + 6 * |pending| + 5 * |blocked|
    case Locking(_) => 3 + 6 * n
    case Bumping(_) => 4 + 6 * n
    case Replacing(_) => 5 + 6 * n
    case Deleting(_) => 5 + 6 * n
    case Adding(todo, _) => 5 + 6 * n + |todo|
  }

  function StreamWork(ph: ConnPhase): nat {
    match ph
    case Idle => 0
    case Closed => 0
    case Exiting => 1
    case Sending => 2
    case Building(_) => 3
  }

  function MutatorsWork<R>(muts: seq<Mutator<R>>, n: nat): nat {
    if muts == [] then 0
    else MutatorsWork(muts[..|muts| - 1], n) + MutatorWork(muts[|muts| - 1].phase, n)
  }

  function StreamsWork<R>(streams: seq<Conn<R>>): nat {
    if streams == [] then 0
    else StreamsWork(streams[..|streams| - 1]) + StreamWork(streams[|streams| - 1].phase)
  }

  function Work<R>(s: State<R>): nat {
    MutatorsWork(s.muts, |s.sessions|) + StreamsWork(s.streams)
  }

  lemma {:induction false} MutatorsWorkChanges<R>(muts: seq<Mutator<R>>, muts': seq<Mutator<R>>, m: nat, n: nat)
    requires m < |muts| == |muts'| && forall k: nat :: k < |muts| && k != m ==> muts'[k] == muts[k]
    ensures MutatorsWork(muts', n) + MutatorWork(muts[m].phase, n) == MutatorsWork(muts, n) + MutatorWork(muts'[m].phase, n)
  {
    var k := |muts| - 1;
    if m < k {
      MutatorsWorkChanges(muts[..k], muts'[..k], m, n);
    } else {
      assert muts[..k] == muts'[..k];
    }
  }

  lemma {:induction false} FewerSessionsLessWork<R>(muts: seq<Mutator<R>>, n: nat, n': nat)
    requires n' <= n
    ensures MutatorsWork(muts, n') <= MutatorsWork(muts, n)
  {
    if muts != [] {
      FewerSessionsLessWork(muts[..|muts| - 1], n, n');
    }
  }

  lemma {:induction false} StreamsWorkChanges<R>(streams: seq<Conn<R>>, streams': seq<Conn<R>>, i: nat)
    requires i < |streams| == |streams'|
    requires forall k: nat :: k < |streams| && k != i ==> streams'[k].phase == streams[k].phase
    ensures StreamsWork(streams') + StreamWork(streams[i].phase) == StreamsWork(streams) + StreamWork(streams'[i].phase)
  {
    var k := |streams| - 1;
    if i < k {
      StreamsWorkChanges(streams[..k], streams'[..k], i);
    } else {
      SamePhasesSameWork(streams[..k], streams'[..k]);
    }
  }

  lemma {:induction false} SamePhasesSameWork<R>(streams: seq<Conn<R>>, streams': seq<Conn<R>>)
    requires |streams| == |streams'|
    requires forall k :: 0 <= k < |streams| ==> streams'[k].phase == streams[k].phase
    ensures StreamsWork(streams') == StreamsWork(streams)
  {
    if streams != [] {
      SamePhasesSameWork(streams[..|streams| - 1], streams'[..|streams| - 1]);
    }
  }

  lemma MutationWorks<R>(p: Params<R>, s: State<R>, m: nat, a: MutateStep)
    requires CanMutate(s, m, a)
    ensures Work(Mutated(p, s, m, a)) < Work(s)
  {
    var t := Mutated(p, s, m, a);
    MutationTouchesOne(p, s, m, a);
    MutationAdvances(p, s, m, a);
    AdvancesLessWork(s.muts[m].phase, t.muts[m].phase, |s.sessions|);
    MutatorsWorkChanges(s.muts, t.muts, m, |s.sessions|);
    SamePhasesSameWork(s.streams, t.streams);
  }

  lemma MutationTouchesOne<R>(p: Params<R>, s: State<R>, m: nat, a: MutateStep)
    requires CanMutate(s, m, a)
    ensures var t := Mutated(p, s, m, a);
      && |t.muts| == |s.muts| && |t.streams| == |s.streams| && t.sessions == s.sessions
      && (forall k: nat :: k < |s.muts| && k != m ==> t.muts[k] == s.muts[k])
      && (forall k: nat :: k < |s.streams| ==> t.streams[k].phase == s.streams[k].phase)
  {
  }

  lemma MutationAdvances<R>(p: Params<R>, s: State<R>, m: nat, a: MutateStep)
    requires CanMutate(s, m, a)
    ensures Advances(s.muts[m].phase, Mutated(p, s, m, a).muts[m].phase)
  {
  }

  /** A call files a resource fewer, or is on to its notification, or returns. */
  predicate Advances<R>(before: Phase<R>, after: Phase<R>) {
    && (before.Adding? || before.Replacing? || before.Deleting?)
    && (after.Returned? || after.Bumping? || (before.Adding? && after.Adding? && |after.todo| < |before.todo|))
  }

  lemma AdvancesLessWork<R>(before: Phase<R>, after: Phase<R>, n: nat)
    requires Advances(before, after)
    ensures MutatorWork(after, n) < MutatorWork(before, n)
  {
  }

  lemma TellingTouchesOne<R>(s: State<R>, m: nat, a: NotifyStep)
    requires CanTell(s, m, a)
    ensures var t := Told(s, m, a);
      && |t.muts| == |s.muts| && |t.streams| == |s.streams| && t.sessions == s.sessions
      && (forall k: nat :: k < |s.muts| && k != m ==> t.muts[k] == s.muts[k])
      && t.muts[m].phase == PhaseAfter(s.muts[m].phase, s.sessions, a)
  {
  }

  lemma TakeOne(all: set<nat>, i: nat)
    requires i in all
    ensures |all| == |all - {i}| + 1
  {
  }

  lemma PutOne(some: set<nat>, i: nat)
    ensures |some + {i}| <= |some| + 1
  {
    if i in some { assert some + {i} == some; }
  }

  /** A send pays for the push it may cause. */
  lemma PhaseLessWork<R>(ph: Phase<R>, sessions: set<nat>, a: NotifyStep)
    requires Ready(ph, a)
    ensures MutatorWork(PhaseAfter(ph, sessions, a), |sessions|) + (if a.TrySend? || a.WaitSend? then 5 else 1)
         <= MutatorWork(ph, |sessions|)
  {
    match a
    case TrySkip(i) =>
      TakeOne(ph.pending, i);
      PutOne(ph.blocked, i);
    case TrySend(i) => TakeOne(ph.pending, i);
    case WaitSend(i) => TakeOne(ph.blocked, i);
    case _ =>
  }

  lemma TellingWorks<R>(s: State<R>, m: nat, a: NotifyStep)
    requires CanTell(s, m, a)
    ensures Work(Told(s, m, a)) < Work(s)
  {
    var t := Told(s, m, a);
    TellingTouchesOne(s, m, a);
    PhaseLessWork(s.muts[m].phase, s.sessions, a);
    MutatorsWorkChanges(s.muts, t.muts, m, |s.sessions|);
    if a.TrySend? || a.WaitSend? {
      StreamsWorkChanges(s.streams, t.streams, a.i);
    } else {
      SamePhasesSameWork(s.streams, t.streams);
    }
  }

  lemma StreamWorks<R>(p: Params<R>, s: State<R>, i: nat, a: StreamStep<R>)
    requires CanStream(s, i, a) && (a.Build? || a.PushOk? || a.PushTimeout? || a.Hangup?)
    ensures Work(Streamed(p, s, i, a)) < Work(s)
  {
    var t := Streamed(p, s, i, a);
    StreamsWorkChanges(s.streams, t.streams, i);
    assert |t.sessions| <= |s.sessions|;
    FewerSessionsLessWork(s.muts, |s.sessions|, |t.sessions|);
  }

  lemma InternalStepsWork<R>(p: Params<R>, s: State<R>, step: Step<R>)
    requires Enabled(s, step) && Internal(step)
    ensures Work(Apply(p, s, step)) < Work(s)
  {
    match step
    case Mutate(m, a) => MutationWorks(p, s, m, a);
    case Tell(m, a) => TellingWorks(s, m, a);
    case Stream(i, a) => StreamWorks(p, s, i, a);
  }

  /* ---- Something can always happen ---- */

  /** A step that needs neither the environment nor a notifier giving up. */
  predicate Unforced<R>(step: Step<R>) {
    Internal(step) && !(step.Tell? && step.telling.WaitTimeout?)
  }

  /** A session a notifier waits for is receiving, or is in the middle of a push that will
      end without anybody's help, or has returned and left a drainer behind. */
  lemma WaitedForStreamMoves<R>(s: State<R>, m: nat, i: nat) returns (step: Step<R>)
    requires Sessions(s) && m < |s.muts| && s.muts[m].phase.Waiting? && i in s.muts[m].phase.blocked
    ensures Enabled(s, step) && Unforced(step)
    ensures step == Tell(m, WaitSend(i)) || (step.Stream? && step.i == i && !step.streaming.Hangup?)
  {
    var c := s.streams[i];
    if c.phase.Building? {
      var entries := SnapshotExists(s.resources, c.local.subscription);
      step := Stream(i, Build(entries));
    } else if c.phase.Sending? {
      step := Stream(i, PushTimeout);
    } else {
      step := Tell(m, WaitSend(i));
    }
  }

  lemma BusyStreamMoves<R>(s: State<R>, i: nat) returns (step: Step<R>)
    requires Sessions(s) && i < |s.streams|
    requires !s.streams[i].phase.Idle? && !s.streams[i].phase.Closed?
    requires s.holder == FREE || !s.streams[i].phase.Exiting?
    ensures Enabled(s, step) && Unforced(step)
  {
    var c := s.streams[i];
    if c.phase.Building? {
      var entries := SnapshotExists(s.resources, c.local.subscription);
      step := Stream(i, Build(entries));
    } else {
      step := Stream(i, if c.phase.Sending? then PushTimeout else Hangup);
    }
  }

  lemma HolderMoves<R>(s: State<R>) returns (step: Step<R>)
    requires Sessions(s) && s.holder != FREE
    ensures Enabled(s, step) && Unforced(step)
  {
    var m: nat := s.holder;
    var ph := s.muts[m].phase;
    if ph.Trying? {
      if ph.pending == {} {
        step := Tell(m, TryDone);
      } else {
        var i :| i in ph.pending;
        step := Tell(m, TrySkip(i));
      }
    } else if ph.blocked == {} {
      step := Tell(m, WaitDone);
    } else {
      var i :| i in ph.blocked;
      step := WaitedForStreamMoves(s, m, i);
    }
  }

  lemma MutatorMoves<R>(s: State<R>, m: nat) returns (step: Step<R>)
    requires Sessions(s) && s.holder == FREE && m < |s.muts| && !s.muts[m].phase.Returned?
    ensures Enabled(s, step) && Unforced(step)
  {
    var ph := s.muts[m].phase;
    assert !Holding(ph);
    match ph
    case Adding(todo, _) => step := Mutate(m, if todo == [] then FileDone else FileNext);
    case Replacing(_) => step := Mutate(m, ReplaceNow);
    case Deleting(_) => step := Mutate(m, DeleteNow);
    case Bumping(_) => step := Tell(m, Bump);
    case Locking(_) => step := Tell(m, Lock);
  }

  /** Unless everything is at rest, something can move, and no notifier has to time out
      for it. */
  lemma NoDeadlock<R>(s: State<R>) returns (step: Step<R>)
    requires Sessions(s) && !AtRest(s)
    ensures Enabled(s, step) && Unforced(step)
  {
    if s.holder != FREE {
      step := HolderMoves(s);
    } else if m: nat :| m < |s.muts| && !s.muts[m].phase.Returned? {
      step := MutatorMoves(s, m);
    } else {
      var i: nat :| i < |s.streams| && !s.streams[i].phase.Idle? && !s.streams[i].phase.Closed?;
      step := BusyStreamMoves(s, i);
    }
  }
}
