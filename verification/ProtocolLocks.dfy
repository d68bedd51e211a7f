/** resourcesMu as a lock. Taking it is a step of its own here, and giving it back goes with
    the end of the critical section; sessionsMu has its owner in the protocol already. */
module ProtocolLocks {
  import opened Registry
  import opened StreamCore
  import opened Protocol
  import opened ProtocolHistory
  import opened ProtocolProgress
  import opened ProtocolRuns
  import opened ProtocolSafety

  /** Who holds resourcesMu. */
  datatype Owner = Nobody | Mutating(m: nat) | Pushing(i: nat)

  datatype Guarded<R> = Guarded(state: State<R>, owner: Owner)

  datatype LockStep<R> = Acquire(who: Owner) | Do(step: Step<R>)

  /** The next thing this mutator or stream does is to take resourcesMu. Validation comes
      before the lock is taken. */
  predicate AtLock<R>(p: Params<R>, s: State<R>, who: Owner) {
    match who
    case Nobody => false
    case Mutating(m) => m < |s.muts| && PhaseAtLock(p, s.muts[m].phase)
    case Pushing(i) => i < |s.streams| && s.streams[i].phase.Building?
  }

  predicate PhaseAtLock<R>(p: Params<R>, ph: Phase<R>) {
    match ph
    case Adding(todo, _) => todo != [] && p.kind.valid(todo[0])
    case Replacing(rs) => AllValid(p.kind, rs)
    case Deleting(_) => true
    case Bumping(_) => true
    case _ => false
  }

  function ActorOf<R>(step: Step<R>): Owner {
    match step
    case Mutate(m, _) => Mutating(m)
    case Tell(m, _) => Mutating(m)
    case Stream(i, _) => Pushing(i)
    case Start(_) => Nobody
    case Join => Nobody
  }

  /** The step is a critical section of resourcesMu. */
  predicate NeedsLock<R>(p: Params<R>, s: State<R>, step: Step<R>) {
    AtLock(p, s, ActorOf(step))
  }

  ghost predicate Can<R>(p: Params<R>, g: Guarded<R>, ls: LockStep<R>) {
    match ls
    case Acquire(who) => g.owner == Nobody && AtLock(p, g.state, who)
    case Do(step) => Enabled(g.state, step) && (NeedsLock(p, g.state, step) ==> g.owner == ActorOf(step))
  }

  ghost function After<R>(p: Params<R>, g: Guarded<R>, ls: LockStep<R>): Guarded<R>
    requires Can(p, g, ls)
  {
    match ls
    case Acquire(who) => g.(owner := who)
    case Do(step) => Guarded(Apply(p, g.state, step), if NeedsLock(p, g.state, step) then Nobody else g.owner)
  }

  ghost predicate LockedRun<R>(p: Params<R>, g: Guarded<R>, run: seq<LockStep<R>>, h: Guarded<R>)
    decreases |run|
  {
    if run == [] then g == h
    else Can(p, g, run[0]) && LockedRun(p, After(p, g, run[0]), run[1..], h)
  }

  /** What the run does apart from taking the lock. */
  function Erased<R>(run: seq<LockStep<R>>): seq<Step<R>> {
    if run == [] then [] else (if run[0].Do? then [run[0].step] else []) + Erased(run[1..])
  }

  /* ---- The same runs ---- */

  /** With the lock the system does nothing that the protocol does not allow. */
  lemma {:induction false} ErasedRuns<R>(p: Params<R>, g: Guarded<R>, run: seq<LockStep<R>>, h: Guarded<R>)
    requires LockedRun(p, g, run, h)
    ensures Runs(p, g.state, Erased(run), h.state)
    decreases |run|
  {
    if run != [] {
      ErasedRuns(p, After(p, g, run[0]), run[1..], h);
      if run[0].Do? {
        assert Erased(run)[1..] == Erased(run[1..]);
      } else {
        assert Erased(run) == Erased(run[1..]);
      }
    }
  }

  /** And it can do all that the protocol allows: the lock is taken before each critical
      section, and never missing afterwards. */
  lemma {:induction false} RunsAreLocked<R>(p: Params<R>, s: State<R>, steps: seq<Step<R>>, t: State<R>)
    returns (run: seq<LockStep<R>>)
    requires Runs(p, s, steps, t)
    ensures LockedRun(p, Guarded(s, Nobody), run, Guarded(t, Nobody)) && Erased(run) == steps
    decreases |steps|
  {
    if steps == [] {
      run := [];
    } else {
      var rest := RunsAreLocked(p, Apply(p, s, steps[0]), steps[1..], t);
      run := [Do(steps[0])] + rest;
      assert run[1..] == rest;
      if NeedsLock(p, s, steps[0]) {
        var g := Guarded(s, ActorOf(steps[0]));
        assert LockedRun(p, g, run, Guarded(t, Nobody));
        assert ([Acquire(ActorOf(steps[0]))] + run)[1..] == run;
        run := [Acquire(ActorOf(steps[0]))] + run;
      }
    }
  }

  ghost predicate LockReachable<R(!new)>(p: Params<R>, g: Guarded<R>) {
    exists run :: LockedRun(p, Guarded(Initial(), Nobody), run, g)
  }

  /** So every guarantee of the protocol holds of the system with the lock. */
  lemma LockedIsReachable<R(!new)>(p: Params<R>, g: Guarded<R>)
    requires LockReachable(p, g)
    ensures Reachable(p, g.state)
  {
    var run :| LockedRun(p, Guarded(Initial(), Nobody), run, g);
    ErasedRuns(p, Guarded(Initial(), Nobody), run, g);
  }

  /* ---- Who holds what ---- */

  /** Whoever holds resourcesMu is at its critical section. */
  ghost predicate Inside<R>(p: Params<R>, g: Guarded<R>) {
    g.owner != Nobody ==> AtLock(p, g.state, g.owner)
  }

  /** Steps of others do not move whoever is at the lock. */
  lemma OthersStay<R>(p: Params<R>, s: State<R>, step: Step<R>, who: Owner)
    requires Enabled(s, step) && AtLock(p, s, who) && ActorOf(step) != who
    ensures AtLock(p, Apply(p, s, step), who)
  {
    match step
    case Mutate(m, a) => MutationFrame(p, s, m, a); MutationTouchesOne(p, s, m, a);
    case Tell(m, a) => TellingTouchesOne(s, m, a); TellingFrame(s, m, a);
    case Stream(_, _) =>
    case Start(_) | Join =>
  }

  lemma StepKeepsInside<R>(p: Params<R>, g: Guarded<R>, ls: LockStep<R>)
    requires Inside(p, g) && Can(p, g, ls)
    ensures Inside(p, After(p, g, ls))
  {
    if ls.Do? && g.owner != Nobody && ActorOf(ls.step) != g.owner {
      OthersStay(p, g.state, ls.step, g.owner);
    }
  }

  lemma {:induction false} RunKeepsInside<R>(p: Params<R>, g: Guarded<R>, run: seq<LockStep<R>>, h: Guarded<R>)
    requires Inside(p, g) && LockedRun(p, g, run, h)
    ensures Inside(p, h)
    decreases |run|
  {
    if run != [] {
      StepKeepsInside(p, g, run[0]);
      RunKeepsInside(p, After(p, g, run[0]), run[1..], h);
    }
  }

  /** A mutator or stream that holds sessionsMu, or waits for it. */
  ghost predicate AtSessions<R>(s: State<R>, who: Owner) {
    match who
    case Nobody => false
    case Mutating(m) => m < |s.muts| && (s.holder == m || s.muts[m].phase.Locking?)
    case Pushing(i) => i < |s.streams| && s.streams[i].phase.Exiting?
  }

  /** The mutexes are never nested: nobody who holds one holds or waits for the other. */
  lemma NeverNested<R(!new)>(p: Params<R>, g: Guarded<R>, who: Owner)
    requires LockReachable(p, g)
    ensures !(g.owner == who && AtSessions(g.state, who))
    ensures !(AtSessions(g.state, who) && AtLock(p, g.state, who))
  {
    LockedIsReachable(p, g);
    ReachableInvariant(p, g.state);
    var run :| LockedRun(p, Guarded(Initial(), Nobody), run, g);
    RunKeepsInside(p, Guarded(Initial(), Nobody), run, g);
    if who.Mutating? && AtSessions(g.state, who) {
      assert Holding(g.state.muts[who.m].phase) <==> g.state.holder == who.m;
    }
  }

  /* ---- Progress ---- */

  /** Whoever is at the lock can do its critical section, given the lock. */
  lemma CriticalSection<R>(p: Params<R>, s: State<R>, who: Owner) returns (step: Step<R>)
    requires AtLock(p, s, who)
    ensures Enabled(s, step) && Unforced(step) && ActorOf(step) == who
  {
    match who
    case Mutating(m) =>
      match s.muts[m].phase {
        case Adding(_, _) => step := Mutate(m, FileNext);
        case Replacing(_) => step := Mutate(m, ReplaceNow);
        case Deleting(_) => step := Mutate(m, DeleteNow);
        case Bumping(_) => step := Tell(m, Bump);
      }
    case Pushing(i) =>
      var entries := SnapshotExists(s.resources, s.streams[i].local.subscription);
      step := Stream(i, Build(entries));
  }

  /** No deadlock with both mutexes: the holder of resourcesMu waits for nothing, and while
      nobody holds it, something can move or take it, unless everything is at rest. */
  lemma LocksNeverWedge<R(!new)>(p: Params<R>, g: Guarded<R>) returns (ls: LockStep<R>)
    requires LockReachable(p, g) && (g.owner != Nobody || !AtRest(g.state))
    ensures Can(p, g, ls) && (ls.Do? ==> Unforced(ls.step))
    ensures g.owner != Nobody ==> ls.Do? && ActorOf(ls.step) == g.owner && After(p, g, ls).owner == Nobody
  {
    if g.owner != Nobody {
      var run :| LockedRun(p, Guarded(Initial(), Nobody), run, g);
      RunKeepsInside(p, Guarded(Initial(), Nobody), run, g);
      var step := CriticalSection(p, g.state, g.owner);
      ls := Do(step);
    } else {
      LockedIsReachable(p, g);
      var step := NeverWedged(p, g.state);
      ls := if NeedsLock(p, g.state, step) then Acquire(ActorOf(step)) else Do(step);
    }
  }

  /** Steps left to the system and its lock. */
  function LockWork<R>(g: Guarded<R>): nat {
    2 * Work(g.state) + if g.owner == Nobody then 1 else 0
  }

  /** Left to itself the system stops, under every scheduler and with every order of taking
      the lock. */
  lemma {:induction false} LockedRunsAreBounded<R>(p: Params<R>, g: Guarded<R>, run: seq<LockStep<R>>, h: Guarded<R>)
    requires LockedRun(p, g, run, h) && forall k :: 0 <= k < |run| && run[k].Do? ==> Internal(run[k].step)
    ensures |run| + LockWork(h) <= LockWork(g)
    decreases |run|
  {
    if run != [] {
      if run[0].Do? {
        InternalStepsWork(p, g.state, run[0].step);
      }
      LockedRunsAreBounded(p, After(p, g, run[0]), run[1..], h);
    }
  }
}
