/** What notifiers say, and to whom: each call announces exactly the names it has changed, and
    every session hears of it once. */
module ProtocolTelling {
  import opened Registry
  import opened StreamCore
  import opened Protocol
  import opened ProtocolHistory
  import opened ProtocolRuns
  import opened ProtocolSafety

  /* ---- Once to everyone ---- */

  /** The sessions to which the mutator sends its update in these steps, with repetition. */
  function SentIn<R>(step: Step<R>, m: nat): multiset<nat> {
    match step
    case Tell(k, TrySend(i)) => if k == m then multiset{i} else multiset{}
    case Tell(k, WaitSend(i)) => if k == m then multiset{i} else multiset{}
    case _ => multiset{}
  }

  function Sent<R>(steps: seq<Step<R>>, m: nat): multiset<nat> {
    if steps == [] then multiset{} else SentIn(steps[0], m) + Sent(steps[1..], m)
  }

  predicate GivesUp<R>(step: Step<R>, m: nat) {
    step.Tell? && step.m == m && step.telling.WaitTimeout?
  }

  predicate GaveUp<R(==)>(steps: seq<Step<R>>, m: nat) {
    exists k :: 0 <= k < |steps| && GivesUp(steps[k], m)
  }

  /** The sessions registered when the notifier took sessionsMu are those it has served and
      those it still has to, each once; when it is done it has served them all, unless it has
      given up. */
  ghost predicate Tally<R>(registered: set<nat>, names: set<string>, sent: multiset<nat>, gaveUp: bool, ph: Phase<R>) {
    match ph
    case Trying(ns, pending, blocked) =>
      ns == names && !gaveUp && sent + multiset(pending) + multiset(blocked) == multiset(registered)
    case Waiting(ns, blocked) => ns == names && !gaveUp && sent + multiset(blocked) == multiset(registered)
    case Returned => if gaveUp then sent <= multiset(registered) else sent == multiset(registered)
    case _ => false
  }

  lemma TellingTallies<R>(
    s: State<R>, m: nat, a: NotifyStep, registered: set<nat>, names: set<string>, sent: multiset<nat>, gaveUp: bool)
    requires CanTell(s, m, a) && Tally(registered, names, sent, gaveUp, s.muts[m].phase)
    ensures var step: Step<R> := Tell(m, a);
      Tally(registered, names, sent + SentIn(step, m), gaveUp || GivesUp(step, m), PhaseAfter(s.muts[m].phase, s.sessions, a))
  {
    var ph := s.muts[m].phase;
    match a
    case TrySend(i) => assert multiset(ph.pending) == multiset(ph.pending - {i}) + multiset{i};
    case TrySkip(i) =>
      assert multiset(ph.pending) == multiset(ph.pending - {i}) + multiset{i};
      assert multiset(registered)[i] <= 1;
      assert i !in ph.blocked;
      assert multiset(ph.blocked + {i}) == multiset(ph.blocked) + multiset{i};
    case WaitSend(i) => assert multiset(ph.blocked) == multiset(ph.blocked - {i}) + multiset{i};
    case Bump | Lock | TryDone | WaitDone | WaitTimeout =>
  }

  lemma StepTallies<R>(
    p: Params<R>, s: State<R>, step: Step<R>, m: nat,
    registered: set<nat>, names: set<string>, sent: multiset<nat>, gaveUp: bool)
    requires Enabled(s, step) && m < |s.muts| && Tally(registered, names, sent, gaveUp, s.muts[m].phase)
    ensures m < |Apply(p, s, step).muts|
    ensures Tally(registered, names, sent + SentIn(step, m), gaveUp || GivesUp(step, m), Apply(p, s, step).muts[m].phase)
  {
    if step.Tell? && step.m == m {
      TellingTallies(s, m, step.telling, registered, names, sent, gaveUp);
      TellingPhase(s, m, step.telling);
    } else if step.Tell? {
      TellingFrame(s, step.m, step.telling);
    } else if step.Mutate? {
      MutationWrites(p, s, step.m, step.mutation);
    }
  }

  lemma TellingPhase<R>(s: State<R>, m: nat, a: NotifyStep)
    requires CanTell(s, m, a)
    ensures Told(s, m, a).muts == s.muts[m := s.muts[m].(phase := PhaseAfter(s.muts[m].phase, s.sessions, a))]
  {
  }

  lemma {:induction false} RunTallies<R>(
    p: Params<R>, s: State<R>, steps: seq<Step<R>>, t: State<R>, m: nat,
    registered: set<nat>, names: set<string>, sent: multiset<nat>, gaveUp: bool)
    requires Runs(p, s, steps, t) && m < |s.muts| && Tally(registered, names, sent, gaveUp, s.muts[m].phase)
    ensures m < |t.muts|
    ensures Tally(registered, names, sent + Sent(steps, m), gaveUp || GaveUp(steps, m), t.muts[m].phase)
    decreases |steps|
  {
    if steps != [] {
      var now, gave := sent + SentIn(steps[0], m), gaveUp || GivesUp(steps[0], m);
      StepTallies(p, s, steps[0], m, registered, names, sent, gaveUp);
      RunTallies(p, Apply(p, s, steps[0]), steps[1..], t, m, registered, names, now, gave);
      GaveUpFront(steps, m);
      assert now + Sent(steps[1..], m) == sent + Sent(steps, m);
    } else {
      assert sent + Sent(steps, m) == sent;
    }
  }

  lemma GaveUpFront<R>(steps: seq<Step<R>>, m: nat)
    requires steps != []
    ensures GaveUp(steps, m) <==> GivesUp(steps[0], m) || GaveUp(steps[1..], m)
  {
    if GaveUp(steps[1..], m) {
      var k :| 0 <= k < |steps| - 1 && GivesUp(steps[1..][k], m);
      assert steps[k + 1] == steps[1..][k];
    }
    if k :| 0 < k < |steps| && GivesUp(steps[k], m) {
      assert steps[1..][k - 1] == steps[k];
    }
  }

  /** From the moment a notifier takes sessionsMu: whatever else happens, it passes on the names
      it came with, to registered sessions only and to none of them twice; those it has not
      served yet are those it still waits for; and when it has returned it has served each of
      them, unless it gave up. */
  lemma ToldOnce<R>(p: Params<R>, s: State<R>, m: nat, steps: seq<Step<R>>, t: State<R>)
    requires CanTell(s, m, Lock) && Runs(p, Told(s, m, Lock), steps, t)
    ensures m < |t.muts| && var ph, sent := t.muts[m].phase, Sent(steps, m);
      && (forall i :: sent[i] <= if i in s.sessions then 1 else 0)
      && (Holding(ph) ==> forall i :: i in s.sessions ==> (sent[i] == 1 <==> i !in Unserved(ph)))
      && (ph.Trying? || ph.Waiting? ==> ph.names == s.muts[m].phase.names)
      && (ph.Returned? && !GaveUp(steps, m) ==> forall i :: i in s.sessions ==> sent[i] == 1)
  {
    var u, registered := Told(s, m, Lock), s.sessions;
    assert multiset{} + multiset(registered) + multiset({}) == multiset(registered);
    RunTallies(p, u, steps, t, m, registered, s.muts[m].phase.names, multiset{}, false);
    assert multiset{} + Sent(steps, m) == Sent(steps, m);
    forall i ensures multiset(registered)[i] == if i in registered then 1 else 0 {}
    TallyCounts(registered, Sent(steps, m), t.muts[m].phase);
  }

  lemma TallyCounts<R>(registered: set<nat>, sent: multiset<nat>, ph: Phase<R>)
    ensures ph.Trying? && sent + multiset(ph.pending) + multiset(ph.blocked) == multiset(registered) ==>
      forall i :: sent[i] <= multiset(registered)[i] && (i in registered ==> (sent[i] == 1 <==> i !in Unserved(ph)))
    ensures ph.Waiting? && sent + multiset(ph.blocked) == multiset(registered) ==>
      forall i :: sent[i] <= multiset(registered)[i] && (i in registered ==> (sent[i] == 1 <==> i !in Unserved(ph)))
  {
    if ph.Trying? && sent + multiset(ph.pending) + multiset(ph.blocked) == multiset(registered) {
      forall i
        ensures sent[i] <= multiset(registered)[i] && (i in registered ==> (sent[i] == 1 <==> i !in Unserved(ph)))
      {
        assert sent[i] + multiset(ph.pending)[i] + multiset(ph.blocked)[i] == multiset(registered)[i];
      }
    }
    if ph.Waiting? && sent + multiset(ph.blocked) == multiset(registered) {
      forall i
        ensures sent[i] <= multiset(registered)[i] && (i in registered ==> (sent[i] == 1 <==> i !in Unserved(ph)))
      {
        assert sent[i] + multiset(ph.blocked)[i] == multiset(registered)[i];
      }
    }
  }

  /* ---- What is announced ---- */

  /** The write files, removes or replaces something under this name, or removes everything
      that was filed by then, this among it. */
  ghost predicate Touches<R>(p: Params<R>, writes: seq<Write<R>>, w: nat, n: string)
    requires w < |writes|
  {
    match writes[w].change
    case Filed(name, _) => n == name
    case Removed(name) => n == name
    case Reset(rs) => n in Names(p.kind, rs) || n in Replay(p.kind, writes[..w])
  }

  ghost predicate Changed<R>(p: Params<R>, s: State<R>, m: nat, n: string) {
    exists w :: 0 <= w < |s.writes| && s.writes[w].author == m && Touches(p, s.writes, w, n)
  }

  /** The mutator has something to announce, or is collecting it. */
  predicate Speaks<R>(ph: Phase<R>) {
    ph.Adding? || ph.Bumping? || ph.Locking? || ph.Trying? || ph.Waiting?
  }

  function Announced<R>(ph: Phase<R>): set<string>
    requires Speaks(ph)
  {
    match ph
    case Adding(_, changed) => changed
    case Bumping(changed) => changed
    case Locking(names) => names
    case Trying(names, _, _) => names
    case Waiting(names, _) => names
  }

  ghost predicate AnnouncesItsOwn<R>(p: Params<R>, s: State<R>, m: nat)
    requires m < |s.muts|
  {
    var ph := s.muts[m].phase;
    && (Speaks(ph) ==> forall n :: n in Announced(ph) <==> Changed(p, s, m, n))
    && (ph.Replacing? || ph.Deleting? ==> forall n :: !Changed(p, s, m, n))
  }

  ghost predicate AllAnnounce<R>(p: Params<R>, s: State<R>) {
    forall m: nat :: m < |s.muts| ==> AnnouncesItsOwn(p, s, m)
  }

  lemma ChangedFrame<R>(p: Params<R>, s: State<R>, t: State<R>, m: nat, n: string)
    requires s.writes <= t.writes && forall w :: |s.writes| <= w < |t.writes| ==> t.writes[w].author != m
    ensures Changed(p, t, m, n) <==> Changed(p, s, m, n)
  {
    forall w | 0 <= w < |s.writes| ensures Touches(p, t.writes, w, n) == Touches(p, s.writes, w, n) {
      assert t.writes[..w] == s.writes[..w];
    }
    if Changed(p, s, m, n) {
      var w :| 0 <= w < |s.writes| && s.writes[w].author == m && Touches(p, s.writes, w, n);
      assert t.writes[w].author == m && Touches(p, t.writes, w, n);
    }
  }

  lemma ChangedGrows<R>(p: Params<R>, s: State<R>, t: State<R>, m: nat, n: string)
    requires |t.writes| == |s.writes| + 1 && s.writes <= t.writes && t.writes[|s.writes|].author == m
    ensures Changed(p, t, m, n) <==> Changed(p, s, m, n) || Touches(p, t.writes, |s.writes|, n)
  {
    forall w | 0 <= w < |s.writes| ensures Touches(p, t.writes, w, n) == Touches(p, s.writes, w, n) {
      assert t.writes[..w] == s.writes[..w];
    }
    if Changed(p, s, m, n) {
      var w :| 0 <= w < |s.writes| && s.writes[w].author == m && Touches(p, s.writes, w, n);
      assert t.writes[w].author == m && Touches(p, t.writes, w, n);
    }
  }

  lemma SpeaksOn<R>(p: Params<R>, s: State<R>, t: State<R>, m: nat)
    requires m < |s.muts| && m < |t.muts| && AnnouncesItsOwn(p, s, m)
    requires s.writes <= t.writes && forall w :: |s.writes| <= w < |t.writes| ==> t.writes[w].author != m
    requires t.muts[m].phase == s.muts[m].phase
      || (Speaks(s.muts[m].phase) && (Speaks(t.muts[m].phase) ==> Announced(t.muts[m].phase) == Announced(s.muts[m].phase))
          && !t.muts[m].phase.Replacing? && !t.muts[m].phase.Deleting?)
      || t.muts[m].phase.Returned?
    ensures AnnouncesItsOwn(p, t, m)
  {
    forall n ensures Changed(p, t, m, n) <==> Changed(p, s, m, n) {
      ChangedFrame(p, s, t, m, n);
    }
  }

  lemma WritingAnnounces<R>(p: Params<R>, s: State<R>, m: nat, a: MutateStep)
    requires Timeline(p, s) && CanMutate(s, m, a) && AnnouncesItsOwn(p, s, m)
    requires Mutated(p, s, m, a).writes != s.writes
    ensures AnnouncesItsOwn(p, Mutated(p, s, m, a), m)
  {
    var t := Mutated(p, s, m, a);
    MutationWrites(p, s, m, a);
    assert t.writes[..|s.writes|] == s.writes && s.resources == Replay(p.kind, s.writes);
    forall n ensures Changed(p, t, m, n) <==> Changed(p, s, m, n) || Touches(p, t.writes, |s.writes|, n) {
      ChangedGrows(p, s, t, m, n);
    }
  }

  lemma MutationAnnounces<R>(p: Params<R>, s: State<R>, m: nat, a: MutateStep)
    requires Timeline(p, s) && CanMutate(s, m, a) && AllAnnounce(p, s)
    ensures AllAnnounce(p, Mutated(p, s, m, a))
  {
    var t := Mutated(p, s, m, a);
    MutationFrame(p, s, m, a);
    MutationWrites(p, s, m, a);
    forall k: nat | k < |t.muts| ensures AnnouncesItsOwn(p, t, k) {
      if k == m && t.writes != s.writes {
        WritingAnnounces(p, s, m, a);
      } else {
        SpeaksOn(p, s, t, k);
      }
    }
  }

  lemma TellingAnnounces<R>(p: Params<R>, s: State<R>, m: nat, a: NotifyStep)
    requires CanTell(s, m, a) && AllAnnounce(p, s)
    ensures AllAnnounce(p, Told(s, m, a))
  {
    var t := Told(s, m, a);
    TellingFrame(s, m, a);
    TellingPhase(s, m, a);
    forall k: nat | k < |t.muts| ensures AnnouncesItsOwn(p, t, k) {
      SpeaksOn(p, s, t, k);
    }
  }

  lemma StartAnnounces<R>(p: Params<R>, s: State<R>, call: Call<R>)
    requires Timeline(p, s) && AllAnnounce(p, s)
    ensures AllAnnounce(p, Started(s, call))
  {
    var t := Started(s, call);
    forall k: nat | k < |t.muts| ensures AnnouncesItsOwn(p, t, k) {
      if k < |s.muts| {
        SpeaksOn(p, s, t, k);
      }
    }
  }

  lemma StepAnnounces<R>(p: Params<R>, s: State<R>, step: Step<R>)
    requires Timeline(p, s) && Enabled(s, step) && AllAnnounce(p, s)
    ensures AllAnnounce(p, Apply(p, s, step))
  {
    match step
    case Start(call) => StartAnnounces(p, s, call);
    case Mutate(m, a) => MutationAnnounces(p, s, m, a);
    case Tell(m, a) => TellingAnnounces(p, s, m, a);
    case Join | Stream(_, _) =>
      var t := Apply(p, s, step);
      forall k: nat | k < |t.muts| ensures AnnouncesItsOwn(p, t, k) {
        SpeaksOn(p, s, t, k);
      }
  }

  lemma {:induction false} RunAnnounces<R>(p: Params<R>, s: State<R>, steps: seq<Step<R>>, t: State<R>)
    requires Runs(p, s, steps, t) && Timeline(p, s) && AllAnnounce(p, s)
    ensures AllAnnounce(p, t)
    decreases |steps|
  {
    if steps != [] {
      StepKeepsTimeline(p, s, steps[0]);
      StepAnnounces(p, s, steps[0]);
      RunAnnounces(p, Apply(p, s, steps[0]), steps[1..], t);
    }
  }

  /** In every reachable state a call that has something to announce announces exactly the names
      that its own writes have filed, replaced or removed. */
  lemma AnnouncesExactly<R(!new)>(p: Params<R>, s: State<R>, m: nat)
    requires Reachable(p, s) && m < |s.muts| && Speaks(s.muts[m].phase)
    ensures forall n :: n in Announced(s.muts[m].phase) <==> Changed(p, s, m, n)
  {
    var steps :| Runs(p, Initial(), steps, s);
    RunAnnounces(p, Initial(), steps, s);
    assert AnnouncesItsOwn(p, s, m);
  }
}
