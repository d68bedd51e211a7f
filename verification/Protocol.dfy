/** The manager, its mutators and its streams as one transition system: any number of
    Add/Replace/Delete calls and of client streams, one step for every critical section
    and every channel rendezvous, in every order. */
module Protocol {
  import opened Registry
  import opened StreamCore
  import Text

  /** Where a mutating call stands. */
  datatype Phase<R> =
    | Adding(todo: seq<R>, changed: set<string>)   // Add: resources still to file
    | Replacing(rs: seq<R>)                        // Replace: before its critical section
    | Deleting(name: string)                       // Delete: before its critical section
    | Bumping(changed: set<string>)                // notify: before the version bump
    | Locking(names: set<string>)                  // notify: before taking sessionsMu
    | Trying(names: set<string>, pending: set<nat>, blocked: set<nat>)   // first pass
    | Waiting(names: set<string>, blocked: set<nat>)                     // second pass
    | Returned

  datatype Mutator<R> = Mutator(call: Call<R>, phase: Phase<R>)

  /** One change of the resource map, and the mutator that made it. */
  datatype Write<R> = Write(author: nat, change: Change<R>)
  datatype Change<R> = Filed(name: string, value: R) | Reset(rs: seq<R>) | Removed(name: string)

  /** A response as BuildDiscoveryResponse made it; `at` counts the writes before it. */
  datatype Built<R> = Built(version: nat, want: seq<string>, entries: seq<Entry<R>>, at: nat)

  /** Idle: in the select. Building: about to call BuildDiscoveryResponse, because of an
      update to the names in `cause`, or of a request. Sending: offering the last response
      built to resCh. Exiting: returned, draining its channel and wanting sessionsMu.
      Closed: removed from the sessions, channel closed. */
  datatype ConnPhase = Idle | Building(cause: set<string>) | Sending | Exiting | Closed

  /** A stream. `lost` collects names of updates it was never sent since its last response;
      `widened` says that a request has widened the subscription since. */
  datatype Conn<R> = Conn(
    local: StreamState, phase: ConnPhase, built: seq<Built<R>>, delivered: seq<Built<R>>,
    lost: set<string>, widened: bool)

  /** sessionsMu is held by the mutator `holder`, if any. Registering and leaving take it
      and give it back within one step, and resourcesMu is never held across a step. */
  datatype State<R> = State(
    resources: map<string, R>, version: nat, sessions: set<nat>, holder: int, panicked: bool,
    muts: seq<Mutator<R>>, streams: seq<Conn<R>>,
    writes: seq<Write<R>>, bumps: seq<nat>)

  const FREE := -1

  datatype Params<!R> = Params(kind: Kind<R>, typeUrl: string, prefix: string)

  function Initial<R>(): State<R> {
    State(map[], 0, {}, FREE, false, [], [], [], [])
  }

  /** Steps of a mutator before notify. */
  datatype MutateStep = FileNext | FileDone | ReplaceNow | DeleteNow

  /** Steps of a mutator inside notify. The first pass tries every session without waiting
      (a send may be skipped even if the stream is about to receive); the second waits. */
  datatype NotifyStep =
    | Bump | Lock
    | TrySend(i: nat) | TrySkip(i: nat) | TryDone
    | WaitSend(i: nat) | WaitDone | WaitTimeout

  /** Steps of a stream, its client and its clock. */
  datatype StreamStep<R> =
    | Ask(req: Request) | Clock(expired: set<string>) | Leave(why: Exit)
    | Build(entries: seq<Entry<R>>) | PushOk(nonce: string) | PushTimeout | Hangup

  datatype Step<R> =
    | Start(call: Call<R>)
    | Join
    | Mutate(m: nat, mutation: MutateStep)
    | Tell(m: nat, telling: NotifyStep)
    | Stream(i: nat, streaming: StreamStep<R>)

  /* ---- Helpers of the steps ---- */

  function SetMut<R>(s: State<R>, m: nat, phase: Phase<R>): State<R>
    requires m < |s.muts|
  {
    s.(muts := s.muts[m := s.muts[m].(phase := phase)])
  }

  function SetConn<R>(s: State<R>, i: nat, c: Conn<R>): State<R>
    requires i < |s.streams|
  {
    s.(streams := s.streams[i := c])
  }

  /** notify returns at once when nothing changed. */
  function Notify<R>(changed: set<string>): Phase<R> {
    if changed == {} then Returned else Bumping(changed)
  }

  function LoseAll<R>(c: Conn<R>, names: set<string>): Conn<R> {
    c.(lost := c.lost + names)
  }

  function Lose<R>(streams: seq<Conn<R>>, who: set<nat>, names: set<string>): (r: seq<Conn<R>>)
    ensures |r| == |streams|
    ensures forall i :: 0 <= i < |r| ==> r[i] == if i in who then LoseAll(streams[i], names) else streams[i]
  {
    seq(|streams|, i requires 0 <= i < |streams| => if i in who then LoseAll(streams[i], names) else streams[i])
  }

  function LoseEveryone<R>(streams: seq<Conn<R>>, names: set<string>): (r: seq<Conn<R>>)
    ensures |r| == |streams|
    ensures forall i :: 0 <= i < |r| ==> r[i] == LoseAll(streams[i], names)
  {
    seq(|streams|, i requires 0 <= i < |streams| => LoseAll(streams[i], names))
  }

  /** A stream in its select, or an exiting one with its drainer, takes what it is sent. */
  predicate Receptive<R>(c: Conn<R>) {
    c.phase.Idle? || c.phase.Exiting? || c.phase.Closed?
  }

  /** The rendezvous on a session channel. A stream in its select goes on to push if the
      update is relevant; a drainer swallows it; a closed channel makes the sender panic. */
  function Receive<R>(s: State<R>, i: nat, names: set<string>): State<R>
    requires i < |s.streams|
  {
    var c := s.streams[i];
    if c.phase.Closed? then s.(panicked := true)
    else if c.phase.Idle? && Relevant(c.local.subscription, names) then
      SetConn(s, i, c.(phase := Building(names)))
    else s
  }

  function Exit<R>(c: Conn<R>, local: StreamState): Conn<R> {
    c.(local := local, phase := Exiting)
  }

  /** The later subscription wants something that the earlier one does not. */
  predicate Widens(earlier: seq<string>, later: seq<string>) {
    earlier != [] && (later == [] || exists n | n in later :: n !in earlier)
  }

  function OnRequest<R>(p: Params<R>, c: Conn<R>, req: Request): Conn<R> {
    var local := Admit(c.local, req);
    var c' := c.(widened := c.widened || Widens(c.local.subscription, local.subscription));
    match Judge(p.typeUrl, local, req)
    case Refuse(why) => Exit(c', Close(local, why))
    case Settle(tx) => c'.(local := SettleTx(local, tx, req))
    case Resend => c'.(local := local, phase := Building({}))
  }

  function Label<R>(p: Params<R>, version: nat): string {
    p.prefix + Text.Itoa(version)
  }

  function OnBuild<R>(p: Params<R>, s: State<R>, i: nat, entries: seq<Entry<R>>): Conn<R>
    requires i < |s.streams|
  {
    var c := s.streams[i];
    if Buildable(p.kind, entries) then
      c.(phase := Sending, lost := {}, widened := false,
         built := c.built + [Built(s.version, c.local.subscription, entries, |s.writes|)])
    else
      Exit(c, Push(c.local, BuildFailed))
  }

  function OnPushOk<R>(p: Params<R>, c: Conn<R>, nonce: string): Conn<R>
    requires c.built != []
  {
    var b := c.built[|c.built| - 1];
    c.(phase := Idle, delivered := c.delivered + [b],
       local := Push(c.local, Pushed(nonce, Label(p, b.version))))
  }

  /** The first resource still to file: filed if it validates; otherwise the call returns,
      and what it has changed so far is announced to nobody. */
  function OnFileNext<R>(p: Params<R>, s: State<R>, m: nat): State<R>
    requires m < |s.muts| && s.muts[m].phase.Adding? && s.muts[m].phase.todo != []
  {
    var ph := s.muts[m].phase;
    var r := ph.todo[0];
    var n := p.kind.name(r);
    if p.kind.valid(r) then
      SetMut(s, m, Adding(ph.todo[1..], ph.changed + {n}))
      .(resources := Put(p.kind, s.resources, r), writes := s.writes + [Write(m, Filed(n, r))])
    else
      SetMut(s, m, Returned).(streams := LoseEveryone(s.streams, ph.changed))
  }

  /** Replacing nothing by nothing changes nothing, so no write is recorded for it. */
  function OnReplace<R>(p: Params<R>, s: State<R>, m: nat): State<R>
    requires m < |s.muts| && s.muts[m].phase.Replacing?
  {
    var rs := s.muts[m].phase.rs;
    var changed := s.resources.Keys + Names(p.kind, rs);
    if !AllValid(p.kind, rs) || changed == {} then SetMut(s, m, Returned)
    else
      SetMut(s, m, Notify(changed))
      .(resources := PutAll(p.kind, map[], rs), writes := s.writes + [Write(m, Reset(rs))])
  }

  function OnDelete<R>(s: State<R>, m: nat): State<R>
    requires m < |s.muts| && s.muts[m].phase.Deleting?
  {
    var n := s.muts[m].phase.name;
    if n in s.resources then
      SetMut(s, m, Notify({n})).(resources := s.resources - {n}, writes := s.writes + [Write(m, Removed(n))])
    else SetMut(s, m, Returned)
  }

  function FirstPhase<R>(call: Call<R>): Phase<R> {
    match call
    case Add(rs) => Adding(rs, {})
    case Replace(rs) => Replacing(rs)
    case Delete(name) => Deleting(name)
  }

  /* ---- The transition relation ---- */

  predicate CanMutate<R>(s: State<R>, m: nat, a: MutateStep) {
    && m < |s.muts|
    && var ph := s.muts[m].phase;
       match a
       case FileNext => ph.Adding? && ph.todo != []
       case FileDone => ph.Adding? && ph.todo == []
       case ReplaceNow => ph.Replacing?
       case DeleteNow => ph.Deleting?
  }

  function Mutated<R>(p: Params<R>, s: State<R>, m: nat, a: MutateStep): State<R>
    requires CanMutate(s, m, a)
  {
    match a
    case FileNext => OnFileNext(p, s, m)
    case FileDone => SetMut(s, m, Notify(s.muts[m].phase.changed))
    case ReplaceNow => OnReplace(p, s, m)
    case DeleteNow => OnDelete(s, m)
  }

  /** The mutator is at the point of notify where it does this. */
  predicate Ready<R>(ph: Phase<R>, a: NotifyStep) {
    match a
    case Bump => ph.Bumping?
    case Lock => ph.Locking?
    case TrySend(i) => ph.Trying? && i in ph.pending
    case TrySkip(i) => ph.Trying? && i in ph.pending
    case TryDone => ph.Trying? && ph.pending == {}
    case WaitSend(i) => ph.Waiting? && i in ph.blocked
    case WaitDone => ph.Waiting? && ph.blocked == {}
    case WaitTimeout => ph.Waiting? && ph.blocked != {}
  }

  function PhaseAfter<R>(ph: Phase<R>, sessions: set<nat>, a: NotifyStep): Phase<R>
    requires Ready(ph, a)
  {
    match a
    case Bump => Locking(ph.changed)
    case Lock => Trying(ph.names, sessions, {})
    case TrySend(i) => ph.(pending := ph.pending - {i})
    case TrySkip(i) => ph.(pending := ph.pending - {i}, blocked := ph.blocked + {i})
    case TryDone => Waiting(ph.names, ph.blocked)
    case WaitSend(i) => ph.(blocked := ph.blocked - {i})
    case WaitDone => Returned
    case WaitTimeout => Returned
  }

  predicate CanTell<R>(s: State<R>, m: nat, a: NotifyStep) {
    && m < |s.muts| && Ready(s.muts[m].phase, a)
    && match a
       case Lock => s.holder == FREE
       case TrySend(i) => i < |s.streams| && Receptive(s.streams[i])
       case WaitSend(i) => i < |s.streams| && Receptive(s.streams[i])
       case _ => true
  }

  function Told<R>(s: State<R>, m: nat, a: NotifyStep): State<R>
    requires CanTell(s, m, a)
  {
    var ph := s.muts[m].phase;
    var t := SetMut(s, m, PhaseAfter(ph, s.sessions, a));
    match a
    case Bump => t.(version := s.version + 1, bumps := s.bumps + [m])
    case Lock => t.(holder := m)
    case TrySend(i) => Receive(t, i, ph.names)
    case TrySkip(i) => t
    case TryDone => t
    case WaitSend(i) => Receive(t, i, ph.names)
    case WaitDone => t.(holder := FREE)
    case WaitTimeout => t.(holder := FREE, streams := Lose(s.streams, ph.blocked, ph.names))
  }

  ghost predicate CanStream<R>(s: State<R>, i: nat, a: StreamStep<R>) {
    && i < |s.streams|
    && var c := s.streams[i];
       match a
       case Ask(_) => c.phase.Idle?
       case Clock(_) => c.phase.Idle?
       case Leave(_) => c.phase.Idle?
       case Build(entries) => c.phase.Building? && IsSnapshot(s.resources, c.local.subscription, entries)
       case PushOk(_) => c.phase.Sending? && c.built != []
       case PushTimeout => c.phase.Sending?
       case Hangup => c.phase.Exiting? && s.holder == FREE
  }

  ghost function ConnAfter<R>(p: Params<R>, s: State<R>, i: nat, a: StreamStep<R>): Conn<R>
    requires CanStream(s, i, a)
  {
    var c := s.streams[i];
    match a
    case Ask(req) => OnRequest(p, c, req)
    case Clock(expired) => c.(local := Sweep(c.local, expired))
    case Leave(why) => Exit(c, Close(c.local, why))
    case Build(entries) => OnBuild(p, s, i, entries)
    case PushOk(nonce) => OnPushOk(p, c, nonce)
    case PushTimeout => Exit(c, Push(c.local, TimedOut))
    case Hangup => c.(phase := Closed)
  }

  ghost function Streamed<R>(p: Params<R>, s: State<R>, i: nat, a: StreamStep<R>): State<R>
    requires CanStream(s, i, a)
  {
    SetConn(s, i, ConnAfter(p, s, i, a)).(sessions := if a.Hangup? then s.sessions - {i} else s.sessions)
  }

  function Started<R>(s: State<R>, call: Call<R>): State<R> {
    s.(muts := s.muts + [Mutator(call, FirstPhase(call))])
  }

  function Joined<R>(s: State<R>): State<R> {
    s.(sessions := s.sessions + {|s.streams|}, streams := s.streams + [Conn(FRESH, Idle, [], [], {}, false)])
  }

  ghost predicate Enabled<R>(s: State<R>, step: Step<R>) {
    match step
    case Start(_) => true
    case Join => s.holder == FREE
    case Mutate(m, a) => CanMutate(s, m, a)
    case Tell(m, a) => CanTell(s, m, a)
    case Stream(i, a) => CanStream(s, i, a)
  }

  ghost function Apply<R>(p: Params<R>, s: State<R>, step: Step<R>): State<R>
    requires Enabled(s, step)
  {
    match step
    case Start(call) => Started(s, call)
    case Join => Joined(s)
    case Mutate(m, a) => Mutated(p, s, m, a)
    case Tell(m, a) => Told(s, m, a)
    case Stream(i, a) => Streamed(p, s, i, a)
  }

  /** t is reached from s by these steps. */
  ghost predicate Runs<R>(p: Params<R>, s: State<R>, steps: seq<Step<R>>, t: State<R>)
    decreases |steps|
  {
    if steps == [] then s == t
    else Enabled(s, steps[0]) && Runs(p, Apply(p, s, steps[0]), steps[1..], t)
  }
}
