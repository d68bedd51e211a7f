/** Runs that show what the protocol does not promise. */
module ProtocolExamples {
  import opened Registry
  import opened StreamCore
  import opened Protocol
  import opened ProtocolConvergence
  import opened ProtocolProgress
  import opened ProtocolRuns

  /** Resources are bare names here, all valid except "bad". */
  const NAMED := Params(
    Kind((r: string) => r, (r: string) => r != "bad", (r: string) => true, (entries: seq<Entry<string>>) => true),
    "type", "v")

  lemma {:induction false} RunsSnoc<R>(p: Params<R>, s: State<R>, steps: seq<Step<R>>, t: State<R>, step: Step<R>)
    requires Runs(p, s, steps, t) && Enabled(t, step)
    ensures Runs(p, s, steps + [step], Apply(p, t, step))
    decreases |steps|
  {
    if steps == [] {
      assert Runs(p, Apply(p, s, step), [], Apply(p, s, step));
    } else {
      RunsSnoc(p, Apply(p, s, steps[0]), steps[1..], t, step);
      assert (steps + [step])[1..] == steps[1..] + [step];
    }
  }

  lemma Then(s: State<string>, step: Step<string>, t: State<string>)
    requires Reachable(NAMED, s) && Enabled(s, step) && t == Apply(NAMED, s, step)
    ensures Reachable(NAMED, t)
  {
    var steps :| Runs(NAMED, Initial(), steps, s);
    RunsSnoc(NAMED, Initial(), steps, s, step);
  }

  /** A stream that has just taken its first request and is about to answer it. */
  lemma Greet(node: string, names: seq<string>) returns (s: State<string>)
    ensures Reachable(NAMED, s)
    ensures s == State(map[], 0, {0}, FREE, false, [],
      [Conn(FRESH.(node := node, subscription := names), Building({}), [], [], {}, false)], [], [])
  {
    var s0 := Initial();
    assert Runs(NAMED, s0, [], s0);
    var s1 := Joined(s0);
    Then(s0, Join, s1);
    var ask := Ask(Request(node, names, "type", "", "", false));
    s := Streamed(NAMED, s1, 0, ask);
    Then(s1, Stream(0, ask), s);
  }

  /** The same after an empty response was built, and then after the client took it. */
  lemma Answer(node: string, names: seq<string>) returns (s: State<string>)
    ensures Reachable(NAMED, s)
    ensures s == State(map[], 0, {0}, FREE, false, [],
      [Conn(FRESH.(node := node, subscription := names), Sending, [Built(0, names, [], 0)], [], {}, false)], [], [])
  {
    var s1 := Greet(node, names);
    NothingToPick(names);
    assert CanStream(s1, 0, Build([]));
    s := Streamed(NAMED, s1, 0, Build([]));
    Then(s1, Stream(0, Build([])), s);
    assert s.streams[0].built == [Built(0, names, [], 0)];
    assert s.streams == [s.streams[0]];
  }

  lemma Introduce(node: string, names: seq<string>) returns (s: State<string>)
    ensures Reachable(NAMED, s)
    ensures s == State(map[], 0, {0}, FREE, false, [], s.streams, [], []) && |s.streams| == 1
    ensures s.streams[0].phase == Idle && s.streams[0].lost == {} && !s.streams[0].widened
    ensures s.streams[0].built == [Built(0, names, [], 0)]
    ensures var l := s.streams[0].local;
      l.node == node && l.subscription == names && l.txs.Keys == {"n"} && l.txs["n"].nonce == "n"
  {
    var s1 := Answer(node, names);
    s := Streamed(NAMED, s1, 0, PushOk("n"));
    Then(s1, Stream(0, PushOk("n")), s);
  }

  lemma {:induction false} NothingToPick(names: seq<string>)
    ensures Pick<string>(map[], names) == []
  {
    if names != [] { NothingToPick(names[..|names| - 1]); }
  }

  /** "a" is filed and its version not yet bumped. */
  lemma FileA(s: State<string>) returns (t: State<string>)
    requires Reachable(NAMED, s) && s == State(map[], 0, {0}, FREE, false, [], s.streams, [], [])
    ensures Reachable(NAMED, t)
    ensures t == State(map["a" := "a"], 0, {0}, FREE, false,
      [Mutator(Add(["a"]), Adding([], {"a"}))], s.streams, [Write(0, Filed("a", "a"))], [])
  {
    var s1 := Started(s, Add(["a"]));
    Then(s, Start(Add(["a"])), s1);
    t := Mutated(NAMED, s1, 0, FileNext);
    Then(s1, Mutate(0, FileNext), t);
    assert t.muts[0].phase == Adding([], {"a"}) by {
      assert ["a"][1..] == [] && {} + {"a"} == {"a"};
    }
    assert t.muts == [t.muts[0]];
  }

  ghost predicate SameVersionTwice(s: State<string>) {
    && |s.streams| == 1 && |s.streams[0].built| == 2
    && s.streams[0].built[0].version == s.streams[0].built[1].version
    && s.streams[0].built[0].entries != s.streams[0].built[1].entries
  }

  lemma BuildAgain(s: State<string>) returns (t: State<string>)
    requires Reachable(NAMED, s) && s.resources == map["a" := "a"] && s.version == 0
    requires |s.streams| == 1 && s.streams[0].phase == Building({}) && s.streams[0].local.subscription == []
    requires s.streams[0].built == [Built(0, [], [], 0)]
    ensures Reachable(NAMED, t) && SameVersionTwice(t)
  {
    var step := Build([Entry("a", "a")]);
    assert IsSnapshot(s.resources, [], [Entry("a", "a")]);
    t := Streamed(NAMED, s, 0, step);
    Then(s, Stream(0, step), t);
  }

  /** Two responses of one stream may carry the same version and different contents: a push
      can fall between a mutation and its version bump. */
  lemma SameVersionDifferentContents()
    ensures exists s :: Reachable(NAMED, s) && SameVersionTwice(s)
  {
    var s1 := Introduce("node", []);
    var s2 := FileA(s1);
    var again := Ask(Request("node", [], "type", "unknown", "", false));
    var s3 := Streamed(NAMED, s2, 0, again);
    Then(s2, Stream(0, again), s3);
    var s4 := BuildAgain(s3);
  }

  /** The resource "a" is on file, everything is at rest, and the client at stream 0, live
      and wanting it, was never given it. */
  ghost predicate LeftBehind(s: State<string>) {
    && Reachable(NAMED, s) && AtRest(s) && |s.streams| == 1 && "a" in s.resources
    && s.streams[0].phase.Idle? && s.streams[0].built != []
    && Wants(s.streams[0].local.subscription, "a") && !UpToDate(s.resources, s.streams[0], "a")
  }

  /** "a" is filed and its notifier is about to try the stream. */
  lemma Announce(s: State<string>) returns (t: State<string>)
    requires Reachable(NAMED, s) && s == State(map[], 0, {0}, FREE, false, [], s.streams, [], [])
    ensures Reachable(NAMED, t)
    ensures t == State(map["a" := "a"], 1, {0}, 0, false,
      [Mutator(Add(["a"]), Trying({"a"}, {0}, {}))], s.streams, [Write(0, Filed("a", "a"))], [0])
  {
    var s2 := FileA(s);
    var s3 := Mutated(NAMED, s2, 0, FileDone);
    Then(s2, Mutate(0, FileDone), s3);
    var s4 := Told(s3, 0, Bump);
    Then(s3, Tell(0, Bump), s4);
    t := Told(s4, 0, Lock);
    Then(s4, Tell(0, Lock), t);
    assert t.muts == [Mutator(Add(["a"]), Trying({"a"}, {0}, {}))];
  }

  /** Everything is at rest, nothing was lost, and the client holds the resource "a". */
  ghost predicate Served(s: State<string>) {
    && Reachable(NAMED, s) && AtRest(s) && |s.streams| == 1 && s.resources == map["a" := "a"]
    && s.streams[0].phase.Idle? && Following(s.streams[0]) && s.streams[0].lost == {} && s.streams[0].delivered != []
    && Entry("a", "a") in s.streams[0].delivered[|s.streams[0].delivered| - 1].entries
  }

  /** The announcement reaches the stream, which answers it. */
  lemma Announced(s: State<string>) returns (t: State<string>)
    requires Reachable(NAMED, s) && s == State(map[], 0, {0}, FREE, false, [], s.streams, [], [])
    requires |s.streams| == 1 && s.streams[0].phase.Idle? && s.streams[0].local.subscription == []
    ensures Reachable(NAMED, t)
    ensures t == State(map["a" := "a"], 1, {0}, FREE, false,
      [Mutator(Add(["a"]), Returned)], [s.streams[0].(phase := Building({"a"}))], [Write(0, Filed("a", "a"))], [0])
  {
    var s1 := Announce(s);
    var s2 := Told(s1, 0, TrySend(0));
    Then(s1, Tell(0, TrySend(0)), s2);
    var s3 := Told(s2, 0, TryDone);
    Then(s2, Tell(0, TryDone), s3);
    t := Told(s3, 0, WaitDone);
    Then(s3, Tell(0, WaitDone), t);
    assert t.muts == [Mutator(Add(["a"]), Returned)];
    assert t.streams == [s.streams[0].(phase := Building({"a"}))];
  }

  lemma AnswerA(s: State<string>) returns (t: State<string>)
    requires Reachable(NAMED, s) && s.resources == map["a" := "a"] && |s.streams| == 1
    requires s.streams[0].phase.Building? && s.streams[0].local.subscription == []
    ensures Reachable(NAMED, t) && |t.streams| == 1 && t.streams[0].phase.Sending?
    ensures t.resources == s.resources && t.muts == s.muts
    ensures t.streams[0] == s.streams[0].(phase := Sending, lost := {}, widened := false,
      built := s.streams[0].built + [Built(s.version, [], [Entry("a", "a")], |s.writes|)])
  {
    var build := Build([Entry("a", "a")]);
    assert IsSnapshot(s.resources, [], [Entry("a", "a")]);
    t := Streamed(NAMED, s, 0, build);
    Then(s, Stream(0, build), t);
  }

  /** When all goes well, what is filed after a client's first request reaches it. */
  lemma ClientServed()
    ensures exists s :: Served(s)
  {
    var s := Introduce("node", []);
    var s1 := Announced(s);
    var s2 := AnswerA(s1);
    var s3 := Streamed(NAMED, s2, 0, PushOk("m"));
    Then(s2, Stream(0, PushOk("m")), s3);
    assert Served(s3);
  }

  /** The notifier finds the stream busy and waits for it. */
  lemma AnnounceToBusy(s: State<string>) returns (t: State<string>)
    requires Reachable(NAMED, s) && s == State(map[], 0, {0}, FREE, false, [], s.streams, [], [])
    ensures Reachable(NAMED, t)
    ensures t == State(map["a" := "a"], 1, {0}, 0, false,
      [Mutator(Add(["a"]), Waiting({"a"}, {0}))], s.streams, [Write(0, Filed("a", "a"))], [0])
  {
    var s1 := Announce(s);
    var s2 := Told(s1, 0, TrySkip(0));
    Then(s1, Tell(0, TrySkip(0)), s2);
    t := Told(s2, 0, TryDone);
    Then(s2, Tell(0, TryDone), t);
    assert t.muts[0].phase == Waiting({"a"}, {0});
    assert t.muts == [Mutator(Add(["a"]), Waiting({"a"}, {0}))];
  }

  /** A notifier that times out leaves a client behind for good. */
  lemma TimeoutLeavesBehind()
    ensures exists s :: LeftBehind(s) && Following(s.streams[0])
  {
    var s := Introduce("node", []);
    var s3 := AnnounceToBusy(s);
    var s4 := Told(s3, 0, WaitTimeout);
    Then(s3, Tell(0, WaitTimeout), s4);
    assert LeftBehind(s4) && Following(s4.streams[0]);
  }

  /** So does an Add that meets an invalid resource after filing a valid one. */
  lemma InvalidResourceLeavesBehind()
    ensures exists s :: LeftBehind(s) && Following(s.streams[0])
  {
    var s := Introduce("node", []);
    var s1 := Started(s, Add(["a", "bad"]));
    Then(s, Start(Add(["a", "bad"])), s1);
    var s2 := Mutated(NAMED, s1, 0, FileNext);
    Then(s1, Mutate(0, FileNext), s2);
    var s3 := Mutated(NAMED, s2, 0, FileNext);
    Then(s2, Mutate(0, FileNext), s3);
    assert LeftBehind(s3) && Following(s3.streams[0]);
  }

  /** "a" is filed and announced to a stream that does not want it. */
  lemma AnnounceInVain(s: State<string>) returns (t: State<string>)
    requires Reachable(NAMED, s) && s == State(map[], 0, {0}, FREE, false, [], s.streams, [], [])
    requires |s.streams| == 1 && s.streams[0].phase.Idle? && s.streams[0].local.subscription == ["b"]
    ensures Reachable(NAMED, t)
    ensures t == State(map["a" := "a"], 1, {0}, FREE, false,
      [Mutator(Add(["a"]), Returned)], s.streams, [Write(0, Filed("a", "a"))], [0])
  {
    var s1 := Announce(s);
    var s2 := Told(s1, 0, TrySend(0));
    Then(s1, Tell(0, TrySend(0)), s2);
    assert s2.streams == s1.streams;
    var s3 := Told(s2, 0, TryDone);
    Then(s2, Tell(0, TryDone), s3);
    t := Told(s3, 0, WaitDone);
    Then(s3, Tell(0, WaitDone), t);
    assert t.muts == [Mutator(Add(["a"]), Returned)];
  }

  /** A client without a node id that changes its subscription while acknowledging is left
      behind although nothing was lost. */
  lemma AnonymousClientLeftBehind()
    ensures exists s :: LeftBehind(s) && s.streams[0].lost == {} && s.streams[0].widened
  {
    var s := Introduce("", ["b"]);
    var s4 := AnnounceInVain(s);
    var ack := Ask(Request("", ["a"], "type", "n", "v0", false));
    var s5 := Streamed(NAMED, s4, 0, ack);
    Then(s4, Stream(0, ack), s5);
    assert LeftBehind(s5);
  }
}
