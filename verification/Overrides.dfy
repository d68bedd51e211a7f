/** Envoy clusters as far as overriding touches them, and how override rules change them. */
module Overrides {
  import opened Naming
  import opened Options
  import opened Slices

  datatype DiscoveryType = STATIC | STRICT_DNS | LOGICAL_DNS | EDS | ORIGINAL_DST

  /** The oneof: an enumerated type, or a custom extension by name. */
  datatype Discovery = Type(kind: DiscoveryType) | Custom(extension: string)

  /** A Duration message: whole seconds and the nanoseconds beyond them. */
  datatype Duration = Duration(seconds: int, nanos: int)

  /** One field of each sort that merging treats differently: a string, a oneof, a nested
      message, a repeated field, and a nested message that holds a repeated field. */
  datatype Cluster = Cluster(
    name: string, discovery: Option<Discovery>, timeout: Option<Duration>, filters: seq<string>,
    load: Option<Assignment>)

  /* ---- proto.Merge ---- */

  function MergeText(dst: string, src: string): string {
    if src == "" then dst else src
  }

  function MergeDiscovery(dst: Option<Discovery>, src: Option<Discovery>): Option<Discovery> {
    if src.None? then dst
    else if dst.Some? && dst.value.Custom? && src.value.Custom? then
      Some(Custom(MergeText(dst.value.extension, src.value.extension)))
    else src
  }

  function MergeNumber(dst: int, src: int): int {
    if src == 0 then dst else src
  }

  /** A nested message is merged field by field: seconds and nanos each overwrite unless they
      are zero. */
  function MergeTimeout(dst: Option<Duration>, src: Option<Duration>): Option<Duration> {
    if src.None? then dst else if dst.None? then src else
    Some(Duration(MergeNumber(dst.value.seconds, src.value.seconds), MergeNumber(dst.value.nanos, src.value.nanos)))
  }

  function MergeLoad(dst: Option<Assignment>, src: Option<Assignment>): Option<Assignment> {
    if src.None? then dst else if dst.None? then src else
    Some(Assignment(MergeText(dst.value.cluster, src.value.cluster), dst.value.groups + src.value.groups))
  }

  function Merge(dst: Cluster, src: Cluster): Cluster {
    Cluster(MergeText(dst.name, src.name), MergeDiscovery(dst.discovery, src.discovery),
      MergeTimeout(dst.timeout, src.timeout), dst.filters + src.filters, MergeLoad(dst.load, src.load))
  }

  /* ---- Rules ---- */

  datatype ServicePort = ServicePort(name: string, number: Int32, protocol: string)

  datatype Matcher = Matcher(clusterName: string, portName: string)

  datatype Rule = Rule(matchers: seq<Option<Matcher>>, override: Option<Cluster>, suppress: bool)

  /** A matcher looks at the cluster's name if it has one to compare, else at the port's. */
  predicate Evaluate(m: Option<Matcher>, name: string, port: Option<ServicePort>) {
    && m.Some? && port.Some?
    && if m.value.clusterName != "" then m.value.clusterName == name
       else m.value.portName != "" && m.value.portName == port.value.name
  }

  predicate Accepts(rule: Rule, name: string, port: Option<ServicePort>) {
    exists j :: 0 <= j < |rule.matchers| && Evaluate(rule.matchers[j], name, port)
  }

  /** The matcher gives this cluster name, or none and this port name. */
  predicate Suits(m: Matcher, name: string, portName: string) {
    if m.clusterName == "" then m.portName != "" && portName == m.portName else name == m.clusterName
  }

  /** Of several matchers any one will do; a matcher that is missing or empty fits nothing, and
      nothing fits a missing port. */
  lemma AcceptsIff(rule: Rule, name: string, port: Option<ServicePort>)
    ensures Accepts(rule, name, port) <==>
      exists m, p :: Some(m) in rule.matchers && port == Some(p) && Suits(m, name, p.name)
  {
    if m, p :| Some(m) in rule.matchers && port == Some(p) && Suits(m, name, p.name) {
      var j :| 0 <= j < |rule.matchers| && rule.matchers[j] == Some(m);
      assert Evaluate(rule.matchers[j], name, port);
    }
    if j :| 0 <= j < |rule.matchers| && Evaluate(rule.matchers[j], name, port) {
      assert rule.matchers[j] == Some(rule.matchers[j].value) && port == Some(port.value);
    }
  }

  /** ApplyOverride: rule after rule, each judged by the name the cluster has by then. None
      stands for a suppressed cluster. */
  function Fold(rules: seq<Rule>, c: Cluster, port: Option<ServicePort>): Option<Cluster> {
    if rules == [] then Some(c)
    else if !Accepts(rules[0], c.name, port) then Fold(rules[1..], c, port)
    else if rules[0].override.Some? then Fold(rules[1..], Merge(c, rules[0].override.value), port)
    else if rules[0].suppress then None
    else Fold(rules[1..], c, port)
  }

  /* ---- Filter, then merge ---- */

  predicate Suppressed(rules: seq<Rule>, name: string, port: Option<ServicePort>) {
    exists i :: 0 <= i < |rules| && Accepts(rules[i], name, port) && rules[i].override.None? && rules[i].suppress
  }

  /** The overrides whose matchers accept this name, in order. */
  function Selected(rules: seq<Rule>, name: string, port: Option<ServicePort>): seq<Cluster> {
    if rules == [] then [] else
    (if Accepts(rules[0], name, port) && rules[0].override.Some? then [rules[0].override.value] else [])
      + Selected(rules[1..], name, port)
  }

  function MergeAll(c: Cluster, overrides: seq<Cluster>): Cluster
    decreases |overrides|
  {
    if overrides == [] then c else MergeAll(Merge(c, overrides[0]), overrides[1..])
  }

  function AllFilters(overrides: seq<Cluster>): seq<string> {
    if overrides == [] then [] else overrides[0].filters + AllFilters(overrides[1..])
  }

  function Seconds(c: Cluster): int {
    if c.timeout.Some? then c.timeout.value.seconds else 0
  }

  function Nanos(c: Cluster): int {
    if c.timeout.Some? then c.timeout.value.nanos else 0
  }

  /** The last override to set a name. */
  predicate LastToName(overrides: seq<Cluster>, i: int) {
    0 <= i < |overrides| && overrides[i].name != "" && forall j :: i < j < |overrides| ==> overrides[j].name == ""
  }

  /** The last override to have a timeout, zero or not. */
  predicate LastToTime(overrides: seq<Cluster>, i: int) {
    && 0 <= i < |overrides| && overrides[i].timeout.Some?
    && forall j :: i < j < |overrides| ==> overrides[j].timeout.None?
  }

  function SecondsOf(cs: seq<Cluster>): seq<int> {
    seq(|cs|, i requires 0 <= i < |cs| => Seconds(cs[i]))
  }

  function NanosOf(cs: seq<Cluster>): seq<int> {
    seq(|cs|, i requires 0 <= i < |cs| => Nanos(cs[i]))
  }

  /** Numbers merged one after the other. */
  function MergeNumbers(n: int, ns: seq<int>): int
    decreases |ns|
  {
    if ns == [] then n else MergeNumbers(MergeNumber(n, ns[0]), ns[1..])
  }

  /** The last number that is not zero. */
  predicate LastNonZero(ns: seq<int>, i: int) {
    0 <= i < |ns| && ns[i] != 0 && forall j :: i < j < |ns| ==> ns[j] == 0
  }

  predicate AllZero(ns: seq<int>) {
    forall j :: 0 <= j < |ns| ==> ns[j] == 0
  }

  lemma {:induction false} LastNameWins(c: Cluster, overrides: seq<Cluster>, i: int)
    requires LastToName(overrides, i) || forall j :: 0 <= j < |overrides| ==> overrides[j].name == ""
    ensures MergeAll(c, overrides).name == if LastToName(overrides, i) then overrides[i].name else c.name
    decreases |overrides|
  {
    if overrides != [] {
      LastNameWins(Merge(c, overrides[0]), overrides[1..], i - 1);
    }
  }

  lemma {:induction false} TimeoutByNumbers(c: Cluster, overrides: seq<Cluster>)
    ensures Seconds(MergeAll(c, overrides)) == MergeNumbers(Seconds(c), SecondsOf(overrides))
    ensures Nanos(MergeAll(c, overrides)) == MergeNumbers(Nanos(c), NanosOf(overrides))
    decreases |overrides|
  {
    if overrides != [] {
      TimeoutByNumbers(Merge(c, overrides[0]), overrides[1..]);
      assert SecondsOf(overrides)[1..] == SecondsOf(overrides[1..]);
      assert NanosOf(overrides)[1..] == NanosOf(overrides[1..]);
    }
  }

  lemma {:induction false} LastNumberWins(n: int, ns: seq<int>, i: int)
    requires LastNonZero(ns, i) || AllZero(ns)
    ensures MergeNumbers(n, ns) == if LastNonZero(ns, i) then ns[i] else n
    decreases |ns|
  {
    if ns != [] {
      LastNumberWins(MergeNumber(n, ns[0]), ns[1..], i - 1);
    }
  }

  lemma {:induction false} ZeroIffAllZero(n: int, ns: seq<int>)
    ensures MergeNumbers(n, ns) == 0 <==> n == 0 && AllZero(ns)
    decreases |ns|
  {
    if ns != [] {
      ZeroIffAllZero(MergeNumber(n, ns[0]), ns[1..]);
      assert forall j :: 0 < j < |ns| ==> ns[j] == ns[1..][j - 1];
    }
  }

  lemma {:induction false} FiltersAppended(c: Cluster, overrides: seq<Cluster>)
    ensures MergeAll(c, overrides).filters == c.filters + AllFilters(overrides)
    decreases |overrides|
  {
    if overrides != [] {
      FiltersAppended(Merge(c, overrides[0]), overrides[1..]);
    }
  }

  lemma {:induction false} TimeoutAppears(c: Cluster, overrides: seq<Cluster>)
    ensures MergeAll(c, overrides).timeout.Some? <==>
      c.timeout.Some? || exists j :: 0 <= j < |overrides| && overrides[j].timeout.Some?
    decreases |overrides|
  {
    if overrides != [] {
      TimeoutAppears(Merge(c, overrides[0]), overrides[1..]);
      assert (exists j :: 0 <= j < |overrides| && overrides[j].timeout.Some?) <==>
        overrides[0].timeout.Some? || exists j :: 0 <= j < |overrides[1..]| && overrides[1..][j].timeout.Some? by {
        if j :| 0 < j < |overrides| && overrides[j].timeout.Some? { assert overrides[1..][j - 1] == overrides[j]; }
      }
    }
  }

  lemma {:induction false} MergeAllAppends(c: Cluster, overrides: seq<Cluster>, o: Cluster)
    ensures MergeAll(c, overrides + [o]) == Merge(MergeAll(c, overrides), o)
    decreases |overrides|
  {
    var all := overrides + [o];
    if overrides == [] {
      assert all[1..] == [];
    } else {
      MergeAllAppends(Merge(c, overrides[0]), overrides[1..], o);
      assert all[1..] == overrides[1..] + [o];
    }
  }

  lemma MergeLast(c: Cluster, overrides: seq<Cluster>)
    requires overrides != []
    ensures MergeAll(c, overrides) == Merge(MergeAll(c, overrides[..|overrides| - 1]), overrides[|overrides| - 1])
  {
    MergeAllAppends(c, overrides[..|overrides| - 1], overrides[|overrides| - 1]);
    assert overrides == overrides[..|overrides| - 1] + [overrides[|overrides| - 1]];
  }

  /* ---- The discovery type ---- */

  /** What the cluster and then the overrides say about discovery. */
  function Discoveries(c: Cluster, overrides: seq<Cluster>): seq<Option<Discovery>> {
    if overrides == [] then [c.discovery]
    else Discoveries(c, overrides[..|overrides| - 1]) + [overrides[|overrides| - 1].discovery]
  }

  predicate LastSet<T>(xs: seq<Option<T>>, i: int) {
    0 <= i < |xs| && xs[i].Some? && forall j :: i < j < |xs| ==> xs[j].None?
  }

  predicate SetsType(ds: seq<Option<Discovery>>, i: int) {
    0 <= i < |ds| && ds[i].Some? && ds[i].value.Type?
  }

  predicate NamesExtension(ds: seq<Option<Discovery>>, i: int) {
    0 <= i < |ds| && ds[i].Some? && ds[i].value.Custom? && ds[i].value.extension != ""
  }

  /** The last extension to be named, if no type has been set since. */
  predicate LastExtension(ds: seq<Option<Discovery>>, i: int) {
    NamesExtension(ds, i) && forall j :: i < j < |ds| ==> !NamesExtension(ds, j) && !SetsType(ds, j)
  }

  ghost predicate Extends(ds: seq<Option<Discovery>>, d: Option<Discovery>) {
    && d.Some? && d.value.Custom?
    && (forall j :: LastExtension(ds, j) ==> d.value.extension == ds[j].value.extension)
    && ((forall j :: !LastExtension(ds, j)) ==> d.value.extension == "")
  }

  /** Nothing set is nothing; the last to be set decides between a type and an extension; a
      type is taken as it is, an extension has the last name given since the last type. */
  ghost predicate Discovers(ds: seq<Option<Discovery>>, d: Option<Discovery>) {
    && ((forall i :: 0 <= i < |ds| ==> ds[i].None?) ==> d == None)
    && (forall i :: LastSet(ds, i) && SetsType(ds, i) ==> d == ds[i])
    && (forall i :: LastSet(ds, i) && !SetsType(ds, i) ==> Extends(ds, d))
  }

  lemma NothingMoreDiscovered(ds: seq<Option<Discovery>>, d: Option<Discovery>)
    requires Discovers(ds, d)
    ensures Discovers(ds + [None], d)
  {
    var ds' := ds + [None];
    forall i ensures LastSet(ds', i) <==> LastSet(ds, i) { SameLastSet(ds, i); }
    forall i ensures LastExtension(ds', i) <==> LastExtension(ds, i) { SameLastExtension(ds, None, i); }
    assert forall i :: 0 <= i < |ds| ==> ds'[i] == ds[i];
  }

  lemma SameLastSet(ds: seq<Option<Discovery>>, i: int)
    ensures LastSet(ds + [None], i) <==> LastSet(ds, i)
  {
    var ds' := ds + [None];
    assert forall j :: 0 <= j < |ds| ==> ds'[j] == ds[j];
  }

  lemma SameLastExtension(ds: seq<Option<Discovery>>, more: Option<Discovery>, i: int)
    requires more == None || more == Some(Custom(""))
    ensures LastExtension(ds + [more], i) <==> LastExtension(ds, i)
  {
    var ds' := ds + [more];
    forall j | 0 <= j < |ds| ensures NamesExtension(ds', j) == NamesExtension(ds, j) && SetsType(ds', j) == SetsType(ds, j) {
      assert ds'[j] == ds[j];
    }
    assert !NamesExtension(ds', |ds|) && !SetsType(ds', |ds|);
  }

  lemma {:induction false} SomeLastSet<T>(xs: seq<Option<T>>) returns (i: int)
    requires exists k :: 0 <= k < |xs| && xs[k].Some?
    ensures LastSet(xs, i)
  {
    var n := |xs| - 1;
    if xs[n].Some? {
      i := n;
    } else {
      var k :| 0 <= k < |xs| && xs[k].Some?;
      assert xs[..n][k].Some?;
      i := SomeLastSet(xs[..n]);
    }
  }

  /** An extension without a name adds nothing to an extension, and replaces a type. */
  lemma ExtensionDiscovered(ds: seq<Option<Discovery>>, d: Option<Discovery>, x: string)
    requires Discovers(ds, d)
    ensures Discovers(ds + [Some(Custom(x))], MergeDiscovery(d, Some(Custom(x))))
  {
    var ds' := ds + [Some(Custom(x))];
    var n := |ds|;
    assert LastSet(ds', n) && forall i :: LastSet(ds', i) ==> i == n;
    if x != "" {
      assert LastExtension(ds', n) && forall i :: LastExtension(ds', i) ==> i == n;
    } else {
      forall i ensures LastExtension(ds', i) <==> LastExtension(ds, i) { SameLastExtension(ds, Some(Custom("")), i); }
      assert forall i :: 0 <= i < n ==> ds'[i] == ds[i];
      if k :| 0 <= k < n && ds[k].Some? {
        var i := SomeLastSet(ds);
        assert SetsType(ds, i) ==> forall j :: !LastExtension(ds, j);
      }
    }
  }

  lemma DiscoveredOneMore(ds: seq<Option<Discovery>>, d: Option<Discovery>, more: Option<Discovery>)
    requires Discovers(ds, d)
    ensures Discovers(ds + [more], MergeDiscovery(d, more))
  {
    match more
    case None => NothingMoreDiscovered(ds, d);
    case Some(Type(_)) => assert LastSet(ds + [more], |ds|) && forall i :: LastSet(ds + [more], i) ==> i == |ds|;
    case Some(Custom(x)) => ExtensionDiscovered(ds, d, x);
  }

  lemma DiscoveryAlone(c: Cluster)
    ensures Discovers(Discoveries(c, []), c.discovery)
  {
    DiscoveredOneMore([], None, c.discovery);
    assert [] + [c.discovery] == [c.discovery];
  }

  lemma DiscoveryOfLast(c: Cluster, overrides: seq<Cluster>)
    requires overrides != []
    requires Discovers(Discoveries(c, overrides[..|overrides| - 1]), MergeAll(c, overrides[..|overrides| - 1]).discovery)
    ensures Discovers(Discoveries(c, overrides), MergeAll(c, overrides).discovery)
  {
    var init, o := overrides[..|overrides| - 1], overrides[|overrides| - 1];
    MergeLast(c, overrides);
    DiscoveredOneMore(Discoveries(c, init), MergeAll(c, init).discovery, o.discovery);
  }

  lemma {:induction false} DiscoveryMerged(c: Cluster, overrides: seq<Cluster>)
    ensures Discovers(Discoveries(c, overrides), MergeAll(c, overrides).discovery)
    decreases |overrides|
  {
    if overrides == [] {
      DiscoveryAlone(c);
    } else {
      DiscoveryMerged(c, overrides[..|overrides| - 1]);
      DiscoveryOfLast(c, overrides);
    }
  }

  /** The last to say anything says this. */
  ghost predicate LastToSay(ds: seq<Option<Discovery>>, d: Discovery) {
    exists i :: LastSet(ds, i) && ds[i] == Some(d)
  }

  lemma LastToSayIff(ds: seq<Option<Discovery>>, d: Option<Discovery>, kind: DiscoveryType)
    requires Discovers(ds, d)
    ensures d == Some(Type(kind)) <==> LastToSay(ds, Type(kind))
  {
    if LastToSay(ds, Type(kind)) {
      var i :| LastSet(ds, i) && ds[i] == Some(Type(kind));
      assert SetsType(ds, i);
    }
    if d == Some(Type(kind)) {
      assert exists k :: 0 <= k < |ds| && ds[k].Some?;
      var i := SomeLastSet(ds);
      assert SetsType(ds, i) && d == ds[i];
    }
  }

  /* ---- The load assignment ---- */

  function Loads(c: Cluster, overrides: seq<Cluster>): seq<Option<Assignment>> {
    if overrides == [] then [c.load]
    else Loads(c, overrides[..|overrides| - 1]) + [overrides[|overrides| - 1].load]
  }

  function AllGroups(ls: seq<Option<Assignment>>): seq<Group> {
    if ls == [] then [] else
    AllGroups(ls[..|ls| - 1]) + if ls[|ls| - 1].Some? then ls[|ls| - 1].value.groups else []
  }

  predicate NamesLoad(ls: seq<Option<Assignment>>, i: int) {
    0 <= i < |ls| && ls[i].Some? && ls[i].value.cluster != ""
  }

  predicate LastToNameLoad(ls: seq<Option<Assignment>>, i: int) {
    NamesLoad(ls, i) && forall j :: i < j < |ls| ==> !NamesLoad(ls, j)
  }

  /** There is an assignment if anybody has one, with everybody's groups in order, under the
      last name that is not empty. */
  ghost predicate Loaded(ls: seq<Option<Assignment>>, l: Option<Assignment>) {
    && (l.Some? <==> exists i :: 0 <= i < |ls| && ls[i].Some?)
    && (l.Some? ==>
          && l.value.groups == AllGroups(ls)
          && (forall i :: LastToNameLoad(ls, i) ==> l.value.cluster == ls[i].value.cluster)
          && ((forall i :: !LastToNameLoad(ls, i)) ==> l.value.cluster == ""))
  }

  lemma {:induction false} NoGroups(ls: seq<Option<Assignment>>)
    requires forall i :: 0 <= i < |ls| ==> ls[i].None?
    ensures AllGroups(ls) == []
  {
    if ls != [] {
      NoGroups(ls[..|ls| - 1]);
    }
  }

  lemma SameLastToNameLoad(ls: seq<Option<Assignment>>, more: Option<Assignment>, i: int)
    requires more.Some? ==> more.value.cluster == ""
    ensures LastToNameLoad(ls + [more], i) <==> LastToNameLoad(ls, i)
  {
    var ls' := ls + [more];
    forall j | 0 <= j < |ls| ensures NamesLoad(ls', j) == NamesLoad(ls, j) {
      assert ls'[j] == ls[j];
    }
    assert !NamesLoad(ls', |ls|);
  }

  lemma LoadedOneMore(ls: seq<Option<Assignment>>, l: Option<Assignment>, more: Option<Assignment>)
    requires Loaded(ls, l)
    ensures Loaded(ls + [more], MergeLoad(l, more))
  {
    var ls' := ls + [more];
    assert ls'[..|ls|] == ls && ls'[|ls|] == more;
    if l.None? {
      NoGroups(ls);
    }
    if NamesLoad(ls', |ls|) {
      assert LastToNameLoad(ls', |ls|) && forall i :: LastToNameLoad(ls', i) ==> i == |ls|;
    } else {
      forall i ensures LastToNameLoad(ls', i) <==> LastToNameLoad(ls, i) { SameLastToNameLoad(ls, more, i); }
      assert forall i :: 0 <= i < |ls| ==> ls'[i] == ls[i];
    }
    assert (exists i :: 0 <= i < |ls'| && ls'[i].Some?) <==> more.Some? || exists i :: 0 <= i < |ls| && ls[i].Some? by {
      if i :| 0 <= i < |ls| && ls[i].Some? { assert ls'[i].Some?; }
    }
  }

  lemma LoadAlone(c: Cluster)
    ensures Loaded(Loads(c, []), c.load)
  {
    LoadedOneMore([], None, c.load);
    assert [] + [c.load] == [c.load];
  }

  lemma LoadOfLast(c: Cluster, overrides: seq<Cluster>)
    requires overrides != []
    requires Loaded(Loads(c, overrides[..|overrides| - 1]), MergeAll(c, overrides[..|overrides| - 1]).load)
    ensures Loaded(Loads(c, overrides), MergeAll(c, overrides).load)
  {
    var init, o := overrides[..|overrides| - 1], overrides[|overrides| - 1];
    MergeLast(c, overrides);
    LoadedOneMore(Loads(c, init), MergeAll(c, init).load, o.load);
  }

  lemma {:induction false} LoadMerged(c: Cluster, overrides: seq<Cluster>)
    ensures Loaded(Loads(c, overrides), MergeAll(c, overrides).load)
    decreases |overrides|
  {
    if overrides == [] {
      LoadAlone(c);
    } else {
      LoadMerged(c, overrides[..|overrides| - 1]);
      LoadOfLast(c, overrides);
    }
  }

  /** What merging one override after the other amounts to: repeated fields are appended in
      order, the last name that is set wins, and of the seconds the last that are not zero
      win, and of the nanoseconds likewise, not necessarily of the same override; discovery
      and load assignment come out as described above. */
  lemma MergedInOrder(c: Cluster, overrides: seq<Cluster>)
    ensures MergeAll(c, overrides).filters == c.filters + AllFilters(overrides)
    ensures forall i :: LastToName(overrides, i) ==> MergeAll(c, overrides).name == overrides[i].name
    ensures (forall j :: 0 <= j < |overrides| ==> overrides[j].name == "") ==> MergeAll(c, overrides).name == c.name
    ensures forall i :: LastNonZero(SecondsOf(overrides), i) ==> Seconds(MergeAll(c, overrides)) == Seconds(overrides[i])
    ensures forall i :: LastNonZero(NanosOf(overrides), i) ==> Nanos(MergeAll(c, overrides)) == Nanos(overrides[i])
    ensures AllZero(SecondsOf(overrides)) ==> Seconds(MergeAll(c, overrides)) == Seconds(c)
    ensures AllZero(NanosOf(overrides)) ==> Nanos(MergeAll(c, overrides)) == Nanos(c)
    ensures MergeAll(c, overrides).timeout.Some? <==>
      c.timeout.Some? || exists j :: 0 <= j < |overrides| && overrides[j].timeout.Some?
    ensures Discovers(Discoveries(c, overrides), MergeAll(c, overrides).discovery)
    ensures Loaded(Loads(c, overrides), MergeAll(c, overrides).load)
  {
    FiltersAppended(c, overrides);
    NamesMerged(c, overrides);
    TimesMerged(c, overrides);
    TimeoutAppears(c, overrides);
    DiscoveryMerged(c, overrides);
    LoadMerged(c, overrides);
  }

  lemma NamesMerged(c: Cluster, overrides: seq<Cluster>)
    ensures forall i :: LastToName(overrides, i) ==> MergeAll(c, overrides).name == overrides[i].name
    ensures (forall j :: 0 <= j < |overrides| ==> overrides[j].name == "") ==> MergeAll(c, overrides).name == c.name
  {
    forall i | LastToName(overrides, i) ensures MergeAll(c, overrides).name == overrides[i].name {
      LastNameWins(c, overrides, i);
    }
    if forall j :: 0 <= j < |overrides| ==> overrides[j].name == "" {
      LastNameWins(c, overrides, 0);
    }
  }

  lemma TimesMerged(c: Cluster, overrides: seq<Cluster>)
    ensures forall i :: LastNonZero(SecondsOf(overrides), i) ==> Seconds(MergeAll(c, overrides)) == Seconds(overrides[i])
    ensures forall i :: LastNonZero(NanosOf(overrides), i) ==> Nanos(MergeAll(c, overrides)) == Nanos(overrides[i])
    ensures AllZero(SecondsOf(overrides)) ==> Seconds(MergeAll(c, overrides)) == Seconds(c)
    ensures AllZero(NanosOf(overrides)) ==> Nanos(MergeAll(c, overrides)) == Nanos(c)
  {
    TimeoutByNumbers(c, overrides);
    var seconds, nanos := SecondsOf(overrides), NanosOf(overrides);
    forall i | LastNonZero(seconds, i) ensures MergeNumbers(Seconds(c), seconds) == seconds[i] {
      LastNumberWins(Seconds(c), seconds, i);
    }
    forall i | LastNonZero(nanos, i) ensures MergeNumbers(Nanos(c), nanos) == nanos[i] {
      LastNumberWins(Nanos(c), nanos, i);
    }
    if AllZero(seconds) { LastNumberWins(Seconds(c), seconds, 0); }
    if AllZero(nanos) { LastNumberWins(Nanos(c), nanos, 0); }
  }

  /** The number is overwritten, or there was nothing to keep. */
  predicate NothingKept(n: int, ns: seq<int>, i: nat)
    requires i < |ns|
  {
    ns[i] != 0 || (n == 0 && AllZero(ns[..i]))
  }

  lemma NumberWinsIff(n: int, ns: seq<int>, i: nat)
    requires i < |ns| && forall j :: i < j < |ns| ==> ns[j] == 0
    ensures MergeNumbers(n, ns) == ns[i] <==> NothingKept(n, ns, i)
  {
    if ns[i] != 0 {
      LastNumberWins(n, ns, i);
    } else {
      ZeroIffAllZero(n, ns);
      assert forall j :: 0 <= j < i ==> ns[..i][j] == ns[j];
      assert AllZero(ns) <==> AllZero(ns[..i]);
    }
  }

  /** The last timeout wins as a whole exactly if each of its fields that is zero was zero in
      the cluster and in every override before. */
  lemma LastTimeoutWinsIff(c: Cluster, overrides: seq<Cluster>, i: nat)
    requires LastToTime(overrides, i)
    ensures MergeAll(c, overrides).timeout == overrides[i].timeout <==>
      NothingKept(Seconds(c), SecondsOf(overrides), i) && NothingKept(Nanos(c), NanosOf(overrides), i)
  {
    TimeoutAppears(c, overrides);
    TimeoutByNumbers(c, overrides);
    NumberWinsIff(Seconds(c), SecondsOf(overrides), i);
    NumberWinsIff(Nanos(c), NanosOf(overrides), i);
  }

  /** A quarter of a second over the default of one second makes a second and a quarter. */
  lemma QuarterSecondAdds(c: Cluster, override: Cluster)
    requires c.timeout == Some(Duration(1, 0)) && override.timeout == Some(Duration(0, 250_000_000))
    ensures MergeAll(c, [override]).timeout == Some(Duration(1, 250_000_000))
  {
    assert [override][1..] == [];
  }

  predicate SetsName(rule: Rule) {
    rule.override.Some? && rule.override.value.name != ""
  }

  predicate ComparesName(rule: Rule) {
    exists j :: 0 <= j < |rule.matchers| && rule.matchers[j].Some? && rule.matchers[j].value.clusterName != ""
  }

  /** No rule compares names after a rule that sets one. */
  predicate NamesSettled(rules: seq<Rule>) {
    forall i, j :: 0 <= i < j < |rules| && SetsName(rules[i]) ==> !ComparesName(rules[j])
  }

  lemma SuppressedFront(rules: seq<Rule>, name: string, port: Option<ServicePort>)
    requires rules != []
    ensures Suppressed(rules, name, port) <==>
      (Accepts(rules[0], name, port) && rules[0].override.None? && rules[0].suppress) || Suppressed(rules[1..], name, port)
  {
    if Suppressed(rules, name, port) {
      var i :| 0 <= i < |rules| && Accepts(rules[i], name, port) && rules[i].override.None? && rules[i].suppress;
      if i > 0 { assert rules[1..][i - 1] == rules[i]; }
    }
    if Suppressed(rules[1..], name, port) {
      var i :| 0 <= i < |rules| - 1 && Accepts(rules[1..][i], name, port) && rules[1..][i].override.None? && rules[1..][i].suppress;
      assert rules[i + 1] == rules[1..][i];
    }
  }

  /** Rules that do not compare names do not care for the name. */
  lemma {:induction false} NameDoesNotMatter(rules: seq<Rule>, name1: string, name2: string, port: Option<ServicePort>)
    requires forall j :: 0 <= j < |rules| ==> !ComparesName(rules[j])
    ensures Selected(rules, name1, port) == Selected(rules, name2, port)
    ensures Suppressed(rules, name1, port) == Suppressed(rules, name2, port)
  {
    if rules != [] {
      NameDoesNotMatter(rules[1..], name1, name2, port);
      SuppressedFront(rules, name1, port);
      SuppressedFront(rules, name2, port);
      assert Accepts(rules[0], name1, port) == Accepts(rules[0], name2, port);
    }
  }

  /** The loop is a filter and a merge: unless a rule compares names after another has set
      one, the cluster is suppressed exactly if a suppressing rule accepts its original
      name, and otherwise it is merged, in order, with exactly the overrides that do. */
  lemma {:induction false} FilterThenMerge(rules: seq<Rule>, c: Cluster, port: Option<ServicePort>)
    requires NamesSettled(rules)
    ensures Fold(rules, c, port) ==
      if Suppressed(rules, c.name, port) then None else Some(MergeAll(c, Selected(rules, c.name, port)))
  {
    if rules != [] {
      var rule, rest := rules[0], rules[1..];
      SuppressedFront(rules, c.name, port);
      if Accepts(rule, c.name, port) && rule.override.Some? {
        var c' := Merge(c, rule.override.value);
        FilterThenMerge(rest, c', port);
        if SetsName(rule) {
          NameDoesNotMatter(rest, c.name, c'.name, port);
        }
        assert Selected(rules, c.name, port)[1..] == Selected(rest, c.name, port);
      } else {
        FilterThenMerge(rest, c, port);
        assert Selected(rules, c.name, port) == Selected(rest, c.name, port);
      }
    }
  }

  /* ---- When the loop is a filter and a merge ---- */

  /** The rule does something to a cluster of this name. */
  predicate Takes(rule: Rule, name: string, port: Option<ServicePort>) {
    Accepts(rule, name, port) && (rule.override.Some? || rule.suppress)
  }

  /** Rule after rule, up to the first that suppresses: whether the loop lets it take effect. */
  function LoopTakes(rules: seq<Rule>, c: Cluster, port: Option<ServicePort>): seq<bool> {
    if rules == [] then []
    else if !Takes(rules[0], c.name, port) then [false] + LoopTakes(rules[1..], c, port)
    else if rules[0].override.Some? then [true] + LoopTakes(rules[1..], Merge(c, rules[0].override.value), port)
    else [true]
  }

  /** The same if every rule is judged by one name. */
  function NameTakes(rules: seq<Rule>, name: string, port: Option<ServicePort>): (r: seq<bool>)
    ensures |r| <= |rules|
  {
    if rules == [] then []
    else if !Takes(rules[0], name, port) then [false] + NameTakes(rules[1..], name, port)
    else if rules[0].override.Some? then [true] + NameTakes(rules[1..], name, port)
    else [true]
  }

  /** What the overrides before rule j that accept the name make of the cluster. */
  function MergedBefore(rules: seq<Rule>, name: string, c: Cluster, port: Option<ServicePort>, j: nat): Cluster
    requires j <= |rules|
  {
    MergeAll(c, Selected(rules[..j], name, port))
  }

  /** Up to the first rule that suppresses the name, no rule judges the name that the
      overrides before it have set otherwise than the original one. */
  predicate Undeceived(rules: seq<Rule>, name: string, c: Cluster, port: Option<ServicePort>) {
    forall j :: 0 <= j < |NameTakes(rules, name, port)| ==>
      Takes(rules[j], MergedBefore(rules, name, c, port, j).name, port) == Takes(rules[j], name, port)
  }

  lemma MergedBeforeTail(rules: seq<Rule>, name: string, c: Cluster, port: Option<ServicePort>, j: nat)
    requires 0 < j <= |rules|
    ensures var c' := if Accepts(rules[0], name, port) && rules[0].override.Some? then Merge(c, rules[0].override.value) else c;
      MergedBefore(rules, name, c, port, j) == MergedBefore(rules[1..], name, c', port, j - 1)
  {
    assert rules[..j][1..] == rules[1..][..j - 1];
    var rest := Selected(rules[1..][..j - 1], name, port);
    if Accepts(rules[0], name, port) && rules[0].override.Some? {
      assert ([rules[0].override.value] + rest)[1..] == rest;
    } else {
      assert [] + rest == rest;
    }
  }

  /** Looking past a first rule that both judge alike and that does not suppress. */
  lemma UndeceivedTail(rules: seq<Rule>, name: string, c: Cluster, port: Option<ServicePort>)
    requires rules != [] && Takes(rules[0], c.name, port) == Takes(rules[0], name, port)
    requires Takes(rules[0], name, port) ==> rules[0].override.Some?
    ensures var c' := if Takes(rules[0], name, port) then Merge(c, rules[0].override.value) else c;
      Undeceived(rules, name, c, port) <==> Undeceived(rules[1..], name, c', port)
  {
    var c' := if Takes(rules[0], name, port) then Merge(c, rules[0].override.value) else c;
    var all, tail := NameTakes(rules, name, port), NameTakes(rules[1..], name, port);
    assert all[1..] == tail;
    assert rules[..0] == [] && MergedBefore(rules, name, c, port, 0) == c;
    forall j | 0 < j < |all|
      ensures MergedBefore(rules, name, c, port, j) == MergedBefore(rules[1..], name, c', port, j - 1)
    {
      MergedBeforeTail(rules, name, c, port, j);
    }
    if Undeceived(rules, name, c, port) {
      forall j | 0 <= j < |tail| ensures
        Takes(rules[1..][j], MergedBefore(rules[1..], name, c', port, j).name, port) == Takes(rules[1..][j], name, port)
      {
        assert rules[1..][j] == rules[j + 1];
      }
    }
    if Undeceived(rules[1..], name, c', port) {
      forall j | 0 < j < |all| ensures
        Takes(rules[j], MergedBefore(rules, name, c, port, j).name, port) == Takes(rules[j], name, port)
      {
        assert rules[j] == rules[1..][j - 1];
      }
    }
  }

  lemma {:induction false} TakesAlikeIff(rules: seq<Rule>, name: string, c: Cluster, port: Option<ServicePort>)
    ensures LoopTakes(rules, c, port) == NameTakes(rules, name, port) <==> Undeceived(rules, name, c, port)
  {
    if rules != [] {
      assert rules[..0] == [] && MergedBefore(rules, name, c, port, 0) == c;
      var loop, judged := LoopTakes(rules, c, port), NameTakes(rules, name, port);
      assert loop[0] == Takes(rules[0], c.name, port) && judged[0] == Takes(rules[0], name, port);
      if loop[0] == judged[0] && (judged[0] ==> rules[0].override.Some?) {
        var c' := if judged[0] then Merge(c, rules[0].override.value) else c;
        UndeceivedTail(rules, name, c, port);
        TakesAlikeIff(rules[1..], name, c', port);
        assert loop[1..] == LoopTakes(rules[1..], c', port) && judged[1..] == NameTakes(rules[1..], name, port);
        assert loop == [loop[0]] + loop[1..] && judged == [judged[0]] + judged[1..];
      }
    }
  }

  /** The loop lets the very rules take effect that accept the cluster's original name, up to
      the first that suppresses it, exactly if it is not deceived by names set on the way. */
  lemma JudgesByOriginalNameIff(rules: seq<Rule>, c: Cluster, port: Option<ServicePort>)
    ensures LoopTakes(rules, c, port) == NameTakes(rules, c.name, port) <==> Undeceived(rules, c.name, c, port)
  {
    TakesAlikeIff(rules, c.name, c, port);
  }

  /** And then it is a filter and a merge. */
  lemma {:induction false} FoldOfTakes(rules: seq<Rule>, name: string, c: Cluster, port: Option<ServicePort>)
    requires LoopTakes(rules, c, port) == NameTakes(rules, name, port)
    ensures Fold(rules, c, port) ==
      if Suppressed(rules, name, port) then None else Some(MergeAll(c, Selected(rules, name, port)))
  {
    if rules != [] {
      var rule, rest := rules[0], rules[1..];
      var loop, judged := LoopTakes(rules, c, port), NameTakes(rules, name, port);
      SuppressedFront(rules, name, port);
      assert loop[0] == Takes(rule, c.name, port) && judged[0] == Takes(rule, name, port);
      if !judged[0] || rule.override.Some? {
        var c' := if judged[0] then Merge(c, rule.override.value) else c;
        assert loop[1..] == LoopTakes(rest, c', port) && judged[1..] == NameTakes(rest, name, port);
        FoldOfTakes(rest, name, c', port);
        SelectedFront(rules, name, port);
      }
    }
  }

  lemma SelectedFront(rules: seq<Rule>, name: string, port: Option<ServicePort>)
    requires rules != []
    ensures var rest := Selected(rules[1..], name, port);
      if Accepts(rules[0], name, port) && rules[0].override.Some?
      then Selected(rules, name, port) != [] && Selected(rules, name, port)[0] == rules[0].override.value
        && Selected(rules, name, port)[1..] == rest
      else Selected(rules, name, port) == rest
  {
  }

  lemma UndeceivedFilters(rules: seq<Rule>, c: Cluster, port: Option<ServicePort>)
    requires Undeceived(rules, c.name, c, port)
    ensures Fold(rules, c, port) ==
      if Suppressed(rules, c.name, port) then None else Some(MergeAll(c, Selected(rules, c.name, port)))
  {
    TakesAlikeIff(rules, c.name, c, port);
    FoldOfTakes(rules, c.name, c, port);
  }

  /** No override sets the cluster's name. */
  predicate KeepsNames(rules: seq<Rule>) {
    forall i :: 0 <= i < |rules| ==> !SetsName(rules[i])
  }

  lemma {:induction false} FoldKeepsName(rules: seq<Rule>, c: Cluster, port: Option<ServicePort>)
    requires KeepsNames(rules) && Fold(rules, c, port).Some?
    ensures Fold(rules, c, port).value.name == c.name
  {
    if rules != [] {
      if Accepts(rules[0], c.name, port) && rules[0].override.Some? {
        FoldKeepsName(rules[1..], Merge(c, rules[0].override.value), port);
      } else {
        FoldKeepsName(rules[1..], c, port);
      }
    }
  }

  /** Whoever sets a name before it is compared changes what happens: for every such pair of
      rules, found by port and by name, there is a cluster that the loop suppresses although
      no suppressing rule accepts its original name. */
  lemma RenamingDeceives(
    portName: string, newName: string, c: Cluster) returns (rules: seq<Rule>, port: Option<ServicePort>)
    requires portName != "" && newName != "" && c.name != newName
    ensures !NamesSettled(rules)
    ensures Fold(rules, c, port) == None && !Suppressed(rules, c.name, port)
  {
    var rename := Rule([Some(Matcher("", portName))], Some(Cluster(newName, None, None, [], None)), false);
    var suppress := Rule([Some(Matcher(newName, ""))], None, true);
    rules, port := [rename, suppress], Some(ServicePort(portName, 1, "TCP"));
    assert SetsName(rules[0]) && ComparesName(rules[1]) by {
      assert rules[1].matchers[0].value.clusterName != "";
    }
    assert Evaluate(rename.matchers[0], c.name, port);
    var c' := Merge(c, rename.override.value);
    assert Evaluate(suppress.matchers[0], c'.name, port);
    assert rules[1..][0] == suppress;
    assert Fold(rules[1..], c', port) == None;
    assert !Accepts(suppress, c.name, port);
  }
}
