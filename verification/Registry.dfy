/** The manager's resource map, and what one Add, Replace or Delete does to it. */
module Registry {
  import opened Sequences

  /** What the manager needs to know about its resource type: the name under which a
      resource is filed, its Validate, whether it can be marshalled for a response, and the
      Validate of a response made of such resources. */
  datatype Kind<!R> = Kind(
    name: R -> string, valid: R -> bool, encodes: R -> bool, admits: seq<Entry<R>> -> bool)

  function Put<R>(kind: Kind<R>, m: map<string, R>, r: R): map<string, R> {
    m[kind.name(r) := r]
  }

  function PutAll<R>(kind: Kind<R>, m: map<string, R>, rs: seq<R>): map<string, R>
    decreases |rs|
  {
    if rs == [] then m else PutAll(kind, Put(kind, m, rs[0]), rs[1..])
  }

  function Names<R>(kind: Kind<R>, rs: seq<R>): set<string> {
    set i | 0 <= i < |rs| :: kind.name(rs[i])
  }

  /** The position of the first invalid resource, or the length. */
  function FirstInvalid<R>(kind: Kind<R>, rs: seq<R>): (k: nat)
    ensures k <= |rs|
    ensures forall i :: 0 <= i < k ==> kind.valid(rs[i])
    ensures k < |rs| ==> !kind.valid(rs[k])
  {
    if rs == [] || !kind.valid(rs[0]) then 0 else 1 + FirstInvalid(kind, rs[1..])
  }

  predicate AllValid<R>(kind: Kind<R>, rs: seq<R>) {
    forall i :: 0 <= i < |rs| ==> kind.valid(rs[i])
  }

  datatype Call<R> = Add(rs: seq<R>) | Replace(rs: seq<R>) | Delete(name: string)

  /** The map after a whole call: Add stops at the first invalid resource and keeps the
      earlier ones, Replace does nothing unless every resource is valid. */
  function Effect<R>(kind: Kind<R>, m: map<string, R>, call: Call<R>): map<string, R> {
    match call
    case Add(rs) => PutAll(kind, m, rs[..FirstInvalid(kind, rs)])
    case Replace(rs) => if AllValid(kind, rs) then PutAll(kind, map[], rs) else m
    case Delete(name) => m - {name}
  }

  /** The map after a sequence of calls, from the empty map. */
  function Effects<R>(kind: Kind<R>, calls: seq<Call<R>>): map<string, R> {
    if calls == [] then map[] else Effect(kind, Effects(kind, calls[..|calls| - 1]), calls[|calls| - 1])
  }

  /** i is the last position of the sequence whose resource has the name n. */
  ghost predicate LastNamed<R>(kind: Kind<R>, rs: seq<R>, n: string, i: nat) {
    i < |rs| && kind.name(rs[i]) == n && forall j :: i < j < |rs| ==> kind.name(rs[j]) != n
  }

  /** Exactly the names given are added; the last resource filed under a name wins, and
      other names keep what they had. */
  lemma {:induction false} LastWins<R>(kind: Kind<R>, m: map<string, R>, rs: seq<R>)
    ensures PutAll(kind, m, rs).Keys == m.Keys + Names(kind, rs)
    ensures forall n :: n in m && n !in Names(kind, rs) ==> PutAll(kind, m, rs)[n] == m[n]
    ensures forall n, i: nat :: LastNamed(kind, rs, n, i) ==> PutAll(kind, m, rs)[n] == rs[i]
    decreases |rs|
  {
    if rs != [] {
      var tail := rs[1..];
      LastWins(kind, Put(kind, m, rs[0]), tail);
      NamesCons(kind, rs);
      forall n, i: nat | LastNamed(kind, rs, n, i) ensures PutAll(kind, m, rs)[n] == rs[i] {
        if i > 0 {
          assert LastNamed(kind, tail, n, i - 1);
        } else {
          assert n !in Names(kind, tail);
        }
      }
    }
  }

  lemma NamesCons<R>(kind: Kind<R>, rs: seq<R>)
    requires rs != []
    ensures Names(kind, rs) == {kind.name(rs[0])} + Names(kind, rs[1..])
  {
    forall n | n in Names(kind, rs) ensures n in {kind.name(rs[0])} + Names(kind, rs[1..]) {
      var i :| 0 <= i < |rs| && kind.name(rs[i]) == n;
      if i > 0 { assert rs[1..][i - 1] == rs[i]; }
    }
    forall n | n in Names(kind, rs[1..]) ensures n in Names(kind, rs) {
      var i :| 0 <= i < |rs| - 1 && kind.name(rs[1..][i]) == n;
      assert rs[i + 1] == rs[1..][i];
    }
  }

  lemma {:induction false} HasLastNamed<R>(kind: Kind<R>, rs: seq<R>, n: string) returns (i: nat)
    requires n in Names(kind, rs)
    ensures LastNamed(kind, rs, n, i)
    decreases |rs|
  {
    NamesCons(kind, rs);
    if n in Names(kind, rs[1..]) {
      var j := HasLastNamed(kind, rs[1..], n);
      i := j + 1;
      forall k | i < k < |rs| ensures kind.name(rs[k]) != n { assert rs[k] == rs[1..][k - 1]; }
    } else {
      i := 0;
      forall k | 0 < k < |rs| ensures kind.name(rs[k]) != n { assert rs[k] == rs[1..][k - 1]; }
    }
  }

  /** Doing a prefix first, then the rest. */
  lemma {:induction false} PutAllSplits<R>(kind: Kind<R>, m: map<string, R>, xs: seq<R>, ys: seq<R>)
    ensures PutAll(kind, m, xs + ys) == PutAll(kind, PutAll(kind, m, xs), ys)
    decreases |xs|
  {
    if xs == [] {
      assert xs + ys == ys;
    } else {
      assert (xs + ys)[1..] == xs[1..] + ys;
      PutAllSplits(kind, Put(kind, m, xs[0]), xs[1..], ys);
    }
  }

  lemma EffectsGrow<R>(kind: Kind<R>, calls: seq<Call<R>>, call: Call<R>)
    ensures Effects(kind, calls + [call]) == Effect(kind, Effects(kind, calls), call)
  {
    assert (calls + [call])[..|calls|] == calls;
  }

  function Deletions<R>(names: seq<string>): seq<Call<R>> {
    seq(|names|, i requires 0 <= i < |names| => Call.Delete(names[i]))
  }

  /** Deleting names one by one takes them all out. */
  lemma {:induction false} EffectsOfDeletions<R>(kind: Kind<R>, calls: seq<Call<R>>, names: seq<string>)
    ensures Effects(kind, calls + Deletions(names)) == Effects(kind, calls) - Elements(names)
    decreases |names|
  {
    if names == [] {
      assert calls + Deletions(names) == calls;
    } else {
      var init, last := names[..|names| - 1], names[|names| - 1];
      EffectsOfDeletions(kind, calls, init);
      DeletionsSplit(calls, names);
      EffectsGrow(kind, calls + Deletions(init), Call.Delete(last));
      ElementsOfLast(names);
    }
  }

  lemma DeletionsSplit<R>(calls: seq<Call<R>>, names: seq<string>)
    requires names != []
    ensures calls + Deletions(names) ==
      (calls + Deletions(names[..|names| - 1])) + [Call.Delete(names[|names| - 1])]
  {
    assert Deletions<R>(names) == Deletions(names[..|names| - 1]) + [Call.Delete(names[|names| - 1])];
  }

  lemma ElementsOfLast(names: seq<string>)
    requires names != []
    ensures Elements(names) == Elements(names[..|names| - 1]) + {names[|names| - 1]}
  {
    assert names == names[..|names| - 1] + [names[|names| - 1]];
  }

  /* ---- Snapshots ---- */

  datatype Entry<R> = Entry(name: string, value: R)

  /** The wanted resources that exist, in the order wanted. */
  function Pick<R>(m: map<string, R>, want: seq<string>): seq<Entry<R>> {
    if want == [] then [] else
    var init := Pick(m, want[..|want| - 1]);
    var n := want[|want| - 1];
    if n in m then init + [Entry(n, m[n])] else init
  }

  /** An empty wish list asks for everything, in map iteration order. */
  ghost predicate IsSnapshot<R>(m: map<string, R>, want: seq<string>, entries: seq<Entry<R>>) {
    if want != [] then entries == Pick(m, want)
    else
      && |entries| == |m|
      && (forall e :: e in entries ==> e.name in m && m[e.name] == e.value)
      && (forall n :: n in m ==> Entry(n, m[n]) in entries)
  }

  /** A response can be made of these entries. */
  predicate Buildable<R>(kind: Kind<R>, entries: seq<Entry<R>>) {
    (forall k :: 0 <= k < |entries| ==> kind.encodes(entries[k].value)) && kind.admits(entries)
  }

  predicate Wants(want: seq<string>, n: string) {
    want == [] || n in want
  }

  /** The entries tell the same about the name as the map: its value, or its absence. */
  ghost predicate Shows<R>(entries: seq<Entry<R>>, m: map<string, R>, n: string) {
    && (n in m ==> Entry(n, m[n]) in entries)
    && (forall e :: e in entries && e.name == n ==> n in m && e.value == m[n])
  }

  lemma {:induction false} PickShows<R>(m: map<string, R>, want: seq<string>)
    ensures forall e :: e in Pick(m, want) <==> e.name in want && e.name in m && e.value == m[e.name]
  {
    if want != [] {
      PickShows(m, want[..|want| - 1]);
      assert want == want[..|want| - 1] + [want[|want| - 1]];
    }
  }

  /** The answer to a wish list has the names that are on file, in the order of the list and as
      often as they are on it. */
  lemma {:induction false} PickInOrder<R>(m: map<string, R>, want: seq<string>) returns (at: seq<nat>)
    ensures |at| == |Pick(m, want)|
    ensures forall k :: 0 <= k < |at| ==> at[k] < |want| && Pick(m, want)[k].name == want[at[k]]
    ensures forall j, k :: 0 <= j < k < |at| ==> at[j] < at[k]
    ensures forall i :: 0 <= i < |want| && want[i] in m ==> i in at
  {
    at := [];
    if want != [] {
      var n := |want| - 1;
      at := PickInOrder(m, want[..n]);
      forall i | 0 <= i < n && want[i] in m ensures i in at {
        assert want[..n][i] == want[i];
      }
      if want[n] in m {
        at := at + [n];
      }
    }
  }

  lemma SnapshotShows<R>(m: map<string, R>, want: seq<string>, entries: seq<Entry<R>>, n: string)
    requires IsSnapshot(m, want, entries) && Wants(want, n)
    ensures Shows(entries, m, n)
  {
    if want != [] {
      PickShows(m, want);
      if n in m {
        assert Entry(n, m[n]) in Pick(m, want);
      }
    }
  }

  lemma {:induction false} SnapshotExists<R>(m: map<string, R>, want: seq<string>)
    returns (entries: seq<Entry<R>>)
    ensures IsSnapshot(m, want, entries)
    decreases |m|
  {
    if want != [] {
      entries := Pick(m, want);
    } else if m == map[] {
      entries := [];
    } else {
      var n :| n in m;
      var rest := m - {n};
      assert m.Keys == rest.Keys + {n};
      assert |m.Keys| == |rest.Keys| + 1;
      var others := SnapshotExists(rest, []);
      entries := others + [Entry(n, m[n])];
    }
  }
}
