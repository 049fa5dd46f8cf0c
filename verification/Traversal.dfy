/** Traversing a table with `next` (lua/ltable.c). */
module Traversal {
  // Between two steps fields may be reassigned or cleared, and the collector may mark keys dead.

  import opened NodeChains
  import opened TableMap

  /** A table at one moment: its two parts and the map that they represent. */
  datatype Snapshot = Snapshot(a: seq<Val>, ns: seq<Node>, m: map<Key, Val>)

  ghost predicate Sound(t: Snapshot, rank: seq<nat>, main: (Key, nat) -> nat) {
    ChainsOk(t.ns, rank, main) && Represents(t.a, t.ns, t.m)
  }

  /** Positions number the array part first and then the nodes. */
  function Size(t: Snapshot): nat {
    |t.a| + |t.ns|
  }

  function ValAt(t: Snapshot, p: nat): Val
    requires p < Size(t)
  {
    if p < |t.a| then t.a[p] else t.ns[p - |t.a|].val
  }

  function KeyAt(t: Snapshot, p: nat): Key
    requires p < Size(t)
  {
    if p < |t.a| then Int(p + 1)
    else match t.ns[p - |t.a|].key case Free => KNil case Live(k) => k case Dead(k) => k
  }

  /** A traversal may go on from a key that has died in the meantime. */
  predicate Matches(nk: NodeKey, key: Key) {
    nk == Live(key) || (nk == Dead(key) && key.Other? && key.collectable)
  }

  /** A traversal that was given `key` goes on after position `p`. */
  ghost predicate IsIndex(t: Snapshot, rank: seq<nat>, key: Key, p: int)
    requires RankOk(t.ns, rank)
  {
    if key == KNil then p == -1
    else if InArray(key, |t.a|) then p == key.i - 1
    else
      && |t.a| <= p < Size(t) && Matches(t.ns[p - |t.a|].key, key)
      && forall j :: 0 <= j < |t.ns| && Matches(t.ns[j].key, key) ==> Reach(t.ns, rank, p - |t.a|, j)
  }

  ghost predicate FirstAfter(t: Snapshot, p: int, q: int) {
    && -1 <= p < q < Size(t) && ValAt(t, q) != Nil
    && forall r :: p < r < q ==> ValAt(t, r) == Nil
  }

  ghost predicate NoneAfter(t: Snapshot, p: int) {
    && -1 <= p < Size(t)
    && forall r :: p < r < Size(t) ==> ValAt(t, r) == Nil
  }

  /** No key was inserted: fields got new values, or keys died. */
  ghost predicate Evolves(t: Snapshot, t': Snapshot) {
    && |t'.a| == |t.a| && |t'.ns| == |t.ns|
    && forall j {:trigger t'.ns[j]} :: 0 <= j < |t.ns| ==> t'.ns[j].next == t.ns[j].next && SameOrDied(t.ns[j].key, t'.ns[j].key)
  }

  predicate SameOrDied(nk: NodeKey, nk': NodeKey) {
    nk' == nk || (nk.Live? && nk.k.Other? && nk.k.collectable && nk' == Dead(nk.k))
  }

  lemma IndexUnique(t: Snapshot, rank: seq<nat>, key: Key, p: int, q: int)
    requires RankOk(t.ns, rank) && IsIndex(t, rank, key, p) && IsIndex(t, rank, key, q)
    ensures p == q
  {
    if key != KNil && !InArray(key, |t.a|) {
      ReachRank(t.ns, rank, p - |t.a|, q - |t.a|);
      ReachRank(t.ns, rank, q - |t.a|, p - |t.a|);
    }
  }

  /** The key found at a position leads back to that position. */
  lemma IndexOfKey(t: Snapshot, rank: seq<nat>, main: (Key, nat) -> nat, p: nat)
    requires Sound(t, rank, main) && p < Size(t) && ValAt(t, p) != Nil
    ensures IsIndex(t, rank, KeyAt(t, p), p) && KeyAt(t, p) in t.m && t.m[KeyAt(t, p)] == ValAt(t, p)
  {
    hide Reach;
    hide Placed;
    if p < |t.a| {
      assert t.a[p] == Lookup(t.m, Int(p + 1));
    } else {
      var i := p - |t.a|;
      var key := t.ns[i].key.k;
      forall j | 0 <= j < |t.ns| && Matches(t.ns[j].key, key) ensures Reach(t.ns, rank, i, j) {
        assert LiveBefore(t.ns, rank, i, j);
        ReachSelf(t.ns, rank, i);
      }
    }
  }

  lemma ReachSelf(ns: seq<Node>, rank: seq<nat>, i: nat)
    requires RankOk(ns, rank) && i < |ns|
    ensures Reach(ns, rank, i, i)
  {
  }

  /** Every entry of the map has a position. */
  lemma PositionOf(t: Snapshot, key: Key) returns (p: nat)
    requires Represents(t.a, t.ns, t.m) && key in t.m
    ensures p < Size(t) && ValAt(t, p) != Nil && KeyAt(t, p) == key
  {
    if InArray(key, |t.a|) {
      p := key.i - 1;
      assert t.a[p] == Lookup(t.m, Int(p + 1));
    } else {
      var j :| 0 <= j < |t.ns| && Holds(t.ns, j, key);
      p := |t.a| + j;
    }
  }

  /** Where a traversal stands does not change between two steps. */
  lemma IndexStays(t: Snapshot, t': Snapshot, rank: seq<nat>, key: Key, p: int)
    requires RankOk(t.ns, rank) && RankOk(t'.ns, rank) && Evolves(t, t')
    requires IsIndex(t, rank, key, p)
    ensures IsIndex(t', rank, key, p)
  {
    hide Reach;
    if key != KNil && !InArray(key, |t.a|) {
      assert t'.ns[p - |t.a|].next == t.ns[p - |t.a|].next;
      forall j | 0 <= j < |t.ns| && Matches(t'.ns[j].key, key) ensures Reach(t'.ns, rank, p - |t.a|, j) {
        assert Matches(t.ns[j].key, key);
        SameReach(t, t', rank, p - |t.a|, j);
      }
    }
  }

  lemma SameReach(t: Snapshot, t': Snapshot, rank: seq<nat>, i: nat, j: nat)
    requires RankOk(t.ns, rank) && RankOk(t'.ns, rank) && Evolves(t, t') && i < |t.ns| && Reach(t.ns, rank, i, j)
    ensures Reach(t'.ns, rank, i, j)
  {
    forall x | 0 <= x < |t.ns| ensures t'.ns[x].next == t.ns[x].next {
      var _ := t'.ns[x];
    }
    ReachSameLinks(t.ns, rank, t'.ns, rank, i, j);
  }

  // ----- whole traversals -----

  /** `next` returns `key'` for `key`. */
  ghost predicate Follows(t: Snapshot, rank: seq<nat>, key: Key, key': Key) {
    RankOk(t.ns, rank) && exists p, q :: StepAt(t, rank, key, key', p, q)
  }

  ghost predicate StepAt(t: Snapshot, rank: seq<nat>, key: Key, key': Key, p: int, q: int)
    requires RankOk(t.ns, rank)
  {
    IsIndex(t, rank, key, p) && FirstAfter(t, p, q) && key' == KeyAt(t, q)
  }

  /** `next` returns nil for `key`. */
  ghost predicate Ends(t: Snapshot, rank: seq<nat>, key: Key) {
    RankOk(t.ns, rank) && exists p :: IsIndex(t, rank, key, p) && NoneAfter(t, p)
  }

  /** From nil on, `keys[i + 1]` is what `next` returns for `keys[i]` in state `i`; between two calls
      the table may evolve. */
  ghost predicate Traverses(states: seq<Snapshot>, rank: seq<nat>, main: (Key, nat) -> nat, keys: seq<Key>) {
    && |states| == |keys| > 0 && keys[0] == KNil
    && (forall i {:trigger states[i]} :: 0 <= i < |states| ==> Sound(states[i], rank, main))
    && (forall i, j {:trigger states[i], states[j]} :: 0 <= i && j == i + 1 < |states| ==> Evolves(states[i], states[j]))
    && (forall i, j {:trigger keys[i], keys[j]} :: 0 <= i && j == i + 1 < |states| ==> Follows(states[i], rank, keys[i], keys[j]))
  }

  lemma {:induction false} EvolvesMany(states: seq<Snapshot>, rank: seq<nat>, main: (Key, nat) -> nat, keys: seq<Key>, i: nat, j: nat)
    requires Traverses(states, rank, main, keys) && i <= j < |states|
    ensures Evolves(states[i], states[j])
  {
    hide Sound;
    hide Follows;
    if i < j {
      EvolvesMany(states, rank, main, keys, i, j - 1);
      EvolvesTwice(states[i], states[j - 1], states[j]);
    }
  }

  lemma EvolvesTwice(t: Snapshot, t': Snapshot, t'': Snapshot)
    requires Evolves(t, t') && Evolves(t', t'')
    ensures Evolves(t, t'')
  {
    forall j | 0 <= j < |t.ns| ensures t''.ns[j].next == t.ns[j].next && SameOrDied(t.ns[j].key, t''.ns[j].key) {
      var _ := t'.ns[j];
    }
  }

  /** Step `i` of the traversal went from position `ps[i]` to position `ps[i + 1]`. */
  ghost predicate Positions(states: seq<Snapshot>, rank: seq<nat>, keys: seq<Key>, ps: seq<int>)
    requires |states| == |keys| && forall i {:trigger states[i]} :: 0 <= i < |states| ==> RankOk(states[i].ns, rank)
  {
    && |ps| == |states|
    && (forall i {:trigger ps[i]} :: 0 <= i < |states| ==> IsIndex(states[i], rank, keys[i], ps[i]))
    && (forall i, j {:trigger ps[i], ps[j]} :: 0 <= i && j == i + 1 < |states| ==> StepAt(states[i], rank, keys[i], keys[j], ps[i], ps[j]))
  }

  lemma {:induction false} FindPositions(states: seq<Snapshot>, rank: seq<nat>, main: (Key, nat) -> nat, keys: seq<Key>) returns (ps: seq<int>)
    requires Traverses(states, rank, main, keys)
    ensures Positions(states, rank, keys, ps)
    decreases |states|
  {
    hide IsIndex;
    hide Evolves;
    hide ChainsOk;
    hide Represents;
    RanksOk(states, rank, main);
    if |states| == 1 {
      ps := [-1];
      StartIndex(states[0], rank);
    } else {
      var n := |states| - 1;
      TraversesPrefix(states, rank, main, keys, n);
      ps := FindPositions(states[..n], rank, main, keys[..n]);
      assert Follows(states[n - 1], rank, keys[n - 1], keys[n]);
      var p, q :| StepAt(states[n - 1], rank, keys[n - 1], keys[n], p, q);
      assert IsIndex(states[..n][n - 1], rank, keys[..n][n - 1], ps[n - 1]);
      IndexUnique(states[n - 1], rank, keys[n - 1], p, ps[n - 1]);
      IndexOfKey(states[n - 1], rank, main, q);
      IndexStays(states[n - 1], states[n], rank, keys[n], q);
      PositionsNext(states, rank, keys, ps, q);
      ps := ps + [q];
    }
  }

  lemma PositionsNext(states: seq<Snapshot>, rank: seq<nat>, keys: seq<Key>, ps: seq<int>, q: int)
    requires |states| == |keys| > 1 && forall i {:trigger states[i]} :: 0 <= i < |states| ==> RankOk(states[i].ns, rank)
    requires var n := |states| - 1;
             && Positions(states[..n], rank, keys[..n], ps) && IsIndex(states[n], rank, keys[n], q)
             && StepAt(states[n - 1], rank, keys[n - 1], keys[n], ps[n - 1], q)
    ensures Positions(states, rank, keys, ps + [q])
  {
    hide IsIndex;
    hide StepAt;
    hide RankOk;
    var n := |states| - 1;
    var ps' := ps + [q];
    forall i | 0 <= i < |states| ensures IsIndex(states[i], rank, keys[i], ps'[i]) {
      if i < n {
        assert IsIndex(states[..n][i], rank, keys[..n][i], ps[i]);
      }
    }
    forall i, j | 0 <= i && j == i + 1 < |states| ensures StepAt(states[i], rank, keys[i], keys[j], ps'[i], ps'[j]) {
      if j < n {
        assert StepAt(states[..n][i], rank, keys[..n][i], keys[..n][j], ps[i], ps[j]);
      }
    }
  }

  lemma RanksOk(states: seq<Snapshot>, rank: seq<nat>, main: (Key, nat) -> nat)
    requires forall i {:trigger states[i]} :: 0 <= i < |states| ==> Sound(states[i], rank, main)
    ensures forall i {:trigger states[i]} :: 0 <= i < |states| ==> RankOk(states[i].ns, rank)
  {
  }

  lemma StartIndex(t: Snapshot, rank: seq<nat>)
    requires RankOk(t.ns, rank)
    ensures IsIndex(t, rank, KNil, -1)
  {
  }

  lemma TraversesPrefix(states: seq<Snapshot>, rank: seq<nat>, main: (Key, nat) -> nat, keys: seq<Key>, n: nat)
    requires Traverses(states, rank, main, keys) && 0 < n <= |states|
    ensures Traverses(states[..n], rank, main, keys[..n])
  {
    hide Sound;
    hide Evolves;
    hide Follows;
  }

  lemma {:induction false} PositionsIncrease(states: seq<Snapshot>, rank: seq<nat>, keys: seq<Key>, ps: seq<int>, i: nat, j: nat)
    requires |states| == |keys| && forall i {:trigger states[i]} :: 0 <= i < |states| ==> RankOk(states[i].ns, rank)
    requires Positions(states, rank, keys, ps) && i <= j < |ps|
    ensures ps[j] >= ps[i] + j - i
  {
    hide IsIndex;
    hide RankOk;
    if i < j {
      PositionsIncrease(states, rank, keys, ps, i, j - 1);
      assert StepAt(states[j - 1], rank, keys[j - 1], keys[j], ps[j - 1], ps[j]);
    }
  }

  /** The position of an entry that stays in the table. */
  lemma PositionStays(states: seq<Snapshot>, rank: seq<nat>, main: (Key, nat) -> nat, keys: seq<Key>, k: Key, p: int, i: nat, j: nat)
    requires Traverses(states, rank, main, keys) && i <= j < |states| && RankOk(states[i].ns, rank)
    requires IsIndex(states[i], rank, k, p)
    ensures RankOk(states[j].ns, rank) && IsIndex(states[j], rank, k, p)
    ensures k in states[j].m ==> 0 <= p < Size(states[j]) && ValAt(states[j], p) != Nil && KeyAt(states[j], p) == k
  {
    hide IsIndex;
    EvolvesMany(states, rank, main, keys, i, j);
    hide Evolves;
    IndexStays(states[i], states[j], rank, k, p);
    if k in states[j].m {
      var r := PositionOf(states[j], k);
      IndexOfKey(states[j], rank, main, r);
      IndexUnique(states[j], rank, k, p, r);
    }
  }

  /** No key is visited twice. */
  lemma VisitedOnce(states: seq<Snapshot>, rank: seq<nat>, main: (Key, nat) -> nat, keys: seq<Key>, ps: seq<int>, i: nat, j: nat)
    requires Traverses(states, rank, main, keys) && i < j < |keys|
    requires forall i {:trigger states[i]} :: 0 <= i < |states| ==> RankOk(states[i].ns, rank)
    requires Positions(states, rank, keys, ps)
    ensures keys[i] != keys[j]
  {
    hide IsIndex;
    hide RankOk;
    var pi, pj := ps[i], ps[j];
    assert IsIndex(states[i], rank, keys[i], pi) && IsIndex(states[j], rank, keys[j], pj);
    PositionsIncrease(states, rank, keys, ps, i, j);
    PositionStays(states, rank, main, keys, keys[i], pi, i, j);
    if keys[i] == keys[j] {
      IndexUnique(states[j], rank, keys[i], pi, pj);
    }
  }

  /** What the traversal visits is in the table at that moment. */
  lemma VisitedIsEntry(states: seq<Snapshot>, rank: seq<nat>, main: (Key, nat) -> nat, keys: seq<Key>, i: nat)
    requires Traverses(states, rank, main, keys) && i + 1 < |keys|
    ensures keys[i + 1] in states[i].m
  {
    hide IsIndex;
    hide Evolves;
    assert Follows(states[i], rank, keys[i], keys[i + 1]);
    var p, q :| StepAt(states[i], rank, keys[i], keys[i + 1], p, q);
    IndexOfKey(states[i], rank, main, q);
  }

  /** The step that passes position `p`. */
  lemma {:induction false} StepPassing(ps: seq<int>, p: int, n: nat) returns (i: nat)
    requires n < |ps| && ps[0] < p <= ps[n]
    ensures i < n && ps[i] < p <= ps[i + 1]
  {
    if ps[n - 1] < p {
      i := n - 1;
    } else {
      i := StepPassing(ps, p, n - 1);
    }
  }

  /** An entry that stays in the table is visited. */
  lemma EntryVisited(states: seq<Snapshot>, rank: seq<nat>, main: (Key, nat) -> nat, keys: seq<Key>, ps: seq<int>, k: Key)
    requires Traverses(states, rank, main, keys) && Ends(states[|states| - 1], rank, keys[|states| - 1])
    requires forall i {:trigger states[i]} :: 0 <= i < |states| ==> RankOk(states[i].ns, rank)
    requires Positions(states, rank, keys, ps)
    requires forall i :: 0 <= i < |states| ==> k in states[i].m
    ensures k in keys[1..]
  {
    hide IsIndex;
    hide RankOk;
    hide Evolves;
    hide Follows;
    var n := |states| - 1;
    var p := PositionOf(states[0], k);
    IndexOfKey(states[0], rank, main, p);
    PositionStays(states, rank, main, keys, k, p, 0, n);
    var last :| IsIndex(states[n], rank, keys[n], last) && NoneAfter(states[n], last);
    assert IsIndex(states[n], rank, keys[n], ps[n]) && IsIndex(states[0], rank, keys[0], ps[0]);
    IndexUnique(states[n], rank, keys[n], last, ps[n]);
    StartIndex(states[0], rank);
    IndexUnique(states[0], rank, KNil, ps[0], -1);
    var i := StepPassing(ps, p, n);
    PositionStays(states, rank, main, keys, k, p, 0, i);
    var q := ps[i + 1];
    assert StepAt(states[i], rank, keys[i], keys[i + 1], ps[i], q);
    assert keys[1..][i] == keys[i + 1];
  }

  /** A traversal from nil to the end visits every entry exactly once and then stops, whatever
      fields are reassigned or cleared and whatever keys die on the way: no key comes twice, every
      key visited has a value at that moment, and every key with a value throughout is visited. */
  lemma EveryEntryOnce(states: seq<Snapshot>, rank: seq<nat>, main: (Key, nat) -> nat, keys: seq<Key>)
    requires Traverses(states, rank, main, keys)
    ensures forall i, j :: 0 <= i < j < |keys| ==> keys[i] != keys[j]
    ensures forall i {:trigger states[i]} :: 0 <= i < |keys| - 1 ==> keys[i + 1] in states[i].m
    ensures |keys| <= Size(states[0]) + 1
    ensures Ends(states[|states| - 1], rank, keys[|states| - 1]) ==>
              forall k :: (forall i :: 0 <= i < |states| ==> k in states[i].m) ==> k in keys[1..]
  {
    hide Ends;
    hide Positions;
    RanksOk(states, rank, main);
    var ps := FindPositions(states, rank, main, keys);
    forall i, j | 0 <= i < j < |keys| ensures keys[i] != keys[j] {
      VisitedOnce(states, rank, main, keys, ps, i, j);
    }
    forall i | 0 <= i < |keys| - 1 ensures keys[i + 1] in states[i].m {
      VisitedIsEntry(states, rank, main, keys, i);
    }
    BoundedSteps(states, rank, main, keys, ps);
    if Ends(states[|states| - 1], rank, keys[|states| - 1]) {
      forall k | forall i :: 0 <= i < |states| ==> k in states[i].m ensures k in keys[1..] {
        EntryVisited(states, rank, main, keys, ps, k);
      }
    }
  }

  lemma BoundedSteps(states: seq<Snapshot>, rank: seq<nat>, main: (Key, nat) -> nat, keys: seq<Key>, ps: seq<int>)
    requires Traverses(states, rank, main, keys)
    requires forall i {:trigger states[i]} :: 0 <= i < |states| ==> RankOk(states[i].ns, rank)
    requires Positions(states, rank, keys, ps)
    ensures |keys| <= Size(states[0]) + 1
  {
    hide RankOk;
    hide Sound;
    hide Follows;
    var n := |states| - 1;
    PositionsIncrease(states, rank, keys, ps, 0, n);
    EvolvesMany(states, rank, main, keys, 0, n);
    hide Evolves;
    assert IsIndex(states[0], rank, keys[0], ps[0]);
    if n > 0 {
      assert StepAt(states[n - 1], rank, keys[n - 1], keys[n], ps[n - 1], ps[n]);
      EvolvesMany(states, rank, main, keys, 0, n - 1);
    }
  }

  /** In the middle of a traversal `next` never fails to find where it was. */
  lemma TraversalGoesOn(states: seq<Snapshot>, rank: seq<nat>, main: (Key, nat) -> nat, keys: seq<Key>)
    requires Traverses(states, rank, main, keys)
    ensures var n := |states| - 1; RankOk(states[n].ns, rank) && exists p :: IsIndex(states[n], rank, keys[n], p)
  {
    hide IsIndex;
    hide Evolves;
    hide Follows;
    var ps := FindPositions(states, rank, main, keys);
    var n := |states| - 1;
    assert IsIndex(states[n], rank, keys[n], ps[n]);
  }
}
