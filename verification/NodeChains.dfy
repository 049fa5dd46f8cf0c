/** The hash part of a table as chains of nodes (lua/ltable.c). */
module NodeChains {
  // A chained scatter table with Brent's variation: a vector of nodes, linked into chains.

  /** Table keys. `Int` stands for a number that converts exactly to a C int, `Other` for every
      other key that can be stored. */
  datatype Key = KNil | KNaN | Int(i: int) | Other(id: int, collectable: bool)

  predicate Storable(k: Key) {
    k.Int? || k.Other?
  }

  datatype Val = Nil | Some(v: int)

  /** The key field of a node: never used, in use, or marked dead by the collector. */
  datatype NodeKey = Free | Live(k: Key) | Dead(k: Key)

  datatype Node = Node(key: NodeKey, val: Val, next: int)

  const NO_NODE: int := -1

  /** Links decrease `rank`, hence chains are acyclic. */
  ghost predicate RankOk(ns: seq<Node>, rank: seq<nat>) {
    && |rank| == |ns|
    && forall i {:trigger ns[i]} :: 0 <= i < |ns| ==>
         -1 <= ns[i].next < |ns| && (ns[i].next >= 0 ==> rank[ns[i].next] < rank[i])
  }

  /** Node `b` is on the chain that starts at `a`. */
  ghost predicate Reach(ns: seq<Node>, rank: seq<nat>, a: nat, b: nat)
    requires RankOk(ns, rank) && a < |ns|
    decreases rank[a]
  {
    a == b || (ns[a].next >= 0 && Reach(ns, rank, ns[a].next, b))
  }

  /** The key of node `j`, dead or alive, is where a search finds it: its main position holds a key
      that belongs there, and `j` is on the chain of that position. */
  ghost predicate Placed(ns: seq<Node>, rank: seq<nat>, main: (Key, nat) -> nat, j: nat)
    requires RankOk(ns, rank) && j < |ns| && !ns[j].key.Free?
  {
    var m := main(ns[j].key.k, |ns|);
    m < |ns| && !ns[m].key.Free? && main(ns[m].key.k, |ns|) == m && Reach(ns, rank, m, j)
  }

  ghost predicate OnePredecessor(ns: seq<Node>) {
    forall i, j :: 0 <= i < |ns| && 0 <= j < |ns| && ns[i].next == ns[j].next >= 0 ==> i == j
  }

  ghost predicate FreeIsolated(ns: seq<Node>) {
    && (forall i :: 0 <= i < |ns| && ns[i].key.Free? ==> ns[i].next == NO_NODE && ns[i].val == Nil)
    && (forall i :: 0 <= i < |ns| && 0 <= ns[i].next < |ns| ==> !ns[ns[i].next].key.Free?)
  }

  ghost predicate UniqueLive(ns: seq<Node>) {
    forall i, j :: 0 <= i < j < |ns| && ns[i].key.Live? ==> ns[i].key != ns[j].key
  }

  ghost predicate KeysStorable(ns: seq<Node>) {
    forall i :: 0 <= i < |ns| && !ns[i].key.Free? ==> Storable(ns[i].key.k)
  }

  ghost predicate DeadEmpty(ns: seq<Node>) {
    forall i :: 0 <= i < |ns| && ns[i].key.Dead? ==> ns[i].val == Nil
  }

  /** No node in use has this key. */
  ghost predicate Absent(ns: seq<Node>, key: Key) {
    forall j :: 0 <= j < |ns| ==> ns[j].key != Live(key)
  }

  /** A key in use comes before dead nodes of the same key on their chain. */
  ghost predicate LiveBefore(ns: seq<Node>, rank: seq<nat>, i: nat, j: nat)
    requires RankOk(ns, rank) && i < |ns| && j < |ns|
  {
    ns[i].key.Live? && ns[j].key == Dead(ns[i].key.k) ==> Reach(ns, rank, i, j)
  }

  /** The invariant of the hash part. */
  ghost predicate ChainsOk(ns: seq<Node>, rank: seq<nat>, main: (Key, nat) -> nat) {
    && RankOk(ns, rank)
    && OnePredecessor(ns)
    && FreeIsolated(ns)
    && UniqueLive(ns)
    && KeysStorable(ns) && DeadEmpty(ns)
    && (forall j {:trigger Placed(ns, rank, main, j)} ::
          0 <= j < |ns| && !ns[j].key.Free? ==> Placed(ns, rank, main, j))
    && (forall i, j {:trigger LiveBefore(ns, rank, i, j)} ::
          0 <= i < |ns| && 0 <= j < |ns| ==> LiveBefore(ns, rank, i, j))
  }

  // ----- reachability -----

  /** Reachability depends only on the links. */
  lemma {:induction false} ReachSameLinks(ns: seq<Node>, rank: seq<nat>, ns': seq<Node>, rank': seq<nat>, a: nat, b: nat)
    requires RankOk(ns, rank) && RankOk(ns', rank') && |ns| == |ns'| && a < |ns|
    requires forall i :: 0 <= i < |ns| ==> ns'[i].next == ns[i].next
    requires Reach(ns, rank, a, b)
    ensures Reach(ns', rank', a, b)
    decreases rank[a]
  {
    if a != b {
      ReachSameLinks(ns, rank, ns', rank', ns[a].next, b);
    }
  }

  lemma {:induction false} ReachTrans(ns: seq<Node>, rank: seq<nat>, a: nat, b: nat, c: nat)
    requires RankOk(ns, rank) && a < |ns| && b < |ns|
    requires Reach(ns, rank, a, b) && Reach(ns, rank, b, c)
    ensures Reach(ns, rank, a, c)
    decreases rank[a]
  {
    if a != b {
      ReachTrans(ns, rank, ns[a].next, b, c);
    }
  }

  lemma {:induction false} ReachRank(ns: seq<Node>, rank: seq<nat>, a: nat, b: nat)
    requires RankOk(ns, rank) && a < |ns| && Reach(ns, rank, a, b)
    ensures b < |ns| && rank[b] <= rank[a] && (a != b ==> rank[b] < rank[a])
    decreases rank[a]
  {
    if a != b {
      ReachRank(ns, rank, ns[a].next, b);
    }
  }

  /** On the way from `a` to a different node `b` some node links to `b`. */
  lemma {:induction false} ReachLast(ns: seq<Node>, rank: seq<nat>, a: nat, b: nat) returns (p: nat)
    requires RankOk(ns, rank) && a < |ns| && Reach(ns, rank, a, b) && a != b
    ensures p < |ns| && ns[p].next == b && Reach(ns, rank, a, p)
    decreases rank[a]
  {
    if ns[a].next == b {
      p := a;
    } else {
      p := ReachLast(ns, rank, ns[a].next, b);
    }
  }

  // ----- reusing a node whose value is nil -----

  function Taken(ns: seq<Node>, mp: nat, key: Key, v: Val): seq<Node>
    requires mp < |ns|
  {
    ns[mp := Node(Live(key), v, ns[mp].next)]
  }

  /** The new key takes over its main position, whose node stays where it is in its chain. */
  lemma TakeOver(ns: seq<Node>, rank: seq<nat>, main: (Key, nat) -> nat, mp: nat, key: Key, v: Val)
    requires ChainsOk(ns, rank, main) && mp < |ns| && main(key, |ns|) == mp && Storable(key)
    requires Absent(ns, key)
    ensures ChainsOk(Taken(ns, mp, key, v), rank, main)
  {
    hide Reach;
    hide Placed;
    hide LiveBefore;
    hide UniqueLive;
    hide KeysStorable;
    hide DeadEmpty;
    hide Absent;
    var ns' := Taken(ns, mp, key, v);
    TakenLinks(ns, rank, mp, key, v);
    hide RankOk;
    hide OnePredecessor;
    hide FreeIsolated;
    forall j | 0 <= j < |ns'| && !ns'[j].key.Free? ensures Placed(ns', rank, main, j) {
      TakenPlaced(ns, rank, main, mp, key, v, j);
    }
    forall i, j | 0 <= i < |ns'| && 0 <= j < |ns'| ensures LiveBefore(ns', rank, i, j) {
      TakenLive(ns, rank, main, mp, key, v, i, j);
    }
    TakenKeys(ns, mp, key, v);
  }

  lemma TakenLinks(ns: seq<Node>, rank: seq<nat>, mp: nat, key: Key, v: Val)
    requires RankOk(ns, rank) && OnePredecessor(ns) && FreeIsolated(ns) && mp < |ns|
    ensures var ns' := Taken(ns, mp, key, v); RankOk(ns', rank) && OnePredecessor(ns') && FreeIsolated(ns')
  {
    var ns' := Taken(ns, mp, key, v);
    assert forall i :: 0 <= i < |ns| ==> ns'[i].next == ns[i].next;
  }

  lemma TakenKeys(ns: seq<Node>, mp: nat, key: Key, v: Val)
    requires UniqueLive(ns) && KeysStorable(ns) && DeadEmpty(ns) && mp < |ns| && Storable(key) && Absent(ns, key)
    ensures UniqueLive(Taken(ns, mp, key, v)) && KeysStorable(Taken(ns, mp, key, v)) && DeadEmpty(Taken(ns, mp, key, v))
  {
  }

  lemma TakenPlaced(ns: seq<Node>, rank: seq<nat>, main: (Key, nat) -> nat, mp: nat, key: Key, v: Val, j: nat)
    requires ChainsOk(ns, rank, main) && mp < |ns| && main(key, |ns|) == mp
    requires RankOk(Taken(ns, mp, key, v), rank)
    requires j < |ns| && !Taken(ns, mp, key, v)[j].key.Free?
    ensures Placed(Taken(ns, mp, key, v), rank, main, j)
  {
    if j != mp {
      assert Placed(ns, rank, main, j);
      ReachSameLinks(ns, rank, Taken(ns, mp, key, v), rank, main(ns[j].key.k, |ns|), j);
    }
  }

  lemma TakenLive(ns: seq<Node>, rank: seq<nat>, main: (Key, nat) -> nat, mp: nat, key: Key, v: Val, i: nat, j: nat)
    requires ChainsOk(ns, rank, main) && mp < |ns| && main(key, |ns|) == mp
    requires RankOk(Taken(ns, mp, key, v), rank) && i < |ns| && j < |ns|
    ensures LiveBefore(Taken(ns, mp, key, v), rank, i, j)
  {
    var ns' := Taken(ns, mp, key, v);
    if ns'[i].key.Live? && ns'[j].key == Dead(ns'[i].key.k) {
      assert LiveBefore(ns, rank, i, j) && Placed(ns, rank, main, j);
      ReachSameLinks(ns, rank, ns', rank, i, j);
    }
  }

  // ----- the colliding node is in its own main position -----

  /** Make room between `mp` and its successor. */
  function RankAfter(rank: seq<nat>, mp: nat, n: nat): (r: seq<nat>)
    requires mp < |rank| && n < |rank| && mp != n
    ensures |r| == |rank|
  {
    seq(|rank|, i requires 0 <= i < |rank| => if i == n then 2 * rank[mp] else 2 * rank[i] + 1)
  }

  function LinkAfter(ns: seq<Node>, mp: nat, n: nat, key: Key): seq<Node>
    requires mp < |ns| && n < |ns|
  {
    ns[n := Node(Live(key), Nil, ns[mp].next)][mp := ns[mp].(next := n)]
  }

  lemma LinkAfterRank(ns: seq<Node>, rank: seq<nat>, main: (Key, nat) -> nat, mp: nat, n: nat, key: Key)
    requires ChainsOk(ns, rank, main) && mp < |ns| && n < |ns| && mp != n && ns[n].key.Free?
    ensures RankOk(LinkAfter(ns, mp, n, key), RankAfter(rank, mp, n))
    ensures OnePredecessor(LinkAfter(ns, mp, n, key))
  {
    var ns', rank' := LinkAfter(ns, mp, n, key), RankAfter(rank, mp, n);
    forall i | 0 <= i < |ns'|
      ensures -1 <= ns'[i].next < |ns'| && (ns'[i].next >= 0 ==> rank'[ns'[i].next] < rank'[i])
    {
      assert ns[i] == ns[i];
      if i == n {
        assert ns[mp].next != n;
      }
    }
    forall i, j | 0 <= i < |ns'| && 0 <= j < |ns'| && ns'[i].next == ns'[j].next >= 0 ensures i == j {
      assert ns[i].next != n && ns[j].next != n;
    }
  }

  lemma {:induction false} LinkAfterReach(ns: seq<Node>, rank: seq<nat>, main: (Key, nat) -> nat, mp: nat, n: nat, key: Key, a: nat, b: nat)
    requires ChainsOk(ns, rank, main) && mp < |ns| && n < |ns| && mp != n && ns[n].key.Free?
    requires RankOk(LinkAfter(ns, mp, n, key), RankAfter(rank, mp, n))
    requires a < |ns| && a != n && Reach(ns, rank, a, b)
    ensures Reach(LinkAfter(ns, mp, n, key), RankAfter(rank, mp, n), a, b)
    decreases rank[a]
  {
    var ns', rank' := LinkAfter(ns, mp, n, key), RankAfter(rank, mp, n);
    if a != b {
      assert ns[a].next != n;
      LinkAfterReach(ns, rank, main, mp, n, key, ns[a].next, b);
      if a == mp {
        assert ns'[mp].next == n && ns'[n].next == ns[mp].next;
        assert Reach(ns', rank', n, b);
      }
    }
  }

  /** The new key goes to the free node `n`, linked right after `mp`. */
  lemma InsertAfter(ns: seq<Node>, rank: seq<nat>, main: (Key, nat) -> nat, mp: nat, n: nat, key: Key)
    requires ChainsOk(ns, rank, main) && mp < |ns| && n < |ns| && mp != n && ns[n].key.Free?
    requires main(key, |ns|) == mp && Storable(key) && ns[mp].key.Live? && main(ns[mp].key.k, |ns|) == mp
    requires Absent(ns, key)
    ensures ChainsOk(LinkAfter(ns, mp, n, key), RankAfter(rank, mp, n), main)
  {
    var ns', rank' := LinkAfter(ns, mp, n, key), RankAfter(rank, mp, n);
    LinkAfterRank(ns, rank, main, mp, n, key);
    LinkAfterKeys(ns, mp, n, key);
    hide Reach;
    hide LinkAfter;
    hide OnePredecessor;
    forall j | 0 <= j < |ns'| && !ns'[j].key.Free? ensures Placed(ns', rank', main, j) {
      LinkAfterPlaced(ns, rank, main, mp, n, key, j);
    }
    forall i, j | 0 <= i < |ns'| && 0 <= j < |ns'| ensures LiveBefore(ns', rank', i, j) {
      LinkAfterLive(ns, rank, main, mp, n, key, i, j);
    }
  }

  lemma LinkAfterKeys(ns: seq<Node>, mp: nat, n: nat, key: Key)
    requires UniqueLive(ns) && KeysStorable(ns) && DeadEmpty(ns) && FreeIsolated(ns) && Storable(key) && Absent(ns, key)
    requires mp < |ns| && n < |ns| && mp != n && !ns[mp].key.Free? && ns[n].key.Free? && ns[mp].next < |ns|
    ensures UniqueLive(LinkAfter(ns, mp, n, key)) && KeysStorable(LinkAfter(ns, mp, n, key))
    ensures DeadEmpty(LinkAfter(ns, mp, n, key)) && FreeIsolated(LinkAfter(ns, mp, n, key))
  {
  }

  lemma LinkAfterPlaced(ns: seq<Node>, rank: seq<nat>, main: (Key, nat) -> nat, mp: nat, n: nat, key: Key, j: nat)
    requires ChainsOk(ns, rank, main) && mp < |ns| && n < |ns| && mp != n && ns[n].key.Free?
    requires main(key, |ns|) == mp && !ns[mp].key.Free? && main(ns[mp].key.k, |ns|) == mp
    requires RankOk(LinkAfter(ns, mp, n, key), RankAfter(rank, mp, n))
    requires j < |ns| && !LinkAfter(ns, mp, n, key)[j].key.Free?
    ensures Placed(LinkAfter(ns, mp, n, key), RankAfter(rank, mp, n), main, j)
  {
    var ns', rank' := LinkAfter(ns, mp, n, key), RankAfter(rank, mp, n);
    if j == n {
      assert Reach(ns', rank', n, n);
      assert Reach(ns', rank', mp, n);
    } else {
      assert Placed(ns, rank, main, j);
      LinkAfterReach(ns, rank, main, mp, n, key, main(ns[j].key.k, |ns|), j);
    }
  }

  lemma LinkAfterLive(ns: seq<Node>, rank: seq<nat>, main: (Key, nat) -> nat, mp: nat, n: nat, key: Key, i: nat, j: nat)
    requires ChainsOk(ns, rank, main) && mp < |ns| && n < |ns| && mp != n && ns[n].key.Free?
    requires main(key, |ns|) == mp && !ns[mp].key.Free? && ns[mp].key != Dead(key)
    requires RankOk(LinkAfter(ns, mp, n, key), RankAfter(rank, mp, n)) && i < |ns| && j < |ns|
    ensures LiveBefore(LinkAfter(ns, mp, n, key), RankAfter(rank, mp, n), i, j)
  {
    var ns', rank' := LinkAfter(ns, mp, n, key), RankAfter(rank, mp, n);
    if ns'[i].key.Live? && ns'[j].key == Dead(ns'[i].key.k) {
      if i == n {
        assert Placed(ns, rank, main, j);
        assert ns[mp].next >= 0 && ns[mp].next != n && Reach(ns, rank, ns[mp].next, j);
        LinkAfterReach(ns, rank, main, mp, n, key, ns[mp].next, j);
      } else {
        assert LiveBefore(ns, rank, i, j);
        LinkAfterReach(ns, rank, main, mp, n, key, i, j);
      }
    }
  }

  // ----- the colliding node is out of its main position -----

  /** The colliding node moves to `n`; its predecessor `p` follows; the new key takes `mp`. */
  function MoveOut(ns: seq<Node>, p: nat, mp: nat, n: nat, key: Key): seq<Node>
    requires p < |ns| && mp < |ns| && n < |ns|
  {
    ns[p := ns[p].(next := n)][n := ns[mp]][mp := Node(Live(key), Nil, NO_NODE)]
  }

  ghost predicate CanMove(ns: seq<Node>, rank: seq<nat>, main: (Key, nat) -> nat, p: nat, mp: nat, n: nat) {
    && ChainsOk(ns, rank, main) && p < |ns| && mp < |ns| && n < |ns|
    && ns[n].key.Free? && !ns[mp].key.Free? && main(ns[mp].key.k, |ns|) != mp
    && ns[p].next == mp
  }

  lemma MoveOutRank(ns: seq<Node>, rank: seq<nat>, main: (Key, nat) -> nat, p: nat, mp: nat, n: nat, key: Key)
    requires CanMove(ns, rank, main, p, mp, n)
    ensures p != n && p != mp && n != mp
    ensures RankOk(MoveOut(ns, p, mp, n, key), rank[n := rank[mp]])
  {
    var ns', rank' := MoveOut(ns, p, mp, n, key), rank[n := rank[mp]];
    hide Placed;
    assert rank[mp] < rank[p];
    forall i | 0 <= i < |ns|
      ensures -1 <= ns'[i].next < |ns'| && (ns'[i].next >= 0 ==> rank'[ns'[i].next] < rank'[i])
    {
      assert ns[i].next != n;
      assert ns[i].next == mp ==> i == p;
    }
  }

  lemma MoveOutLinks(ns: seq<Node>, p: nat, mp: nat, n: nat, key: Key)
    requires OnePredecessor(ns) && FreeIsolated(ns) && p != n && p != mp && n != mp
    requires p < |ns| && mp < |ns| && n < |ns| && ns[p].next == mp && ns[n].key.Free? && !ns[mp].key.Free?
    requires forall i :: 0 <= i < |ns| ==> ns[i].next < |ns|
    ensures OnePredecessor(MoveOut(ns, p, mp, n, key)) && FreeIsolated(MoveOut(ns, p, mp, n, key))
  {
    var ns' := MoveOut(ns, p, mp, n, key);
    forall i | 0 <= i < |ns| ensures ns'[i].next != mp && (ns'[i].next == n ==> i == p) {
      assert ns[i].next != n;
      assert ns[i].next == mp ==> i == p;
    }
  }

  /** A path that did not start at `mp` is still there, with `n` in place of `mp`. */
  lemma {:induction false} MoveOutReach(ns: seq<Node>, rank: seq<nat>, main: (Key, nat) -> nat, p: nat, mp: nat, n: nat, key: Key, a: nat, b: nat)
    requires CanMove(ns, rank, main, p, mp, n)
    requires RankOk(MoveOut(ns, p, mp, n, key), rank[n := rank[mp]]) && p != n && p != mp && n != mp
    requires a < |ns| && a != n && Reach(ns, rank, a, b)
    ensures Reach(MoveOut(ns, p, mp, n, key), rank[n := rank[mp]],
                  if a == mp then n else a, if b == mp then n else b)
    decreases rank[a]
  {
    if a != b {
      assert ns[a].next != n;
      MoveOutReach(ns, rank, main, p, mp, n, key, ns[a].next, b);
      assert ns[a].next == mp ==> a == p;
    }
  }

  lemma InsertMoving(ns: seq<Node>, rank: seq<nat>, main: (Key, nat) -> nat, p: nat, mp: nat, n: nat, key: Key)
    requires CanMove(ns, rank, main, p, mp, n)
    requires main(key, |ns|) == mp && Storable(key)
    requires Absent(ns, key)
    ensures ChainsOk(MoveOut(ns, p, mp, n, key), rank[n := rank[mp]], main)
  {
    var ns', rank' := MoveOut(ns, p, mp, n, key), rank[n := rank[mp]];
    MoveOutRank(ns, rank, main, p, mp, n, key);
    MoveOutLinks(ns, p, mp, n, key);
    MoveOutKeys(ns, p, mp, n, key);
    hide Reach;
    hide MoveOut;
    hide OnePredecessor;
    hide FreeIsolated;
    forall j | 0 <= j < |ns'| && !ns'[j].key.Free? ensures Placed(ns', rank', main, j) {
      MoveOutPlaced(ns, rank, main, p, mp, n, key, j);
    }
    forall i, j | 0 <= i < |ns'| && 0 <= j < |ns'| ensures LiveBefore(ns', rank', i, j) {
      MoveOutLive(ns, rank, main, p, mp, n, key, i, j);
    }
  }

  lemma MoveOutKeys(ns: seq<Node>, p: nat, mp: nat, n: nat, key: Key)
    requires UniqueLive(ns) && KeysStorable(ns) && DeadEmpty(ns) && Storable(key) && Absent(ns, key)
    requires p < |ns| && mp < |ns| && n < |ns| && p != n && p != mp && n != mp && ns[n].key.Free?
    ensures UniqueLive(MoveOut(ns, p, mp, n, key)) && KeysStorable(MoveOut(ns, p, mp, n, key))
    ensures DeadEmpty(MoveOut(ns, p, mp, n, key)) && |MoveOut(ns, p, mp, n, key)| == |ns|
  {
  }

  lemma MoveOutPlaced(ns: seq<Node>, rank: seq<nat>, main: (Key, nat) -> nat, p: nat, mp: nat, n: nat, key: Key, j: nat)
    requires CanMove(ns, rank, main, p, mp, n) && main(key, |ns|) == mp && p != n && p != mp && n != mp
    requires RankOk(MoveOut(ns, p, mp, n, key), rank[n := rank[mp]])
    requires j < |ns| && !MoveOut(ns, p, mp, n, key)[j].key.Free?
    ensures Placed(MoveOut(ns, p, mp, n, key), rank[n := rank[mp]], main, j)
  {
    if j != mp {
      var i := if j == n then mp else j;
      assert Placed(ns, rank, main, i);
      var m := main(ns[i].key.k, |ns|);
      assert m != mp;  // nothing belongs at mp, for its occupant does not
      MoveOutReach(ns, rank, main, p, mp, n, key, m, i);
    }
  }

  lemma MoveOutLive(ns: seq<Node>, rank: seq<nat>, main: (Key, nat) -> nat, p: nat, mp: nat, n: nat, key: Key, i: nat, j: nat)
    requires CanMove(ns, rank, main, p, mp, n) && main(key, |ns|) == mp && p != n && p != mp && n != mp
    requires RankOk(MoveOut(ns, p, mp, n, key), rank[n := rank[mp]]) && i < |ns| && j < |ns|
    ensures LiveBefore(MoveOut(ns, p, mp, n, key), rank[n := rank[mp]], i, j)
  {
    var ns' := MoveOut(ns, p, mp, n, key);
    if ns'[i].key.Live? && ns'[j].key == Dead(ns'[i].key.k) {
      var i0, j0 := if i == n then mp else i, if j == n then mp else j;
      assert Placed(ns, rank, main, j0);  // so that no dead node has the new key
      assert LiveBefore(ns, rank, i0, j0);
      MoveOutReach(ns, rank, main, p, mp, n, key, i0, j0);
    }
  }
}
