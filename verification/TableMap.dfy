/** A table as one finite map (lua/ltable.c). */
module TableMap {
  // What the array part and the hash part hold together.

  import opened Basics
  import opened NodeChains
  import opened TableSizes
  import opened TableCounts

  function Lookup(m: map<Key, Val>, k: Key): Val {
    if k in m then m[k] else Nil
  }

  /** Assigning nil removes the key. */
  function Update(m: map<Key, Val>, k: Key, v: Val): map<Key, Val> {
    if v == Nil then m - {k} else m[k := v]
  }

  predicate InArray(k: Key, n: nat) {
    k.Int? && 1 <= k.i <= n
  }

  /** Node `j` is in use for key `k`. */
  predicate Holds(ns: seq<Node>, j: nat, k: Key)
    requires j < |ns|
  {
    ns[j].key == Live(k)
  }

  /** The two parts together hold exactly the entries of `m`. */
  ghost predicate Represents(a: seq<Val>, ns: seq<Node>, m: map<Key, Val>) {
    && (forall k :: k in m ==> Storable(k) && m[k] != Nil)
    && (forall i :: 0 <= i < |a| ==> a[i] == Lookup(m, Int(i + 1)))
    && (forall j :: 0 <= j < |ns| && ns[j].key.Live? ==>
          !InArray(ns[j].key.k, |a|) && ns[j].val == Lookup(m, ns[j].key.k))
    && (forall k :: k in m && !InArray(k, |a|) ==> exists j :: 0 <= j < |ns| && Holds(ns, j, k))
  }

  // ----- how many nodes are used -----

  ghost function Used(ns: seq<Node>): nat {
    if ns == [] then 0
    else Used(ns[..|ns| - 1]) + if ns[|ns| - 1].key.Free? then 0 else 1
  }

  lemma {:induction false} FullMeansUsed(ns: seq<Node>)
    requires forall j :: 0 <= j < |ns| ==> !ns[j].key.Free?
    ensures Used(ns) == |ns|
  {
    if ns != [] {
      FullMeansUsed(ns[..|ns| - 1]);
    }
  }

  lemma {:induction false} UnusedNone(ns: seq<Node>)
    requires forall j :: 0 <= j < |ns| ==> ns[j].key.Free?
    ensures Used(ns) == 0
  {
    if ns != [] {
      UnusedNone(ns[..|ns| - 1]);
    }
  }

  /** Only node `n` may change from free to used. */
  lemma {:induction false} UsedAdd(ns: seq<Node>, ns': seq<Node>, n: nat)
    requires |ns| == |ns'| && forall j :: 0 <= j < |ns| && j != n ==> ns'[j].key.Free? == ns[j].key.Free?
    ensures Used(ns') <= Used(ns) + 1
    ensures n >= |ns| ==> Used(ns') == Used(ns)
  {
    if ns != [] {
      UsedAdd(ns[..|ns| - 1], ns'[..|ns| - 1], n);
    }
  }

  lemma AbsentKey(a: seq<Val>, ns: seq<Node>, m: map<Key, Val>, k: Key)
    requires Represents(a, ns, m) && Absent(ns, k) && !InArray(k, |a|)
    ensures k !in m
  {
  }

  // ----- entries are kept by the three ways to insert a key -----

  lemma RepresentsTaken(a: seq<Val>, ns: seq<Node>, m: map<Key, Val>, mp: nat, key: Key)
    requires Represents(a, ns, m) && mp < |ns| && ns[mp].val == Nil
    requires Absent(ns, key) && !InArray(key, |a|)
    ensures Represents(a, Taken(ns, mp, key, Nil), m)
  {
    var ns' := Taken(ns, mp, key, Nil);
    forall k | k in m && !InArray(k, |a|) ensures exists j :: 0 <= j < |ns'| && Holds(ns', j, k) {
      var j :| 0 <= j < |ns| && Holds(ns, j, k);
      assert j != mp;
      assert Holds(ns', j, k);
    }
    assert key !in m;
  }

  lemma RepresentsLinked(a: seq<Val>, ns: seq<Node>, m: map<Key, Val>, mp: nat, n: nat, key: Key)
    requires Represents(a, ns, m) && mp < |ns| && n < |ns| && mp != n && ns[n].key.Free?
    requires Absent(ns, key) && !InArray(key, |a|)
    ensures Represents(a, LinkAfter(ns, mp, n, key), m)
  {
    var ns' := LinkAfter(ns, mp, n, key);
    forall k | k in m && !InArray(k, |a|) ensures exists j :: 0 <= j < |ns'| && Holds(ns', j, k) {
      var j :| 0 <= j < |ns| && Holds(ns, j, k);
      assert Holds(ns', j, k);
    }
    assert key !in m;
  }

  lemma RepresentsMoved(a: seq<Val>, ns: seq<Node>, m: map<Key, Val>, p: nat, mp: nat, n: nat, key: Key)
    requires Represents(a, ns, m) && p < |ns| && mp < |ns| && n < |ns| && p != n && p != mp && n != mp
    requires ns[n].key.Free? && Absent(ns, key) && !InArray(key, |a|)
    ensures Represents(a, MoveOut(ns, p, mp, n, key), m)
  {
    var ns' := MoveOut(ns, p, mp, n, key);
    forall k | k in m && !InArray(k, |a|) ensures exists j :: 0 <= j < |ns'| && Holds(ns', j, k) {
      var j :| 0 <= j < |ns| && Holds(ns, j, k);
      assert Holds(ns', if j == mp then n else j, k);
    }
    assert key !in m;
  }

  /** Storing a value in the node of its key. */
  lemma RepresentsNodeStore(a: seq<Val>, ns: seq<Node>, m: map<Key, Val>, j: nat, key: Key, v: Val)
    requires Represents(a, ns, m) && j < |ns| && Holds(ns, j, key) && UniqueLive(ns) && Storable(key)
    ensures Represents(a, ns[j := ns[j].(val := v)], Update(m, key, v))
  {
    var ns', m' := ns[j := ns[j].(val := v)], Update(m, key, v);
    forall i | 0 <= i < |ns'| && ns'[i].key.Live?
      ensures !InArray(ns'[i].key.k, |a|) && ns'[i].val == Lookup(m', ns'[i].key.k)
    {
      assert i != j ==> ns[i].key != ns[j].key;
    }
    forall k | k in m' && !InArray(k, |a|) ensures exists i :: 0 <= i < |ns'| && Holds(ns', i, k) {
      if k == key {
        assert Holds(ns', j, k);
      } else {
        var i :| 0 <= i < |ns| && Holds(ns, i, k);
        assert Holds(ns', i, k);
      }
    }
  }

  lemma RepresentsArrayStore(a: seq<Val>, ns: seq<Node>, m: map<Key, Val>, i: nat, v: Val)
    requires Represents(a, ns, m) && i < |a|
    ensures Represents(a[i := v], ns, Update(m, Int(i + 1), v))
  {
    var m' := Update(m, Int(i + 1), v);
    forall k | k in m' && !InArray(k, |a|) ensures exists j :: 0 <= j < |ns| && Holds(ns, j, k) {
      assert k in m;
    }
  }

  /** Neither changing values nor marking keys dead disturbs the chains. */
  lemma ChainsKept(ns: seq<Node>, ns': seq<Node>, rank: seq<nat>, main: (Key, nat) -> nat)
    requires ChainsOk(ns, rank, main) && |ns'| == |ns|
    requires forall i :: 0 <= i < |ns| ==>
               && ns'[i].next == ns[i].next
               && (ns'[i].key == ns[i].key || (ns[i].key.Live? && ns'[i].key == Dead(ns[i].key.k)))
               && (!ns'[i].key.Live? ==> ns'[i].val == Nil)
    ensures ChainsOk(ns', rank, main)
  {
    assert RankOk(ns', rank);
    hide Reach;
    forall i | 0 <= i < |ns'| && !ns'[i].key.Free? ensures Placed(ns', rank, main, i) {
      assert Placed(ns, rank, main, i);
      ReachSameLinks(ns, rank, ns', rank, main(ns[i].key.k, |ns|), i);
      var m := main(ns[i].key.k, |ns|);
      assert ns'[m].next == ns[m].next;
    }
    forall i, j | 0 <= i < |ns'| && 0 <= j < |ns'| ensures LiveBefore(ns', rank, i, j) {
      KeptLive(ns, ns', rank, main, i, j);
    }
    KeptLinks(ns, ns');
  }

  lemma KeptLive(ns: seq<Node>, ns': seq<Node>, rank: seq<nat>, main: (Key, nat) -> nat, i: nat, j: nat)
    requires ChainsOk(ns, rank, main) && RankOk(ns', rank) && |ns'| == |ns| && i < |ns| && j < |ns|
    requires forall i :: 0 <= i < |ns| ==>
               && ns'[i].next == ns[i].next
               && (ns'[i].key == ns[i].key || (ns[i].key.Live? && ns'[i].key == Dead(ns[i].key.k)))
    ensures LiveBefore(ns', rank, i, j)
  {
    if ns'[i].key.Live? && ns'[j].key == Dead(ns'[i].key.k) {
      assert LiveBefore(ns, rank, i, j);
      ReachSameLinks(ns, rank, ns', rank, i, j);
    }
  }

  lemma KeptLinks(ns: seq<Node>, ns': seq<Node>)
    requires OnePredecessor(ns) && FreeIsolated(ns) && UniqueLive(ns) && KeysStorable(ns) && |ns'| == |ns|
    requires forall i :: 0 <= i < |ns| ==>
               && ns'[i].next == ns[i].next
               && (ns'[i].key == ns[i].key || (ns[i].key.Live? && ns'[i].key == Dead(ns[i].key.k)))
               && (!ns'[i].key.Live? ==> ns'[i].val == Nil)
    ensures OnePredecessor(ns') && FreeIsolated(ns') && UniqueLive(ns') && KeysStorable(ns') && DeadEmpty(ns')
  {
  }

  lemma ChainFacts(ns: seq<Node>, rank: seq<nat>, main: (Key, nat) -> nat)
    requires ChainsOk(ns, rank, main)
    ensures UniqueLive(ns) && DeadEmpty(ns) && FreeIsolated(ns) && KeysStorable(ns)
  {
  }

  lemma RankLength(ns: seq<Node>, rank: seq<nat>, main: (Key, nat) -> nat)
    requires ChainsOk(ns, rank, main)
    ensures |rank| == |ns|
  {
  }

  // ----- resizing -----

  /** The keys that do not fit an array part of size `n`. */
  ghost function HashBound(K: set<Key>, n: nat): set<Key> {
    set k | k in K && !InArray(k, n)
  }

  lemma HashBoundAdd(K: set<Key>, n: nat, k: Key)
    ensures |HashBound(K + {k}, n)| == |HashBound(K, n)| + if k in K || InArray(k, n) then 0 else 1
  {
    if k in K {
      assert K + {k} == K;
    } else if InArray(k, n) {
      assert HashBound(K + {k}, n) == HashBound(K, n);
    } else {
      assert HashBound(K + {k}, n) == HashBound(K, n) + {k};
    }
  }

  lemma HashBoundAtMost(K: set<Key>, n: nat, k: Key)
    requires k !in K
    ensures |HashBound(K + {k}, n)| <= |K| + 1
  {
    SubsetSize(HashBound(K + {k}, n), K + {k});
  }

  lemma HashBoundMono(K: set<Key>, L: set<Key>, n: nat, k: Key)
    requires K <= L && k in L && k !in K && !InArray(k, n)
    ensures |HashBound(K, n)| < |HashBound(L, n)|
  {
    HashBoundAdd(K, n, k);
    SubsetSize(HashBound(K + {k}, n), HashBound(L, n));
  }

  ghost function Indices(A: set<Key>): set<int> {
    set k | k in A && k.Int? :: k.i
  }

  lemma {:induction false} IndicesSize(A: set<Key>)
    requires forall k :: k in A ==> k.Int?
    ensures |Indices(A)| == |A|
    decreases |A|
  {
    if A != {} {
      var x :| x in A;
      IndicesSize(A - {x});
      assert Indices(A) == Indices(A - {x}) + {x.i};
      assert x.i !in Indices(A - {x});
    }
  }

  /** The keys that go to the hash part are all keys but those counted for the array part. */
  lemma HashBoundCount(K: set<Key>, n: nat)
    requires n <= Pow2(MAXBITS)
    ensures |HashBound(K, n)| + CountUpTo(IntsOf(K), n) == |K|
  {
    hide Pow2;
    var A := set k | k in K && InArray(k, n);
    assert HashBound(K, n) + A == K && HashBound(K, n) !! A;
    IndicesSize(A);
    forall x ensures x in UpTo(IntsOf(K), n) <==> x in Indices(A) {
      if x in UpTo(IntsOf(K), n) {
        assert Int(x) in A;
      }
    }
    assert UpTo(IntsOf(K), n) == Indices(A);
  }

  lemma IntsInRange(K: set<Key>)
    ensures forall i :: i in IntsOf(K) ==> 1 <= i <= Pow2(MAXBITS)
  {
  }

  ghost function ArrayPart(m: map<Key, Val>, n: nat): set<Key> {
    set k | k in m && InArray(k, n)
  }

  lemma NodesHoldRest(a: seq<Val>, ns: seq<Node>, m: map<Key, Val>)
    requires Represents(a, ns, m)
    ensures m.Keys == ArrayPart(m, |a|) + KeysFrom(ns, 0) && ArrayPart(m, |a|) !! KeysFrom(ns, 0)
  {
    forall k | k in m && !InArray(k, |a|) ensures k in KeysFrom(ns, 0) {
      var j :| 0 <= j < |ns| && Holds(ns, j, k);
    }
  }

  lemma ArrayPartKeys(a: seq<Val>, ns: seq<Node>, m: map<Key, Val>)
    requires Represents(a, ns, m)
    ensures forall i :: i in ArrayKeys(a) <==> Int(i) in ArrayPart(m, |a|)
    ensures |ArrayKeys(a)| == |ArrayPart(m, |a|)|
  {
    forall i ensures i in ArrayKeys(a) <==> Int(i) in ArrayPart(m, |a|) {
      assert 1 <= i <= |a| ==> a[i - 1] == Lookup(m, Int(i));
    }
    hide Represents;
    IndicesSize(ArrayPart(m, |a|));
    assert Indices(ArrayPart(m, |a|)) == ArrayKeys(a) by {
      forall i | i in ArrayKeys(a) ensures i in Indices(ArrayPart(m, |a|)) {
        assert Int(i) in ArrayPart(m, |a|);
      }
    }
  }

  /** How the keys of the map are spread over the two parts. */
  lemma KeysSpread(a: seq<Val>, ns: seq<Node>, m: map<Key, Val>)
    requires Represents(a, ns, m) && |a| <= Pow2(MAXBITS)
    ensures ArrayKeys(a) !! IntsOf(KeysFrom(ns, 0))
    ensures IntsOf(m.Keys) == ArrayKeys(a) + IntsOf(KeysFrom(ns, 0))
    ensures |m| == |ArrayKeys(a)| + |KeysFrom(ns, 0)|
  {
    hide Represents;
    hide Pow2;
    hide ArrayKeys;
    hide KeysFrom;
    hide IntsOf;
    NodesHoldRest(a, ns, m);
    ArrayPartKeys(a, ns, m);
    assert |m| == |m.Keys|;
    SpreadInts(m.Keys, ArrayPart(m, |a|), KeysFrom(ns, 0), ArrayKeys(a));
  }

  lemma SpreadInts(K: set<Key>, A: set<Key>, H: set<Key>, S: set<int>)
    requires K == A + H && A !! H
    requires forall i :: i in S <==> Int(i) in A
    requires forall k :: k in A ==> ArrayCandidate(k)
    ensures S !! IntsOf(H) && IntsOf(K) == S + IntsOf(H)
  {
    hide Pow2;
    forall i ensures i in IntsOf(K) <==> i in S || i in IntsOf(H) {
      if i in IntsOf(K) {
        assert Int(i) in K;
      }
      if i in S {
        assert Int(i) in K && ArrayCandidate(Int(i));
      }
      if i in IntsOf(H) {
        assert Int(i) in K && ArrayCandidate(Int(i));
      }
    }
  }

  /** The sets of keys that the counting loops of `rehash` go through, for a new key `ek`. */
  lemma CountedSets(a: seq<Val>, ns: seq<Node>, m: map<Key, Val>, ek: Key)
    requires Represents(a, ns, m) && |a| <= Pow2(MAXBITS) && Absent(ns, ek) && !InArray(ek, |a|)
    ensures ArrayKeys(a) !! IntsOf(KeysFrom(ns, 0))
    ensures |m| == |ArrayKeys(a)| + |KeysFrom(ns, 0)|
    ensures ek !in m && |m.Keys + {ek}| == |m| + 1
    ensures var S := ArrayKeys(a) + IntsOf(KeysFrom(ns, 0));
            && |S| == |ArrayKeys(a)| + |IntsOf(KeysFrom(ns, 0))|
            && (ArrayCandidate(ek) ==> ek.i !in S)
            && IntsOf(m.Keys + {ek}) == S + (if ArrayCandidate(ek) then {ek.i} else {})
  {
    hide Represents;
    hide Pow2;
    hide ArrayKeys;
    hide KeysFrom;
    hide IntsOf;
    KeysSpread(a, ns, m);
    AbsentKey(a, ns, m, ek);
    hide Absent;
    IntsOfAdd(m.Keys, ek);
    assert |m| == |m.Keys|;
  }

  /** `part` agrees with `all` and has every key that `Covered` asks for. */
  ghost predicate SubMap(part: map<Key, Val>, all: map<Key, Val>) {
    forall k :: k in part ==> k in all && part[k] == all[k]
  }

  function Resized(a: seq<Val>, n: nat): seq<Val> {
    seq(n, i requires 0 <= i => if i < |a| then a[i] else Nil)
  }

  lemma ResizedSame(a: seq<Val>)
    ensures Resized(a, |a|) == a
  {
  }

  /** The entries that stay in the array part. */
  ghost function Kept(all: map<Key, Val>, oldsize: nat, newsize: nat): map<Key, Val> {
    map k | k in all && InArray(k, oldsize) && InArray(k, newsize) :: all[k]
  }

  lemma KeptSub(all: map<Key, Val>, oldsize: nat, newsize: nat)
    ensures SubMap(Kept(all, oldsize, newsize), all)
    ensures HashBound(Kept(all, oldsize, newsize).Keys, newsize) == {}
  {
  }

  lemma RebuildStart(a0: seq<Val>, n0: seq<Node>, all: map<Key, Val>, nasize: nat, n: nat)
    requires Represents(a0, n0, all)
    ensures Represents(Resized(a0, nasize), FreshNodes(n), Kept(all, |a0|, nasize))
    ensures Back(a0, all, Kept(all, |a0|, nasize), nasize)
  {
    var a, m := Resized(a0, nasize), Kept(all, |a0|, nasize);
    forall i | 0 <= i < |a| ensures a[i] == Lookup(m, Int(i + 1)) {
      assert i < |a0| ==> a0[i] == Lookup(all, Int(i + 1));
    }
  }

  /** The entries of array positions below `i` are in the map again. */
  ghost predicate Back(a0: seq<Val>, all: map<Key, Val>, part: map<Key, Val>, i: nat) {
    forall k :: k in all && InArray(k, |a0|) && k.i <= i ==> k in part
  }

  /** The entries of nodes from `i` on are in the map again. */
  ghost predicate BackNodes(n0: seq<Node>, part: map<Key, Val>, i: nat) {
    forall j :: i <= j < |n0| && n0[j].val != Nil && n0[j].key.Live? ==> n0[j].key.k in part
  }

  lemma BackStep(a0: seq<Val>, n0: seq<Node>, all: map<Key, Val>, before: map<Key, Val>, after: map<Key, Val>, i: nat)
    requires Represents(a0, n0, all) && i < |a0| && Back(a0, all, before, i)
    requires before.Keys <= after.Keys && (a0[i] != Nil ==> Int(i + 1) in after)
    ensures Back(a0, all, after, i + 1)
  {
    assert a0[i] == Lookup(all, Int(i + 1));
    forall k | k in all && InArray(k, |a0|) && k.i <= i + 1 ensures k in after {
      if k.i == i + 1 {
        assert k == Int(i + 1);
      }
    }
  }

  lemma BackAll(a0: seq<Val>, all: map<Key, Val>, part: map<Key, Val>, i: nat)
    requires Back(a0, all, part, i) && i >= |a0|
    ensures Back(a0, all, part, |a0|)
  {
  }

  lemma EntryOfArray(a0: seq<Val>, n0: seq<Node>, all: map<Key, Val>, i: nat)
    requires Represents(a0, n0, all) && i < |a0| && a0[i] != Nil
    ensures Int(i + 1) in all && all[Int(i + 1)] == a0[i]
  {
    assert a0[i] == Lookup(all, Int(i + 1));
  }

  lemma EntryOfNode(a0: seq<Val>, n0: seq<Node>, all: map<Key, Val>, j: nat, rank: seq<nat>, main: (Key, nat) -> nat)
    requires Represents(a0, n0, all) && ChainsOk(n0, rank, main) && j < |n0| && n0[j].val != Nil
    ensures n0[j].key.Live? && Storable(n0[j].key.k) && n0[j].key.k in all && all[n0[j].key.k] == n0[j].val
  {
  }

  lemma AllBack(a0: seq<Val>, n0: seq<Node>, all: map<Key, Val>, part: map<Key, Val>)
    requires Represents(a0, n0, all) && SubMap(part, all) && Back(a0, all, part, |a0|) && BackNodes(n0, part, 0)
    ensures part == all
  {
    forall k | k in all ensures k in part {
      if !InArray(k, |a0|) {
        var j :| 0 <= j < |n0| && Holds(n0, j, k);
        assert n0[j].val == Lookup(all, k);
      }
    }
    assert part.Keys == all.Keys;
  }

  /** All free nodes, no links. */
  ghost function FreshNodes(n: nat): seq<Node> {
    seq(n, _ => Node(Free, Nil, NO_NODE))
  }

  lemma CeilLog2Overflow(size: nat)
    ensures size == 0 ==> size <= Pow2(MAXBITS)
    ensures size > 0 ==> (CeilLog2(size) <= MAXBITS <==> size <= Pow2(MAXBITS))
  {
    hide Pow2;
    if size > 0 {
      var e := CeilLog2(size);
      if e <= MAXBITS {
        Pow2Mono(e, MAXBITS);
      } else {
        Pow2Mono(MAXBITS, e - 1);
      }
    }
  }

  /** The smallest power of two that is not less than `size`. */
  function NodeCount(size: nat): (n: nat)
    ensures size <= n && (n == 1 || ((exists e: nat :: n == Pow2(e)) && n / 2 < size))
  {
    if size == 0 then 1
    else
      var e := CeilLog2(size);
      assert if e == 0 then Pow2(e) == 1 else Pow2(e) == 2 * Pow2(e - 1);
      Pow2(e)
  }

  ghost function Zeros(n: nat): seq<nat> {
    seq(n, _ => 0)
  }

  lemma FreshChains(n: nat, main: (Key, nat) -> nat)
    ensures ChainsOk(FreshNodes(n), Zeros(n), main) && Used(FreshNodes(n)) == 0
  {
    UnusedNone(FreshNodes(n));
  }

  method NewNodes(n: nat) returns (ns: array<Node>)
    ensures fresh(ns) && ns.Length == n && ns[..] == FreshNodes(n)
  {
    ns := new Node[n](_ => Node(Free, Nil, NO_NODE));
    assert ns[..] == FreshNodes(n);
  }
}
