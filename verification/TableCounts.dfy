/** Counting the keys in use before a rehash (lua/ltable.c). */
module TableCounts {
  import opened Basics
  import opened NodeChains
  import opened TableSizes

  /** The integer keys with a value in the array part. */
  ghost function ArrayKeys(a: seq<Val>): set<int> {
    set i | 1 <= i <= |a| && InUse(a, i)
  }

  predicate InUse(a: seq<Val>, i: int)
    requires 1 <= i <= |a|
  {
    a[i - 1] != Nil
  }

  /** The keys with a value in nodes `from` and above. */
  ghost function KeysFrom(ns: seq<Node>, from: nat): set<Key> {
    set i | from <= i < |ns| && ns[i].val != Nil && ns[i].key.Live? :: ns[i].key.k
  }

  /** A candidate for the array part. */
  predicate ArrayCandidate(k: Key) {
    k.Int? && 1 <= k.i <= Pow2(MAXBITS)
  }

  ghost function IntsOf(K: set<Key>): set<int> {
    set k | k in K && ArrayCandidate(k) :: k.i
  }

  ghost function Between(S: set<int>, lo: int, hi: int): set<int> {
    set k | k in S && lo < k <= hi
  }

  // ----- numusearray -----

  ghost predicate SlicesDone(nums: seq<int>, S: set<int>, lg: nat) {
    && |nums| == MAXBITS + 1
    && (forall j {:trigger nums[j]} {:trigger Slice(S, j)} :: 0 <= j < lg && j <= MAXBITS ==> nums[j] == |Slice(S, j)|)
    && (forall j {:trigger nums[j]} :: lg <= j <= MAXBITS ==> nums[j] == 0)
  }

  lemma SliceCounted(nums: seq<int>, S: set<int>, lg: nat, lim: nat)
    requires SlicesDone(nums, S, lg) && lg <= MAXBITS
    requires lim <= Pow2(lg) && forall k :: k in S ==> k <= lim || k > Pow2(lg)
    ensures SlicesDone(nums[lg := |Between(S, Lower(lg), lim)|], S, lg + 1)
    ensures CountUpTo(S, Pow2(lg)) == CountUpTo(S, Lower(lg)) + |Between(S, Lower(lg), lim)|
  {
    assert Between(S, Lower(lg), lim) == Slice(S, lg);
    CountNextSlice(S, lg);
  }

  lemma RestEmpty(nums: seq<int>, S: set<int>, lg: nat)
    requires SlicesDone(nums, S, lg) && lg <= MAXBITS + 1
    requires forall k :: k in S ==> 1 <= k <= Lower(lg)
    ensures NumsOk(nums, S) && CountUpTo(S, Lower(lg)) == |S|
  {
    forall j | lg <= j <= MAXBITS ensures |Slice(S, j)| == 0 {
      LowerMono(lg, j);
      assert Slice(S, j) == {};
    }
    assert UpTo(S, Lower(lg)) == S;
  }

  lemma LowerMono(i: nat, j: nat)
    requires i <= j
    ensures Lower(i) <= Lower(j)
  {
    if 0 < i {
      Pow2Mono(i - 1, j - 1);
    }
  }

  method NumUseArray(arr: array<Val>, nums: array<int>) returns (ause: nat)
    requires nums.Length == MAXBITS + 1 && arr.Length <= Pow2(MAXBITS)
    requires forall j :: 0 <= j <= MAXBITS ==> nums[j] == 0
    modifies nums
    ensures NumsOk(nums[..], ArrayKeys(arr[..])) && ause == |ArrayKeys(arr[..])|
  {
    hide Pow2;
    hide Slice;
    hide CountUpTo;
    ghost var S := ArrayKeys(arr[..]);
    var lg, ttlg := 0, 1;  // 2^lg
    ause := 0;
    var i := 1;
    ArrayStart(arr[..]);
    while lg <= MAXBITS
      invariant lg <= MAXBITS + 1 && ttlg == Pow2(lg)
      invariant i == 1 + if Lower(lg) <= arr.Length then Lower(lg) else arr.Length
      invariant SlicesDone(nums[..], S, lg) && ause == CountUpTo(S, Lower(lg))
    {
      var lim := ttlg;
      if lim > arr.Length {
        lim := arr.Length;
        if i > lim {
          break;
        }
      }
      NextPower(lg);
      LowerHalf(lg);
      var lc;
      i, lc := CountSlice(arr, i, lim);
      assert lc == |Between(S, Lower(lg), lim)|;
      SliceCounted(nums[..], S, lg, lim);
      ghost var before := nums[..];
      nums[lg] := nums[lg] + lc;
      assert nums[..] == before[lg := |Between(S, Lower(lg), lim)|];
      ause := ause + lc;
      lg, ttlg := lg + 1, ttlg * 2;
    }
    AllCounted(arr[..], lg);
    RestEmpty(nums[..], S, lg);
  }

  lemma ArrayStart(a: seq<Val>)
    ensures CountUpTo(ArrayKeys(a), 0) == 0 && Pow2(0) == 1 && Lower(0) == 0
  {
    assert UpTo(ArrayKeys(a), 0) == {};
  }

  lemma LowerHalf(lg: nat)
    ensures Lower(lg) < Pow2(lg)
  {
  }

  lemma AllCounted(a: seq<Val>, lg: nat)
    requires lg <= MAXBITS + 1 && |a| <= Pow2(MAXBITS)
    requires lg == MAXBITS + 1 || |a| <= Lower(lg)
    ensures forall k :: k in ArrayKeys(a) ==> 1 <= k <= Lower(lg)
  {
  }

  /** The inner loop: count elements in (i-1, lim]. */
  method CountSlice(arr: array<Val>, from: nat, lim: nat) returns (i: nat, lc: nat)
    requires 1 <= from <= lim + 1 && lim <= arr.Length
    ensures i == lim + 1 && lc == |Between(ArrayKeys(arr[..]), from - 1, lim)|
  {
    i, lc := from, 0;
    ghost var S := ArrayKeys(arr[..]);
    assert Between(S, from - 1, from - 1) == {};
    while i <= lim
      invariant from <= i <= lim + 1 && lc == |Between(S, from - 1, i - 1)|
    {
      assert Between(S, from - 1, i) == Between(S, from - 1, i - 1) + if arr[i - 1] != Nil then {i} else {};
      if arr[i - 1] != Nil {
        lc := lc + 1;
      }
      i := i + 1;
    }
  }

  // ----- countint and numusehash -----

  lemma SliceAdd(S: set<int>, k: nat, e: nat, j: nat)
    requires Lower(e) < k <= Pow2(e) && k !in S
    ensures |Slice(S + {k}, j)| == |Slice(S, j)| + if j == e then 1 else 0
  {
    if j < e {
      LowerMono(j + 1, e);
    } else if j > e {
      LowerMono(e + 1, j);
    }
    hide Pow2;
    assert Slice(S + {k}, j) == Slice(S, j) + if j == e then {k as int} else {};
  }

  lemma CeilLog2InRange(k: nat)
    requires 1 <= k <= Pow2(MAXBITS)
    ensures CeilLog2(k) <= MAXBITS && Lower(CeilLog2(k)) < k <= Pow2(CeilLog2(k))
  {
    hide Pow2;
    var e := CeilLog2(k);
    if e > MAXBITS {
      Pow2Mono(MAXBITS, e - 1);
      assert false;
    }
  }

  lemma NumsAdd(nums: seq<int>, S: set<int>, k: nat)
    requires NumsOk(nums, S) && 1 <= k <= Pow2(MAXBITS) && k !in S
    ensures CeilLog2(k) <= MAXBITS
    ensures NumsOk(nums[CeilLog2(k) := nums[CeilLog2(k)] + 1], S + {k})
  {
    hide Pow2;
    hide Slice;
    hide CeilLog2;
    CeilLog2InRange(k);
    var e := CeilLog2(k);
    forall j | 0 <= j <= MAXBITS ensures nums[e := nums[e] + 1][j] == |Slice(S + {k}, j)| {
      SliceAdd(S, k, e, j);
    }
  }

  /** `countint`. */
  method CountInt(key: Key, nums: array<int>, ghost S: set<int>) returns (c: nat)
    requires NumsOk(nums[..], S) && (ArrayCandidate(key) ==> key.i !in S)
    modifies nums
    ensures c == if ArrayCandidate(key) then 1 else 0
    ensures NumsOk(nums[..], S + if ArrayCandidate(key) then {key.i} else {})
  {
    hide Pow2;
    hide Slice;
    if key.Int? && 0 < key.i <= MaxArraySize() {
      NumsAdd(nums[..], S, key.i);
      ghost var before := nums[..];
      var e := CeilLog2(key.i);
      nums[e] := nums[e] + 1;
      assert nums[..] == before[e := before[e] + 1];
      return 1;
    }
    assert S + {} == S;
    return 0;
  }

  /** MAXASIZE. */
  function MaxArraySize(): (n: nat)
    ensures n == Pow2(MAXBITS)
  {
    Pow2(MAXBITS)
  }

  lemma KeysFromStep(ns: seq<Node>, i: nat)
    requires i < |ns| && UniqueLive(ns) && DeadEmpty(ns) && FreeIsolated(ns)
    ensures ns[i].val != Nil ==> ns[i].key.Live? && ns[i].key.k !in KeysFrom(ns, i + 1)
    ensures KeysFrom(ns, i) == KeysFrom(ns, i + 1) + if ns[i].val != Nil then {ns[i].key.k} else {}
  {
  }

  lemma IntsOfAdd(K: set<Key>, k: Key)
    requires k !in K
    ensures IntsOf(K + {k}) == IntsOf(K) + if ArrayCandidate(k) then {k.i} else {}
    ensures ArrayCandidate(k) ==> k.i !in IntsOf(K) && k.i in IntsOf(K + {k})
    ensures |IntsOf(K + {k})| == |IntsOf(K)| + if ArrayCandidate(k) then 1 else 0
  {
    hide Pow2;
    assert k.Int? ==> Int(k.i) == k;
  }

  /** One node more. */
  lemma HashStep(ns: seq<Node>, S: set<int>, i: nat)
    requires i < |ns| && UniqueLive(ns) && DeadEmpty(ns) && FreeIsolated(ns)
    requires S !! IntsOf(KeysFrom(ns, 0))
    ensures ns[i].val == Nil ==> KeysFrom(ns, i) == KeysFrom(ns, i + 1)
    ensures ns[i].val != Nil ==>
              var k, S' := ns[i].key.k, S + IntsOf(KeysFrom(ns, i + 1));
              && ns[i].key.Live? && |KeysFrom(ns, i)| == |KeysFrom(ns, i + 1)| + 1
              && (k.Int? ==> ArrayCandidate(k) ==> k.i !in S')
              && S + IntsOf(KeysFrom(ns, i)) == S' + (if ArrayCandidate(k) then {k.i} else {})
              && |IntsOf(KeysFrom(ns, i))| == |IntsOf(KeysFrom(ns, i + 1))| + if ArrayCandidate(k) then 1 else 0
  {
    hide UniqueLive;
    hide DeadEmpty;
    hide FreeIsolated;
    hide KeysFrom;
    hide IntsOf;
    hide ArrayCandidate;
    KeysFromStep(ns, i);
    if ns[i].val != Nil {
      var K, k := KeysFrom(ns, i + 1), ns[i].key.k;
      IntsOfAdd(K, k);
      KeysFromGrows(ns, 0, i);
      assert |K + {k}| == |K| + 1;
    } else {
      assert KeysFrom(ns, i + 1) + {} == KeysFrom(ns, i + 1);
    }
  }

  /** `numusehash`. */
  method NumUseHash(node: array<Node>, nums: array<int>, ghost S: set<int>) returns (totaluse: nat, ause: nat)
    requires UniqueLive(node[..]) && DeadEmpty(node[..]) && FreeIsolated(node[..])
    requires NumsOk(nums[..], S) && S !! IntsOf(KeysFrom(node[..], 0))
    modifies nums
    ensures totaluse == |KeysFrom(node[..], 0)| && ause == |IntsOf(KeysFrom(node[..], 0))|
    ensures NumsOk(nums[..], S + IntsOf(KeysFrom(node[..], 0)))
  {
    hide NumsOk;
    hide Pow2;
    hide UniqueLive;
    hide FreeIsolated;
    hide DeadEmpty;
    totaluse, ause := 0, 0;
    ghost var ns := node[..];
    var i := node.Length;
    assert KeysFrom(ns, i) == {} && IntsOf({}) == {} && S + {} == S;
    hide KeysFrom;
    hide IntsOf;
    while i > 0
      invariant 0 <= i <= node.Length && node[..] == ns
      invariant totaluse == |KeysFrom(ns, i)| && ause == |IntsOf(KeysFrom(ns, i))|
      invariant NumsOk(nums[..], S + IntsOf(KeysFrom(ns, i)))
    {
      i := i - 1;
      HashStep(ns, S, i);
      assert node[i] == ns[i];
      if node[i].val != Nil {
        var c := CountInt(node[i].key.k, nums, S + IntsOf(KeysFrom(ns, i + 1)));
        ause := ause + c;
        totaluse := totaluse + 1;
      }
    }
  }

  lemma KeysFromGrows(ns: seq<Node>, i: nat, j: nat)
    requires i <= j
    ensures KeysFrom(ns, j) <= KeysFrom(ns, i) && IntsOf(KeysFrom(ns, j)) <= IntsOf(KeysFrom(ns, i))
  {
  }
}
