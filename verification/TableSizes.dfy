/** The size of the array part (lua/ltable.c). */
module TableSizes {
  import opened Basics
  import opened NodeChains

  const MAXBITS: nat := 26

  lemma {:induction false} Pow2Mono(i: nat, j: nat)
    requires i <= j
    ensures Pow2(i) <= Pow2(j) && (i < j ==> 2 * Pow2(i) <= Pow2(j))
    decreases j
  {
    if i < j {
      Pow2Mono(i, j - 1);
    }
  }

  /** `ceillog2`. */
  function CeilLog2(x: nat): (e: nat)
    requires x >= 1
    ensures x <= Pow2(e) && (e > 0 ==> Pow2(e - 1) < x)
  {
    if x == 1 then 0 else CeilLog2((x + 1) / 2) + 1
  }

  /** Slice `i` of the positive integers: 1, 2, 3-4, 5-8, ... */
  function Lower(i: nat): nat {
    if i == 0 then 0 else Pow2(i - 1)
  }

  ghost function Slice(S: set<int>, i: nat): set<int> {
    set k | k in S && Lower(i) < k <= Pow2(i)
  }

  ghost function UpTo(S: set<int>, x: nat): set<int> {
    set k | k in S && 1 <= k <= x
  }

  /** Number of keys of `S` among 1..x. */
  ghost function CountUpTo(S: set<int>, x: nat): nat {
    |UpTo(S, x)|
  }

  lemma CountNextSlice(S: set<int>, i: nat)
    ensures CountUpTo(S, Pow2(i)) == CountUpTo(S, Lower(i)) + |Slice(S, i)|
  {
    assert UpTo(S, Pow2(i)) == UpTo(S, Lower(i)) + Slice(S, i);
    assert UpTo(S, Lower(i)) !! Slice(S, i);
  }

  lemma {:induction false} CountAtMost(S: set<int>, x: nat)
    ensures CountUpTo(S, x) <= x
  {
    if x == 0 {
      assert UpTo(S, 0) == {};
    } else {
      CountAtMost(S, x - 1);
      assert UpTo(S, x) <= UpTo(S, x - 1) + {x};
      SubsetSize(UpTo(S, x), UpTo(S, x - 1) + {x});
    }
  }

  lemma {:induction false} SubsetSize<T>(A: set<T>, B: set<T>)
    requires A <= B
    ensures |A| <= |B|
    decreases |A|
  {
    if A != {} {
      var x :| x in A;
      SubsetSize(A - {x}, B - {x});
    }
  }

  lemma CountMono(S: set<int>, x: nat, y: nat)
    requires x <= y
    ensures CountUpTo(S, x) <= CountUpTo(S, y) <= |S|
  {
    SubsetSize(UpTo(S, x), UpTo(S, y));
    SubsetSize(UpTo(S, y), S);
  }

  /** `nums[i]` is the number of keys of `S` in slice `i`. */
  ghost predicate NumsOk(nums: seq<int>, S: set<int>) {
    && |nums| == MAXBITS + 1
    && forall i {:trigger nums[i]} {:trigger Slice(S, i)} :: 0 <= i <= MAXBITS ==> nums[i] == |Slice(S, i)|
  }

  /** `n` is the best size for the array part: the largest power of two such that more than half of
      1..n are keys, or 0 if there is none. */
  ghost predicate BestSize(S: set<int>, n: nat) {
    && (n == 0 || ((exists i: nat :: n == Pow2(i)) && CountUpTo(S, n) > n / 2))
    && forall j: nat :: Pow2(j) > n ==> CountUpTo(S, Pow2(j)) <= Pow2(j) / 2
  }

  lemma TooSparse(S: set<int>, i: nat, j: nat)
    requires i <= j && (|S| <= Pow2(i) / 2 || (i < j && CountUpTo(S, Pow2(i)) == |S|))
    ensures CountUpTo(S, Pow2(j)) <= Pow2(j) / 2
  {
    Pow2Mono(i, j);
    CountMono(S, Pow2(i), Pow2(j));
    CountAtMost(S, Pow2(i));
  }

  /** `n` is the best size among the powers of two below 2^i. */
  ghost predicate BestBelow(S: set<int>, n: nat, i: nat) {
    && (n == 0 || ((exists j: nat :: j < i && n == Pow2(j)) && CountUpTo(S, n) > n / 2))
    && forall j: nat :: j < i && Pow2(j) > n ==> CountUpTo(S, Pow2(j)) <= Pow2(j) / 2
  }

  lemma BestNext(S: set<int>, n: nat, i: nat)
    requires BestBelow(S, n, i)
    ensures CountUpTo(S, Pow2(i)) > Pow2(i) / 2 ==> BestBelow(S, Pow2(i), i + 1)
    ensures CountUpTo(S, Pow2(i)) <= Pow2(i) / 2 ==> BestBelow(S, n, i + 1)
  {
    forall j: nat | j < i + 1 ensures Pow2(j) <= Pow2(i) {
      Pow2Mono(j, i);
    }
  }

  lemma BestDone(S: set<int>, n: nat, i: nat)
    requires BestBelow(S, n, i)
    requires |S| <= Pow2(i) / 2 || (i > 0 && CountUpTo(S, Pow2(i - 1)) == |S|)
    requires forall k :: k in S ==> 1 <= k <= Pow2(MAXBITS)
    ensures BestSize(S, n) && n / 2 <= CountUpTo(S, n) <= n <= Pow2(MAXBITS)
  {
    hide Pow2;
    hide CountUpTo;
    forall j: nat | Pow2(j) > n ensures CountUpTo(S, Pow2(j)) <= Pow2(j) / 2 {
      if j >= i {
        if |S| <= Pow2(i) / 2 {
          TooSparse(S, i, j);
        } else {
          TooSparse(S, i - 1, j);
        }
      }
    }
    CountAtMost(S, n);
    if n > 0 {
      var j: nat :| j < i && n == Pow2(j);
      SizeBound(S, j);
    }
  }

  lemma SizeBound(S: set<int>, j: nat)
    requires CountUpTo(S, Pow2(j)) > Pow2(j) / 2
    requires forall k :: k in S ==> 1 <= k <= Pow2(MAXBITS)
    ensures Pow2(j) <= Pow2(MAXBITS)
  {
    hide Pow2;
    if j <= MAXBITS {
      Pow2Mono(j, MAXBITS);
    } else {
      Pow2Mono(MAXBITS, j);
      assert UpTo(S, Pow2(j)) == UpTo(S, Pow2(MAXBITS));
      CountAtMost(S, Pow2(MAXBITS));
      assert false;
    }
  }

  /** `computesizes`. */
  method ComputeSizes(nums: array<int>, narray: nat, ghost S: set<int>) returns (n: nat, na: nat)
    requires NumsOk(nums[..], S) && narray == |S|
    requires forall k :: k in S ==> 1 <= k <= Pow2(MAXBITS)
    ensures BestSize(S, n) && na == CountUpTo(S, n)
    ensures n / 2 <= na <= n <= Pow2(MAXBITS)
  {
    hide BestBelow;
    hide BestSize;
    hide CountUpTo;
    hide Slice;
    hide Pow2;
    hide Lower;
    var i, twotoi := 0, 1;
    var a := 0;
    na, n := 0, 0;
    Start(S);
    while twotoi / 2 < narray
      invariant twotoi == Pow2(i) && a == CountUpTo(S, Lower(i))
      invariant BestBelow(S, n, i) && na == CountUpTo(S, n)
      decreases narray - twotoi / 2
    {
      IndexInRange(S, i);
      CountNextSlice(S, i);
      EmptySlice(S, i);
      BestNext(S, n, i);
      NextPower(i);
      assert nums[i] == nums[..][i] == |Slice(S, i)|;
      if nums[i] > 0 {
        a := a + nums[i];
        if a > twotoi / 2 {  // BestNext
          n := twotoi;
          na := a;
        }
      }
      assert a == CountUpTo(S, Pow2(i)) && BestBelow(S, n, i + 1);
      i, twotoi := i + 1, twotoi * 2;
      if a == narray {  // BestDone: larger sizes are too sparse
        break;
      }
    }
    BestDone(S, n, i);
  }

  lemma Start(S: set<int>)
    ensures BestBelow(S, 0, 0) && CountUpTo(S, 0) == 0 && Pow2(0) == 1 && Lower(0) == 0
  {
    assert UpTo(S, 0) == {};
  }

  lemma NextPower(i: nat)
    ensures Pow2(i + 1) == 2 * Pow2(i) && Lower(i + 1) == Pow2(i)
  {
  }

  lemma IndexInRange(S: set<int>, i: nat)
    requires forall k :: k in S ==> 1 <= k <= Pow2(MAXBITS)
    requires Pow2(i) / 2 < |S|
    ensures i <= MAXBITS
  {
    CountAtMost(S, Pow2(MAXBITS));
    assert UpTo(S, Pow2(MAXBITS)) == S;
    if i > MAXBITS {
      Pow2Mono(MAXBITS, i);
      assert false;
    }
  }

  lemma EmptySlice(S: set<int>, i: nat)
    ensures |Slice(S, i)| == 0 ==> CountUpTo(S, Pow2(i)) <= Pow2(i) / 2
  {
    if |Slice(S, i)| == 0 {
      CountNextSlice(S, i);
      CountAtMost(S, Lower(i));
    }
  }
}
