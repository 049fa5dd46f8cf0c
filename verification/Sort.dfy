/** `table.sort`: the quicksort of lua/ltablib.c. */
module Sort {
  import opened Basics

  /** A strict weak order: what the sort demands of an order function. */
  ghost predicate StrictWeak<T(!new)>(lt: (T, T) -> bool) {
    && (forall x, y :: lt(x, y) ==> !lt(y, x))
    && (forall x, y, z :: lt(x, z) ==> lt(x, y) || lt(y, z))
  }

  predicate Le<T>(lt: (T, T) -> bool, x: T, y: T) {
    !lt(y, x)
  }

  lemma LeTrans<T(!new)>(lt: (T, T) -> bool, x: T, y: T, z: T)
    requires StrictWeak(lt) && Le(lt, x, y) && Le(lt, y, z)
    ensures Le(lt, x, z)
  {
  }

  lemma LtLe<T(!new)>(lt: (T, T) -> bool, x: T, y: T)
    requires StrictWeak(lt) && lt(x, y)
    ensures Le(lt, x, y)
  {
  }

  // ----- permutations of a range -----

  /** The elements at l..u were permuted, the others did not change. */
  ghost predicate Permuted<T>(s: seq<T>, s': seq<T>, l: int, u: int) {
    && |s'| == |s| && 0 <= l <= u + 1 <= |s|
    && s'[..l] == s[..l] && s'[u + 1..] == s[u + 1..]
    && multiset(s'[l..u + 1]) == multiset(s[l..u + 1])
  }

  lemma PermutedSelf<T>(s: seq<T>, l: int, u: int)
    requires 0 <= l <= u + 1 <= |s|
    ensures Permuted(s, s, l, u)
  {
  }

  lemma PermutedTwice<T>(s: seq<T>, s': seq<T>, s'': seq<T>, l: int, u: int)
    requires Permuted(s, s', l, u) && Permuted(s', s'', l, u)
    ensures Permuted(s, s'', l, u)
  {
  }

  lemma Widened<T>(s: seq<T>, s': seq<T>, j: int, i: int, l: int, u: int)
    requires Permuted(s, s', j, i) && 0 <= l <= j && i <= u < |s|
    ensures Permuted(s, s', l, u)
  {
    Split(s, j, i, l, u);
    Split(s', j, i, l, u);
  }

  lemma Split<T>(s: seq<T>, j: int, i: int, l: int, u: int)
    requires 0 <= l <= j <= i + 1 && i <= u < |s|
    ensures s[..l] == s[..j][..l] && s[u + 1..] == s[i + 1..][u - i..]
    ensures s[l..u + 1] == s[..j][l..] + s[j..i + 1] + s[i + 1..][..u - i]
  {
    assert s[..j][l..] == s[l..j] && s[i + 1..][..u - i] == s[i + 1..u + 1];
    assert s[l..j] + s[j..i + 1] == s[l..i + 1];
    assert s[l..i + 1] + s[i + 1..u + 1] == s[l..u + 1];
  }

  function Swapped<T>(s: seq<T>, i: nat, j: nat): seq<T>
    requires i < |s| && j < |s|
  {
    s[i := s[j]][j := s[i]]
  }

  lemma SwapPermutes<T>(s: seq<T>, i: nat, j: nat, l: int, u: int)
    requires 0 <= l <= i <= u < |s| && l <= j <= u
    ensures Permuted(s, Swapped(s, i, j), l, u)
  {
    var s' := Swapped(s, i, j);
    assert s'[..l] == s[..l] && s'[u + 1..] == s[u + 1..];
    assert s'[l..u + 1] == s[l..u + 1][i - l := s[j]][j - l := s[i]];
  }

  /** An element of the permuted range was there before. */
  lemma WasThere<T>(s: seq<T>, s': seq<T>, l: int, u: int, k: int) returns (k0: int)
    requires Permuted(s, s', l, u) && l <= k <= u
    ensures l <= k0 <= u && s[k0] == s'[k]
  {
    assert s'[l..u + 1][k - l] in multiset(s'[l..u + 1]);
    assert s'[k] in multiset(s[l..u + 1]);
    var i :| 0 <= i < |s[l..u + 1]| && s[l..u + 1][i] == s'[k];
    k0 := i + l;
  }

  /** Where an element was before. */
  lemma Before<T>(s: seq<T>, s': seq<T>, l: int, u: int, k: int) returns (k0: int)
    requires Permuted(s, s', l, u) && 0 <= k < |s|
    ensures 0 <= k0 < |s| && s[k0] == s'[k]
    ensures if l <= k <= u then l <= k0 <= u else k0 == k
  {
    if l <= k <= u {
      k0 := WasThere(s, s', l, u, k);
    } else {
      k0 := k;
      if k < l {
        assert s'[..l][k] == s[..l][k];
      } else {
        assert s'[u + 1..][k - (u + 1)] == s[u + 1..][k - (u + 1)];
      }
    }
  }

  // ----- order -----

  ghost predicate Sorted<T>(lt: (T, T) -> bool, s: seq<T>, l: int, u: int)
    requires 0 <= l <= u + 1 <= |s|
  {
    forall p, q :: l <= p < q <= u ==> Le(lt, s[p], s[q])
  }

  /** All of l0..u0 is in order but for pairs inside l..u. */
  ghost predicate SortedBut<T>(lt: (T, T) -> bool, s: seq<T>, l0: int, u0: int, l: int, u: int)
    requires 0 <= l0 <= u0 + 1 <= |s|
  {
    forall p, q :: l0 <= p < q <= u0 && !(l <= p && q <= u) ==> Le(lt, s[p], s[q])
  }

  lemma PermutedBut<T>(lt: (T, T) -> bool, s: seq<T>, s': seq<T>, l0: int, u0: int, l: int, u: int)
    requires 0 <= l0 <= u0 + 1 <= |s| && SortedBut(lt, s, l0, u0, l, u) && Permuted(s, s', l, u) && l0 <= l && u <= u0
    ensures SortedBut(lt, s', l0, u0, l, u)
  {
    forall p, q | l0 <= p < q <= u0 && !(l <= p && q <= u) ensures Le(lt, s'[p], s'[q]) {
      var p0 := Before(s, s', l, u, p);
      var q0 := Before(s, s', l, u, q);
      assert Le(lt, s[p0], s[q0]);
    }
  }

  /** Position `i` splits l..u: nothing before it is greater, nothing after it is less. */
  ghost predicate SplitAt<T>(lt: (T, T) -> bool, s: seq<T>, l: int, u: int, i: int)
    requires 0 <= l <= i <= u < |s|
  {
    && (forall k :: l <= k < i ==> Le(lt, s[k], s[i]))
    && (forall k :: i < k <= u ==> Le(lt, s[i], s[k]))
  }

  /** Sorting one side of the split leaves the other side. */
  lemma OneSideSorted<T(!new)>(lt: (T, T) -> bool, s: seq<T>, s': seq<T>, l0: int, u0: int, l: int, u: int, i: int, p: int, q: int, left: bool)
    requires StrictWeak(lt) && 0 <= l0 <= l <= i <= u <= u0 < |s|
    requires SortedBut(lt, s, l0, u0, l, u) && SplitAt(lt, s, l, u, i)
    requires if left then p == l && q == i - 1 else p == i + 1 && q == u
    requires Permuted(s, s', p, q) && Sorted(lt, s', p, q)
    ensures SortedBut(lt, s', l0, u0, if left then i + 1 else l, if left then u else i - 1)
  {
    var j, k := if left then l else i + 1, if left then i - 1 else u;
    forall p, q | l0 <= p < q <= u0 && !((if left then i + 1 else l) <= p && q <= if left then u else i - 1)
      ensures Le(lt, s'[p], s'[q])
    {
      var p0 := Before(s, s', j, k, p);
      var q0 := Before(s, s', j, k, q);
      if l <= p && q <= u && !(j <= p && q <= k) {
        if p0 != i && q0 != i {
          LeTrans(lt, s[p0], s[i], s[q0]);
        }
      } else if !(j <= p && q <= k) {
        assert Le(lt, s[p0], s[q0]);
      }
    }
  }

  // ----- the steps -----

  method Swap<T>(a: array<T>, i: int, j: int)
    requires 0 <= i < a.Length && 0 <= j < a.Length
    modifies a
    ensures a[..] == Swapped(old(a[..]), i, j)
  {
    a[i], a[j] := a[j], a[i];
  }

  /** Sort a[l], a[(l+u)/2] and a[u]; with up to three elements this is all there is to do. */
  method SortThree<T(!new)>(lt: (T, T) -> bool, a: array<T>, l: int, u: int) returns (i: int)
    requires StrictWeak(lt) && 0 <= l < u < a.Length
    modifies a
    ensures Permuted(old(a[..]), a[..], l, u) && i == (l + u) / 2
    ensures Le(lt, a[l], a[u]) && (u - l > 1 ==> Le(lt, a[l], a[i]) && Le(lt, a[i], a[u]))
  {
    hide Permuted;
    hide StrictWeak;
    ghost var s := a[..];
    PermutedSelf(s, l, u);
    SwapPermutes(s, l, u, l, u);
    i := (l + u) / 2;
    if lt(a[u], a[l]) {  // a[u] < a[l]?
      LtLe(lt, a[u], a[l]);
      Swap(a, l, u);
    }
    if u - l == 1 {
      return;
    }
    ghost var s1 := a[..];
    SortMiddle(lt, a, l, i, u);
    PermutedTwice(s, s1, a[..], l, u);
  }

  method SortMiddle<T(!new)>(lt: (T, T) -> bool, a: array<T>, l: int, i: int, u: int)
    requires StrictWeak(lt) && 0 <= l < i < u < a.Length && Le(lt, a[l], a[u])
    modifies a
    ensures Permuted(old(a[..]), a[..], l, u)
    ensures Le(lt, a[l], a[u]) && Le(lt, a[l], a[i]) && Le(lt, a[i], a[u])
  {
    hide Permuted;
    hide StrictWeak;
    ghost var s := a[..];
    PermutedSelf(s, l, u);
    SwapPermutes(s, i, l, l, u);
    SwapPermutes(s, i, u, l, u);
    if lt(a[i], a[l]) {  // a[i] < a[l]?
      LtLe(lt, a[i], a[l]);
      LeTrans(lt, a[i], a[l], a[u]);
      Swap(a, i, l);
    } else if lt(a[u], a[i]) {  // a[u] < a[i]?
      LtLe(lt, a[u], a[i]);
      Swap(a, i, u);
    }
  }

  /** The next element from `i0` on that is not less than the pivot; there is one at `e`. */
  method ScanUp<T(!new)>(lt: (T, T) -> bool, a: array<T>, i0: int, P: T, ghost e: int, ghost u: int) returns (i: int)
    requires StrictWeak(lt) && 0 <= i0 < e <= u && e < a.Length && !lt(a[e], P)
    ensures i0 < i <= e && Le(lt, P, a[i]) && forall k :: i0 < k < i ==> Le(lt, a[k], P)
  {
    i := i0 + 1;
    while lt(a[i], P)
      invariant i0 < i <= e && forall k :: i0 < k < i ==> Le(lt, a[k], P)
      decreases e - i
    {
      assert i <= u;  // the order function is valid
      i := i + 1;
    }
  }

  /** The last element before `j0` that is not greater than the pivot; there is one at `e`. */
  method ScanDown<T(!new)>(lt: (T, T) -> bool, a: array<T>, j0: int, P: T, ghost e: int, ghost l: int) returns (j: int)
    requires StrictWeak(lt) && 0 <= l <= e < j0 <= a.Length && !lt(P, a[e])
    ensures e <= j < j0 && Le(lt, a[j], P) && forall k :: j < k < j0 ==> Le(lt, P, a[k])
  {
    j := j0 - 1;
    while lt(P, a[j])
      invariant e <= j < j0 && forall k :: j < k < j0 ==> Le(lt, P, a[k])
      decreases j - e
    {
      assert j >= l;  // the order function is valid
      j := j - 1;
    }
  }

  ghost predicate AllLe<T>(lt: (T, T) -> bool, s: seq<T>, l: int, i: int, P: T)
    requires 0 <= l && i < |s|
  {
    forall k :: l <= k <= i ==> Le(lt, s[k], P)
  }

  ghost predicate AllGe<T>(lt: (T, T) -> bool, s: seq<T>, j: int, u: int, P: T)
    requires 0 <= j && u < |s|
  {
    forall k :: j <= k <= u ==> Le(lt, P, s[k])
  }

  /** Split l..u around the pivot, which is in a[u-1]. */
  method Partition<T(!new)>(lt: (T, T) -> bool, a: array<T>, l: int, u: int, P: T) returns (i: int)
    requires StrictWeak(lt) && 0 <= l && l + 3 <= u < a.Length
    requires a[u - 1] == P && Le(lt, a[l], P) && Le(lt, P, a[u])
    modifies a
    ensures Permuted(old(a[..]), a[..], l, u) && l < i < u && SplitAt(lt, a[..], l, u, i)
  {
    hide Permuted;
    hide StrictWeak;
    hide AllLe;
    hide AllGe;
    hide SplitAt;
    hide Swapped;
    hide Le;
    ghost var s := a[..];
    var j;
    i, j := ScanAndSwap(lt, a, l, u, P);
    ghost var s1 := a[..];
    PivotPlaced(lt, s1, l, u, i, j, P);
    SwapPermutes(s1, u - 1, i, l, u);
    Swap(a, u - 1, i);
    PermutedTwice(s, s1, a[..], l, u);
  }

  /** Scan and swap until the scans have crossed. */
  method ScanAndSwap<T(!new)>(lt: (T, T) -> bool, a: array<T>, l: int, u: int, P: T) returns (i: int, j: int)
    requires StrictWeak(lt) && 0 <= l && l + 3 <= u < a.Length
    requires a[u - 1] == P && Le(lt, a[l], P) && Le(lt, P, a[u])
    modifies a
    ensures Permuted(old(a[..]), a[..], l, u) && a[u - 1] == P
    ensures l <= j < i < u && AllLe(lt, a[..], l, i - 1, P) && AllGe(lt, a[..], j + 1, u, P)
  {
    hide Permuted;
    hide StrictWeak;
    hide AllLe;
    hide AllGe;
    hide Le;
    ghost var s := a[..];
    i, j := l, u - 1;
    PermutedSelf(s, l, u);
    PartitionStart(lt, s, l, u, P);
    while true  // AllLe below i, AllGe above j
      invariant a[u - 1] == P && Permuted(s, a[..], l, u)
      invariant l <= i <= j <= u - 1 && (i == j ==> l < i && j < u - 1) && AllLe(lt, a[..], l, i, P) && AllGe(lt, a[..], j, u, P)
      decreases j - i
    {
      ghost var s1 := a[..];
      var done;
      i, j, done := PartitionStep(lt, a, l, u, P, i, j);
      PermutedTwice(s, s1, a[..], l, u);
      if done {
        return;
      }
    }
  }

  /** Scan from both sides and swap, unless the scans have crossed. */
  method PartitionStep<T(!new)>(lt: (T, T) -> bool, a: array<T>, l: int, u: int, P: T, i0: int, j0: int) returns (i: int, j: int, done: bool)
    requires StrictWeak(lt) && 0 <= l <= i0 <= j0 <= u - 1 && u < a.Length && (i0 == j0 ==> l < i0 && j0 < u - 1) && a[u - 1] == P
    requires AllLe(lt, a[..], l, i0, P) && AllGe(lt, a[..], j0, u, P)
    modifies a
    ensures Permuted(old(a[..]), a[..], l, u) && a[u - 1] == P && i0 < i && j < j0
    ensures if done then l <= j < i < u && AllLe(lt, a[..], l, i - 1, P) && AllGe(lt, a[..], j + 1, u, P)
            else l < i <= j < u - 1 && AllLe(lt, a[..], l, i, P) && AllGe(lt, a[..], j, u, P)
  {
    hide Permuted;
    hide StrictWeak;
    ghost var s := a[..];
    PermutedSelf(s, l, u);
    i := ScanUp(lt, a, i0, P, if i0 < j0 then j0 else j0 + 1, u);
    j := ScanDown(lt, a, j0, P, if i0 < j0 then i0 else j0 - 1, l);
    done := j < i;
    assert AllLe(lt, s, l, i - 1, P) && AllGe(lt, s, j + 1, u, P);
    if !done {
      hide AllLe;
      hide AllGe;
      AfterSwap(lt, s, l, u, i, j, P);
      SwapPermutes(s, i, j, l, u);
      Swap(a, i, j);
    }
  }

  lemma PartitionStart<T(!new)>(lt: (T, T) -> bool, s: seq<T>, l: int, u: int, P: T)
    requires StrictWeak(lt) && 0 <= l < u - 1 && u < |s| && s[u - 1] == P && Le(lt, s[l], P) && Le(lt, P, s[u])
    ensures AllLe(lt, s, l, l, P) && AllGe(lt, s, u - 1, u, P)
  {
  }

  lemma AfterSwap<T>(lt: (T, T) -> bool, s: seq<T>, l: int, u: int, i: int, j: int, P: T)
    requires 0 <= l <= i <= j <= u < |s| && AllLe(lt, s, l, i - 1, P) && AllGe(lt, s, j + 1, u, P)
    requires Le(lt, P, s[i]) && Le(lt, s[j], P)
    ensures AllLe(lt, Swapped(s, i, j), l, i, P) && AllGe(lt, Swapped(s, i, j), j, u, P)
  {
  }

  lemma PivotPlaced<T>(lt: (T, T) -> bool, s: seq<T>, l: int, u: int, i: int, j: int, P: T)
    requires 0 <= l <= j < i < u < |s| && s[u - 1] == P
    requires AllLe(lt, s, l, i - 1, P) && AllGe(lt, s, j + 1, u, P)
    ensures SplitAt(lt, Swapped(s, u - 1, i), l, u, i)
  {
  }

  // ----- auxsort -----

  lemma FewSorted<T>(lt: (T, T) -> bool, s: seq<T>, l: int, u: int)
    requires 0 <= l < u < |s| && u - l <= 2 && Le(lt, s[l], s[u])
    requires u - l == 2 ==> Le(lt, s[l], s[l + 1]) && Le(lt, s[l + 1], s[u])
    ensures Sorted(lt, s, l, u)
  {
  }

  /** One round: sort three elements, and for more than three split around the middle one. */
  method Round<T(!new)>(lt: (T, T) -> bool, a: array<T>, l: int, u: int) returns (i: int)
    requires StrictWeak(lt) && 0 <= l < u < a.Length
    modifies a
    ensures Permuted(old(a[..]), a[..], l, u)
    ensures if u - l <= 2 then Sorted(lt, a[..], l, u) else l < i < u && SplitAt(lt, a[..], l, u, i)
  {
    hide Permuted;
    hide StrictWeak;
    hide SplitAt;
    hide Sorted;
    hide Le;
    ghost var s := a[..];
    i := SortThree(lt, a, l, u);
    ghost var s1 := a[..];
    if u - l <= 2 {
      FewSorted(lt, s1, l, u);
      return;
    }
    i := SplitRange(lt, a, l, i, u);
    PermutedTwice(s, s1, a[..], l, u);
  }

  /** The middle element becomes the pivot: it goes next to the last place, and the others are split. */
  method SplitRange<T(!new)>(lt: (T, T) -> bool, a: array<T>, l: int, m: int, u: int) returns (i: int)
    requires StrictWeak(lt) && 0 <= l < m < u && l + 3 <= u < a.Length && Le(lt, a[l], a[m]) && Le(lt, a[m], a[u])
    modifies a
    ensures Permuted(old(a[..]), a[..], l, u) && l < i < u && SplitAt(lt, a[..], l, u, i)
  {
    hide Permuted;
    hide StrictWeak;
    hide SplitAt;
    hide Le;
    ghost var s1 := a[..];
    var P := a[m];
    SwapPermutes(s1, m, u - 1, l, u);
    Swap(a, m, u - 1);
    ghost var s2 := a[..];
    assert s2[l] == s1[l] && s2[u] == s1[u] && s2[u - 1] == P;
    i := Partition(lt, a, l, u, P);
    PermutedTwice(s1, s2, a[..], l, u);
  }

  /** `auxsort`. It calls itself only for the smaller part, so that the calls nest at most `depth`
      deep; the larger part is sorted by the loop. */
  method AuxSort<T(!new)>(lt: (T, T) -> bool, a: array<T>, l0: int, u0: int, ghost depth: nat)
    requires StrictWeak(lt) && 0 <= l0 <= u0 + 1 <= a.Length && u0 - l0 + 1 < 4 * Pow2(depth)
    modifies a
    ensures Permuted(old(a[..]), a[..], l0, u0) && Sorted(lt, a[..], l0, u0)
    decreases depth
  {
    hide Permuted;
    hide StrictWeak;
    hide SplitAt;
    hide SortedBut;
    hide Sorted;
    hide Pow2;
    ghost var s := a[..];
    PermutedSelf(s, l0, u0);
    NothingSorted(lt, s, l0, u0);
    var l, u := l0, u0;
    while l < u  // SortedBut l..u
      invariant l0 <= l <= u + 1 && u <= u0
      invariant Permuted(s, a[..], l0, u0) && SortedBut(lt, a[..], l0, u0, l, u)
      decreases u - l
    {
      ghost var s1 := a[..];
      var i := Round(lt, a, l, u);
      ghost var s2 := a[..];
      Widened(s1, s2, l, u, l0, u0);
      PermutedTwice(s, s1, s2, l0, u0);
      PermutedBut(lt, s1, s2, l0, u0, l, u);
      if u - l <= 2 {
        AllSorted(lt, s2, l0, u0, l, u);
        return;
      }
      ghost var l1, u1, m := l, u, i;
      ghost var left := i - l < u - i;
      var j;
      if i - l < u - i {
        j := l;
        i := i - 1;
        l := i + 2;
      } else {
        j := i + 1;
        i := u;
        u := j - 2;
      }
      Halved(u0 - l0 + 1, i - j + 1, depth);
      AuxSort(lt, a, j, i, depth - 1);  // Halved: at most half of the elements
      ghost var s3 := a[..];
      Widened(s2, s3, j, i, l0, u0);
      PermutedTwice(s, s2, s3, l0, u0);
      OneSideSorted(lt, s2, s3, l0, u0, l1, u1, m, j, i, left);
    }
    AllSorted(lt, a[..], l0, u0, l, u);
  }

  lemma NothingSorted<T>(lt: (T, T) -> bool, s: seq<T>, l: int, u: int)
    requires 0 <= l <= u + 1 <= |s|
    ensures SortedBut(lt, s, l, u, l, u)
  {
  }

  lemma AllSorted<T>(lt: (T, T) -> bool, s: seq<T>, l0: int, u0: int, l: int, u: int)
    requires 0 <= l0 <= l <= u + 1 && u <= u0 < |s| && SortedBut(lt, s, l0, u0, l, u)
    requires l >= u || Sorted(lt, s, l, u)
    ensures Sorted(lt, s, l0, u0)
  {
  }

  /** The smaller part has less than half of the elements. */
  lemma Halved(n: nat, m: nat, depth: nat)
    requires n < 4 * Pow2(depth) && n >= 4 && 2 * m < n
    ensures depth > 0 && m < 4 * Pow2(depth - 1)
  {
  }

  /** How deep the calls nest for `n` elements. */
  function Depth(n: nat): (d: nat)
    ensures n < 4 * Pow2(d) && (d > 0 ==> 2 * Pow2(d) <= n)
  {
    if n < 4 then 0 else Depth(n / 2) + 1
  }

  /** `sort`: for any strict weak order the result is a sorted permutation of the elements. The calls
      of `auxsort` nest at most `d` deep, where d + 1 is at most the logarithm of the length. */
  method SortArray<T(!new)>(lt: (T, T) -> bool, a: array<T>) returns (ghost d: nat)
    requires StrictWeak(lt)
    modifies a
    ensures multiset(a[..]) == multiset(old(a[..]))
    ensures forall p, q :: 0 <= p < q < a.Length ==> !lt(a[q], a[p])
    ensures d > 0 ==> 2 * Pow2(d) <= a.Length
  {
    d := Depth(a.Length);
    ghost var s := a[..];
    AuxSort(lt, a, 0, a.Length - 1, d);
    WholePermuted(s, a[..]);
  }

  lemma WholePermuted<T>(s: seq<T>, s': seq<T>)
    requires Permuted(s, s', 0, |s| - 1)
    ensures multiset(s') == multiset(s)
  {
    assert s[0..|s|] == s && s'[0..|s|] == s';
  }
}