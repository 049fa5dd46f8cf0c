/** What sweeping does to the heap (lua/lgc.c): dead objects go, the others become white and
    keep their contents. */
module GcSweep {
  import opened GcHeap
  import opened Marking
  import opened WeakTables
  import opened GcInvariant

  function Remove(s: seq<Ref>, i: nat): seq<Ref>
    requires i < |s|
  {
    s[..i] + s[i + 1..]
  }

  lemma RemoveDistinct(s: seq<Ref>, i: nat)
    requires Distinct(s) && i < |s|
    ensures Distinct(Remove(s, i)) && forall r :: r in Remove(s, i) <==> r in s && r != s[i]
  {
    var s' := Remove(s, i);
    forall j, k | 0 <= j < k < |s'| ensures s'[j] != s'[k] {
      DistinctAt(s, if j < i then j else j + 1, if k < i then k else k + 1);
    }
    forall r | r in s' ensures r in s && r != s[i] {
      var j :| 0 <= j < |s'| && s'[j] == r;
      if j < i {
        DistinctAt(s, j, i);
      } else {
        DistinctAt(s, i, j + 1);
      }
    }
    forall r | r in s && r != s[i] ensures r in s' {
      var j :| 0 <= j < |s| && s[j] == r;
      assert s'[if j < i then j else j - 1] == r;
    }
  }

  // ----- an object disappears -----

  lemma GoneNotDead(c: Colors, white: bool, r: Ref)
    requires IsDead(c, white, r)
    ensures NotDead(c - {r}, white) == NotDead(c, white) && r !in NotDead(c, white)
  {
  }

  lemma GoneRefs(h: Heap, r: Ref, o: Obj)
    ensures EntryRefs(h - {r}, o) <= EntryRefs(h, o) && StrongRefs(h - {r}, o) <= StrongRefs(h, o)
    ensures !(OpenUpval(o) && o.u.thread == r) ==> EntryRefs(h - {r}, o) == EntryRefs(h, o) && StrongRefs(h - {r}, o) == StrongRefs(h, o)
  {
  }

  lemma GoneClosed(h: Heap, N: set<Ref>, r: Ref)
    requires EntryClosed(h, N)
    ensures EntryClosed(h - {r}, N)
  {
    var h' := h - {r};
    forall x | x in N && x in h' ensures EntryRefs(h', h'[x]) <= N {
      GoneRefs(h, r, h[x]);
    }
  }

  lemma GoneNeverBlack(h: Heap, c: Colors, r: Ref)
    requires NeverBlack(h, c)
    ensures NeverBlack(h - {r}, c - {r})
  {
    var h', c' := h - {r}, c - {r};
    forall x | x in h' && x in c' && (h'[x].String? || h'[x].Thread? || OpenUpval(h'[x])) ensures !c'[x].Black? {
      assert h[x] == h'[x];
    }
  }

  lemma GoneUpvals(h: Heap, uvhead: seq<Ref>, r: Ref)
    requires UpvalsOk(h, uvhead) && r in h && !OpenUpval(h[r]) && (h[r].Thread? ==> h[r].open == [])
    ensures UpvalsOk(h - {r}, uvhead)
  {
    var h' := h - {r};
    forall u | u in h && OpenUpval(h[u]) ensures h[u].u.thread != r {
      assert OpenAt(h, u, h[u].u.thread) && u in h[h[u].u.thread].open;
    }
    forall t | t in h' && h'[t].Thread? ensures OpenListOk(h', t) {
      assert OpenListOk(h, t);
      forall j | 0 <= j < |h'[t].open| ensures OpenAt(h', h'[t].open[j], t) {
        assert OpenAt(h, h[t].open[j], t);
      }
    }
    forall u | u in h' && OpenUpval(h'[u]) ensures OpenAt(h', u, h'[u].u.thread) && u in h'[h'[u].u.thread].open {
      assert OpenAt(h, u, h[u].u.thread) && u in h[h[u].u.thread].open;
    }
  }

  lemma GoneRoots(h: Heap, c: Colors, white: bool, e: Env, r: Ref)
    requires RootsOk(h, c, white, e) && IsDead(c, white, r)
    ensures RootsOk(h - {r}, c - {r}, white, e)
  {
    GoneNotDead(c, white, r);
    assert e.main in EnvRefs(e) && e.running in EnvRefs(e);
  }

  lemma GoneFromRoot(h: Heap, rootgc: seq<Ref>, i: nat)
    requires RootOk(h, rootgc) && i < |rootgc|
    ensures RootOk(h - {rootgc[i]}, Remove(rootgc, i))
  {
    RemoveDistinct(rootgc, i);
  }

  lemma GoneNotRoot(h: Heap, rootgc: seq<Ref>, r: Ref)
    requires RootOk(h, rootgc) && r in h && !InRoot(h[r])
    ensures RootOk(h - {r}, rootgc)
  {
  }

  lemma GoneNotString(h: Heap, strt: seq<seq<Ref>>, fixed: set<Ref>, r: Ref)
    requires StringsOk(h, strt) && AllStrings(h, fixed) && r in h && !h[r].String?
    ensures StringsOk(h - {r}, strt) && AllStrings(h - {r}, fixed)
  {
    var h' := h - {r};
    forall x | x in h' && h'[x].String? ensures exists b :: InBucket(strt, b, x) {
      assert h[x].String?;
    }
  }

  lemma GoneString(h: Heap, strt: seq<seq<Ref>>, fixed: set<Ref>, b: nat, i: nat)
    requires StringsOk(h, strt) && AllStrings(h, fixed) && b < |strt| && i < |strt[b]| && strt[b][i] !in fixed
    ensures strt[b][i] in h && h[strt[b][i]].String?
    ensures StringsOk(h - {strt[b][i]}, strt[b := Remove(strt[b], i)]) && AllStrings(h - {strt[b][i]}, fixed)
  {
    var r := strt[b][i];
    var h', strt' := h - {r}, strt[b := Remove(strt[b], i)];
    assert InBucket(strt, b, r);
    RemoveDistinct(strt[b], i);
    forall a: nat, x ensures InBucket(strt', a, x) <==> InBucket(strt, a, x) && x != r {
      if a != b && InBucket(strt, a, x) {
        assert x == r ==> a == b;
      }
    }
    forall a, a', x | InBucket(strt', a, x) && InBucket(strt', a', x) ensures a == a' {
      assert InBucket(strt, a, x) && InBucket(strt, a', x);
    }
    forall x | x in h' && h'[x].String? ensures exists a :: InBucket(strt', a, x) {
      assert h[x].String?;
      var a :| InBucket(strt, a, x);
      assert InBucket(strt', a, x);
    }
  }

  // ----- an object becomes white -----

  lemma WhitenNotDead(c: Colors, white: bool, r: Ref)
    requires r in c
    ensures NotDead(c[r := White(white)], white) == NotDead(c, white) + {r}
  {
  }

  lemma WhitenClosed(h: Heap, c: Colors, white: bool, r: Ref)
    requires EntryClosed(h, NotDead(c, white)) && r in h && r in c && (!IsDead(c, white, r) || h[r].String?)
    ensures EntryClosed(h, NotDead(c[r := White(white)], white))
  {
    WhitenNotDead(c, white, r);
    var N, N' := NotDead(c, white), NotDead(c[r := White(white)], white);
    forall x | x in N' && x in h ensures EntryRefs(h, h[x]) <= N' {
      if x in N {
        assert EntryRefs(h, h[x]) <= N;
      }
    }
  }

  lemma WhitenNeverBlack(h: Heap, c: Colors, white: bool, r: Ref)
    requires NeverBlack(h, c)
    ensures NeverBlack(h, c[r := White(white)])
  {
  }

  lemma WhitenRoots(h: Heap, c: Colors, white: bool, e: Env, r: Ref)
    requires RootsOk(h, c, white, e) && r in c
    ensures RootsOk(h, c[r := White(white)], white, e)
  {
    WhitenNotDead(c, white, r);
  }

  // ----- what is kept -----

  /** An object keeps its references: upvalues may get closed, and threads lose closed upvalues. */
  ghost predicate SameContents(h: Heap, o: Obj, h': Heap, o': Obj) {
    || (o' == o && !o.Upval?)
    || (o.Thread? && o'.Thread? && o'.globals == o.globals && o'.stack == o.stack)
    || (o.Upval? && o'.Upval? && UpvalValue(h', o'.u) == UpvalValue(h, o.u))
  }

  ghost predicate KeepsAt(h: Heap, h': Heap, r: Ref) {
    r in h && r in h' && SameContents(h, h[r], h', h'[r])
  }

  /** Sweeping keeps every object that is alive and never revives a dead one. */
  ghost predicate SweepKeeps(h: Heap, c: Colors, h': Heap, c': Colors, white: bool, fixed: set<Ref>) {
    && h'.Keys <= h.Keys
    && (forall r {:trigger KeepsAt(h, h', r)} :: r in h && r in NotDead(c, white) + fixed ==> KeepsAt(h, h', r))
    && NotDead(c', white) + fixed == NotDead(c, white) + fixed
  }

  lemma SweepKeepsNone(h: Heap, c: Colors, white: bool, fixed: set<Ref>)
    ensures SweepKeeps(h, c, h, c, white, fixed)
  {
  }

  lemma SweepKeepsTwice(h: Heap, c: Colors, h': Heap, c': Colors, h'': Heap, c'': Colors, white: bool, fixed: set<Ref>)
    requires SweepKeeps(h, c, h', c', white, fixed) && SweepKeeps(h', c', h'', c'', white, fixed)
    ensures SweepKeeps(h, c, h'', c'', white, fixed)
  {
    forall r | r in h && r in NotDead(c, white) + fixed ensures KeepsAt(h, h'', r) {
      assert KeepsAt(h, h', r);
      assert KeepsAt(h', h'', r);
    }
  }

  lemma GoneKeeps(h: Heap, c: Colors, white: bool, fixed: set<Ref>, r: Ref)
    requires r in h && IsDead(c, white, r) && r !in fixed && (h[r].Thread? ==> forall u :: u in h ==> !(OpenUpval(h[u]) && h[u].u.thread == r))
    ensures SweepKeeps(h, c, h - {r}, c - {r}, white, fixed)
  {
    GoneNotDead(c, white, r);
    var h' := h - {r};
    forall x | x in h && x in NotDead(c, white) + fixed ensures KeepsAt(h, h', x) {
    }
  }

  lemma WhitenKeeps(h: Heap, c: Colors, white: bool, fixed: set<Ref>, r: Ref)
    requires r in c && (!IsDead(c, white, r) || r in fixed)
    ensures SweepKeeps(h, c, h, c[r := White(white)], white, fixed)
  {
    WhitenNotDead(c, white, r);
  }

  // ----- an upvalue leaves the list of its thread -----

  function Without(s: seq<Ref>, r: Ref): seq<Ref> {
    if s == [] then [] else if s[0] == r then s[1..] else [s[0]] + Without(s[1..], r)
  }

  lemma {:induction false} WithoutIsRemove(s: seq<Ref>, i: nat)
    requires Distinct(s) && i < |s|
    ensures Without(s, s[i]) == Remove(s, i)
  {
    if i > 0 {
      DistinctAt(s, 0, i);
      DistinctTail([s[0]], s[1..]);
      assert [s[0]] + s[1..] == s;
      WithoutIsRemove(s[1..], i - 1);
    }
  }

  lemma WithoutDistinct(s: seq<Ref>, r: Ref)
    requires Distinct(s) && r in s
    ensures Distinct(Without(s, r)) && forall x :: x in Without(s, r) <==> x in s && x != r
  {
    var i :| 0 <= i < |s| && s[i] == r;
    WithoutIsRemove(s, i);
    RemoveDistinct(s, i);
  }

  /** Upvalue `u` is off the list of thread `t`, and freed or closed. */
  ghost predicate UpvalOff(h: Heap, h': Heap, t: Ref, i: nat)
    requires t in h && h[t].Thread? && i < |h[t].open|
  {
    var u := h[t].open[i];
    && h'.Keys <= h.Keys && h.Keys <= h'.Keys + {u} && t in h' && t != u
    && h'[t] == h[t].(open := Remove(h[t].open, i))
    && (u in h' ==> h'[u].Upval? && h'[u].u.Closed?)
    && (forall x {:trigger h'[x]} {:trigger h[x]} :: x in h && x != u && x != t ==> h'[x] == h[x])
  }

  lemma OpenFacts(h: Heap, uvhead: seq<Ref>, t: Ref, i: nat)
    requires UpvalsOk(h, uvhead) && t in h && h[t].Thread? && i < |h[t].open|
    ensures var u := h[t].open[i];
            u in h && OpenUpval(h[u]) && h[u].u.thread == t && h[u].u.slot < |h[t].stack| && u != t && u in uvhead
    ensures Distinct(h[t].open) && Distinct(uvhead) && OpenAt(h, h[t].open[i], t)
  {
    assert OpenListOk(h, t);
    forall j | 0 <= j < |h[t].open| ensures OpenAt(h, h[t].open[j], t) {
    }
    assert OpenAt(h, h[t].open[i], t);
  }

  lemma UpvalsWithout(h: Heap, h': Heap, uvhead: seq<Ref>, t: Ref, i: nat)
    requires UpvalsOk(h, uvhead) && t in h && h[t].Thread? && i < |h[t].open| && UpvalOff(h, h', t, i)
    ensures UpvalsOk(h', Without(uvhead, h[t].open[i]))
  {
    var u := h[t].open[i];
    OpenFacts(h, uvhead, t, i);
    WithoutDistinct(uvhead, u);
    RemoveDistinct(h[t].open, i);
    forall x, y | OpenAt(h, x, y) && x != u ensures OpenAt(h', x, y) {
    }
    forall x | x in h' && h'[x].Thread? ensures OpenListOk(h', x) {
      OpenListWithout(h, h', uvhead, t, i, x);
    }
    forall x | x in h' && OpenUpval(h'[x]) ensures OpenAt(h', x, h'[x].u.thread) && x in h'[h'[x].u.thread].open {
      assert h[x] == h'[x];
      assert OpenAt(h, x, h[x].u.thread) && x in h[h[x].u.thread].open;
    }
  }

  lemma OpenListWithout(h: Heap, h': Heap, uvhead: seq<Ref>, t: Ref, i: nat, x: Ref)
    requires UpvalsOk(h, uvhead) && t in h && h[t].Thread? && i < |h[t].open| && UpvalOff(h, h', t, i)
    requires x in h' && h'[x].Thread?
    ensures OpenListOk(h', x)
  {
    var u := h[t].open[i];
    OpenFacts(h, uvhead, t, i);
    assert x in h && h[x].Thread? && OpenListOk(h, x);
    var s, s', same := h[x].open, h'[x].open, x == t;
    forall j | 0 <= j < |s'| ensures SlotKept(h, h', x, s, s', same, i, j) {
      OpenEntryKept(h, h', t, i, x, j);
    }
    hide UpvalOff;
    hide OpenAt;
    forall j, k | 0 <= j < k < |s'| && OpenAt(h', s'[j], x) && OpenAt(h', s'[k], x)
      ensures h'[s'[k]].u.slot < h'[s'[j]].u.slot
    {
      assert SlotKept(h, h', x, s, s', same, i, j) && SlotKept(h, h', x, s, s', same, i, k);
    }
  }

  /** Where entry `j` of the list was before. */
  function Index(same: bool, i: nat, j: nat): nat {
    if same && j >= i then j + 1 else j
  }

  ghost predicate SlotKept(h: Heap, h': Heap, x: Ref, s: seq<Ref>, s': seq<Ref>, same: bool, i: nat, j: nat) {
    var j0 := Index(same, i, j);
    && j0 < |s| && j < |s'| && s'[j] == s[j0] && OpenAt(h, s[j0], x) && OpenAt(h', s'[j], x)
    && h'[s'[j]] == h[s[j0]]
  }

  lemma OpenEntryKept(h: Heap, h': Heap, t: Ref, i: nat, x: Ref, j: nat)
    requires t in h && h[t].Thread? && i < |h[t].open| && UpvalOff(h, h', t, i) && Distinct(h[t].open)
    requires OpenAt(h, h[t].open[i], t)
    requires x in h && h[x].Thread? && OpenListOk(h, x) && x in h' && h'[x].Thread? && j < |h'[x].open|
    ensures SlotKept(h, h', x, h[x].open, h'[x].open, x == t, i, j)
  {
    var u, j0 := h[t].open[i], Index(x == t, i, j);
    var y := h[x].open[j0];
    assert OpenAt(h, y, x);
    if x == t {
      if j0 < i {
        DistinctAt(h[t].open, j0, i);
      } else {
        DistinctAt(h[t].open, i, j0);
      }
    }
    assert y != u && h'[y] == h[y];
  }

  /** The references of the objects stay as they are. */
  lemma OffRefs(h: Heap, h': Heap, t: Ref, i: nat, x: Ref)
    requires t in h && h[t].Thread? && i < |h[t].open| && UpvalOff(h, h', t, i) && OpenAt(h, h[t].open[i], t)
    requires x in h' && (x == h[t].open[i] ==> h'[x].u.v == UpvalValue(h, h[x].u))
    ensures SameContents(h, h[x], h', h'[x])
    ensures EntryRefs(h', h'[x]) == EntryRefs(h, h[x]) && StrongRefs(h', h'[x]) == StrongRefs(h, h[x])
    ensures AnyRefs(h', h'[x]) == AnyRefs(h, h[x])
  {
    var u := h[t].open[i];
    if x != u && h[x].Upval? {
      assert h'[x] == h[x];
      if h[x].u.Open? {
        OffStacks(h, h', t, i, h[x].u.thread);
      }
    }
  }

  lemma OffStacks(h: Heap, h': Heap, t: Ref, i: nat, x: Ref)
    requires t in h && h[t].Thread? && i < |h[t].open| && UpvalOff(h, h', t, i) && OpenAt(h, h[t].open[i], t)
    ensures (x in h && h[x].Thread?) <==> (x in h' && h'[x].Thread?)
    ensures x in h && h[x].Thread? ==> h'[x].stack == h[x].stack && h'[x].globals == h[x].globals
  {
  }

  ghost predicate ValueKept(h: Heap, h': Heap, u: Ref) {
    u in h && h[u].Upval? && (u in h' ==> h'[u].Upval? && h'[u].u == Closed(UpvalValue(h, h[u].u)))
  }

  lemma OffClosed(h: Heap, h': Heap, t: Ref, i: nat, N: set<Ref>)
    requires t in h && h[t].Thread? && i < |h[t].open| && UpvalOff(h, h', t, i) && OpenAt(h, h[t].open[i], t)
    requires ValueKept(h, h', h[t].open[i]) && EntryClosed(h, N)
    ensures EntryClosed(h', N)
  {
    forall x | x in N && x in h' ensures EntryRefs(h', h'[x]) <= N {
      OffRefs(h, h', t, i, x);
      assert x in h;
    }
  }

  lemma OffShape(h: Heap, h': Heap, t: Ref, i: nat, rootgc: seq<Ref>, strt: seq<seq<Ref>>, fixed: set<Ref>)
    requires t in h && h[t].Thread? && i < |h[t].open| && UpvalOff(h, h', t, i) && OpenAt(h, h[t].open[i], t)
    requires RootOk(h, rootgc) && StringsOk(h, strt) && AllStrings(h, fixed)
    ensures var u := h[t].open[i]; RootOk(h', if u in h' then [u] + rootgc else rootgc)
    ensures StringsOk(h', strt) && AllStrings(h', fixed)
  {
    var u := h[t].open[i];
    forall x | x in h' && x != u ensures x in h && InRoot(h'[x]) == InRoot(h[x]) && h'[x].String? == h[x].String? {
    }
    forall x | x in h' && h'[x].String? ensures exists b :: InBucket(strt, b, x) {
      assert h[x].String?;
    }
    assert u !in rootgc;
    if u in h' {
      DistinctInsert([], rootgc, u);
      assert [] + rootgc == rootgc && [] + ([u] + rootgc) == [u] + rootgc;
    }
  }

  lemma OffKeeps(h: Heap, c: Colors, h': Heap, c': Colors, t: Ref, i: nat, white: bool, fixed: set<Ref>)
    requires t in h && h[t].Thread? && i < |h[t].open| && UpvalOff(h, h', t, i) && OpenAt(h, h[t].open[i], t)
    requires ValueKept(h, h', h[t].open[i]) && AllStrings(h, fixed) && c.Keys == h.Keys
    requires h[t].open[i] !in h' ==> IsDead(c, white, h[t].open[i])
    requires NotDead(c', white) == NotDead(c, white)
    ensures SweepKeeps(h, c, h', c', white, fixed)
  {
    forall x | x in h && x in NotDead(c, white) + fixed ensures KeepsAt(h, h', x) {
      OffRefs(h, h', t, i, x);
    }
  }

  /** Objects swept stay swept. */
  lemma OffSwept(h: Heap, c: Colors, h': Heap, c': Colors, uvhead: seq<Ref>, t: Ref, i: nat, white: bool, rootgc: seq<Ref>, n: nat)
    requires t in h && h[t].Thread? && i < |h[t].open| && UpvalOff(h, h', t, i) && UpvalsOk(h, uvhead) && RootOk(h, rootgc)
    requires RootSwept(h, c, white, rootgc, n)
    requires forall x {:trigger c[x]} {:trigger c'[x]} :: x in c && x != h[t].open[i] ==> x in c' && c'[x] == c[x]
    ensures RootSwept(h', c', white, rootgc, n)
  {
    OpenFacts(h, uvhead, t, i);
    RemoveDistinct(h[t].open, i);
    forall j | 0 <= j < n ensures SweptAt(h', c', white, rootgc[j]) {
      var r := rootgc[j];
      assert SweptAt(h, c, white, r) && r in rootgc;
      assert r != h[t].open[i];
      if h[r].Thread? {
        assert OpenListOk(h, r);
        forall u | u in h'[r].open ensures u in c' && c'[u] == White(white) {
          OpenSomewhereElse(h, uvhead, t, i, r, u);
        }
      }
    }
  }

  lemma OpenSomewhereElse(h: Heap, uvhead: seq<Ref>, t: Ref, i: nat, r: Ref, u: Ref)
    requires UpvalsOk(h, uvhead) && t in h && h[t].Thread? && i < |h[t].open|
    requires r in h && h[r].Thread? && (if r == t then u in Remove(h[t].open, i) else u in h[r].open)
    ensures u in h[r].open && u != h[t].open[i]
  {
    OpenFacts(h, uvhead, t, i);
    RemoveDistinct(h[t].open, i);
    if r != t {
      var j :| 0 <= j < |h[r].open| && h[r].open[j] == u;
      OpenFacts(h, uvhead, r, j);
    }
  }

  lemma RemovedFirst(s: seq<Ref>, i: nat)
    requires Distinct(s) && i < |s|
    ensures |Remove(s, i)| == |s| - 1 && forall j :: 0 <= j < i ==> Remove(s, i)[j] == s[j] && s[j] != s[i]
  {
    forall j | 0 <= j < i ensures s[j] != s[i] {
      DistinctAt(s, j, i);
    }
  }

  /** Only string `r`, which is not in the buckets swept, may change. */
  lemma StringsStaySwept(c: Colors, c': Colors, white: bool, strt: seq<seq<Ref>>, strt': seq<seq<Ref>>, n: nat, r: Ref)
    requires StringsSwept(c, white, strt, n) && n <= |strt| == |strt'|
    requires forall a :: 0 <= a < n ==> strt'[a] == strt[a] && r !in strt[a]
    requires c' == c - {r} || c' == c[r := White(white)]
    ensures StringsSwept(c', white, strt', n)
  {
    forall b: nat, x: Ref | b < n && InBucket(strt', b, x) ensures x in c' && c'[x] == White(white) {
      assert InBucket(strt, b, x);
    }
  }

  lemma BucketSwept(c: Colors, white: bool, strt: seq<seq<Ref>>, b: nat)
    requires b < |strt| && StringsSwept(c, white, strt, b)
    requires forall j :: 0 <= j < |strt[b]| ==> strt[b][j] in c && c[strt[b][j]] == White(white)
    ensures StringsSwept(c, white, strt, b + 1)
  {
    forall a: nat, x: Ref | a < b + 1 && InBucket(strt, a, x) ensures x in c && c[x] == White(white) {
    }
  }

  /** Strings are not affected when another object changes. */
  lemma StringsUntouched(h: Heap, c: Colors, c': Colors, white: bool, strt: seq<seq<Ref>>, n: nat, u: Ref)
    requires StringsOk(h, strt) && StringsSwept(c, white, strt, n) && u in h && !h[u].String?
    requires forall x {:trigger c[x]} {:trigger c'[x]} :: x in c && x != u ==> x in c' && c'[x] == c[x]
    ensures StringsSwept(c', white, strt, n)
  {
    forall b: nat, x: Ref | b < n && InBucket(strt, b, x) ensures x in c' && c'[x] == White(white) {
      assert c[x] == White(white) && h[x].String?;
    }
  }

  lemma OffNeverBlack(h: Heap, c: Colors, h': Heap, c': Colors, t: Ref, i: nat)
    requires t in h && h[t].Thread? && i < |h[t].open| && UpvalOff(h, h', t, i) && NeverBlack(h, c)
    requires forall x {:trigger c'[x]} :: x in c' && x != h[t].open[i] ==> x in c && c'[x] == c[x]
    ensures NeverBlack(h', c')
  {
    forall x | x in h' && x in c' && (h'[x].String? || h'[x].Thread? || OpenUpval(h'[x])) ensures !c'[x].Black? {
      assert x != h[t].open[i];
      var _ := h[x];
    }
  }

  lemma OffRoots(h: Heap, c: Colors, h': Heap, c': Colors, t: Ref, i: nat, white: bool, e: Env)
    requires RootsOk(h, c, white, e) && NotDead(c', white) == NotDead(c, white)
    requires t in h && h[t].Thread? && i < |h[t].open| && UpvalOff(h, h', t, i) && OpenAt(h, h[t].open[i], t)
    ensures RootsOk(h', c', white, e)
  {
    OffStacks(h, h', t, i, e.main);
    OffStacks(h, h', t, i, e.running);
  }

  lemma WithoutLength(s: seq<Ref>, r: Ref)
    requires Distinct(s) && r in s
    ensures |Without(s, r)| == |s| - 1
  {
    var i :| 0 <= i < |s| && s[i] == r;
    WithoutIsRemove(s, i);
  }

  // ----- whole steps -----

  lemma Whitened(h: Heap, c: Colors, white: bool, l: ObjLists, e: Env, r: Ref)
    requires BaseOk(h, c, white, l, e) && r in h && (!IsDead(c, white, r) || r in l.fixed)
    ensures BaseOk(h, c[r := White(white)], white, l, e) && SweepKeeps(h, c, h, c[r := White(white)], white, l.fixed)
  {
    hide RootOk;
    hide StringsOk;
    hide UpvalsOk;
    hide EntryClosed;
    hide NeverBlack;
    hide RootsOk;
    hide SweepKeeps;
    hide NotDead;
    WhitenKeeps(h, c, white, l.fixed, r);
    WhitenClosed(h, c, white, r);
    WhitenNeverBlack(h, c, white, r);
    WhitenRoots(h, c, white, e, r);
  }

  lemma FreedString(h: Heap, c: Colors, white: bool, l: ObjLists, e: Env, b: nat, i: nat)
    requires BaseOk(h, c, white, l, e) && b < |l.strt| && i < |l.strt[b]| && IsDead(c, white, l.strt[b][i]) && l.strt[b][i] !in l.fixed
    ensures var r := l.strt[b][i];
            && BaseOk(h - {r}, c - {r}, white, l.(strt := l.strt[b := Remove(l.strt[b], i)]), e)
            && SweepKeeps(h, c, h - {r}, c - {r}, white, l.fixed)
  {
    hide RootOk;
    hide StringsOk;
    hide UpvalsOk;
    hide EntryClosed;
    hide NeverBlack;
    hide RootsOk;
    hide SweepKeeps;
    hide NotDead;
    var r := l.strt[b][i];
    GoneString(h, l.strt, l.fixed, b, i);
    GoneKeeps(h, c, white, l.fixed, r);
    GoneNotRoot(h, l.rootgc, r);
    GoneUpvals(h, l.uvhead, r);
    GoneNeverBlack(h, c, r);
    GoneNotDead(c, white, r);
    GoneClosed(h, NotDead(c, white), r);
    GoneRoots(h, c, white, e, r);
  }

  /** A dead open upvalue is freed. */
  lemma FreedUpval(p: Phase, h: Heap, c: Colors, white: bool, L: seq<Ref>, l: ObjLists, e: Env, sweepgc: nat, sweepstrgc: nat, t: Ref, i: nat)
    requires BaseOk(h, c, white, l, e) && PhaseOk(p, h, c, white, L, l, e, sweepgc, sweepstrgc)
    requires t in h && h[t].Thread? && i < |h[t].open| && IsDead(c, white, h[t].open[i])
    ensures var u := h[t].open[i];
            var h', c', l' := (h - {u})[t := h[t].(open := Remove(h[t].open, i))], c - {u}, l.(uvhead := Without(l.uvhead, u));
            && BaseOk(h', c', white, l', e) && PhaseOk(p, h', c', white, L, l', e, sweepgc, sweepstrgc)
            && SweepKeeps(h, c, h', c', white, l.fixed) && |l'.uvhead| == |l.uvhead| - 1
  {
    hide RootOk;
    hide StringsOk;
    hide UpvalsOk;
    hide EntryClosed;
    hide NeverBlack;
    hide RootsOk;
    hide SweepKeeps;
    hide NotDead;
    hide RootSwept;
    hide StringsSwept;
    var u := h[t].open[i];
    var h', c' := (h - {u})[t := h[t].(open := Remove(h[t].open, i))], c - {u};
    OpenFacts(h, l.uvhead, t, i);
    assert UpvalOff(h, h', t, i) && ValueKept(h, h', u);
    hide UpvalOff;
    hide ValueKept;
    hide OpenAt;
    hide AllStrings;
    GoneNotDead(c, white, u);
    UpvalsWithout(h, h', l.uvhead, t, i);
    OffClosed(h, h', t, i, NotDead(c, white));
    OffShape(h, h', t, i, l.rootgc, l.strt, l.fixed);
    OffKeeps(h, c, h', c', t, i, white, l.fixed);
    OffNeverBlack(h, c, h', c', t, i);
    OffRoots(h, c, h', c', t, i, white, e);
    WithoutLength(l.uvhead, u);
    FreedPhase(p, h, c, h', c', white, L, l, e, sweepgc, sweepstrgc, t, i);
  }

  lemma FreedPhase(p: Phase, h: Heap, c: Colors, h': Heap, c': Colors, white: bool, L: seq<Ref>, l: ObjLists, e: Env, sweepgc: nat, sweepstrgc: nat, t: Ref, i: nat)
    requires BaseOk(h, c, white, l, e) && PhaseOk(p, h, c, white, L, l, e, sweepgc, sweepstrgc)
    requires t in h && h[t].Thread? && i < |h[t].open| && UpvalOff(h, h', t, i)
    requires IsDead(c, white, h[t].open[i]) && c' == c - {h[t].open[i]}
    ensures PhaseOk(p, h', c', white, L, l.(uvhead := Without(l.uvhead, h[t].open[i])), e, sweepgc, sweepstrgc)
  {
    hide RootOk;
    hide StringsOk;
    hide UpvalsOk;
    hide UpvalOff;
    hide EntryClosed;
    hide NeverBlack;
    hide RootsOk;
    OpenFacts(h, l.uvhead, t, i);
    DeadInSweep(p, h, c, white, L, l, e, sweepgc, sweepstrgc, h[t].open[i]);
    if p == SweepString {
      StringsUntouched(h, c, c', white, l.strt, sweepstrgc, h[t].open[i]);
    } else {
      StringsUntouched(h, c, c', white, l.strt, |l.strt|, h[t].open[i]);
      OffSwept(h, c, h', c', l.uvhead, t, i, white, l.rootgc, sweepgc);
    }
  }

  lemma DeadInSweep(p: Phase, h: Heap, c: Colors, white: bool, L: seq<Ref>, l: ObjLists, e: Env, sweepgc: nat, sweepstrgc: nat, r: Ref)
    requires PhaseOk(p, h, c, white, L, l, e, sweepgc, sweepstrgc) && IsDead(c, white, r)
    ensures p == SweepString || p == Sweep
  {
  }

  // ----- closing an upvalue -----

  /** Where the sweep continues after an object was put in front of the list. */
  function PushedSweep(sweepgc: nat): nat {
    if sweepgc == 0 then 0 else sweepgc + 1
  }

  /** Upvalue 0 of thread `t` gets closed. */
  function CloseHeap(h: Heap, t: Ref): Heap
    requires t in h && h[t].Thread? && h[t].open != [] && h[t].open[0] in h && h[h[t].open[0]].Upval?
  {
    var u := h[t].open[0];
    h[t := h[t].(open := Remove(h[t].open, 0))][u := Upval(Closed(UpvalValue(h, h[u].u)))]
  }

  function ClosedLists(l: ObjLists, u: Ref): ObjLists {
    l.(rootgc := [u] + l.rootgc, uvhead := Without(l.uvhead, u))
  }

  lemma CloseOff(h: Heap, l: ObjLists, t: Ref)
    requires UpvalsOk(h, l.uvhead) && t in h && h[t].Thread? && h[t].open != []
    ensures h[t].open[0] in h && OpenUpval(h[h[t].open[0]]) && OpenAt(h, h[t].open[0], t)
    ensures UpvalOff(h, CloseHeap(h, t), t, 0) && ValueKept(h, CloseHeap(h, t), h[t].open[0])
    ensures h[t].open[0] in CloseHeap(h, t) && h[t].open[0] in l.uvhead && Distinct(l.uvhead)
  {
    OpenFacts(h, l.uvhead, t, 0);
  }

  /** Closing changes no list but that of the thread, and no reference. */
  lemma ClosedBase(h: Heap, c: Colors, c': Colors, white: bool, l: ObjLists, e: Env, t: Ref)
    requires BaseOk(h, c, white, l, e) && t in h && h[t].Thread? && h[t].open != []
    requires var u := h[t].open[0];
             u in h && u in c && !IsDead(c, white, u) && (c' == c || c' == c[u := White(white)] || c' == c[u := Black])
    ensures h[t].open[0] in h && OpenUpval(h[h[t].open[0]])
    ensures BaseOk(CloseHeap(h, t), c', white, ClosedLists(l, h[t].open[0]), e)
    ensures SweepKeeps(h, c, CloseHeap(h, t), c', white, l.fixed)
    ensures |Without(l.uvhead, h[t].open[0])| == |l.uvhead| - 1
  {
    hide RootOk;
    hide StringsOk;
    hide UpvalsOk;
    hide EntryClosed;
    hide NeverBlack;
    hide RootsOk;
    hide SweepKeeps;
    hide NotDead;
    var u := h[t].open[0];
    CloseOff(h, l, t);
    var h' := CloseHeap(h, t);
    hide CloseHeap;
    RecoloredNotDead(c, white, u, White(white));
    RecoloredNotDead(c, white, u, Black);
    WithoutLength(l.uvhead, u);
    UpvalsWithout(h, h', l.uvhead, t, 0);
    OffClosed(h, h', t, 0, NotDead(c, white));
    OffShape(h, h', t, 0, l.rootgc, l.strt, l.fixed);
    OffKeeps(h, c, h', c', t, 0, white, l.fixed);
    OffNeverBlack(h, c, h', c', t, 0);
    OffRoots(h, c, h', c', t, 0, white, e);
  }

  lemma RecoloredNotDead(c: Colors, white: bool, r: Ref, k: Color)
    requires r in c && !IsDead(c, white, r) && k != White(!white)
    ensures NotDead(c[r := k], white) == NotDead(c, white)
  {
  }

  /** Outside the mark phase a gray upvalue becomes white. */
  lemma ClosedInSweep(p: Phase, h: Heap, c: Colors, white: bool, L: seq<Ref>, l: ObjLists, e: Env, sweepgc: nat, sweepstrgc: nat, t: Ref)
    requires BaseOk(h, c, white, l, e) && PhaseOk(p, h, c, white, L, l, e, sweepgc, sweepstrgc)
    requires t in h && h[t].Thread? && h[t].open != [] && p != Propagate
    requires h[t].open[0] in h && OpenUpval(h[h[t].open[0]]) && !IsDead(c, white, h[t].open[0])
    ensures PhaseOk(p, CloseHeap(h, t), c[h[t].open[0] := White(white)], white, L, ClosedLists(l, h[t].open[0]), e, PushedSweep(sweepgc), sweepstrgc)
    ensures h[t].open[0] in c
  {
    hide RootOk;
    hide StringsOk;
    hide UpvalsOk;
    hide EntryClosed;
    hide NeverBlack;
    hide RootsOk;
    var u := h[t].open[0];
    var c' := c[u := White(white)];
    CloseOff(h, l, t);
    var h' := CloseHeap(h, t);
    if p == SweepString {
      StringsUntouched(h, c, c', white, l.strt, sweepstrgc, u);
    } else if p == Sweep {
      StringsUntouched(h, c, c', white, l.strt, |l.strt|, u);
      OffSwept(h, c, h', c', l.uvhead, t, 0, white, l.rootgc, sweepgc);
      if sweepgc > 0 {
        PushedSwept(h', c', white, l.rootgc, sweepgc, u);
      }
    }
  }

  lemma PushedSwept(h: Heap, c: Colors, white: bool, rootgc: seq<Ref>, n: nat, u: Ref)
    requires RootSwept(h, c, white, rootgc, n) && SweptAt(h, c, white, u)
    ensures RootSwept(h, c, white, [u] + rootgc, n + 1)
  {
    var s := [u] + rootgc;
    forall j | 0 <= j < n + 1 ensures SweptAt(h, c, white, s[j]) {
      if j > 0 {
        assert s[j] == rootgc[j - 1];
      }
    }
  }

  // ----- the mark phase -----

  lemma PropagateParts(h: Heap, c: Colors, white: bool, L: seq<Ref>, l: ObjLists, e: Env, sweepgc: nat, sweepstrgc: nat)
    requires BaseOk(h, c, white, l, e) && PhaseOk(Propagate, h, c, white, L, l, e, sweepgc, sweepstrgc)
    ensures MarkOk(h, c, L, white, {}, h.Keys) && Marked(c, {e.main} + Ref1(e.registry)) && EnvRefs(e) <= h.Keys
  {
    hide Tri;
    NothingDead(c, white);
    assert NoDangling(h);
    AllClosed(h);
  }

  lemma AllClosed(h: Heap)
    requires NoDangling(h)
    ensures StrongClosed(h, h.Keys)
  {
    forall r | r in h ensures StrongRefs(h, h[r]) <= h.Keys {
      RefsNested(h, h[r]);
      assert EntryRefs(h, h[r]) <= h.Keys;
    }
  }

  lemma PropagateWhole(h: Heap, c: Colors, white: bool, L: seq<Ref>, l: ObjLists, e: Env, sweepgc: nat, sweepstrgc: nat)
    requires MarkOk(h, c, L, white, {}, h.Keys) && Marked(c, {e.main} + Ref1(e.registry)) && EnvRefs(e) <= h.Keys
    requires ListsOk(h, l) && e.main in h && h[e.main].Thread? && e.running in h && h[e.running].Thread?
    ensures BaseOk(h, c, white, l, e) && PhaseOk(Propagate, h, c, white, L, l, e, sweepgc, sweepstrgc)
  {
    hide ListsOk;
    hide EntryClosed;
    DomainOk(h, c, L, {});
    NothingDead(c, white);
    forall r | r in h && r in c && (h[r].String? || h[r].Thread? || OpenUpval(h[r])) ensures !c[r].Black? {
      assert ColorOk(h, c, L, r);
    }
  }

  /** An upvalue that is closed during marking is black, and must have its value marked. */
  lemma ClosedInMark(h: Heap, c: Colors, white: bool, L: seq<Ref>, l: ObjLists, t: Ref)
    requires MarkOk(h, c, L, white, {}, h.Keys) && UpvalsOk(h, l.uvhead) && t in h && h[t].Thread? && h[t].open != []
    ensures var u := h[t].open[0];
            && u in h && u in c && OpenUpval(h[u]) && u !in L
            && CloseHeap(h, t).Keys == h.Keys
            && Ref1(UpvalValue(h, h[u].u)) <= h.Keys
            && (c[u].White? ==> MarkOk(CloseHeap(h, t), c, L, white, {}, h.Keys))
            && (c[u].Gray? ==> MarkOk(CloseHeap(h, t), c[u := Black], L, white, {u}, h.Keys))
            && !c[u].Black?
  {
    hide UpvalsOk;
    var u := h[t].open[0];
    CloseOff(h, l, t);
    DomainOk(h, c, L, {});
    OnlyContainersListed(h, c, L, {}, u);
    UpvalRefs(h, u, h.Keys);
    UpvalNotBlack(h, c, L, white, {}, h.Keys, u);
    var h' := CloseHeap(h, t);
    OffClosed(h, h', t, 0, h.Keys);
    AllClosed(h');
    assert !IsClosedUpval(h[u]);
    if c[u].White? {
      TriOff(h, h', c, c, L, t);
    } else {
      TriOff(h, h', c, c[u := Black], L, t);
    }
  }

  predicate IsClosedUpval(o: Obj) {
    o.Upval? && o.u.Closed?
  }

  lemma TriOff(h: Heap, h': Heap, c: Colors, c': Colors, L: seq<Ref>, t: Ref)
    requires Tri(h, c, L, {}) && t in h && h[t].Thread? && h[t].open != [] && UpvalOff(h, h', t, 0) && OpenAt(h, h[t].open[0], t)
    requires var u := h[t].open[0]; u in h' && ValueKept(h, h', u) && u in c && u !in L
    requires (c' == c && c[h[t].open[0]].White?) || (c' == c[h[t].open[0] := Black] && c[h[t].open[0]].Gray?)
    ensures Tri(h', c', L, if c' == c then {} else {h[t].open[0]})
  {
    var u := h[t].open[0];
    forall r | r in h' && r != u ensures ColorOk(h', c', L, r) {
      assert ColorOk(h, c, L, r);
      OffRefs(h, h', t, 0, r);
      if c'[r].Black? {
        assert Marked(c', AnyRefs(h', h'[r]));
      }
    }
    forall r | r in L ensures r in h' && ListOk(h', c', r) && Container(h'[r]) {
      assert ListOk(h, c, r);
    }
  }

  lemma ClosedMarked(h: Heap, c: Colors, L: seq<Ref>, white: bool, u: Ref)
    requires MarkOk(h, c, L, white, {u}, h.Keys) && u in h && IsClosedUpval(h[u]) && Marked(c, Ref1(h[u].u.v)) && u in c && c[u] == Black
    ensures MarkOk(h, c, L, white, {}, h.Keys)
  {
    hide NoDangling;
    hide StrongClosed;
    OnlyContainersListed(h, c, L, {u}, u);
    assert {} + {u} == {u} && c[u := Black] == c;
    Blacken(h, c, L, {}, u);
  }

  lemma ClosedShape(h: Heap, l: ObjLists, t: Ref)
    requires ListsOk(h, l) && t in h && h[t].Thread? && h[t].open != []
    ensures h[t].open[0] in h && OpenUpval(h[h[t].open[0]])
    ensures ListsOk(CloseHeap(h, t), ClosedLists(l, h[t].open[0])) && CloseHeap(h, t).Keys == h.Keys
    ensures |Without(l.uvhead, h[t].open[0])| == |l.uvhead| - 1
    ensures forall r :: r in h && h[r].Thread? ==> CloseHeap(h, t)[r].Thread?
  {
    hide UpvalsOk;
    CloseOff(h, l, t);
    WithoutLength(l.uvhead, h[t].open[0]);
    UpvalsWithout(h, CloseHeap(h, t), l.uvhead, t, 0);
    OffShape(h, CloseHeap(h, t), t, 0, l.rootgc, l.strt, l.fixed);
  }

  lemma NotBlackUpval(h: Heap, c: Colors, white: bool, l: ObjLists, e: Env, u: Ref)
    requires BaseOk(h, c, white, l, e) && u in h && OpenUpval(h[u]) && !IsDead(c, white, u)
    ensures u in c && (c[u] == Gray || c[u] == White(white))
    ensures c[u] == White(white) ==> c[u := White(white)] == c
  {
  }

  lemma BaseParts(h: Heap, c: Colors, white: bool, l: ObjLists, e: Env)
    requires BaseOk(h, c, white, l, e)
    ensures ListsOk(h, l) && e.main in h && h[e.main].Thread? && e.running in h && h[e.running].Thread? && c.Keys == h.Keys
  {
  }

  lemma ListParts(h: Heap, l: ObjLists)
    requires ListsOk(h, l)
    ensures UpvalsOk(h, l.uvhead)
  {
  }

  lemma StillMarked(c: Colors, u: Ref, S: set<Ref>)
    requires Marked(c, S)
    ensures Marked(c[u := Black], S)
  {
  }

  lemma HighestOpen(h: Heap, uvhead: seq<Ref>, t: Ref, u: Ref)
    requires UpvalsOk(h, uvhead) && OpenAt(h, u, t)
    ensures h[t].open != [] && h[t].open[0] in h && OpenUpval(h[h[t].open[0]]) && h[u].u.slot <= h[h[t].open[0]].u.slot
  {
    assert OpenListOk(h, t) && u in h[t].open;
    var j :| 0 <= j < |h[t].open| && h[t].open[j] == u;
    assert OpenAt(h, h[t].open[0], t) && OpenAt(h, h[t].open[j], t);
  }

  lemma ClosedOutside(p: Phase, h: Heap, c: Colors, white: bool, L: seq<Ref>, l: ObjLists, e: Env, sweepgc: nat, sweepstrgc: nat, t: Ref)
    requires BaseOk(h, c, white, l, e) && PhaseOk(p, h, c, white, L, l, e, sweepgc, sweepstrgc)
    requires t in h && h[t].Thread? && h[t].open != [] && p != Propagate
    requires h[t].open[0] in h && OpenUpval(h[h[t].open[0]]) && !IsDead(c, white, h[t].open[0])
    ensures var u := h[t].open[0];
            var h', c', l' := CloseHeap(h, t), c[u := White(white)], ClosedLists(l, u);
            && BaseOk(h', c', white, l', e) && PhaseOk(p, h', c', white, L, l', e, PushedSweep(sweepgc), sweepstrgc)
            && SweepKeeps(h, c, h', c', white, l.fixed) && |l'.uvhead| == |l.uvhead| - 1
            && u in c && (c[u] == Gray || c' == c)
  {
    hide BaseOk;
    hide PhaseOk;
    hide SweepKeeps;
    hide CloseHeap;
    hide Without;
    ClosedInSweep(p, h, c, white, L, l, e, sweepgc, sweepstrgc, t);
    ClosedBase(h, c, c[h[t].open[0] := White(white)], white, l, e, t);
    NotBlackUpval(h, c, white, l, e, h[t].open[0]);
  }

  lemma CloseMarkFacts(h: Heap, c: Colors, white: bool, L: seq<Ref>, l: ObjLists, e: Env, sweepgc: nat, sweepstrgc: nat, t: Ref)
    requires BaseOk(h, c, white, l, e) && PhaseOk(Propagate, h, c, white, L, l, e, sweepgc, sweepstrgc)
    requires t in h && h[t].Thread? && h[t].open != [] && h[t].open[0] in h && OpenUpval(h[h[t].open[0]])
    ensures var u, h' := h[t].open[0], CloseHeap(h, t);
            && u in c && h'.Keys == h.Keys && u in h' && IsClosedUpval(h'[u])
            && Marked(c, {e.main} + Ref1(e.registry)) && Marked(c[u := Black], {e.main} + Ref1(e.registry)) && EnvRefs(e) <= h.Keys
            && (c[u] != Gray ==> MarkOk(h', c, L, white, {}, h.Keys))
            && (c[u] == Gray ==> MarkOk(h', c[u := Black], L, white, {u}, h.Keys))
            && ListsOk(h', ClosedLists(l, u)) && |Without(l.uvhead, u)| == |l.uvhead| - 1
            && e.main in h' && h'[e.main].Thread? && e.running in h' && h'[e.running].Thread?
  {
    hide ListsOk;
    hide MarkOk;
    hide Without;
    hide Marked;
    hide EnvRefs;
    hide Tri;
    PropagateParts(h, c, white, L, l, e, sweepgc, sweepstrgc);
    BaseParts(h, c, white, l, e);
    ListParts(h, l);
    hide BaseOk;
    hide PhaseOk;
    ClosedInMark(h, c, white, L, l, t);
    ClosedShape(h, l, t);
    StillMarked(c, h[t].open[0], {e.main} + Ref1(e.registry));
  }

  lemma WhitenedPhase(h: Heap, c: Colors, white: bool, L: seq<Ref>, l: ObjLists, e: Env, sweepgc: nat, sweepstrgc: nat, r: Ref)
    requires PhaseOk(Sweep, h, c, white, L, l, e, sweepgc, sweepstrgc)
    ensures PhaseOk(Sweep, h, c[r := White(white)], white, L, l, e, sweepgc, sweepstrgc)
  {
    var c' := c[r := White(white)];
    forall j | 0 <= j < sweepgc ensures SweptAt(h, c', white, l.rootgc[j]) {
      assert SweptAt(h, c, white, l.rootgc[j]);
    }
    forall b: nat, x: Ref | b < |l.strt| && InBucket(l.strt, b, x) ensures x in c' && c'[x] == White(white) {
    }
  }

  /** An object of the list `rootgc` is freed. */
  lemma FreedObject(h: Heap, c: Colors, white: bool, L: seq<Ref>, l: ObjLists, e: Env, sweepgc: nat, sweepstrgc: nat, r: Ref)
    requires BaseOk(h, c, white, l, e) && PhaseOk(Sweep, h, c, white, L, l, e, sweepgc, sweepstrgc)
    requires r in h && r in l.rootgc && sweepgc <= |l.rootgc| && r !in l.rootgc[..sweepgc] && IsDead(c, white, r) && r !in l.fixed
    requires h[r].Thread? ==> h[r].open == []
    ensures var l' := l.(rootgc := Without(l.rootgc, r));
            && BaseOk(h - {r}, c - {r}, white, l', e) && PhaseOk(Sweep, h - {r}, c - {r}, white, L, l', e, sweepgc, sweepstrgc)
            && SweepKeeps(h, c, h - {r}, c - {r}, white, l.fixed) && |l'.rootgc| == |l.rootgc| - 1
  {
    hide RootOk;
    hide StringsOk;
    hide UpvalsOk;
    hide EntryClosed;
    hide NeverBlack;
    hide RootsOk;
    hide SweepKeeps;
    hide NotDead;
    hide PhaseOk;
    hide Without;
    hide Remove;
    hide AllStrings;
    var i := IndexInRoot(h, l.rootgc, sweepgc, r);
    FreedPhase2(h, c, white, L, l, e, sweepgc, sweepstrgc, i);
    WithoutIsRemove(l.rootgc, i);
    WithoutLength(l.rootgc, r);
    GoneFromRoot(h, l.rootgc, i);
    GoneNotString(h, l.strt, l.fixed, r);
    NoneOpenOn(h, l.uvhead, r);
    GoneKeeps(h, c, white, l.fixed, r);
    GoneUpvals(h, l.uvhead, r);
    GoneNeverBlack(h, c, r);
    GoneNotDead(c, white, r);
    GoneClosed(h, NotDead(c, white), r);
    GoneRoots(h, c, white, e, r);
  }

  lemma IndexInRoot(h: Heap, rootgc: seq<Ref>, n: nat, r: Ref) returns (i: nat)
    requires RootOk(h, rootgc) && r in rootgc && n <= |rootgc| && r !in rootgc[..n]
    ensures n <= i < |rootgc| && rootgc[i] == r && r in h && InRoot(h[r]) && Distinct(rootgc)
  {
    i :| 0 <= i < |rootgc| && rootgc[i] == r;
  }

  lemma NoneOpenOn(h: Heap, uvhead: seq<Ref>, r: Ref)
    requires UpvalsOk(h, uvhead) && r in h && (h[r].Thread? ==> h[r].open == [])
    ensures forall u :: u in h ==> !(OpenUpval(h[u]) && h[u].u.thread == r)
  {
    forall u | u in h && OpenUpval(h[u]) ensures h[u].u.thread != r {
      assert OpenAt(h, u, h[u].u.thread) && u in h[h[u].u.thread].open;
    }
  }

  lemma FreedPhase2(h: Heap, c: Colors, white: bool, L: seq<Ref>, l: ObjLists, e: Env, sweepgc: nat, sweepstrgc: nat, i: nat)
    requires PhaseOk(Sweep, h, c, white, L, l, e, sweepgc, sweepstrgc) && ListsOk(h, l)
    requires sweepgc <= i < |l.rootgc| && InRoot(h[l.rootgc[i]])
    ensures var r := l.rootgc[i];
            PhaseOk(Sweep, h - {r}, c - {r}, white, L, l.(rootgc := Remove(l.rootgc, i)), e, sweepgc, sweepstrgc)
  {
    var r := l.rootgc[i];
    var h', c', s := h - {r}, c - {r}, Remove(l.rootgc, i);
    StringsUntouched(h, c, c', white, l.strt, |l.strt|, r);
    forall j | 0 <= j < sweepgc ensures SweptAt(h', c', white, s[j]) {
      assert s[j] == l.rootgc[j] && SweptAt(h, c, white, l.rootgc[j]);
      DistinctAt(l.rootgc, j, i);
      var x := s[j];
      if h[x].Thread? {
        forall u | u in h[x].open ensures u != r {
          var k :| 0 <= k < |h[x].open| && h[x].open[k] == u;
          OpenFacts(h, l.uvhead, x, k);
        }
      }
    }
  }

  lemma PushedElsewhere(s: seq<Ref>, k: nat, u: Ref, t: Ref)
    requires t in s && k <= |s| && t !in s[..k]
    ensures t in [u] + s && PushedSweep(k) <= |[u] + s|
    ensures u != t ==> t !in ([u] + s)[..PushedSweep(k)]
  {
    if k > 0 {
      assert ([u] + s)[..k + 1] == [u] + s[..k];
    }
  }

  // ----- the end of the sweep -----

  lemma AllSwept(h: Heap, c: Colors, white: bool, L: seq<Ref>, l: ObjLists, e: Env, sweepgc: nat, sweepstrgc: nat)
    requires BaseOk(h, c, white, l, e) && PhaseOk(Sweep, h, c, white, L, l, e, sweepgc, sweepstrgc) && sweepgc == |l.rootgc|
    ensures AllWhite(c, white)
  {
    hide RootOk;
    hide StringsOk;
    hide UpvalsOk;
    hide EntryClosed;
    hide NeverBlack;
    hide RootsOk;
    hide StringsSwept;
    hide RootSwept;
    forall r | r in c ensures c[r] == White(white) {
      if h[r].String? {
        StringSwept(h, c, white, l.strt, r);
      } else if OpenUpval(h[r]) {
        UpvalSwept(h, c, white, l, sweepgc, r);
      } else {
        InRootSwept(h, c, white, l.rootgc, sweepgc, r);
      }
    }
  }

  lemma StringSwept(h: Heap, c: Colors, white: bool, strt: seq<seq<Ref>>, r: Ref)
    requires StringsOk(h, strt) && StringsSwept(c, white, strt, |strt|) && r in h && h[r].String?
    ensures r in c && c[r] == White(white)
  {
    var b :| InBucket(strt, b, r);
  }

  lemma UpvalSwept(h: Heap, c: Colors, white: bool, l: ObjLists, n: nat, u: Ref)
    requires UpvalsOk(h, l.uvhead) && RootOk(h, l.rootgc) && RootSwept(h, c, white, l.rootgc, n) && n == |l.rootgc|
    requires u in h && OpenUpval(h[u])
    ensures u in c && c[u] == White(white)
  {
    var t := h[u].u.thread;
    assert OpenAt(h, u, t) && u in h[t].open;
    InRootSwept(h, c, white, l.rootgc, n, t);
  }

  lemma InRootSwept(h: Heap, c: Colors, white: bool, rootgc: seq<Ref>, n: nat, r: Ref)
    requires RootOk(h, rootgc) && RootSwept(h, c, white, rootgc, n) && n == |rootgc| && r in h && InRoot(h[r])
    ensures SweptAt(h, c, white, r)
  {
    assert r in rootgc;
    var j :| 0 <= j < |rootgc| && rootgc[j] == r;
  }

  /** With all objects white, those left are the ones that were alive. */
  lemma OnlyAliveLeft(h: Heap, c: Colors, h': Heap, c': Colors, white: bool, fixed: set<Ref>)
    requires SweepKeeps(h, c, h', c', white, fixed) && AllWhite(c', white) && c'.Keys == h'.Keys && AllStrings(h', fixed)
    ensures h'.Keys == NotDead(c, white) + fixed
  {
    assert NotDead(c', white) == c'.Keys;
  }

  lemma AliveStay(h: Heap, c: Colors, h': Heap, c': Colors, white: bool, l: ObjLists, e: Env)
    requires BaseOk(h, c, white, l, e) && SweepKeeps(h, c, h', c', white, l.fixed)
    ensures forall r :: Accessible(h, EnvRefs(e), r) ==> r in h && KeepsAt(h, h', r)
  {
    var N := NotDead(c, white);
    forall r | Accessible(h, EnvRefs(e), r) ensures r in h && KeepsAt(h, h', r) {
      assert EntryClosed(h, N) && r in N;
    }
  }

  /** Nothing that the program can get at is dead. */
  lemma AccessibleAlive(h: Heap, c: Colors, white: bool, l: ObjLists, e: Env, r: Ref)
    requires BaseOk(h, c, white, l, e) && Accessible(h, EnvRefs(e), r)
    ensures r in h && r in c && !IsDead(c, white, r)
  {
    assert EntryClosed(h, NotDead(c, white));
  }

  // ----- closing all upvalues from a level on -----

  /** What `luaF_close` makes of an upvalue that was open in thread `t`. */
  ghost predicate ClosedRight(h: Heap, c: Colors, white: bool, h': Heap, t: Ref, level: nat, u: Ref) {
    OpenAt(h, u, t) ==>
      if h[u].u.slot < level then u in h' && h'[u] == h[u]
      else if IsDead(c, white, u) then u !in h'
      else u in h' && h'[u] == Upval(Closed(h[t].stack[h[u].u.slot]))
  }

  /** Exactly the upvalues at `level` or above were closed, each with the last value of its slot. */
  ghost predicate ClosedDownTo(h: Heap, c: Colors, white: bool, h': Heap, t: Ref, level: nat) {
    forall u {:trigger ClosedRight(h, c, white, h', t, level, u)} :: ClosedRight(h, c, white, h', t, level, u)
  }

  ghost predicate NoneOpenFrom(h: Heap, t: Ref, level: nat) {
    forall u {:trigger OpenAt(h, u, t)} :: OpenAt(h, u, t) ==> h[u].u.slot < level
  }

  /** The list of open upvalues of thread `t` is in order. */
  ghost predicate OpenKnown(h: Heap, t: Ref) {
    && t in h && h[t].Thread? && Distinct(h[t].open) && OpenListOk(h, t)
    && forall u {:trigger OpenAt(h, u, t)} :: OpenAt(h, u, t) ==> u in h[t].open
  }

  ghost predicate ClosedFirst(h: Heap, c: Colors, white: bool, h': Heap, t: Ref, level: nat, k: nat)
    requires OpenKnown(h, t) && k <= |h[t].open|
  {
    forall j {:trigger h[t].open[j]} :: 0 <= j < k ==>
      ClosedRight(h, c, white, h', t, level, h[t].open[j]) && OpenAt(h, h[t].open[j], t) && h[h[t].open[j]].u.slot >= level
  }

  ghost predicate StillOpen(h: Heap, c: Colors, white: bool, h': Heap, c': Colors, t: Ref, k: nat)
    requires OpenKnown(h, t) && k <= |h[t].open|
  {
    forall j {:trigger h[t].open[j]} :: k <= j < |h[t].open| ==>
      var u := h[t].open[j];
      OpenAt(h, u, t) && u in h' && h'[u] == h[u] && IsDead(c', white, u) == IsDead(c, white, u)
  }

  lemma CloseBegins(h: Heap, c: Colors, white: bool, uvhead: seq<Ref>, t: Ref, level: nat)
    requires UpvalsOk(h, uvhead) && t in h && h[t].Thread?
    ensures OpenKnown(h, t) && ClosedFirst(h, c, white, h, t, level, 0) && StillOpen(h, c, white, h, c, t, 0) && h[t].open[0..] == h[t].open
  {
    assert OpenListOk(h, t);
    if h[t].open != [] {
      OpenFacts(h, uvhead, t, 0);
    }
    forall u | OpenAt(h, u, t) ensures u in h[t].open {
      assert OpenUpval(h[u]);
    }
  }

  /** One upvalue more. */
  lemma CloseNext(h: Heap, c: Colors, white: bool, h1: Heap, c1: Colors, h2: Heap, c2: Colors, t: Ref, level: nat, k: nat)
    requires OpenKnown(h, t) && t in h && h[t].Thread? && k < |h[t].open| && t in h1 && h1[t].Thread? && h1[t].open == h[t].open[k..] && h1[t].stack == h[t].stack
    requires ClosedFirst(h, c, white, h1, t, level, k) && StillOpen(h, c, white, h1, c1, t, k)
    requires TookOff(h1, h2, t, h[t].open[k], IsDead(c1, white, h[t].open[k])) && h1[h[t].open[k]].u.slot >= level
    requires forall x :: x in h1 && x != h[t].open[k] ==> IsDead(c2, white, x) == IsDead(c1, white, x)
    ensures t in h2 && h2[t] == h1[t].(open := h[t].open[k + 1..])
    ensures ClosedFirst(h, c, white, h2, t, level, k + 1) && StillOpen(h, c, white, h2, c2, t, k + 1)
  {
    hide ClosedFirst;
    hide StillOpen;
    hide OpenKnown;
    hide TookOff;
    hide IsDead;
    TakenOff0(h1, h2, t, h[t].open[k], IsDead(c1, white, h[t].open[k]));
    assert Remove(h[t].open[k..], 0) == h[t].open[k + 1..];
    CloseNextFirst(h, c, white, h1, c1, h2, t, level, k);
    CloseNextStill(h, c, white, h1, c1, h2, c2, t, k);
  }

  lemma CloseNextFirst(h: Heap, c: Colors, white: bool, h1: Heap, c1: Colors, h2: Heap, t: Ref, level: nat, k: nat)
    requires OpenKnown(h, t) && k < |h[t].open| && t in h1 && h1[t].Thread? && h1[t].stack == h[t].stack
    requires ClosedFirst(h, c, white, h1, t, level, k) && StillOpen(h, c, white, h1, c1, t, k)
    requires TookOff(h1, h2, t, h[t].open[k], IsDead(c1, white, h[t].open[k])) && h1[h[t].open[k]].u.slot >= level
    ensures ClosedFirst(h, c, white, h2, t, level, k + 1)
  {
    hide OpenListOk;
    hide TookOff;
    hide IsDead;
    var s, u := h[t].open, h[t].open[k];
    TakenOff0(h1, h2, t, u, IsDead(c1, white, u));
    forall j | 0 <= j < k + 1
      ensures ClosedRight(h, c, white, h2, t, level, s[j]) && OpenAt(h, s[j], t) && h[s[j]].u.slot >= level
    {
      if j < k {
        DistinctAt(s, j, k);
        assert OpenAt(h, s[j], t) && s[j] != t;
        OthersKept(h1, h2, t, u, IsDead(c1, white, u), s[j]);
      }
    }
  }

  lemma CloseNextStill(h: Heap, c: Colors, white: bool, h1: Heap, c1: Colors, h2: Heap, c2: Colors, t: Ref, k: nat)
    requires OpenKnown(h, t) && k < |h[t].open|
    requires StillOpen(h, c, white, h1, c1, t, k) && TookOff(h1, h2, t, h[t].open[k], IsDead(c1, white, h[t].open[k]))
    requires forall x :: x in h1 && x != h[t].open[k] ==> IsDead(c2, white, x) == IsDead(c1, white, x)
    ensures StillOpen(h, c, white, h2, c2, t, k + 1)
  {
    hide OpenListOk;
    hide TookOff;
    hide IsDead;
    var s, u := h[t].open, h[t].open[k];
    forall j | k + 1 <= j < |s| ensures OpenAt(h, s[j], t) && s[j] in h2 && h2[s[j]] == h[s[j]] && IsDead(c2, white, s[j]) == IsDead(c, white, s[j]) {
      DistinctAt(s, k, j);
      assert OpenAt(h, s[j], t) && s[j] != t && h1[s[j]] == h[s[j]];
      OthersKept(h1, h2, t, u, IsDead(c1, white, u), s[j]);
    }
  }

  /** Upvalue `u` was taken off the list of its thread, and freed or closed. */
  ghost predicate TookOff(h1: Heap, h2: Heap, t: Ref, u: Ref, dead: bool) {
    && t in h1 && h1[t].Thread? && h1[t].open != [] && u in h1 && OpenUpval(h1[u]) && u == h1[t].open[0] && u != t
    && if dead then h2 == (h1 - {u})[t := h1[t].(open := Remove(h1[t].open, 0))] else h2 == CloseHeap(h1, t)
  }

  lemma OthersKept(h1: Heap, h2: Heap, t: Ref, u: Ref, dead: bool, x: Ref)
    requires TookOff(h1, h2, t, u, dead) && x != u && x != t
    ensures x in h2 <==> x in h1
    ensures x in h1 ==> h2[x] == h1[x]
  {
  }

  lemma TakenOff0(h1: Heap, h2: Heap, t: Ref, u: Ref, dead: bool)
    requires TookOff(h1, h2, t, u, dead)
    ensures t in h2 && h2[t] == h1[t].(open := Remove(h1[t].open, 0))
    ensures if dead then u !in h2 else u in h2 && h2[u] == Upval(Closed(UpvalValue(h1, h1[u].u)))
  {
  }

  lemma CloseEnds(h: Heap, c: Colors, white: bool, h': Heap, c': Colors, t: Ref, level: nat, k: nat, u: Ref)
    requires OpenKnown(h, t) && k <= |h[t].open| && ClosedFirst(h, c, white, h', t, level, k) && StillOpen(h, c, white, h', c', t, k)
    requires k < |h[t].open| ==> h[t].open[k] in h && OpenUpval(h[h[t].open[k]]) && h[h[t].open[k]].u.slot < level
    ensures ClosedRight(h, c, white, h', t, level, u)
  {
    if OpenAt(h, u, t) {
      var s := h[t].open;
      var j :| 0 <= j < |s| && s[j] == u;
      if j >= k {
        assert OpenAt(h, s[j], t) && OpenAt(h, s[k], t);
        assert h[s[j]].u.slot <= h[s[k]].u.slot;
      }
    }
  }
}