/** The invariant of program and collector (lua/lgc.c, lua/lfunc.c). */
module GcInvariant {
  // Every step of the one and of the other keeps it.

  import opened GcHeap
  import opened Marking
  import opened WeakTables

  /** An object is dead if it has the white that is not the current one. */
  predicate IsDead(color: Colors, white: bool, r: Ref) {
    r in color && color[r] == White(!white)
  }

  function NotDead(color: Colors, white: bool): set<Ref> {
    set r | r in color && !IsDead(color, white, r)
  }

  /** Objects that are on the list `rootgc`. */
  predicate InRoot(o: Obj) {
    Container(o) || (o.Upval? && o.u.Closed?)
  }

  /** Each object is on one list only, where it will be swept. */
  ghost predicate RootOk(heap: Heap, rootgc: seq<Ref>) {
    && Distinct(rootgc)
    && forall r :: r in rootgc <==> r in heap && InRoot(heap[r])
  }

  ghost predicate InBucket(strt: seq<seq<Ref>>, b: nat, r: Ref) {
    b < |strt| && r in strt[b]
  }

  ghost predicate StringsOk(heap: Heap, strt: seq<seq<Ref>>) {
    && (forall b, r {:trigger InBucket(strt, b, r)} :: InBucket(strt, b, r) ==> r in heap && heap[r].String?)
    && (forall r {:trigger heap[r]} :: r in heap && heap[r].String? ==> exists b :: InBucket(strt, b, r))
    && (forall b, b', r {:trigger InBucket(strt, b, r), InBucket(strt, b', r)} ::
          InBucket(strt, b, r) && InBucket(strt, b', r) ==> b == b')
    && (forall b {:trigger strt[b]} :: 0 <= b < |strt| ==> Distinct(strt[b]))
  }

  /** The list of open upvalues of a thread is sorted by stack level, the highest first. */
  ghost predicate OpenListOk(heap: Heap, t: Ref)
    requires t in heap && heap[t].Thread?
  {
    && (forall j :: 0 <= j < |heap[t].open| ==> OpenAt(heap, heap[t].open[j], t))
    && (forall i, j :: 0 <= i < j < |heap[t].open| && OpenAt(heap, heap[t].open[i], t) && OpenAt(heap, heap[t].open[j], t) ==>
          heap[heap[t].open[j]].u.slot < heap[heap[t].open[i]].u.slot)
  }

  ghost predicate OpenAt(heap: Heap, u: Ref, t: Ref) {
    && u in heap && OpenUpval(heap[u]) && heap[u].u.thread == t
    && t in heap && heap[t].Thread? && heap[u].u.slot < |heap[t].stack|
  }

  /** Open upvalues: each on the list of its thread and on the global list. */
  ghost predicate UpvalsOk(heap: Heap, uvhead: seq<Ref>) {
    && Distinct(uvhead)
    && (forall u :: u in uvhead <==> u in heap && OpenUpval(heap[u]))
    && (forall t {:trigger OpenListOk(heap, t)} :: t in heap && heap[t].Thread? ==> OpenListOk(heap, t))
    && (forall u {:trigger heap[u]} :: u in heap && OpenUpval(heap[u]) ==>
          OpenAt(heap, u, heap[u].u.thread) && u in heap[heap[u].u.thread].open)
  }

  ghost predicate NeverBlack(heap: Heap, color: Colors) {
    forall r {:trigger heap[r]} :: r in heap && r in color && (heap[r].String? || heap[r].Thread? || OpenUpval(heap[r])) ==> !color[r].Black?
  }

  ghost predicate AllWhite(color: Colors, white: bool) {
    forall r {:trigger color[r]} :: r in color ==> color[r] == White(white)
  }

  // ----- sweeping -----

  ghost predicate StringsSwept(color: Colors, white: bool, strt: seq<seq<Ref>>, n: nat) {
    forall b: nat, r: Ref {:trigger InBucket(strt, b, r)} :: b < n && InBucket(strt, b, r) ==> r in color && color[r] == White(white)
  }

  /** An object and, for a thread, its open upvalues are swept. */
  ghost predicate SweptAt(heap: Heap, color: Colors, white: bool, r: Ref) {
    && r in heap && r in color && color[r] == White(white)
    && (heap[r].Thread? ==> forall u :: u in heap[r].open ==> u in color && color[u] == White(white))
  }

  ghost predicate RootSwept(heap: Heap, color: Colors, white: bool, rootgc: seq<Ref>, n: nat) {
    n <= |rootgc| && forall j {:trigger rootgc[j]} :: 0 <= j < n ==> SweptAt(heap, color, white, rootgc[j])
  }

  // ----- steps that keep the lists -----

  /** The kinds of objects, the threads and the upvalues are as before. */
  ghost predicate SameKinds(h: Heap, h': Heap) {
    && h'.Keys == h.Keys
    && forall r {:trigger h'[r]} :: r in h ==> h'[r] == h[r] || (h[r].Table? && h'[r].Table?) || (h[r].Closure? && h'[r].Closure?)
  }

  lemma HeapSameIsSameKinds(h: Heap, h': Heap)
    requires HeapSame(h, h')
    ensures SameKinds(h, h')
  {
    forall r | r in h ensures h'[r] == h[r] || (h[r].Table? && h'[r].Table?) {
      assert SameObj(h[r], h'[r]);
    }
  }

  lemma ClearedIsSameKinds(h: Heap, c: Colors, weak: seq<Ref>)
    ensures SameKinds(h, ClearedHeap(h, c, weak))
  {
    hide ClearedTable;
    forall r | r in h ensures ClearedHeap(h, c, weak)[r] == h[r] || (h[r].Table? && ClearedHeap(h, c, weak)[r].Table?) {
      if h[r].Table? {
        ClearedIsTable(h, c, h[r]);
      }
    }
  }

  lemma ListsKept(h: Heap, h': Heap, rootgc: seq<Ref>, strt: seq<seq<Ref>>, uvhead: seq<Ref>)
    requires SameKinds(h, h') && RootOk(h, rootgc) && StringsOk(h, strt) && UpvalsOk(h, uvhead)
    ensures RootOk(h', rootgc) && StringsOk(h', strt) && UpvalsOk(h', uvhead)
  {
    forall r | r in h'
      ensures InRoot(h'[r]) == InRoot(h[r]) && h'[r].String? == h[r].String? && h'[r].Thread? == h[r].Thread?
      ensures OpenUpval(h'[r]) == OpenUpval(h[r]) && (h'[r].Thread? || h'[r].Upval? ==> h'[r] == h[r])
    {
      var _ := h'[r];
    }
    UpvalsKept(h, h', uvhead);
  }

  lemma UpvalsKept(h: Heap, h': Heap, uvhead: seq<Ref>)
    requires h'.Keys == h.Keys && UpvalsOk(h, uvhead)
    requires forall r :: r in h ==> h'[r].Thread? == h[r].Thread? && OpenUpval(h'[r]) == OpenUpval(h[r])
    requires forall r :: r in h && (h[r].Thread? || h[r].Upval?) ==> h'[r] == h[r]
    ensures UpvalsOk(h', uvhead)
  {
    forall u, t ensures OpenAt(h', u, t) == OpenAt(h, u, t) {
      if u in h {
        var _ := h'[u];
      }
    }
    forall t | t in h' && h'[t].Thread? ensures OpenListOk(h', t) {
      assert OpenListOk(h, t);
    }
    forall u | u in h' && OpenUpval(h'[u]) ensures OpenAt(h', u, h'[u].u.thread) && u in h'[h'[u].u.thread].open {
      assert OpenUpval(h[u]);
    }
  }

  /** What the program starts from: main thread, running thread, registry, basic metatables. */
  datatype Env = Env(main: Ref, running: Ref, registry: Value, mt: seq<Value>)

  ghost function EnvRefs(e: Env): set<Ref> {
    {e.main, e.running} + Ref1(e.registry) + Refs(e.mt)
  }

  /** Everything the program starts from is alive. */
  ghost predicate RootsOk(heap: Heap, color: Colors, white: bool, e: Env) {
    && e.main in heap && heap[e.main].Thread? && e.running in heap && heap[e.running].Thread?
    && EnvRefs(e) <= NotDead(color, white)
  }

  /** The lists that the objects are on. */
  datatype ObjLists = ObjLists(rootgc: seq<Ref>, strt: seq<seq<Ref>>, uvhead: seq<Ref>, fixed: set<Ref>)

  ghost predicate ListsOk(heap: Heap, l: ObjLists) {
    && |l.strt| > 0
    && RootOk(heap, l.rootgc) && StringsOk(heap, l.strt) && UpvalsOk(heap, l.uvhead) && AllStrings(heap, l.fixed)
  }

  /** What holds in every phase. In particular no object that is not dead refers to a dead one. */
  ghost predicate BaseOk(heap: Heap, color: Colors, white: bool, l: ObjLists, e: Env) {
    && color.Keys == heap.Keys
    && ListsOk(heap, l)
    && NeverBlack(heap, color)
    && EntryClosed(heap, NotDead(color, white))
    && RootsOk(heap, color, white, e)
  }

  datatype Phase = Pause | Propagate | SweepString | Sweep | Finalize

  /** What holds in one phase; `L` holds the objects that are to be visited. */
  ghost predicate PhaseOk(p: Phase, heap: Heap, color: Colors, white: bool, L: seq<Ref>, l: ObjLists, e: Env, sweepgc: nat, sweepstrgc: nat) {
    match p
    case Pause => AllWhite(color, white)
    case Finalize => AllWhite(color, white)
    case Propagate => Tri(heap, color, L, {}) && NoOther(color, white) && Marked(color, {e.main} + Ref1(e.registry))
    case SweepString => sweepgc == 0 && sweepstrgc < |l.strt| && StringsSwept(color, white, l.strt, sweepstrgc)
    case Sweep => StringsSwept(color, white, l.strt, |l.strt|) && RootSwept(heap, color, white, l.rootgc, sweepgc)
  }

  lemma NothingDead(color: Colors, white: bool)
    requires NoOther(color, white)
    ensures NotDead(color, white) == color.Keys
  {
  }

  lemma SameKindsTwice(h: Heap, h': Heap, h'': Heap)
    requires SameKinds(h, h') && SameKinds(h', h'')
    ensures SameKinds(h, h'')
  {
    forall r | r in h ensures h''[r] == h[r] || (h[r].Table? && h''[r].Table?) || (h[r].Closure? && h''[r].Closure?) {
      var _ := h'[r];
    }
  }

  lemma SameKindsStrings(h: Heap, h': Heap, S: set<Ref>)
    requires SameKinds(h, h') && AllStrings(h, S)
    ensures AllStrings(h', S)
  {
    forall r | r in S ensures r in h' && h'[r].String? {
      var _ := h'[r];
    }
  }

  lemma SameKindsThread(h: Heap, h': Heap, t: Ref)
    requires SameKinds(h, h') && t in h && h[t].Thread?
    ensures t in h' && h'[t] == h[t]
  {
    var _ := h'[t];
  }

  lemma DistinctTail(A: seq<Ref>, B: seq<Ref>)
    requires Distinct(A + B)
    ensures Distinct(B)
  {
    forall i, j | 0 <= i < j < |B| ensures B[i] != B[j] {
      DistinctAt(A + B, |A| + i, |A| + j);
    }
  }

  ghost function NonWhite(c: Colors): set<Ref> {
    set r | r in c && !c[r].White?
  }

  /** The state after `cleartable`: what is marked refers only to what is marked. */
  lemma AfterClearing(h: Heap, c: Colors, weak: seq<Ref>, white: bool, R: set<Ref>)
    requires c.Keys == h.Keys && NoDangling(h) && NoOther(c, white) && NeverBlack(h, c) && WeakClean(h, c, weak)
    requires WeakMarked(h, c, weak) && MarksClosed(h, c, weak)
    ensures var h', c' := ClearedHeap(h, c, weak), MarkStrings(c, WeakStrings(h, c, weak));
            && c'.Keys == h'.Keys && NeverBlack(h', c')
            && NotDead(c', !white) == NonWhite(c') == NonWhite(c) + WeakStrings(h, c, weak)
            && EntryClosed(h', NotDead(c', !white))
  {
    var h', c' := ClearedHeap(h, c, weak), MarkStrings(c, WeakStrings(h, c, weak));
    ClearedHeapStrings(h, c, weak);
    assert h'.Keys == h.Keys;
    ClearedNeverBlack(h, c, weak);
    ClearedNotDead(h, c, weak, white);
    forall r | r in NonWhite(c') && r in h' ensures EntryRefs(h', h'[r]) <= NonWhite(c') {
      assert c'.Keys == c.Keys;
      ClearedAll(h, c, weak, r);
    }
  }

  lemma ClearedNeverBlack(h: Heap, c: Colors, weak: seq<Ref>)
    requires NeverBlack(h, c)
    ensures NeverBlack(ClearedHeap(h, c, weak), MarkStrings(c, WeakStrings(h, c, weak)))
  {
    var h', c' := ClearedHeap(h, c, weak), MarkStrings(c, WeakStrings(h, c, weak));
    ClearedIsSameKinds(h, c, weak);
    hide ClearedHeap;
    hide WeakStrings;
    forall r | r in h' && r in c' && (h'[r].String? || h'[r].Thread? || OpenUpval(h'[r])) ensures !c'[r].Black? {
      assert h'[r] == h[r];
    }
  }

  lemma ClearedNotDead(h: Heap, c: Colors, weak: seq<Ref>, white: bool)
    requires c.Keys == h.Keys && NoOther(c, white)
    ensures var c' := MarkStrings(c, WeakStrings(h, c, weak));
            NotDead(c', !white) == NonWhite(c') == NonWhite(c) + WeakStrings(h, c, weak)
  {
    ClearedHeapStrings(h, c, weak);
    var S := WeakStrings(h, c, weak);
    hide WeakStrings;
    var c' := MarkStrings(c, S);
    forall r | r in c' ensures c'[r] != White(!white) {
      assert c[r] != White(!white);
    }
  }

  // ----- what survives a full collection -----

  /** The colors that mark exactly `R`. */
  ghost function Marks(heap: Heap, R: set<Ref>): Colors {
    map r | r in heap :: if r in R then Gray else White(false)
  }

  /** The strings that the weak tables of `R` keep alive: string keys of their entries, string values
      whose key is in `R` or not an object that can be removed, and strings in the array part. */
  ghost function KeptStrings(heap: Heap, R: set<Ref>): set<Ref> {
    set r, s | r in R && r in heap && heap[r].Table? && heap[r].mode != STRONG &&
               s in TableStrings(heap, Marks(heap, R), heap[r], heap[r].mode) :: s
  }

  ghost predicate SameWhites(c: Colors, c': Colors) {
    c'.Keys == c.Keys && forall r {:trigger c'[r]} :: r in c ==> c'[r].White? == c[r].White?
  }

  lemma StringsSameWhites(h: Heap, h': Heap, c: Colors, c': Colors, t: Obj, t': Obj)
    requires HeapSame(h, h') && SameWhites(c, c') && t.Table? && t'.Table? && SameObj(t, t')
    ensures TableStrings(h', c', t', t.mode) == TableStrings(h, c, t, t.mode)
  {
    forall v: Value
      ensures Cleared(h', c', v) == Cleared(h, c, v)
      ensures StringRef(h', v) == StringRef(h, v)
    {
      if v.Gc? && v.r in h {
        HeapSameKinds(h, h', v.r);
        if v.r in c {
          var _ := c'[v.r];
        }
      }
    }
    hide Cleared;
    hide HeapSame;
    hide SameWhites;
    StringsInEach(h, h', t.arr);
    forall n ensures NodeStrings(h', c', n) == NodeStrings(h, c, n) {
    }
    NodesStringsEntries(h, c, t.nodes);
    NodesStringsEntries(h', c', t'.nodes);
  }

  lemma StringsInEach(h: Heap, h': Heap, vs: seq<Value>)
    requires forall v :: StringRef(h', v) == StringRef(h, v)
    ensures StringsIn(h', vs) == StringsIn(h, vs)
  {
    forall v: Value ensures (v.Gc? && v.r in h' && h'[v.r].String?) == (v.Gc? && v.r in h && h[v.r].String?) {
      assert StringRef(h', v) == StringRef(h, v);
      assert v.Gc? && v.r in h && h[v.r].String? ==> v.r in StringRef(h, v);
      assert v.Gc? && v.r in h' && h'[v.r].String? ==> v.r in StringRef(h', v);
    }
  }

  lemma NodesStringsEntries(h: Heap, c: Colors, ns: seq<Node>)
    ensures NodesStrings(h, c, ns) == set n, r | n in Entries(ns) && r in NodeStrings(h, c, n) :: r
  {
  }

  /** The marked objects are the reachable ones, and the strings marked by `cleartable` are those
      that weak tables keep. */
  lemma ExactlyReachable(h0: Heap, h: Heap, c: Colors, weak: seq<Ref>, white: bool, roots: set<Ref>, R: set<Ref>)
    requires HeapSame(h0, h) && c.Keys == h.Keys && R == ReachSet(h0, roots)
    requires MarkedIn(c, R) && Marked(c, roots) && NoOther(c, white)
    requires MarksClosed(h, c, weak)
    requires WeakClean(h, c, weak) && WeakListed(h, c, weak) && WeakMarked(h, c, weak)
    ensures NonWhite(c) == R
    ensures WeakStrings(h, c, weak) == KeptStrings(h0, R)
  {
    var N := NonWhite(c);
    assert StrongClosed(h, N);
    HeapSameClosed(h0, h, N);
    ReachSetLeast(h0, roots, N);
    assert N <= R;
    WeakStringsExact(h0, h, c, weak, R);
  }

  lemma WeakStringsExact(h0: Heap, h: Heap, c: Colors, weak: seq<Ref>, R: set<Ref>)
    requires HeapSame(h0, h) && c.Keys == h.Keys && NonWhite(c) == R
    requires WeakClean(h, c, weak) && WeakListed(h, c, weak) && WeakMarked(h, c, weak)
    ensures WeakStrings(h, c, weak) == KeptStrings(h0, R)
  {
    var c0 := Marks(h0, R);
    assert SameWhites(c0, c) by {
      forall r | r in c0 ensures c[r].White? == c0[r].White? {
        assert r in R <==> !c[r].White?;
      }
    }
    forall r | r in weak ensures r in h && h[r].Table? && h0[r].Table? && h[r].bits == h0[r].mode && h0[r].mode != STRONG
    {
      assert WeakDone(h, c, r);
      assert SameObj(h0[r], h[r]);
    }
    forall r | r in h && h[r].Table? ensures h0[r].Table? && TableStrings(h, c, h[r], h0[r].mode) == TableStrings(h0, c0, h0[r], h0[r].mode) {
      assert SameObj(h0[r], h[r]);
      StringsSameWhites(h0, h, c0, c, h0[r], h[r]);
    }
    forall r | r in R && r in h0 && h0[r].Table? && h0[r].mode != STRONG ensures r in weak {
      assert SameObj(h0[r], h[r]);
    }
    hide TableStrings;
    hide HeapSame;
    hide WeakClean;
    hide WeakListed;
    hide Marks;
    assert WeakStrings(h, c, weak) <= KeptStrings(h0, R);
    assert KeptStrings(h0, R) <= WeakStrings(h, c, weak);
  }
}