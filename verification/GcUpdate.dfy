/** What the program's own steps do to the heap: stores and allocations (lua/lgc.c,
    lua/lgc.h), and why the invariant survives them. */
module GcUpdate {
  import opened GcHeap
  import opened Marking
  import opened WeakTables
  import opened GcInvariant
  import opened GcSweep

  // ----- a store into an object -----

  /** The object stays what it is for the lists; a thread keeps its open upvalues. */
  ghost predicate Fits(h: Heap, r: Ref, o: Obj)
    requires r in h
  {
    || (h[r].Table? && o.Table?)
    || (h[r].Closure? && o.Closure?)
    || (IsClosedUpval(h[r]) && IsClosedUpval(o))
    || (h[r].Thread? && o.Thread? && o.open == h[r].open && forall u {:trigger OpenAt(h, u, r)} :: OpenAt(h, u, r) ==> h[u].u.slot < |o.stack|)
  }

  lemma StoredOpen(h: Heap, r: Ref, o: Obj, u: Ref, t: Ref)
    requires r in h && Fits(h, r, o)
    requires OpenAt(h, u, t)
    ensures OpenAt(h[r := o], u, t) && h[r := o][u] == h[u] && h[r := o][t].open == h[t].open
  {
  }

  lemma StoredUpvals(h: Heap, uvhead: seq<Ref>, r: Ref, o: Obj)
    requires UpvalsOk(h, uvhead) && r in h && Fits(h, r, o)
    ensures UpvalsOk(h[r := o], uvhead)
  {
    var h' := h[r := o];
    forall u: Ref, t: Ref | OpenAt(h, u, t) ensures OpenAt(h', u, t) && h'[u] == h[u] {
      StoredOpen(h, r, o, u, t);
    }
    forall t | t in h' && h'[t].Thread? ensures OpenListOk(h', t) {
      assert OpenListOk(h, t);
      assert h'[t].open == h[t].open;
    }
    forall u | u in h' && OpenUpval(h'[u]) ensures OpenAt(h', u, h'[u].u.thread) && u in h'[h'[u].u.thread].open {
      assert OpenAt(h, u, h[u].u.thread) && u in h[h[u].u.thread].open;
    }
  }

  lemma StoredLists(h: Heap, l: ObjLists, r: Ref, o: Obj)
    requires ListsOk(h, l) && r in h && Fits(h, r, o)
    ensures ListsOk(h[r := o], l)
  {
    StoredUpvals(h, l.uvhead, r, o);
    hide UpvalsOk;
    var h' := h[r := o];
    forall x | x in h' ensures InRoot(h'[x]) == InRoot(h[x]) && h'[x].String? == h[x].String? {
    }
    assert AllStrings(h', l.fixed);
    forall x | x in h' && h'[x].String? ensures exists b :: InBucket(l.strt, b, x) {
      assert h[x].String?;
    }
  }

  lemma StoredRefs(h: Heap, r: Ref, o: Obj, x: Ref)
    requires r in h && Fits(h, r, o) && x in h && x != r
    ensures !(OpenUpval(h[x]) && h[x].u.thread == r) ==>
              && EntryRefs(h[r := o], h[x]) == EntryRefs(h, h[x])
              && AnyRefs(h[r := o], h[x]) == AnyRefs(h, h[x])
  {
  }

  /** Open upvalues of `r` that are in `N` get values in `N`. */
  ghost predicate SlotsIn(h: Heap, r: Ref, o: Obj, N: set<Ref>) {
    forall x {:trigger h[x]} :: x in N && x in h && OpenUpval(h[x]) && h[x].u.thread == r ==> Ref1(UpvalValue(h[r := o], h[x].u)) <= N
  }

  lemma StoredClosed(h: Heap, N: set<Ref>, r: Ref, o: Obj)
    requires EntryClosed(h, N) && r in h && Fits(h, r, o) && SlotsIn(h, r, o, N)
    requires r in N ==> EntryRefs(h[r := o], o) <= N
    ensures EntryClosed(h[r := o], N)
  {
    var h' := h[r := o];
    forall x | x in N && x in h' ensures EntryRefs(h', h'[x]) <= N {
      if x != r {
        assert EntryRefs(h, h[x]) <= N;
        StoredRefs(h, r, o, x);
      }
    }
  }

  /** A store into a black object must be of marked objects only. */
  lemma StoredTri(h: Heap, c: Colors, L: seq<Ref>, r: Ref, o: Obj)
    requires Tri(h, c, L, {}) && r in h && Fits(h, r, o)
    requires r in c && c[r].Black? ==> Marked(c, AnyRefs(h[r := o], o))
    ensures Tri(h[r := o], c, L, {})
  {
    var h' := h[r := o];
    forall x | x in h' ensures ColorOk(h', c, L, x) {
      assert ColorOk(h, c, L, x);
      if x != r {
        StoredRefs(h, r, o, x);
      }
    }
    forall x | x in L ensures x in h' && ListOk(h', c, x) && Container(h'[x]) {
      assert ListOk(h, c, x);
    }
  }

  lemma StoredPhase(p: Phase, h: Heap, c: Colors, white: bool, L: seq<Ref>, l: ObjLists, e: Env, sweepgc: nat, sweepstrgc: nat, r: Ref, o: Obj)
    requires PhaseOk(p, h, c, white, L, l, e, sweepgc, sweepstrgc) && r in h && Fits(h, r, o)
    requires p == Propagate && r in c && c[r].Black? ==> Marked(c, AnyRefs(h[r := o], o))
    ensures PhaseOk(p, h[r := o], c, white, L, l, e, sweepgc, sweepstrgc)
  {
    match p
    case Propagate => StoredTri(h, c, L, r, o);
    case Sweep =>
      forall j | 0 <= j < sweepgc ensures SweptAt(h[r := o], c, white, l.rootgc[j]) {
        assert SweptAt(h, c, white, l.rootgc[j]);
      }
    case _ =>
  }

  lemma StoredNeverBlack(h: Heap, c: Colors, r: Ref, o: Obj)
    requires NeverBlack(h, c) && r in h && Fits(h, r, o)
    ensures NeverBlack(h[r := o], c)
  {
    var h' := h[r := o];
    forall x | x in h' && x in c && (h'[x].String? || h'[x].Thread? || OpenUpval(h'[x])) ensures !c[x].Black? {
      var _ := h[x];
    }
  }

  lemma StoredRoots(h: Heap, c: Colors, white: bool, e: Env, r: Ref, o: Obj)
    requires RootsOk(h, c, white, e) && r in h && Fits(h, r, o)
    ensures RootsOk(h[r := o], c, white, e)
  {
  }

  /** A store keeps the invariant. */
  lemma Stored(p: Phase, h: Heap, c: Colors, white: bool, L: seq<Ref>, l: ObjLists, e: Env, sweepgc: nat, sweepstrgc: nat, r: Ref, o: Obj)
    requires BaseOk(h, c, white, l, e) && PhaseOk(p, h, c, white, L, l, e, sweepgc, sweepstrgc) && r in h && Fits(h, r, o)
    requires SlotsIn(h, r, o, NotDead(c, white)) && (r in NotDead(c, white) ==> EntryRefs(h[r := o], o) <= NotDead(c, white))
    requires p == Propagate && r in c && c[r].Black? ==> Marked(c, AnyRefs(h[r := o], o))
    ensures BaseOk(h[r := o], c, white, l, e) && PhaseOk(p, h[r := o], c, white, L, l, e, sweepgc, sweepstrgc)
  {
    hide PhaseOk;
    hide ListsOk;
    hide EntryClosed;
    hide NeverBlack;
    hide SlotsIn;
    hide NotDead;
    hide RootsOk;
    hide EntryRefs;
    hide AnyRefs;
    hide Fits;
    hide Marked;
    StoredPhase(p, h, c, white, L, l, e, sweepgc, sweepstrgc, r, o);
    StoredRoots(h, c, white, e, r, o);
    StoredLists(h, l, r, o);
    StoredNeverBlack(h, c, r, o);
    StoredClosed(h, NotDead(c, white), r, o);
  }

  // ----- a new object -----

  /** The object can be linked into `rootgc` as it is made. */
  predicate Linkable(o: Obj) {
    InRoot(o) && (o.Thread? ==> o.open == [])
  }

  lemma FreshOpen(h: Heap, uvhead: seq<Ref>, r: Ref, o: Obj)
    requires UpvalsOk(h, uvhead) && r !in h && !OpenUpval(o) && (o.Thread? ==> o.open == [])
    ensures UpvalsOk(h[r := o], uvhead)
  {
    var h' := h[r := o];
    forall u, t | u in h && t in h ensures OpenAt(h', u, t) <==> OpenAt(h, u, t) {
    }
    forall t | t in h' && h'[t].Thread? ensures OpenListOk(h', t) {
      if t != r {
        assert OpenListOk(h, t);
        forall j | 0 <= j < |h[t].open| ensures h[t].open[j] in h {
          assert OpenAt(h, h[t].open[j], t);
        }
      }
    }
    forall u | u in h' && OpenUpval(h'[u]) ensures OpenAt(h', u, h'[u].u.thread) && u in h'[h'[u].u.thread].open {
      assert OpenAt(h, u, h[u].u.thread) && u in h[h[u].u.thread].open;
    }
  }

  lemma FreshRefs(h: Heap, uvhead: seq<Ref>, r: Ref, o: Obj, x: Ref)
    requires UpvalsOk(h, uvhead) && r !in h && x in h
    ensures EntryRefs(h[r := o], h[x]) == EntryRefs(h, h[x]) && AnyRefs(h[r := o], h[x]) == AnyRefs(h, h[x])
  {
    if OpenUpval(h[x]) {
      assert OpenAt(h, x, h[x].u.thread);
    }
  }

  lemma FreshNotDead(c: Colors, white: bool, r: Ref)
    requires r !in c
    ensures NotDead(c[r := White(white)], white) == NotDead(c, white) + {r}
  {
  }

  lemma FreshClosed(h: Heap, uvhead: seq<Ref>, N: set<Ref>, r: Ref, o: Obj)
    requires UpvalsOk(h, uvhead) && EntryClosed(h, N) && r !in h && EntryRefs(h[r := o], o) <= N + {r}
    ensures EntryClosed(h[r := o], N + {r})
  {
    var h' := h[r := o];
    forall x | x in N + {r} && x in h' ensures EntryRefs(h', h'[x]) <= N + {r} {
      if x != r {
        FreshRefs(h, uvhead, r, o, x);
        assert EntryRefs(h, h[x]) <= N;
      }
    }
  }

  lemma FreshTri(h: Heap, c: Colors, L: seq<Ref>, uvhead: seq<Ref>, r: Ref, o: Obj, white: bool)
    requires Tri(h, c, L, {}) && UpvalsOk(h, uvhead) && r !in h
    ensures Tri(h[r := o], c[r := White(white)], L, {})
  {
    var h', c' := h[r := o], c[r := White(white)];
    forall x | x in h' ensures ColorOk(h', c', L, x) {
      if x != r {
        assert ColorOk(h, c, L, x);
        FreshRefs(h, uvhead, r, o, x);
        if c[x].Black? {
          assert Marked(c, AnyRefs(h, h[x]));
          assert Marked(c', AnyRefs(h', h'[x]));
        }
      }
    }
    forall x | x in L ensures x in h' && ListOk(h', c', x) && Container(h'[x]) {
      assert ListOk(h, c, x);
    }
  }

  lemma FreshPhase(p: Phase, h: Heap, c: Colors, white: bool, L: seq<Ref>, l: ObjLists, e: Env, sweepgc: nat, sweepstrgc: nat, r: Ref, o: Obj)
    requires PhaseOk(p, h, c, white, L, l, e, sweepgc, sweepstrgc) && UpvalsOk(h, l.uvhead) && r !in h && c.Keys == h.Keys
    ensures PhaseOk(p, h[r := o], c[r := White(white)], white, L, l, e, sweepgc, sweepstrgc)
  {
    var h', c' := h[r := o], c[r := White(white)];
    match p
    case Propagate => FreshTri(h, c, L, l.uvhead, r, o, white);
    case Sweep =>
      forall j | 0 <= j < sweepgc ensures SweptAt(h', c', white, l.rootgc[j]) {
        assert SweptAt(h, c, white, l.rootgc[j]);
      }
    case _ =>
  }

  /** `luaC_link`: a new object that refers only to live objects. */
  lemma Linked(p: Phase, h: Heap, c: Colors, white: bool, L: seq<Ref>, l: ObjLists, e: Env, sweepgc: nat, sweepstrgc: nat, r: Ref, o: Obj)
    requires BaseOk(h, c, white, l, e) && PhaseOk(p, h, c, white, L, l, e, sweepgc, sweepstrgc)
    requires r !in h && Linkable(o) && EntryRefs(h[r := o], o) <= NotDead(c, white)
    ensures var h', c', l' := h[r := o], c[r := White(white)], l.(rootgc := [r] + l.rootgc);
            BaseOk(h', c', white, l', e) && PhaseOk(p, h', c', white, L, l', e, PushedSweep(sweepgc), sweepstrgc)
  {
    hide PhaseOk;
    hide ListsOk;
    hide EntryClosed;
    hide NotDead;
    hide NeverBlack;
    hide RootsOk;
    hide EntryRefs;
    hide Linkable;
    LinkedPhase(p, h, c, white, L, l, e, sweepgc, sweepstrgc, r, o);
    LinkedLists(h, l, r, o);
    FreshNotDead(c, white, r);
    ListParts(h, l);
    FreshClosed(h, l.uvhead, NotDead(c, white), r, o);
    FreshNeverBlack(h, c, r, o, white);
    FreshRoots(h, c, white, e, r, o);
  }

  lemma FreshNeverBlack(h: Heap, c: Colors, r: Ref, o: Obj, white: bool)
    requires NeverBlack(h, c)
    ensures NeverBlack(h[r := o], c[r := White(white)])
  {
    var h', c' := h[r := o], c[r := White(white)];
    forall x | x in h' && x in c' && (h'[x].String? || h'[x].Thread? || OpenUpval(h'[x])) ensures !c'[x].Black? {
      if x != r {
        var _ := h[x];
      }
    }
  }

  lemma FreshRoots(h: Heap, c: Colors, white: bool, e: Env, r: Ref, o: Obj)
    requires RootsOk(h, c, white, e) && r !in h && r !in c
    ensures RootsOk(h[r := o], c[r := White(white)], white, e)
  {
    FreshNotDead(c, white, r);
  }

  lemma LinkedLists(h: Heap, l: ObjLists, r: Ref, o: Obj)
    requires ListsOk(h, l) && r !in h && Linkable(o)
    ensures ListsOk(h[r := o], l.(rootgc := [r] + l.rootgc))
  {
    FreshOpen(h, l.uvhead, r, o);
    hide UpvalsOk;
    var h' := h[r := o];
    assert r !in l.rootgc;
    DistinctInsert([], l.rootgc, r);
    assert [] + l.rootgc == l.rootgc && [] + ([r] + l.rootgc) == [r] + l.rootgc;
    forall x | x in h' && h'[x].String? ensures exists b :: InBucket(l.strt, b, x) {
      assert h[x].String?;
    }
  }

  lemma LinkedPhase(p: Phase, h: Heap, c: Colors, white: bool, L: seq<Ref>, l: ObjLists, e: Env, sweepgc: nat, sweepstrgc: nat, r: Ref, o: Obj)
    requires BaseOk(h, c, white, l, e) && PhaseOk(p, h, c, white, L, l, e, sweepgc, sweepstrgc) && r !in h && Linkable(o)
    ensures PhaseOk(p, h[r := o], c[r := White(white)], white, L, l.(rootgc := [r] + l.rootgc), e, PushedSweep(sweepgc), sweepstrgc)
  {
    hide RootOk;
    hide StringsOk;
    hide UpvalsOk;
    hide EntryClosed;
    hide NeverBlack;
    hide RootsOk;
    FreshPhase(p, h, c, white, L, l, e, sweepgc, sweepstrgc, r, o);
    if p == Sweep && sweepgc > 0 {
      PushedSwept(h[r := o], c[r := White(white)], white, l.rootgc, sweepgc, r);
    }
  }

  // ----- barriers -----

  /** A black object belongs to the mark phase, or to the part that is not swept yet. */
  lemma BlackPhase(p: Phase, h: Heap, c: Colors, white: bool, L: seq<Ref>, l: ObjLists, e: Env, sweepgc: nat, sweepstrgc: nat, r: Ref)
    requires PhaseOk(p, h, c, white, L, l, e, sweepgc, sweepstrgc) && r in c && c[r] == Black
    ensures p != Pause && p != Finalize
  {
  }

  /** The object is no longer black; the sweep has not reached it. */
  lemma RecoloredPhase(p: Phase, h: Heap, c: Colors, white: bool, L: seq<Ref>, L': seq<Ref>, l: ObjLists, e: Env, sweepgc: nat, sweepstrgc: nat, r: Ref, k: Color)
    requires BaseOk(h, c, white, l, e) && PhaseOk(p, h, c, white, L, l, e, sweepgc, sweepstrgc) && p != Propagate
    requires r in c && c[r] == Black && k != White(!white)
    ensures PhaseOk(p, h, c[r := k], white, L', l, e, sweepgc, sweepstrgc)
  {
    hide BaseOk;
    BlackPhase(p, h, c, white, L, l, e, sweepgc, sweepstrgc, r);
    var c' := c[r := k];
    if p == Sweep {
      forall j | 0 <= j < sweepgc ensures SweptAt(h, c', white, l.rootgc[j]) {
        assert SweptAt(h, c, white, l.rootgc[j]);
      }
    }
    forall b: nat, x: Ref | InBucket(l.strt, b, x) && x in c && c[x] == White(white) ensures x in c' && c'[x] == White(white) {
    }
  }

  lemma RecoloredBase(h: Heap, c: Colors, white: bool, l: ObjLists, e: Env, r: Ref, k: Color)
    requires BaseOk(h, c, white, l, e) && r in c && c[r] == Black && k != White(!white) && k != Black
    ensures BaseOk(h, c[r := k], white, l, e) && NotDead(c[r := k], white) == NotDead(c, white)
  {
    hide ListsOk;
    hide EntryClosed;
    RecoloredNotDead(c, white, r, k);
    hide NotDead;
    forall x | x in h && x in c[r := k] && (h[x].String? || h[x].Thread? || OpenUpval(h[x])) ensures !c[r := k][x].Black? {
    }
  }

  /** The backward barrier in the mark phase: a black table is to be visited again. */
  lemma BackInMark(h: Heap, c: Colors, A: seq<Ref>, B: seq<Ref>, white: bool, e: Env, r: Ref)
    requires Tri(h, c, A + B, {}) && NoOther(c, white) && Marked(c, {e.main} + Ref1(e.registry)) && r in h && c[r] == Black && Container(h[r])
    ensures Tri(h, c[r := Gray], A + ([r] + B), {}) && NoOther(c[r := Gray], white) && Marked(c[r := Gray], {e.main} + Ref1(e.registry))
  {
    var L := A + B;
    assert r !in L by { assert r in L ==> ListOk(h, c, r); }
    assert Tri(h, c, L, {r}) by {
      forall x | x in h && x !in {r} ensures ColorOk(h, c, L, x) {
      }
      forall x | x in L ensures x in h && ListOk(h, c, x) && Container(h[x]) {
        assert ListOk(h, c, x);
      }
    }
    assert {} + {r} == {r};
    PutOn(h, c, L, {}, r);
    DistinctInsert(A, B, r);
    Reordered(h, c, [r] + L, A + ([r] + B), {r});
    KeepGray(h, c, A + ([r] + B), {}, r);
  }

  // ----- strings -----

  lemma InternedLists(h: Heap, l: ObjLists, r: Ref, b: nat)
    requires ListsOk(h, l) && r !in h && b < |l.strt|
    ensures ListsOk(h[r := String], l.(strt := l.strt[b := [r] + l.strt[b]]))
  {
    FreshOpen(h, l.uvhead, r, String);
    hide UpvalsOk;
    var h', strt' := h[r := String], l.strt[b := [r] + l.strt[b]];
    forall a: nat, x: Ref ensures InBucket(strt', a, x) <==> InBucket(l.strt, a, x) || (x == r && a == b) {
    }
    assert !InBucket(l.strt, b, r);
    assert [] + l.strt[b] == l.strt[b] && [] + ([r] + l.strt[b]) == [r] + l.strt[b];
    DistinctInsert([], l.strt[b], r);
    forall a, a', x | InBucket(strt', a, x) && InBucket(strt', a', x) ensures a == a' {
      if x == r {
        assert !InBucket(l.strt, a, r) && !InBucket(l.strt, a', r);
      } else {
        assert InBucket(l.strt, a, x) && InBucket(l.strt, a', x);
      }
    }
    forall x | x in h' && h'[x].String? ensures exists a :: InBucket(strt', a, x) {
      if x != r {
        assert h[x].String?;
        var a :| InBucket(l.strt, a, x);
        assert InBucket(strt', a, x);
      } else {
        assert InBucket(strt', b, r);
      }
    }
  }

  lemma InternedPhase(p: Phase, h: Heap, c: Colors, white: bool, L: seq<Ref>, l: ObjLists, e: Env, sweepgc: nat, sweepstrgc: nat, r: Ref, b: nat)
    requires BaseOk(h, c, white, l, e) && PhaseOk(p, h, c, white, L, l, e, sweepgc, sweepstrgc) && r !in h && b < |l.strt|
    ensures PhaseOk(p, h[r := String], c[r := White(white)], white, L, l.(strt := l.strt[b := [r] + l.strt[b]]), e, sweepgc, sweepstrgc)
  {
    hide RootOk;
    hide StringsOk;
    hide UpvalsOk;
    hide EntryClosed;
    hide NeverBlack;
    hide RootsOk;
    var strt' := l.strt[b := [r] + l.strt[b]];
    FreshPhase(p, h, c, white, L, l, e, sweepgc, sweepstrgc, r, String);
    hide Tri;
    hide RootSwept;
    forall a: nat, x: Ref | InBucket(strt', a, x) ensures x == r || InBucket(l.strt, a, x) {
    }
  }

  /** A new string is put into its bucket. */
  lemma Interned(p: Phase, h: Heap, c: Colors, white: bool, L: seq<Ref>, l: ObjLists, e: Env, sweepgc: nat, sweepstrgc: nat, r: Ref, b: nat)
    requires BaseOk(h, c, white, l, e) && PhaseOk(p, h, c, white, L, l, e, sweepgc, sweepstrgc) && r !in h && b < |l.strt|
    ensures var h', c', l' := h[r := String], c[r := White(white)], l.(strt := l.strt[b := [r] + l.strt[b]]);
            BaseOk(h', c', white, l', e) && PhaseOk(p, h', c', white, L, l', e, sweepgc, sweepstrgc)
  {
    hide PhaseOk;
    hide ListsOk;
    hide EntryClosed;
    hide NotDead;
    hide NeverBlack;
    hide RootsOk;
    InternedPhase(p, h, c, white, L, l, e, sweepgc, sweepstrgc, r, b);
    InternedLists(h, l, r, b);
    FreshNotDead(c, white, r);
    ListParts(h, l);
    FreshClosed(h, l.uvhead, NotDead(c, white), r, String);
    FreshNeverBlack(h, c, r, String, white);
    FreshRoots(h, c, white, e, r, String);
  }

  /** A dead string, or a dead open upvalue of a live thread, is revived. */
  lemma Revived(p: Phase, h: Heap, c: Colors, white: bool, L: seq<Ref>, l: ObjLists, e: Env, sweepgc: nat, sweepstrgc: nat, r: Ref)
    requires BaseOk(h, c, white, l, e) && PhaseOk(p, h, c, white, L, l, e, sweepgc, sweepstrgc)
    requires r in h && IsDead(c, white, r) && EntryRefs(h, h[r]) <= NotDead(c, white)
    ensures BaseOk(h, c[r := White(white)], white, l, e) && PhaseOk(p, h, c[r := White(white)], white, L, l, e, sweepgc, sweepstrgc)
  {
    var c' := c[r := White(white)];
    RevivedPhase(p, h, c, white, L, l, e, sweepgc, sweepstrgc, r);
    hide PhaseOk;
    hide ListsOk;
    WhitenNotDead(c, white, r);
    WhitenRoots(h, c, white, e, r);
    WhitenNeverBlack(h, c, white, r);
    forall x | x in NotDead(c', white) && x in h ensures EntryRefs(h, h[x]) <= NotDead(c', white) {
      if x != r {
        assert EntryRefs(h, h[x]) <= NotDead(c, white);
      }
    }
  }

  lemma RevivedPhase(p: Phase, h: Heap, c: Colors, white: bool, L: seq<Ref>, l: ObjLists, e: Env, sweepgc: nat, sweepstrgc: nat, r: Ref)
    requires PhaseOk(p, h, c, white, L, l, e, sweepgc, sweepstrgc) && IsDead(c, white, r)
    ensures PhaseOk(p, h, c[r := White(white)], white, L, l, e, sweepgc, sweepstrgc)
  {
    DeadInSweep(p, h, c, white, L, l, e, sweepgc, sweepstrgc, r);
    var c' := c[r := White(white)];
    if p == Sweep {
      WhitenedPhase(h, c, white, L, l, e, sweepgc, sweepstrgc, r);
    } else {
      forall b: nat, x: Ref | b < sweepstrgc && InBucket(l.strt, b, x) ensures x in c' && c'[x] == White(white) {
      }
    }
  }

  // ----- a new open upvalue -----

  ghost predicate InsertHere(h: Heap, t: Ref, level: nat, j: nat)
    requires t in h && h[t].Thread?
  {
    && j <= |h[t].open|
    && (forall i :: 0 <= i < j ==> h[t].open[i] in h && OpenUpval(h[h[t].open[i]]) && h[h[t].open[i]].u.slot > level)
    && (forall i :: j <= i < |h[t].open| ==> h[t].open[i] in h && OpenUpval(h[h[t].open[i]]) && h[h[t].open[i]].u.slot < level)
  }

  function WithUpval(h: Heap, t: Ref, level: nat, j: nat, u: Ref): Heap
    requires t in h && h[t].Thread? && j <= |h[t].open|
  {
    h[t := h[t].(open := h[t].open[..j] + [u] + h[t].open[j..])][u := Upval(Open(t, level))]
  }

  lemma NewOpenAt(h: Heap, t: Ref, level: nat, j: nat, u: Ref, x: Ref, y: Ref)
    requires t in h && h[t].Thread? && j <= |h[t].open| && u !in h && OpenAt(h, x, y)
    ensures OpenAt(WithUpval(h, t, level, j, u), x, y) && WithUpval(h, t, level, j, u)[x] == h[x]
  {
  }

  lemma NewOpenUpvals(h: Heap, uvhead: seq<Ref>, t: Ref, level: nat, j: nat, u: Ref)
    requires UpvalsOk(h, uvhead) && t in h && h[t].Thread? && u !in h && level < |h[t].stack| && InsertHere(h, t, level, j)
    ensures UpvalsOk(WithUpval(h, t, level, j, u), [u] + uvhead)
  {
    var h' := WithUpval(h, t, level, j, u);
    assert u !in uvhead;
    DistinctInsert([], uvhead, u);
    assert [] + uvhead == uvhead && [] + ([u] + uvhead) == [u] + uvhead;
    forall x | x in h' && h'[x].Thread? ensures OpenListOk(h', x) {
      if x == t {
        NewOpenList(h, uvhead, t, level, j, u);
      } else {
        assert OpenListOk(h, x);
        forall i | 0 <= i < |h[x].open| ensures OpenAt(h', h[x].open[i], x) && h'[h[x].open[i]] == h[h[x].open[i]] {
          assert OpenAt(h, h[x].open[i], x);
          NewOpenAt(h, t, level, j, u, h[x].open[i], x);
        }
      }
    }
    forall x | x in h' && OpenUpval(h'[x]) ensures OpenAt(h', x, h'[x].u.thread) && x in h'[h'[x].u.thread].open {
      if x != u {
        assert h'[x] == h[x];
        assert OpenAt(h, x, h[x].u.thread) && x in h[h[x].u.thread].open;
        NewOpenAt(h, t, level, j, u, x, h[x].u.thread);
      }
    }
  }

  lemma NewOpenList(h: Heap, uvhead: seq<Ref>, t: Ref, level: nat, j: nat, u: Ref)
    requires UpvalsOk(h, uvhead) && t in h && h[t].Thread? && u !in h && level < |h[t].stack| && InsertHere(h, t, level, j)
    ensures OpenListOk(WithUpval(h, t, level, j, u), t)
  {
    var h', s := WithUpval(h, t, level, j, u), h[t].open;
    var s' := h'[t].open;
    assert OpenListOk(h, t);
    forall i | 0 <= i < |s| ensures OpenAt(h, s[i], t) && OpenAt(h', s[i], t) && h'[s[i]] == h[s[i]] {
      NewOpenAt(h, t, level, j, u, s[i], t);
    }
    assert OpenAt(h', u, t);
    hide OpenAt;
    forall a, b | 0 <= a < b < |s'| && OpenAt(h', s'[a], t) && OpenAt(h', s'[b], t) ensures h'[s'[b]].u.slot < h'[s'[a]].u.slot {
      assert a < j ==> s'[a] == s[a];
      assert a > j ==> s'[a] == s[a - 1];
      assert b < j ==> s'[b] == s[b];
      assert b > j ==> s'[b] == s[b - 1];
    }
  }

  lemma NewOpenRefs(h: Heap, uvhead: seq<Ref>, t: Ref, level: nat, j: nat, u: Ref, x: Ref)
    requires UpvalsOk(h, uvhead) && t in h && h[t].Thread? && j <= |h[t].open| && u !in h && x in h
    ensures var h' := WithUpval(h, t, level, j, u);
            EntryRefs(h', h'[x]) == EntryRefs(h, h[x]) && AnyRefs(h', h'[x]) == AnyRefs(h, h[x])
  {
    if OpenUpval(h[x]) {
      assert OpenAt(h, x, h[x].u.thread);
    }
  }

  lemma NewOpenClosed(h: Heap, uvhead: seq<Ref>, N: set<Ref>, t: Ref, level: nat, j: nat, u: Ref)
    requires UpvalsOk(h, uvhead) && EntryClosed(h, N) && t in N && t in h && h[t].Thread? && u !in h
    requires level < |h[t].stack| && j <= |h[t].open|
    ensures EntryClosed(WithUpval(h, t, level, j, u), N + {u})
  {
    var h' := WithUpval(h, t, level, j, u);
    assert EntryRefs(h, h[t]) <= N;
    forall x | x in N + {u} && x in h' ensures EntryRefs(h', h'[x]) <= N + {u} {
      if x != u {
        NewOpenRefs(h, uvhead, t, level, j, u, x);
        assert EntryRefs(h, h[x]) <= N;
      } else {
        assert UpvalValue(h', h'[u].u) == h[t].stack[level];
        assert h[t].stack[level] in h[t].stack;
      }
    }
  }

  lemma NewOpenTri(h: Heap, c: Colors, L: seq<Ref>, uvhead: seq<Ref>, t: Ref, level: nat, j: nat, u: Ref, white: bool)
    requires Tri(h, c, L, {}) && UpvalsOk(h, uvhead) && t in h && h[t].Thread? && u !in h && j <= |h[t].open|
    ensures Tri(WithUpval(h, t, level, j, u), c[u := White(white)], L, {})
  {
    var h', c' := WithUpval(h, t, level, j, u), c[u := White(white)];
    forall x | x in h' ensures ColorOk(h', c', L, x) {
      if x != u {
        assert ColorOk(h, c, L, x);
        NewOpenRefs(h, uvhead, t, level, j, u, x);
        if c[x].Black? {
          assert Marked(c', AnyRefs(h', h'[x]));
        }
      }
    }
    forall x | x in L ensures x in h' && ListOk(h', c', x) && Container(h'[x]) {
      assert ListOk(h, c, x);
    }
  }

  lemma NewOpenPhase(p: Phase, h: Heap, c: Colors, white: bool, L: seq<Ref>, l: ObjLists, e: Env, sweepgc: nat, sweepstrgc: nat, t: Ref, level: nat, j: nat, u: Ref)
    requires PhaseOk(p, h, c, white, L, l, e, sweepgc, sweepstrgc) && UpvalsOk(h, l.uvhead) && c.Keys == h.Keys
    requires t in h && h[t].Thread? && u !in h && j <= |h[t].open|
    ensures PhaseOk(p, WithUpval(h, t, level, j, u), c[u := White(white)], white, L, l.(uvhead := [u] + l.uvhead), e, sweepgc, sweepstrgc)
  {
    var h', c' := WithUpval(h, t, level, j, u), c[u := White(white)];
    match p
    case Propagate => NewOpenTri(h, c, L, l.uvhead, t, level, j, u, white);
    case Sweep =>
      forall i | 0 <= i < sweepgc ensures SweptAt(h', c', white, l.rootgc[i]) {
        assert SweptAt(h, c, white, l.rootgc[i]);
      }
    case _ =>
  }

  lemma NewOpenLists(h: Heap, l: ObjLists, t: Ref, level: nat, j: nat, u: Ref)
    requires ListsOk(h, l) && t in h && h[t].Thread? && u !in h && level < |h[t].stack| && InsertHere(h, t, level, j)
    ensures ListsOk(WithUpval(h, t, level, j, u), l.(uvhead := [u] + l.uvhead))
  {
    hide UpvalsOk;
    NewOpenUpvals(h, l.uvhead, t, level, j, u);
    hide InsertHere;
    var h' := WithUpval(h, t, level, j, u);
    forall x | x in h' && h'[x].String? ensures exists b :: InBucket(l.strt, b, x) {
      assert h[x].String?;
    }
  }

  /** A new open upvalue of a live thread. */
  lemma Opened(p: Phase, h: Heap, c: Colors, white: bool, L: seq<Ref>, l: ObjLists, e: Env, sweepgc: nat, sweepstrgc: nat, t: Ref, level: nat, j: nat, u: Ref)
    requires BaseOk(h, c, white, l, e) && PhaseOk(p, h, c, white, L, l, e, sweepgc, sweepstrgc)
    requires t in h && h[t].Thread? && !IsDead(c, white, t) && u !in h && level < |h[t].stack| && InsertHere(h, t, level, j)
    ensures var h', c', l' := WithUpval(h, t, level, j, u), c[u := White(white)], l.(uvhead := [u] + l.uvhead);
            BaseOk(h', c', white, l', e) && PhaseOk(p, h', c', white, L, l', e, sweepgc, sweepstrgc)
  {
    assert t in NotDead(c, white);
    hide PhaseOk;
    hide ListsOk;
    hide EntryClosed;
    hide NotDead;
    hide NeverBlack;
    hide RootsOk;
    ListParts(h, l);
    NewOpenPhase(p, h, c, white, L, l, e, sweepgc, sweepstrgc, t, level, j, u);
    NewOpenLists(h, l, t, level, j, u);
    FreshNotDead(c, white, u);
    NewOpenClosed(h, l.uvhead, NotDead(c, white), t, level, j, u);
    NewOpenNeverBlack(h, c, white, t, level, j, u);
    NewOpenRoots(h, c, white, e, t, level, j, u);
  }

  lemma NewOpenNeverBlack(h: Heap, c: Colors, white: bool, t: Ref, level: nat, j: nat, u: Ref)
    requires NeverBlack(h, c) && t in h && h[t].Thread? && u !in h && j <= |h[t].open|
    ensures NeverBlack(WithUpval(h, t, level, j, u), c[u := White(white)])
  {
    var h', c' := WithUpval(h, t, level, j, u), c[u := White(white)];
    forall x | x in h' && x in c' && (h'[x].String? || h'[x].Thread? || OpenUpval(h'[x])) ensures !c'[x].Black? {
      if x != u {
        var _ := h[x];
      }
    }
  }

  lemma NewOpenRoots(h: Heap, c: Colors, white: bool, e: Env, t: Ref, level: nat, j: nat, u: Ref)
    requires RootsOk(h, c, white, e) && t in h && h[t].Thread? && u !in h && u !in c && j <= |h[t].open|
    ensures RootsOk(WithUpval(h, t, level, j, u), c[u := White(white)], white, e)
  {
    FreshNotDead(c, white, u);
  }

  lemma SlotIn(h: Heap, N: set<Ref>, t: Ref, i: nat, v: Value)
    requires EntryClosed(h, N) && t in h && h[t].Thread? && i < |h[t].stack| && Ref1(v) <= N
    ensures SlotsIn(h, t, h[t].(stack := h[t].stack[i := v]), N)
  {
    var o := h[t].(stack := h[t].stack[i := v]);
    forall x | x in N && x in h && OpenUpval(h[x]) && h[x].u.thread == t ensures Ref1(UpvalValue(h[t := o], h[x].u)) <= N {
      assert EntryRefs(h, h[x]) <= N;
    }
  }

  /** At most one upvalue is open for a slot. */
  lemma SharedUpval(h: Heap, uvhead: seq<Ref>, t: Ref, pp: nat, level: nat, N: set<Ref>)
    requires UpvalsOk(h, uvhead) && t in h && h[t].Thread? && pp < |h[t].open| && OpenListOk(h, t) && EntryRefs(h, h[t]) <= N
    requires OpenAt(h, h[t].open[pp], t) && h[h[t].open[pp]].u.slot == level
    ensures var p := h[t].open[pp];
            && h[p] == Upval(Open(t, level)) && EntryRefs(h, h[p]) <= N
            && forall x :: x in h && h[x] == Upval(Open(t, level)) ==> x == p
  {
    var p := h[t].open[pp];
    assert h[t].stack[level] in h[t].stack;
    forall x | x in h && h[x] == Upval(Open(t, level)) ensures x == p {
      assert OpenAt(h, x, t) && x in h[t].open;
      var i :| 0 <= i < |h[t].open| && h[t].open[i] == x;
      assert OpenAt(h, h[t].open[i], t);
    }
  }

  lemma NewUpvalHere(h: Heap, uvhead: seq<Ref>, t: Ref, pp: nat, level: nat)
    requires UpvalsOk(h, uvhead) && t in h && h[t].Thread? && pp <= |h[t].open| && OpenListOk(h, t)
    requires forall i :: 0 <= i < pp ==> OpenAt(h, h[t].open[i], t) && h[h[t].open[i]].u.slot > level
    requires pp < |h[t].open| ==> OpenAt(h, h[t].open[pp], t) && h[h[t].open[pp]].u.slot < level
    ensures InsertHere(h, t, level, pp)
    ensures forall x :: x in h ==> h[x] != Upval(Open(t, level))
  {
    var s := h[t].open;
    forall i | pp <= i < |s| ensures OpenAt(h, s[i], t) && h[s[i]].u.slot < level {
      assert OpenAt(h, s[i], t) && OpenAt(h, s[pp], t);
    }
    hide OpenListOk;
    forall x | x in h && OpenUpval(h[x]) && h[x].u.thread == t ensures h[x].u.slot != level {
      assert OpenAt(h, x, t) && x in s;
      var i :| 0 <= i < |s| && s[i] == x;
    }
  }

  /** Other roots, all alive. */
  lemma EnvChanged(p: Phase, h: Heap, c: Colors, white: bool, L: seq<Ref>, l: ObjLists, e: Env, e': Env, sweepgc: nat, sweepstrgc: nat)
    requires BaseOk(h, c, white, l, e) && PhaseOk(p, h, c, white, L, l, e, sweepgc, sweepstrgc)
    requires e'.main == e.main && e'.registry == e.registry
    requires e'.running == e.running || (e'.running in h && h[e'.running].Thread? && e'.running in NotDead(c, white))
    requires Refs(e'.mt) <= NotDead(c, white) + Refs(e.mt)
    ensures BaseOk(h, c, white, l, e') && PhaseOk(p, h, c, white, L, l, e', sweepgc, sweepstrgc)
  {
    hide ListsOk;
    hide EntryClosed;
    hide NeverBlack;
    hide Tri;
    hide NotDead;
    assert EnvRefs(e') <= NotDead(c, white);
  }

  lemma Fixed(p: Phase, h: Heap, c: Colors, white: bool, L: seq<Ref>, l: ObjLists, e: Env, sweepgc: nat, sweepstrgc: nat, s: Ref)
    requires BaseOk(h, c, white, l, e) && PhaseOk(p, h, c, white, L, l, e, sweepgc, sweepstrgc) && s in h && h[s].String?
    ensures var l' := l.(fixed := l.fixed + {s});
            BaseOk(h, c, white, l', e) && PhaseOk(p, h, c, white, L, l', e, sweepgc, sweepstrgc)
  {
    hide RootOk;
    hide StringsOk;
    hide UpvalsOk;
    hide EntryClosed;
    hide NeverBlack;
    hide Tri;
    hide NotDead;
    hide StringsSwept;
    hide RootSwept;
  }

  // ----- the first state -----

  /** The main thread, the table of globals and the registry. */
  function FirstHeap(): Heap {
    map[0 := Thread(Gc(1), [], []),
        1 := Table(Nil, STRONG, STRONG, [], []),
        2 := Table(Nil, STRONG, STRONG, [], [])]
  }

  function FirstColors(): Colors {
    map[0 := White(false), 1 := White(false), 2 := White(false)]
  }

  lemma FirstState(strt: seq<seq<Ref>>, mt: seq<Value>)
    requires |strt| > 0 && (forall b :: 0 <= b < |strt| ==> strt[b] == []) && forall v :: v in mt ==> v == Nil
    ensures BaseOk(FirstHeap(), FirstColors(), false, ObjLists([2, 1, 0], strt, [], {}), Env(0, 0, Gc(2), mt))
    ensures AllWhite(FirstColors(), false)
  {
    FirstLists(strt);
    FirstRefs(mt);
    hide ListsOk;
    hide EntryClosed;
    hide RootsOk;
  }

  lemma FirstLists(strt: seq<seq<Ref>>)
    requires |strt| > 0 && forall b :: 0 <= b < |strt| ==> strt[b] == []
    ensures ListsOk(FirstHeap(), ObjLists([2, 1, 0], strt, [], {}))
  {
    var h := FirstHeap();
    assert RootOk(h, [2, 1, 0]);
    assert OpenListOk(h, 0);
  }

  lemma FirstRefs(mt: seq<Value>)
    requires forall v :: v in mt ==> v == Nil
    ensures EntryClosed(FirstHeap(), NotDead(FirstColors(), false)) && RootsOk(FirstHeap(), FirstColors(), false, Env(0, 0, Gc(2), mt))
  {
    var h, c := FirstHeap(), FirstColors();
    assert NotDead(c, false) == {0, 1, 2};
    assert Refs(mt) == {};
    assert EntryRefs(h, h[0]) == {1} && EntryRefs(h, h[1]) == {} && EntryRefs(h, h[2]) == {};
  }
}
