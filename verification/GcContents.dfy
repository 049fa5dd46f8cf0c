/** What a collection removes (lua/lgc.c). */
module GcContents {
  import opened GcHeap
  import opened Marking
  import opened WeakTables
  import opened GcInvariant
  import opened GcSweep
  import opened GcReach
  import opened GcStores

  /** Neither the key nor the value of the entry is removed, when the white objects of `c` go. */
  predicate Stays(h: Heap, c: Colors, n: Node) {
    !Cleared(h, c, KeyValue(n)) && !Cleared(h, c, n.val)
  }

  /** Object `r` after a collection in which the white objects of `c` go: a weak table loses exactly
      the entries that refer to them, and everything else is as it was. */
  ghost predicate CollectedAt(h: Heap, c: Colors, h': Heap, r: Ref) {
    && r in h && r in h'
    && if h[r].Table? then
         && h'[r].Table? && h'[r].meta == h[r].meta && h'[r].mode == h[r].mode
         && h'[r].arr == (if h[r].mode.values then ClearArr(h, c, h[r].arr) else h[r].arr)
         && Entries(h'[r].nodes) == (set n | n in Entries(h[r].nodes) && (h[r].mode == STRONG || Stays(h, c, n)))
       else SameContents(h, h[r], h', h'[r])
  }

  /** After a collection that keeps exactly `R` (and strings), all objects of `R` have their contents. */
  ghost predicate AllCollected(h: Heap, R: set<Ref>, h': Heap) {
    forall r {:trigger CollectedAt(h, Marks(h, R), h', r)} :: r in R ==> CollectedAt(h, Marks(h, R), h', r)
  }

  /** Object `r` is as it was, or it is a weak table that was cleared. */
  ghost predicate SteppedAt(h: Heap, c: Colors, h': Heap, r: Ref) {
    r in h && r in h' && (SameObj(h[r], h'[r]) || CollectedAt(h, c, h', r))
  }

  /** Object `r` has the same entries, or the same contents. */
  ghost predicate SameAt(h: Heap, h': Heap, r: Ref) {
    && r in h && r in h'
    && if h[r].Table? then h'[r].Table? && SameObj(h[r], h'[r]) else SameContents(h, h[r], h', h'[r])
  }

  lemma HeapSameAt(h: Heap, h': Heap, r: Ref)
    requires HeapSame(h, h') && r in h
    ensures SameAt(h, h', r)
  {
    var _ := h'[r];
    if h[r].Upval? {
      SameUpvals(h, h', h[r].u);
    }
  }

  lemma KeptIsSame(h: Heap, h': Heap, r: Ref)
    requires KeepsAt(h, h', r)
    ensures SameAt(h, h', r)
  {
  }

  lemma ClearedEntries(h: Heap, c: Colors, ns: seq<Node>)
    ensures Entries(ClearNodes(h, c, ns)) == set n | n in Entries(ns) && Stays(h, c, n)
  {
    hide Cleared;
    var ns' := ClearNodes(h, c, ns);
    forall n ensures n in Entries(ns') <==> n in Entries(ns) && Stays(h, c, n) {
      if n in Entries(ns') {
        var i :| 0 <= i < |ns'| && ns'[i] == n;
        assert ns'[i] == ClearNode(h, c, ns[i]);
        assert n == ns[i];
      }
      if n in Entries(ns) && Stays(h, c, n) {
        var i :| 0 <= i < |ns| && ns[i] == n;
        assert ns'[i] == ClearNode(h, c, ns[i]);
      }
    }
  }

  // ----- composition -----

  /** References of `N` are removed in the one heap if and only if they are in the other. */
  ghost predicate SameClears(h: Heap, c: Colors, h': Heap, c': Colors, N: set<Ref>) {
    forall v: Value :: Ref1(v) <= N ==> Cleared(h', c', v) == Cleared(h, c, v)
  }

  lemma CollectedFrom(h: Heap, c: Colors, h1: Heap, c1: Colors, h': Heap, r: Ref)
    requires SameAt(h, h1, r) && CollectedAt(h1, c1, h', r)
    requires SameClears(h, c, h1, c1, EntryRefs(h, h[r]))
    ensures CollectedAt(h, c, h', r)
  {
    if h[r].Table? {
      var t := h[r];
      forall i | 0 <= i < |t.arr| ensures ClearValue(h1, c1, t.arr[i]) == ClearValue(h, c, t.arr[i]) {
        assert t.arr[i].Gc? ==> t.arr[i].r in Refs(t.arr);
      }
      assert ClearArr(h1, c1, t.arr) == ClearArr(h, c, t.arr);
      forall n | n in Entries(t.nodes) ensures Stays(h1, c1, n) == Stays(h, c, n) {
        EntryInTable(t, n);
      }
    }
  }

  lemma CollectedThen(h: Heap, c: Colors, h1: Heap, h': Heap, r: Ref)
    requires CollectedAt(h, c, h1, r) && KeepsAt(h1, h', r)
    ensures CollectedAt(h, c, h', r)
  {
  }

  lemma ClearsOfSameHeap(h: Heap, h1: Heap, R: set<Ref>, N: set<Ref>)
    requires HeapSame(h, h1)
    ensures SameClears(h, Marks(h, R), h1, Marks(h1, R), N)
  {
    forall v: Value ensures Cleared(h1, Marks(h1, R), v) == Cleared(h, Marks(h, R), v) {
      if v.Gc? && v.r in h {
        HeapSameKinds(h, h1, v.r);
      }
    }
  }

  lemma CollectedFromSame(h: Heap, h1: Heap, h': Heap, R: set<Ref>)
    requires HeapSame(h, h1) && R <= h.Keys
    requires AllCollected(h1, R, h')
    ensures AllCollected(h, R, h')
  {
    hide CollectedAt;
    hide HeapSame;
    hide SameClears;
    hide Marks;
    forall r | r in R ensures CollectedAt(h, Marks(h, R), h', r) {
      assert CollectedAt(h1, Marks(h1, R), h', r);
      HeapSameAt(h, h1, r);
      ClearsOfSameHeap(h, h1, R, EntryRefs(h, h[r]));
      CollectedFrom(h, Marks(h, R), h1, Marks(h1, R), h', r);
    }
  }

  // ----- the end of the mark phase -----

  /** Clearing the listed tables after the marks were set by `c1`; `c` has the same whites but for
      strings. */
  lemma ClearedIsCollected(h: Heap, c: Colors, h1: Heap, c1: Colors, weak: seq<Ref>, r: Ref)
    requires HeapSame(h, h1) && c1.Keys == h1.Keys && WeakClean(h1, c1, weak) && r in h
    requires SameClears(h, c, h1, c1, h.Keys) && EntryRefs(h, h[r]) <= h.Keys
    requires h[r].Table? && h[r].mode != STRONG ==> r in weak
    ensures CollectedAt(h, c, ClearedHeap(h1, c1, weak), r)
  {
    var h' := ClearedHeap(h1, c1, weak);
    HeapSameAt(h, h1, r);
    assert CollectedAt(h1, c1, h', r) by {
      if h1[r].Upval? {
        ClearedUpvals(h1, c1, weak);
        assert UpvalValue(h', h1[r].u) == UpvalValue(h1, h1[r].u);
      }
      if r in weak {
        assert WeakDone(h1, c1, r);
        ClearedEntries(h1, c1, h1[r].nodes);
      }
    }
    assert SameClears(h, c, h1, c1, EntryRefs(h, h[r]));
    CollectedFrom(h, c, h1, c1, h', r);
  }

  lemma ClearsOfStrings(h: Heap, h1: Heap, c1: Colors, S: set<Ref>)
    requires HeapSame(h, h1) && AllStrings(h1, S)
    ensures SameClears(h, MarkStrings(c1, S), h1, c1, h.Keys)
  {
    forall v: Value ensures Cleared(h1, c1, v) == Cleared(h, MarkStrings(c1, S), v) {
      if v.Gc? && v.r in h {
        HeapSameKinds(h, h1, v.r);
      }
    }
  }

  /** Every object is as it was when the mark phase ended, or is a weak table that was cleared. */
  lemma AtomicSteps(h: Heap, h1: Heap, c1: Colors, weak: seq<Ref>, r: Ref)
    requires HeapSame(h, h1) && NoDangling(h1) && c1.Keys == h1.Keys && WeakClean(h1, c1, weak) && r in h
    ensures SteppedAt(h, MarkStrings(c1, WeakStrings(h1, c1, weak)), ClearedHeap(h1, c1, weak), r)
  {
    var S := WeakStrings(h1, c1, weak);
    var _ := h1[r];
    ClearedHeapStrings(h1, c1, weak);
    if r in weak {
      HeapSameClosed(h, h1, h.Keys);
      ClearsOfStrings(h, h1, c1, S);
      ClearedIsCollected(h, MarkStrings(c1, S), h1, c1, weak, r);
    }
  }

  /** If exactly `R` was marked, the objects of `R` keep their contents but for references to others. */
  lemma AtomicCollects(h: Heap, h1: Heap, c1: Colors, weak: seq<Ref>, R: set<Ref>, r: Ref)
    requires HeapSame(h, h1) && NoDangling(h1) && c1.Keys == h1.Keys && WeakClean(h1, c1, weak) && WeakListed(h1, c1, weak)
    requires NonWhite(c1) == R && r in R
    ensures CollectedAt(h, Marks(h, R), ClearedHeap(h1, c1, weak), r)
  {
    var _ := h1[r];
    HeapSameClosed(h, h1, h.Keys);
    assert SameClears(h, Marks(h, R), h1, c1, h.Keys) by {
      forall v: Value ensures Cleared(h1, c1, v) == Cleared(h, Marks(h, R), v) {
        if v.Gc? && v.r in h {
          HeapSameKinds(h, h1, v.r);
          assert v.r in R <==> !c1[v.r].White?;
        }
      }
    }
    ClearedIsCollected(h, Marks(h, R), h1, c1, weak, r);
  }

  lemma EachStepped(h: Heap, h1: Heap, c1: Colors, weak: seq<Ref>)
    requires HeapSame(h, h1) && NoDangling(h1) && c1.Keys == h1.Keys && WeakClean(h1, c1, weak)
    ensures var c', h' := MarkStrings(c1, WeakStrings(h1, c1, weak)), ClearedHeap(h1, c1, weak);
            forall r {:trigger SteppedAt(h, c', h', r)} :: r in h' ==> SteppedAt(h, c', h', r)
  {
    hide SteppedAt;
    var h' := ClearedHeap(h1, c1, weak);
    SameKeys(h, h1);
    assert h'.Keys == h1.Keys;
    hide ClearedHeap;
    hide HeapSame;
    forall r | r in h' ensures SteppedAt(h, MarkStrings(c1, WeakStrings(h1, c1, weak)), h', r) {
      AtomicSteps(h, h1, c1, weak, r);
    }
  }

  lemma EachMarkedCollected(h: Heap, h1: Heap, c1: Colors, weak: seq<Ref>, R: set<Ref>)
    requires HeapSame(h, h1) && NoDangling(h1) && c1.Keys == h1.Keys && WeakClean(h1, c1, weak) && WeakListed(h1, c1, weak)
    requires NonWhite(c1) == R
    ensures AllCollected(h, R, ClearedHeap(h1, c1, weak))
  {
    hide CollectedAt;
    hide NonWhite;
    forall r | r in R ensures CollectedAt(h, Marks(h, R), ClearedHeap(h1, c1, weak), r) {
      AtomicCollects(h, h1, c1, weak, R, r);
    }
  }

  // ----- a whole collection -----

  /** A sweep, then a mark phase that marks exactly `R`, then another sweep. */
  lemma WholeCollection(h: Heap, c: Colors, white: bool, l: ObjLists, e: Env, h1: Heap, c1: Colors, h2: Heap, h': Heap, R: set<Ref>, r: Ref)
    requires BaseOk(h, c, white, l, e) && SweepKeeps(h, c, h1, c1, white, l.fixed)
    requires R <= NotDead(c, white) && r in R
    requires CollectedAt(h1, Marks(h1, R), h2, r) && KeepsAt(h2, h', r)
    ensures CollectedAt(h, Marks(h, R), h', r)
  {
    var N := NotDead(c, white);
    assert KeepsAt(h, h1, r);
    KeptIsSame(h, h1, r);
    assert EntryRefs(h, h[r]) <= N;
    assert SameClears(h, Marks(h, R), h1, Marks(h1, R), N) by {
      forall v: Value | Ref1(v) <= N ensures Cleared(h1, Marks(h1, R), v) == Cleared(h, Marks(h, R), v) {
        if v.Gc? {
          assert v.r in Ref1(v);
          assert KeepsAt(h, h1, v.r);
        }
      }
    }
    assert SameClears(h, Marks(h, R), h1, Marks(h1, R), EntryRefs(h, h[r]));
    CollectedFrom(h, Marks(h, R), h1, Marks(h1, R), h2, r);
    CollectedThen(h, Marks(h, R), h2, h', r);
  }

  lemma EachCollected(h: Heap, c: Colors, white: bool, l: ObjLists, e: Env, h1: Heap, c1: Colors, h2: Heap, c2: Colors, h': Heap, c': Colors, white2: bool, R: set<Ref>)
    requires BaseOk(h, c, white, l, e) && SweepKeeps(h, c, h1, c1, white, l.fixed) && R <= NotDead(c, white)
    requires AllCollected(h1, R, h2)
    requires SweepKeeps(h2, c2, h', c', white2, l.fixed) && R <= NotDead(c2, white2) && R <= h2.Keys
    ensures AllCollected(h, R, h')
  {
    forall r | r in R ensures CollectedAt(h, Marks(h, R), h', r) {
      assert KeepsAt(h2, h', r);
      hide SweepKeeps;
      hide CollectedAt;
      hide KeepsAt;
      hide BaseOk;
      hide Marks;
      assert CollectedAt(h1, Marks(h1, R), h2, r);
      WholeCollection(h, c, white, l, e, h1, c1, h2, h', R, r);
    }
  }

  // ----- in terms of the fields -----

  /** A weak reference to an object outside `R`; strings are values and stay. */
  predicate Goes(h: Heap, R: set<Ref>, v: Value) {
    v.Gc? && v.r in h && !h[v.r].String? && v.r !in R
  }

  predicate KeyGoes(h: Heap, R: set<Ref>, n: Node) {
    n.key.LiveKey? && Goes(h, R, n.key.v)
  }

  lemma GoesIsCleared(h: Heap, R: set<Ref>)
    ensures forall v :: Cleared(h, Marks(h, R), v) <==> Goes(h, R, v)
    ensures forall n :: Cleared(h, Marks(h, R), KeyValue(n)) <==> KeyGoes(h, R, n)
  {
  }

  /** After a collection that keeps exactly `R`, a table of `R` has lost exactly the weak values and the
      entries of weak tables that refer to other objects; other objects store what they stored. */
  lemma CollectedMeans(h: Heap, R: set<Ref>, h': Heap, r: Ref)
    requires AllCollected(h, R, h') && r in R
    ensures r in h && r in h'
    ensures h[r].Table? ==>
              && h'[r].Table? && h'[r].meta == h[r].meta && |h'[r].arr| == |h[r].arr|
              && (forall i :: 0 <= i < |h[r].arr| ==>
                    h'[r].arr[i] == if h[r].mode.values && Goes(h, R, h[r].arr[i]) then Nil else h[r].arr[i])
              && (forall n: Node :: n.val != Nil ==>
                    (n in h'[r].nodes <==>
                       n in h[r].nodes && ((!h[r].mode.keys && !h[r].mode.values) || (!KeyGoes(h, R, n) && !Goes(h, R, n.val)))))
    ensures !h[r].Table? ==> forall x :: Stores(h', h'[r], Gc(x)) <==> Stores(h, h[r], Gc(x))
  {
    assert CollectedAt(h, Marks(h, R), h', r);
    GoesIsCleared(h, R);
    hide Cleared;
    hide Goes;
    hide KeyGoes;
    if h[r].Table? {
      forall n: Node | n.val != Nil
        ensures n in h'[r].nodes <==> n in h[r].nodes && (h[r].mode == STRONG || Stays(h, Marks(h, R), n))
      {
        assert n in h'[r].nodes <==> n in Entries(h'[r].nodes);
      }
    } else {
      SameStored(h, h[r], h', h'[r]);
    }
  }

  lemma SameStored(h: Heap, o: Obj, h': Heap, o': Obj)
    requires SameContents(h, o, h', o') && !o.Table?
    ensures forall x :: Stores(h', o', Gc(x)) <==> Stores(h, o, Gc(x))
  {
  }

  /** The weak table `t` keeps the string `s` alive: as a weak value, as a key, or as the value of an
      entry whose key stays. */
  predicate KeepsString(h: Heap, R: set<Ref>, t: Obj, s: Ref)
    requires t.Table?
  {
    || (t.mode.values && Gc(s) in t.arr)
    || exists n :: n in t.nodes && n.val != Nil && (n.key == LiveKey(Gc(s)) || (n.val == Gc(s) && !KeyGoes(h, R, n)))
  }

  /** The strings that survive without being reachable are those in the weak tables of `R`. */
  lemma KeptMeans(h: Heap, R: set<Ref>, s: Ref)
    ensures s in KeptStrings(h, R) <==>
              s in h && h[s].String? && exists r :: r in R && r in h && h[r].Table? && h[r].mode != STRONG && KeepsString(h, R, h[r], s)
  {
    var c := Marks(h, R);
    GoesIsCleared(h, R);
    hide Cleared;
    hide Goes;
    hide KeyGoes;
    hide Marks;
    forall r | r in R && r in h && h[r].Table? && h[r].mode != STRONG
      ensures s in TableStrings(h, c, h[r], h[r].mode) <==> s in h && h[s].String? && KeepsString(h, R, h[r], s)
    {
      TableKeeps(h, c, h[r], s);
    }
  }

  lemma TableKeeps(h: Heap, c: Colors, t: Obj, s: Ref)
    requires t.Table?
    ensures s in TableStrings(h, c, t, t.mode) <==>
              && s in h && h[s].String?
              && ((t.mode.values && Gc(s) in t.arr)
                  || exists n :: n in t.nodes && n.val != Nil && (n.key == LiveKey(Gc(s)) || (n.val == Gc(s) && !Cleared(h, c, KeyValue(n)))))
  {
    hide Cleared;
    assert s in StringsIn(h, t.arr) <==> s in h && h[s].String? && Gc(s) in t.arr;
    forall n
      ensures s in NodeStrings(h, c, n) <==>
                s in h && h[s].String? && n.val != Nil && (n.key == LiveKey(Gc(s)) || (n.val == Gc(s) && !Cleared(h, c, KeyValue(n))))
    {
    }
  }
}
