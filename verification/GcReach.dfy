/** What stays reachable (lua/lgc.c). */
module GcReach {
  import opened GcHeap
  import opened Marking
  import opened WeakTables
  import opened GcInvariant
  import opened GcSweep

  /** Two heaps that agree on the references of a closed set agree on what is reachable. */
  lemma ReachOneWay(h: Heap, h': Heap, roots: set<Ref>, N: set<Ref>, r: Ref)
    requires roots <= N && StrongClosed(h, N) && N <= h.Keys && N <= h'.Keys
    requires forall x {:trigger h'[x]} :: x in N ==> StrongRefs(h', h'[x]) == StrongRefs(h, h[x])
    requires Reachable(h, roots, r)
    ensures Reachable(h', roots, r)
  {
    forall R: set<Ref> | roots <= R && StrongClosed(h', R) ensures r in R {
      var Q := R * N;
      forall x | x in Q && x in h ensures StrongRefs(h, h[x]) <= Q {
        assert StrongRefs(h', h'[x]) <= R;
      }
      assert StrongClosed(h, Q);
    }
  }

  lemma ReachSame(h: Heap, h': Heap, roots: set<Ref>, N: set<Ref>)
    requires roots <= N && StrongClosed(h, N) && N <= h.Keys && N <= h'.Keys
    requires forall x {:trigger h'[x]} :: x in N ==> StrongRefs(h', h'[x]) == StrongRefs(h, h[x])
    ensures ReachSet(h', roots) == ReachSet(h, roots) <= N
  {
    forall x | x in N && x in h' ensures StrongRefs(h', h'[x]) <= N {
      assert StrongRefs(h, h[x]) <= N;
    }
    assert StrongClosed(h', N);
    forall r ensures Reachable(h, roots, r) <==> Reachable(h', roots, r) {
      if Reachable(h, roots, r) {
        ReachOneWay(h, h', roots, N, r);
      }
      if Reachable(h', roots, r) {
        ReachOneWay(h', h, roots, N, r);
      }
    }
    forall r | Reachable(h, roots, r) ensures r in N {
    }
  }

  // ----- marking -----

  lemma HeapSameReach(h: Heap, h': Heap, roots: set<Ref>)
    requires HeapSame(h, h')
    ensures ReachSet(h', roots) == ReachSet(h, roots)
  {
    forall R: set<Ref> ensures StrongClosed(h, R) <==> StrongClosed(h', R) {
      HeapSameClosed(h, h', R);
    }
    hide StrongClosed;
    forall r ensures Reachable(h, roots, r) <==> Reachable(h', roots, r) {
    }
  }

  lemma HeapSameKept(h: Heap, h': Heap, R: set<Ref>)
    requires HeapSame(h, h')
    ensures KeptStrings(h', R) == KeptStrings(h, R)
  {
    var c := Marks(h, R);
    assert Marks(h', R) == c && SameWhites(c, c);
    forall r | r in h
      ensures h'[r].Table? == h[r].Table?
      ensures h[r].Table? ==> h'[r].mode == h[r].mode && TableStrings(h', c, h'[r], h[r].mode) == TableStrings(h, c, h[r], h[r].mode)
    {
      assert SameObj(h[r], h'[r]);
      if h[r].Table? {
        StringsSameWhites(h, h', c, c, h[r], h'[r]);
      }
    }
    hide TableStrings;
    hide Marks;
    hide HeapSame;
    assert KeptStrings(h', R) <= KeptStrings(h, R);
    assert KeptStrings(h, R) <= KeptStrings(h', R);
  }

  // ----- sweeping -----

  lemma SameContentsRefs(h: Heap, o: Obj, h': Heap, o': Obj)
    requires SameContents(h, o, h', o')
    ensures StrongRefs(h', o') == StrongRefs(h, o) && o'.String? == o.String? && (o.Table? ==> o' == o) && (o'.Table? ==> o' == o)
  {
  }

  lemma SweepReach(h: Heap, c: Colors, h': Heap, c': Colors, white: bool, l: ObjLists, e: Env)
    requires BaseOk(h, c, white, l, e) && SweepKeeps(h, c, h', c', white, l.fixed)
    ensures ReachSet(h', EnvRefs(e)) == ReachSet(h, EnvRefs(e)) <= NotDead(c, white)
  {
    var N := NotDead(c, white);
    forall x | x in N ensures x in h && x in h' && StrongRefs(h, h[x]) <= N && StrongRefs(h', h'[x]) == StrongRefs(h, h[x]) {
      assert KeepsAt(h, h', x);
      SameContentsRefs(h, h[x], h', h'[x]);
      RefsNested(h, h[x]);
      assert EntryRefs(h, h[x]) <= N;
    }
    hide BaseOk;
    hide SweepKeeps;
    hide StrongRefs;
    RootsInN(h, c, white, l, e);
    ReachSame(h, h', EnvRefs(e), N);
  }

  lemma RootsInN(h: Heap, c: Colors, white: bool, l: ObjLists, e: Env)
    requires BaseOk(h, c, white, l, e)
    ensures EnvRefs(e) <= NotDead(c, white) <= h.Keys
  {
  }

  lemma SweepKept(h: Heap, c: Colors, h': Heap, c': Colors, white: bool, l: ObjLists, e: Env, R: set<Ref>)
    requires BaseOk(h, c, white, l, e) && SweepKeeps(h, c, h', c', white, l.fixed) && R <= NotDead(c, white)
    ensures KeptStrings(h', R) == KeptStrings(h, R)
  {
    var N := NotDead(c, white);
    forall x | x in N ensures x in h && x in h' && h'[x].String? == h[x].String? {
      assert KeepsAt(h, h', x);
    }
    forall r | r in R
      ensures r in h && r in h' && h'[r].Table? == h[r].Table?
      ensures h[r].Table? ==> h'[r] == h[r] && TableStrings(h', Marks(h', R), h[r], h[r].mode) == TableStrings(h, Marks(h, R), h[r], h[r].mode)
    {
      assert r in N && KeepsAt(h, h', r);
      SameContentsRefs(h, h[r], h', h'[r]);
      if h[r].Table? {
        assert EntryRefs(h, h[r]) <= N;
        SameTableStrings(h, h', R, N, h[r]);
      }
    }
    hide TableStrings;
    hide Marks;
    hide BaseOk;
    hide SweepKeeps;
    assert KeptStrings(h', R) <= KeptStrings(h, R);
    assert KeptStrings(h, R) <= KeptStrings(h', R);
  }

  lemma SameTableStrings(h: Heap, h': Heap, R: set<Ref>, N: set<Ref>, t: Obj)
    requires t.Table? && TableRefs(t, STRONG) <= N
    requires forall x :: x in N ==> x in h && x in h' && h'[x].String? == h[x].String?
    ensures TableStrings(h', Marks(h', R), t, t.mode) == TableStrings(h, Marks(h, R), t, t.mode)
  {
    var c, c' := Marks(h, R), Marks(h', R);
    forall v: Value | Ref1(v) <= N ensures StringRef(h', v) == StringRef(h, v) && Cleared(h', c', v) == Cleared(h, c, v) {
      if v.Gc? {
        assert v.r in Ref1(v);
      }
    }
    hide Cleared;
    hide Marks;
    forall v | v in t.arr && v.Gc? ensures v.r in h && v.r in h' && h'[v.r].String? == h[v.r].String? {
      assert v.r in Refs(t.arr);
    }
    assert StringsIn(h', t.arr) == StringsIn(h, t.arr);
    forall n | n in t.nodes ensures NodeStrings(h', c', n) == NodeStrings(h, c, n) {
      if n.val != Nil {
        EntryInTable(t, n);
      }
    }
    hide NodeStrings;
    assert NodesStrings(h', c', t.nodes) == NodesStrings(h, c, t.nodes);
  }

  lemma EntryInTable(t: Obj, n: Node)
    requires t.Table? && n in t.nodes && n.val != Nil
    ensures Ref1(KeyValue(n)) <= TableRefs(t, STRONG) && Ref1(n.val) <= TableRefs(t, STRONG)
  {
    assert n.val.Gc? ==> n.val.r in ValRefs(t.nodes);
    assert KeyValue(n).Gc? ==> KeyValue(n).r in KeyRefs(t.nodes);
  }

  // ----- strings in weak tables -----

  /** The main thread has a table with weak values on its stack, and the table holds a string. */
  function WeakHeap(): Heap {
    map[0 := Thread(Gc(1), [Gc(3)], []),
        1 := Table(Nil, STRONG, STRONG, [], []),
        2 := Table(Nil, STRONG, STRONG, [], []),
        3 := Table(Nil, Weakness(false, true), STRONG, [Gc(4)], []),
        4 := String]
  }

  lemma WeakHeapRefs()
    ensures StrongRefs(WeakHeap(), WeakHeap()[0]) == {1, 3} && StrongRefs(WeakHeap(), WeakHeap()[1]) == {}
    ensures StrongRefs(WeakHeap(), WeakHeap()[2]) == {} && StrongRefs(WeakHeap(), WeakHeap()[3]) == {}
  {
    assert WeakHeap()[0].stack[0] == Gc(3);
  }

  lemma WeakHeapReach()
    ensures ReachSet(WeakHeap(), {0, 2}) == {0, 1, 2, 3}
  {
    WeakHeapRefs();
    hide StrongRefs;
    var h := WeakHeap();
    assert StrongClosed(h, {0, 1, 2, 3});
    forall R: set<Ref> | {0, 2} <= R && StrongClosed(h, R) ensures 1 in R && 3 in R {
      assert 0 in R && StrongRefs(h, h[0]) <= R;
    }
  }

  /** The string cannot be reached by strong references, and yet it is among those that are kept. */
  lemma WeakStringIsKept()
    ensures var R := ReachSet(WeakHeap(), {0, 2});
            R == {0, 1, 2, 3} && 4 !in R && KeptStrings(WeakHeap(), R) == {4}
  {
    WeakHeapReach();
    hide ReachSet;
    var h, R := WeakHeap(), {0, 1, 2, 3};
    var c := Marks(h, R);
    hide Marks;
    assert StringsIn(h, h[3].arr) == {4} by {
      assert Gc(4) in h[3].arr;
    }
    assert NodesStrings(h, c, h[3].nodes) == {};
    assert TableStrings(h, c, h[3], h[3].mode) == {4};
    hide TableStrings;
    assert forall r :: r in R && h[r].Table? && h[r].mode != STRONG ==> r == 3;
  }
}
