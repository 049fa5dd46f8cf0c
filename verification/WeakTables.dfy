/** Clearing collected entries from weak tables (lua/lgc.c). */
module WeakTables {
  import opened GcHeap
  import opened Marking

  /** An object that was not marked goes from weak tables; strings behave as values and stay. */
  predicate Cleared(heap: Heap, c: Colors, v: Value) {
    v.Gc? && v.r in heap && v.r in c && !heap[v.r].String? && c[v.r].White?
  }

  ghost function StringRef(heap: Heap, v: Value): set<Ref> {
    if v.Gc? && v.r in heap && heap[v.r].String? then {v.r} else {}
  }

  ghost function StringsIn(heap: Heap, vs: seq<Value>): set<Ref> {
    set v | v in vs && v.Gc? && v.r in heap && heap[v.r].String? :: v.r
  }

  /** The strings that an entry of a weak table keeps alive: its key, and its value if the key stays. */
  ghost function NodeStrings(heap: Heap, c: Colors, n: Node): set<Ref> {
    if n.val == Nil then {}
    else StringRef(heap, KeyValue(n)) + if Cleared(heap, c, KeyValue(n)) then {} else StringRef(heap, n.val)
  }

  ghost function NodesStrings(heap: Heap, c: Colors, ns: seq<Node>): set<Ref> {
    set n, r | n in ns && r in NodeStrings(heap, c, n) :: r
  }

  /** The strings that a weak table keeps alive. */
  ghost function TableStrings(heap: Heap, c: Colors, t: Obj, w: Weakness): set<Ref>
    requires t.Table?
  {
    (if w.values then StringsIn(heap, t.arr) else {}) + NodesStrings(heap, c, t.nodes)
  }

  /** `stringmark` for all strings of `S`. */
  ghost function MarkStrings(c: Colors, S: set<Ref>): Colors {
    map r | r in c :: if r in S && c[r].White? then Gray else c[r]
  }

  function ClearValue(heap: Heap, c: Colors, v: Value): Value {
    if Cleared(heap, c, v) then Nil else v
  }

  function ClearNode(heap: Heap, c: Colors, n: Node): Node {
    if n.val != Nil && (Cleared(heap, c, KeyValue(n)) || Cleared(heap, c, n.val)) then RemoveEntry(n.(val := Nil)) else n
  }

  function ClearArr(heap: Heap, c: Colors, vs: seq<Value>): seq<Value> {
    seq(|vs|, i requires 0 <= i < |vs| => ClearValue(heap, c, vs[i]))
  }

  function ClearNodes(heap: Heap, c: Colors, ns: seq<Node>): seq<Node> {
    seq(|ns|, i requires 0 <= i < |ns| => ClearNode(heap, c, ns[i]))
  }

  function ClearedTable(heap: Heap, c: Colors, t: Obj): Obj
    requires t.Table?
  {
    t.(arr := if t.bits.values then ClearArr(heap, c, t.arr) else t.arr, nodes := ClearNodes(heap, c, t.nodes))
  }

  ghost predicate AllStrings(heap: Heap, S: set<Ref>) {
    forall r :: r in S ==> r in heap && heap[r].String?
  }

  lemma MarkStringsTwice(c: Colors, S: set<Ref>, T: set<Ref>)
    ensures MarkStrings(MarkStrings(c, S), T) == MarkStrings(c, S + T)
  {
  }

  lemma MarkStringsNone(c: Colors)
    ensures MarkStrings(c, {}) == c
  {
  }

  /** Marking strings does not change what is cleared. */
  lemma ClearedKept(heap: Heap, c: Colors, S: set<Ref>, v: Value)
    requires AllStrings(heap, S)
    ensures Cleared(heap, MarkStrings(c, S), v) == Cleared(heap, c, v)
  {
  }

  lemma ClearedTableKept(heap: Heap, c: Colors, S: set<Ref>, t: Obj)
    requires AllStrings(heap, S) && t.Table?
    ensures ClearedTable(heap, MarkStrings(c, S), t) == ClearedTable(heap, c, t)
    ensures TableStrings(heap, MarkStrings(c, S), t, t.bits) == TableStrings(heap, c, t, t.bits)
  {
    var c' := MarkStrings(c, S);
    forall v ensures Cleared(heap, c', v) == Cleared(heap, c, v) {
      ClearedKept(heap, c, S, v);
    }
    hide Cleared;
    hide MarkStrings;
    assert ClearArr(heap, c', t.arr) == ClearArr(heap, c, t.arr);
    assert ClearNodes(heap, c', t.nodes) == ClearNodes(heap, c, t.nodes);
    forall n ensures NodeStrings(heap, c', n) == NodeStrings(heap, c, n) {
    }
  }

  lemma TableStringsAreStrings(heap: Heap, c: Colors, t: Obj, w: Weakness)
    requires t.Table?
    ensures AllStrings(heap, TableStrings(heap, c, t, w))
  {
  }

  lemma MarkStringsAdvances(c: Colors, S: set<Ref>, T: set<Ref>)
    requires Marked(c, T)
    ensures Marked(MarkStrings(c, S), T)
  {
  }

  // ----- after clearing -----

  /** A reference that was not cleared is marked, if strings are marked. */
  lemma Uncleared(heap: Heap, c: Colors, S: set<Ref>, v: Value)
    requires !Cleared(heap, c, v) && Ref1(v) <= heap.Keys && c.Keys == heap.Keys && StringRef(heap, v) <= S
    ensures Marked(MarkStrings(c, S), Ref1(v))
  {
  }

  lemma ClearedArrMarked(heap: Heap, c: Colors, S: set<Ref>, vs: seq<Value>)
    requires Refs(vs) <= heap.Keys && c.Keys == heap.Keys && StringsIn(heap, vs) <= S
    ensures Marked(MarkStrings(c, S), Refs(ClearArr(heap, c, vs)))
  {
    forall r | r in Refs(ClearArr(heap, c, vs)) ensures r in c && !MarkStrings(c, S)[r].White? {
      var v :| v in ClearArr(heap, c, vs) && v == Gc(r);
      assert v in vs && !Cleared(heap, c, v);
      Uncleared(heap, c, S, v);
    }
  }

  lemma ClearedNodesMarked(heap: Heap, c: Colors, S: set<Ref>, ns: seq<Node>)
    requires KeyRefs(ns) + ValRefs(ns) <= heap.Keys && c.Keys == heap.Keys && NodesStrings(heap, c, ns) <= S
    ensures Marked(MarkStrings(c, S), KeyRefs(ClearNodes(heap, c, ns)) + ValRefs(ClearNodes(heap, c, ns)))
  {
    var ns' := ClearNodes(heap, c, ns);
    forall r | r in KeyRefs(ns') + ValRefs(ns') ensures r in c && !MarkStrings(c, S)[r].White? {
      var n :| n in ns' && n.val != Nil && (KeyValue(n) == Gc(r) || n.val == Gc(r));
      assert n in ns && !Cleared(heap, c, KeyValue(n)) && !Cleared(heap, c, n.val);
      assert KeyValue(n) == Gc(r) ==> r in KeyRefs(ns);
      assert n.val == Gc(r) ==> r in ValRefs(ns);
      NodeStringsKept(heap, c, ns, n);
      if KeyValue(n) == Gc(r) {
        Uncleared(heap, c, S, KeyValue(n));
      } else {
        Uncleared(heap, c, S, n.val);
      }
    }
  }

  lemma NodeStringsKept(heap: Heap, c: Colors, ns: seq<Node>, n: Node)
    requires n in ns && n.val != Nil && !Cleared(heap, c, KeyValue(n))
    ensures StringRef(heap, KeyValue(n)) + StringRef(heap, n.val) <= NodesStrings(heap, c, ns)
  {
    assert NodeStrings(heap, c, n) == StringRef(heap, KeyValue(n)) + StringRef(heap, n.val);
    assert forall r :: r in NodeStrings(heap, c, n) ==> r in NodesStrings(heap, c, ns);
  }

  /** After clearing, all references of a weak table are to marked objects. */
  lemma ClearedTableMarked(heap: Heap, c: Colors, r: Ref)
    requires WeakDone(heap, c, r) && c.Keys == heap.Keys && EntryRefs(heap, heap[r]) <= heap.Keys
    ensures var c' := MarkStrings(c, TableStrings(heap, c, heap[r], heap[r].bits));
            Marked(c', TableRefs(ClearedTable(heap, c, heap[r]), STRONG))
  {
    var t := heap[r];
    var S := TableStrings(heap, c, t, t.bits);
    var c', t' := MarkStrings(c, S), ClearedTable(heap, c, t);
    ClearedNodesMarked(heap, c, S, t.nodes);
    MarkStringsAdvances(c, S, StrongRefs(heap, t));
    if t.bits.values {
      ClearedArrMarked(heap, c, S, t.arr);
    }
    assert Marked(c', Ref1(t'.meta)) && Marked(c', Refs(t'.arr)) && Marked(c', KeyRefs(t'.nodes) + ValRefs(t'.nodes));
  }

  // ----- the loops -----

  lemma MarkStringsDomain(c: Colors, S: set<Ref>)
    ensures MarkStrings(c, S).Keys == c.Keys
  {
  }

  lemma StringsFrom(heap: Heap, vs: seq<Value>, c: Colors)
    ensures MarkStrings(c, StringsIn(heap, vs[|vs|..])) == c
  {
    assert StringsIn(heap, vs[|vs|..]) == {};
    MarkStringsNone(c);
  }

  /** One value more. */
  lemma StringsNext(heap: Heap, vs: seq<Value>, i: nat, c: Colors)
    requires i < |vs| && Refs(vs) <= heap.Keys
    ensures var c' := MarkStrings(c, StringsIn(heap, vs[i + 1..]));
            && Ref1(vs[i]) <= heap.Keys && Cleared(heap, c', vs[i]) == Cleared(heap, c, vs[i])
            && MarkStrings(c', StringRef(heap, vs[i])) == MarkStrings(c, StringsIn(heap, vs[i..]))
  {
    hide Cleared;
    hide MarkStrings;
    assert vs[i..] == [vs[i]] + vs[i + 1..];
    assert vs[i] in vs;
    assert StringsIn(heap, vs[i..]) == StringsIn(heap, vs[i + 1..]) + StringRef(heap, vs[i]);
    ClearedKept(heap, c, StringsIn(heap, vs[i + 1..]), vs[i]);
    MarkStringsTwice(c, StringsIn(heap, vs[i + 1..]), StringRef(heap, vs[i]));
  }

  lemma NodesStringsFrom(heap: Heap, ns: seq<Node>, c: Colors)
    ensures MarkStrings(c, NodesStrings(heap, c, ns[|ns|..])) == c
  {
    assert NodesStrings(heap, c, ns[|ns|..]) == {};
    MarkStringsNone(c);
  }

  lemma NodesStringsSplit(heap: Heap, ns: seq<Node>, i: nat, c: Colors)
    requires i < |ns|
    ensures NodesStrings(heap, c, ns[i..]) == NodesStrings(heap, c, ns[i + 1..]) + NodeStrings(heap, c, ns[i])
  {
    hide NodeStrings;
    assert ns[i..] == [ns[i]] + ns[i + 1..];
  }

  lemma NodesStringsAre(heap: Heap, ns: seq<Node>, c: Colors)
    ensures AllStrings(heap, NodesStrings(heap, c, ns))
  {
  }

  /** One node more: the value is looked at only if the key stays. */
  lemma NodesStringsNext(heap: Heap, ns: seq<Node>, i: nat, c: Colors)
    requires i < |ns|
    ensures var S, k, v := NodesStrings(heap, c, ns[i + 1..]), KeyValue(ns[i]), ns[i].val;
            var c1 := MarkStrings(MarkStrings(c, S), StringRef(heap, k));
            && c1 == MarkStrings(c, S + StringRef(heap, k))
            && Cleared(heap, MarkStrings(c, S), k) == Cleared(heap, c, k) && Cleared(heap, c1, v) == Cleared(heap, c, v)
            && MarkStrings(c, NodesStrings(heap, c, ns[i..])) ==
                 if v == Nil then MarkStrings(c, S) else if Cleared(heap, c, k) then c1 else MarkStrings(c1, StringRef(heap, v))
  {
    hide Cleared;
    hide MarkStrings;
    hide NodesStrings;
    var S, k, v := NodesStrings(heap, c, ns[i + 1..]), KeyValue(ns[i]), ns[i].val;
    NodesStringsSplit(heap, ns, i, c);
    NodesStringsAre(heap, ns[i + 1..], c);
    MarkStringsTwice(c, S, StringRef(heap, k));
    MarkStringsTwice(c, S + StringRef(heap, k), StringRef(heap, v));
    assert S + StringRef(heap, k) + StringRef(heap, v) == S + (StringRef(heap, k) + StringRef(heap, v));
    assert v == Nil ==> S + {} == S;
    assert Cleared(heap, c, k) ==> StringRef(heap, k) + {} == StringRef(heap, k);
    ClearedKept(heap, c, S, k);
    ClearedKept(heap, c, S + StringRef(heap, k), v);
  }

  // ----- all weak tables -----

  ghost function ClearedHeap(heap: Heap, c: Colors, weak: seq<Ref>): Heap {
    map r | r in heap :: if r in weak && heap[r].Table? then ClearedTable(heap, c, heap[r]) else heap[r]
  }

  /** The strings that the tables on the list keep alive. */
  ghost function WeakStrings(heap: Heap, c: Colors, weak: seq<Ref>): set<Ref> {
    set r, s | r in weak && r in heap && heap[r].Table? && s in TableStrings(heap, c, heap[r], heap[r].bits) :: s
  }

  ghost predicate SameStrings(h: Heap, h': Heap) {
    h'.Keys == h.Keys && forall r {:trigger h'[r]} :: r in h ==> h'[r].String? == h[r].String?
  }

  lemma ClearedSameStrings(h: Heap, h': Heap, c: Colors, t: Obj)
    requires SameStrings(h, h') && t.Table?
    ensures ClearedTable(h', c, t) == ClearedTable(h, c, t)
    ensures TableStrings(h', c, t, t.bits) == TableStrings(h, c, t, t.bits)
  {
    forall v: Value
      ensures Cleared(h', c, v) == Cleared(h, c, v)
      ensures StringRef(h', v) == StringRef(h, v)
    {
      if v.Gc? && v.r in h {
        var _ := h'[v.r];
      }
    }
    assert ClearArr(h', c, t.arr) == ClearArr(h, c, t.arr);
    assert ClearNodes(h', c, t.nodes) == ClearNodes(h, c, t.nodes);
    forall n ensures NodeStrings(h', c, n) == NodeStrings(h, c, n) {
    }
    hide Cleared;
    assert StringsIn(h', t.arr) == StringsIn(h, t.arr) by {
      forall v | v in t.arr ensures StringRef(h', v) == StringRef(h, v) {
      }
    }
  }

  lemma ClearStart(heap: Heap, c: Colors)
    ensures ClearedHeap(heap, c, []) == heap && MarkStrings(c, WeakStrings(heap, c, [])) == c
  {
  }

  lemma ClearedHeapStrings(heap: Heap, c: Colors, weak: seq<Ref>)
    ensures SameStrings(heap, ClearedHeap(heap, c, weak)) && AllStrings(heap, WeakStrings(heap, c, weak))
  {
    hide ClearedTable;
    hide TableStrings;
    var h' := ClearedHeap(heap, c, weak);
    forall r | r in heap ensures h'[r].String? == heap[r].String? {
      if heap[r].Table? {
        ClearedIsTable(heap, c, heap[r]);
      }
    }
    forall s | s in WeakStrings(heap, c, weak) ensures s in heap && heap[s].String? {
      var r :| r in weak && r in heap && heap[r].Table? && s in TableStrings(heap, c, heap[r], heap[r].bits);
      TableStringsAreStrings(heap, c, heap[r], heap[r].bits);
    }
  }

  /** One more table is cleared. */
  lemma ClearStep(heap: Heap, c: Colors, weak: seq<Ref>, i: nat)
    requires i < |weak| && Distinct(weak) && weak[i] in heap && heap[weak[i]].Table?
    ensures var h', c', t := ClearedHeap(heap, c, weak[..i]), MarkStrings(c, WeakStrings(heap, c, weak[..i])), weak[i];
            && t in h' && h'[t] == heap[t] && t !in weak[..i]
            && ClearedHeap(heap, c, weak[..i + 1]) == h'[t := ClearedTable(h', c', heap[t])]
            && MarkStrings(c, WeakStrings(heap, c, weak[..i + 1])) == MarkStrings(c', TableStrings(h', c', heap[t], heap[t].bits))
  {
    hide MarkStrings;
    hide TableStrings;
    hide ClearedTable;
    hide WeakStrings;
    hide ClearedHeap;
    hide Distinct;
    var t, S := weak[i], WeakStrings(heap, c, weak[..i]);
    var h', c' := ClearedHeap(heap, c, weak[..i]), MarkStrings(c, S);
    ClearedHeapStrings(heap, c, weak[..i]);
    ClearedHeapNext(heap, c, weak, i);
    WeakStringsNext(heap, c, weak, i);
    ClearedSameStrings(heap, h', c', heap[t]);
    ClearedTableKept(heap, c, S, heap[t]);
    MarkStringsTwice(c, S, TableStrings(heap, c, heap[t], heap[t].bits));
  }

  lemma ClearedHeapNext(heap: Heap, c: Colors, weak: seq<Ref>, i: nat)
    requires i < |weak| && Distinct(weak) && weak[i] in heap && heap[weak[i]].Table?
    ensures var h', t := ClearedHeap(heap, c, weak[..i]), weak[i];
            t in h' && h'[t] == heap[t] && t !in weak[..i] && ClearedHeap(heap, c, weak[..i + 1]) == h'[t := ClearedTable(heap, c, heap[t])]
  {
    hide ClearedTable;
    forall j | 0 <= j < i ensures weak[..i][j] != weak[i] {
      DistinctAt(weak, j, i);
    }
    assert weak[..i + 1] == weak[..i] + [weak[i]];
  }

  lemma WeakStringsNext(heap: Heap, c: Colors, weak: seq<Ref>, i: nat)
    requires i < |weak| && weak[i] in heap && heap[weak[i]].Table?
    ensures WeakStrings(heap, c, weak[..i + 1]) == WeakStrings(heap, c, weak[..i]) + TableStrings(heap, c, heap[weak[i]], heap[weak[i]].bits)
  {
    hide TableStrings;
    assert weak[..i + 1] == weak[..i] + [weak[i]];
  }

  /** After all weak tables were cleared, marked objects refer to marked objects only. */
  lemma ClearedAll(heap: Heap, c: Colors, weak: seq<Ref>, r: Ref)
    requires c.Keys == heap.Keys && NoDangling(heap) && WeakClean(heap, c, weak) && r in heap
    requires !MarkStrings(c, WeakStrings(heap, c, weak))[r].White?
    requires !c[r].White? && r !in weak ==> Marked(c, EntryRefs(heap, heap[r]))
    requires r in weak ==> !c[r].White?
    ensures var h', c' := ClearedHeap(heap, c, weak), MarkStrings(c, WeakStrings(heap, c, weak));
            Marked(c', EntryRefs(h', h'[r]))
  {
    hide ClearedTable;
    hide TableStrings;
    hide TableRefs;
    var S := WeakStrings(heap, c, weak);
    if r in weak {
      ClearedWeak(heap, c, weak, r);
    } else if c[r].White? {
      ClearedHeapStrings(heap, c, weak);
      assert heap[r].String?;
    } else {
      hide WeakStrings;
      MarkStringsAdvances(c, S, EntryRefs(heap, heap[r]));
      hide MarkStrings;
      hide Marked;
      ClearedUpvals(heap, c, weak);
      assert EntryRefs(ClearedHeap(heap, c, weak), heap[r]) == EntryRefs(heap, heap[r]);
    }
  }

  lemma ClearedWeak(heap: Heap, c: Colors, weak: seq<Ref>, r: Ref)
    requires c.Keys == heap.Keys && NoDangling(heap) && WeakClean(heap, c, weak) && r in weak && r in heap
    ensures var h', c' := ClearedHeap(heap, c, weak), MarkStrings(c, WeakStrings(heap, c, weak));
            Marked(c', EntryRefs(h', h'[r]))
  {
    hide ClearedTable;
    hide TableStrings;
    hide MarkStrings;
    hide TableRefs;
    assert WeakDone(heap, c, r);
    var S, T := WeakStrings(heap, c, weak), TableStrings(heap, c, heap[r], heap[r].bits);
    assert T + S == S;
    var t := ClearedTable(heap, c, heap[r]);
    ClearedIsTable(heap, c, heap[r]);
    ClearedTableMarked(heap, c, r);
    MarkStringsAdvances(MarkStrings(c, T), S, TableRefs(t, STRONG));
    MarkStringsTwice(c, T, S);
    assert ClearedHeap(heap, c, weak)[r] == t;
  }

  lemma ClearedIsTable(heap: Heap, c: Colors, t: Obj)
    requires t.Table?
    ensures var t' := ClearedTable(heap, c, t);
            t'.Table? && t'.meta == t.meta && t'.mode == t.mode && t'.bits == t.bits
  {
  }

  lemma ClearedUpvals(heap: Heap, c: Colors, weak: seq<Ref>)
    ensures forall u {:trigger UpvalValue(ClearedHeap(heap, c, weak), u)} :: UpvalValue(ClearedHeap(heap, c, weak), u) == UpvalValue(heap, u)
  {
  }

  lemma HashAfterArray(heap: Heap, c: Colors, S: set<Ref>, t: Obj)
    requires t.Table? && S == (if t.bits.values then StringsIn(heap, t.arr) else {})
    ensures ClearNodes(heap, MarkStrings(c, S), t.nodes) == ClearNodes(heap, c, t.nodes)
    ensures NodesStrings(heap, MarkStrings(c, S), t.nodes) == NodesStrings(heap, c, t.nodes)
  {
    var c' := MarkStrings(c, S);
    forall v ensures Cleared(heap, c', v) == Cleared(heap, c, v) {
      ClearedKept(heap, c, S, v);
    }
    hide Cleared;
    hide MarkStrings;
    assert ClearNodes(heap, c', t.nodes) == ClearNodes(heap, c, t.nodes);
    forall n ensures NodeStrings(heap, c', n) == NodeStrings(heap, c, n) {
    }
  }

  lemma ClearedDomain(heap: Heap, c: Colors, weak: seq<Ref>, r: Ref)
    requires NoDangling(heap) && r in heap && r !in weak && heap[r].Table?
    ensures ClearedHeap(heap, c, weak).Keys == heap.Keys && ClearedHeap(heap, c, weak)[r] == heap[r]
    ensures EntryRefs(ClearedHeap(heap, c, weak), heap[r]) <= heap.Keys
  {
    assert EntryRefs(heap, heap[r]) <= heap.Keys;
  }
}