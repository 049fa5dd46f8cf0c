/** The tricolour invariant of the mark phase (lua/lgc.c): no black object refers to a white
    one, and every gray object is still to be visited. */
module Marking {
  import opened GcHeap

  ghost predicate Marked(color: Colors, S: set<Ref>) {
    forall r :: r in S ==> r in color && !color[r].White?
  }

  predicate Container(o: Obj) {
    o.Table? || o.Closure? || o.Thread?
  }

  predicate OpenUpval(o: Obj) {
    o.Upval? && o.u.Open?
  }

  ghost predicate BlackOk(heap: Heap, color: Colors, r: Ref)
    requires r in heap
  {
    !heap[r].String? && !heap[r].Thread? && !OpenUpval(heap[r]) && Marked(color, AnyRefs(heap, heap[r]))
  }

  ghost predicate GrayOk(heap: Heap, L: seq<Ref>, r: Ref)
    requires r in heap
  {
    heap[r].String? || OpenUpval(heap[r]) || r in L
  }

  ghost predicate Distinct(L: seq<Ref>) {
    forall i, j :: 0 <= i < j < |L| ==> L[i] != L[j]
  }

  /** No black object refers to a white one, and every gray object is still to be visited: it is on
      one of the lists `L`, each of them on one place only. */
  ghost predicate Tri(heap: Heap, color: Colors, L: seq<Ref>, except: set<Ref>) {
    && color.Keys == heap.Keys
    && (forall r {:trigger ColorOk(heap, color, L, r)} :: r in heap && r !in except ==> ColorOk(heap, color, L, r))
    && (forall r {:trigger ListOk(heap, color, r)} :: r in L ==> r in heap && (ListOk(heap, color, r) || r in except) && Container(heap[r]))
    && Distinct(L)
  }

  ghost predicate ColorOk(heap: Heap, color: Colors, L: seq<Ref>, r: Ref)
    requires r in heap && r in color
  {
    (color[r].Black? ==> BlackOk(heap, color, r)) && (color[r].Gray? ==> GrayOk(heap, L, r))
  }

  predicate ListOk(heap: Heap, color: Colors, r: Ref) {
    r in color && color[r] == Gray
  }

  /** White objects of `R` may have been marked; nothing else changed. */
  ghost predicate Grows(c: Colors, c': Colors, R: set<Ref>) {
    && c'.Keys == c.Keys
    && forall r {:trigger c'[r]} :: r in c ==> c'[r] == c[r] || (c[r].White? && !c'[r].White? && r in R)
  }

  /** An open upvalue is marked together with its value, and tables are first marked gray. */
  ghost predicate NewUpvals(heap: Heap, c: Colors, c': Colors) {
    forall r {:trigger heap[r]} :: r in heap && r in c && r in c' && c[r].White? && !c'[r].White? ==>
      && (OpenUpval(heap[r]) ==> Marked(c', Ref1(UpvalValue(heap, heap[r].u))))
      && (heap[r].Table? ==> c'[r] == Gray)
  }

  ghost predicate NewOpen(heap: Heap, c: Colors, c': Colors) {
    forall r {:trigger heap[r]} :: r in heap && r in c && r in c' && OpenUpval(heap[r]) && c[r].White? && !c'[r].White? ==>
      Marked(c', Ref1(UpvalValue(heap, heap[r].u)))
  }

  /** Only tables that are not weak are black. */
  ghost predicate BlackStrong(heap: Heap, c: Colors) {
    forall r {:trigger heap[r]} :: r in heap && r in c && heap[r].Table? && c[r].Black? ==> heap[r].mode == STRONG
  }

  /** No reference dangles. */
  ghost predicate NoDangling(heap: Heap) {
    EntryClosed(heap, heap.Keys)
  }

  ghost predicate NoOther(color: Colors, white: bool) {
    forall r :: r in color ==> color[r] != White(!white)
  }

  ghost predicate MarkedIn(color: Colors, R: set<Ref>) {
    forall r {:trigger color[r]} :: r in color && !color[r].White? ==> r in R
  }

  ghost function Whites(color: Colors): set<Ref> {
    set r | r in color && color[r].White?
  }

  // ----- steps -----

  lemma MarkedGrows(c: Colors, c': Colors, R: set<Ref>, S: set<Ref>)
    requires Grows(c, c', R) && Marked(c, S)
    ensures Marked(c', S)
  {
  }

  lemma GrowsTwice(heap: Heap, c: Colors, c': Colors, c'': Colors, R: set<Ref>)
    requires Grows(c, c', R) && Grows(c', c'', R)
    ensures Grows(c, c'', R)
    ensures NewUpvals(heap, c, c') && NewUpvals(heap, c', c'') ==> NewUpvals(heap, c, c'')
  {
    forall r | r in c ensures c''[r] == c[r] || (c[r].White? && !c''[r].White? && r in R) {
      var _ := c'[r];
    }
    if NewUpvals(heap, c, c') && NewUpvals(heap, c', c'') {
      forall r | r in heap && r in c && r in c'' && c[r].White? && !c''[r].White?
        ensures OpenUpval(heap[r]) ==> Marked(c'', Ref1(UpvalValue(heap, heap[r].u)))
        ensures heap[r].Table? ==> c''[r] == Gray
      {
        if !c'[r].White? && OpenUpval(heap[r]) {
          MarkedGrows(c', c'', R, Ref1(UpvalValue(heap, heap[r].u)));
        }
      }
    }
  }

  lemma GrowsOne(color: Colors, r: Ref, R: set<Ref>, k: Color)
    requires r in color && color[r].White? && !k.White? && r in R
    ensures Grows(color, color[r := k], R)
    ensures |Whites(color[r := k])| == |Whites(color)| - 1
  {
    assert Whites(color) == Whites(color[r := k]) + {r};
  }

  lemma BlackGrows(heap: Heap, c: Colors, c': Colors, R: set<Ref>, r: Ref)
    requires r in heap && BlackOk(heap, c, r) && Grows(c, c', R)
    ensures BlackOk(heap, c', r)
  {
    MarkedGrows(c, c', R, AnyRefs(heap, heap[r]));
  }

  lemma DomainOk(heap: Heap, color: Colors, L: seq<Ref>, except: set<Ref>)
    requires Tri(heap, color, L, except)
    ensures color.Keys == heap.Keys
  {
  }

  lemma ExceptGrows(c: Colors, c': Colors, R: set<Ref>, except: set<Ref>)
    requires Grows(c, c', R) && forall r :: r in except ==> r in c && !c[r].White?
    ensures c'.Keys == c.Keys && forall r :: r in except ==> !c'[r].White?
  {
    forall r | r in except ensures !c'[r].White? {
      var _ := c'[r];
    }
  }

  /** A white container becomes gray and goes onto a list. */
  lemma MarkContainer(heap: Heap, color: Colors, L: seq<Ref>, except: set<Ref>, r: Ref)
    requires Tri(heap, color, L, except) && r in heap && color[r].White? && r !in except && Container(heap[r])
    ensures Tri(heap, color[r := Gray], [r] + L, except)
  {
    GrowsOne(color, r, {r}, Gray);
    hide Grows;
    var color', L' := color[r := Gray], [r] + L;
    assert r !in L by { assert r in L ==> ListOk(heap, color, r); }
    forall x | x in heap && x !in except ensures ColorOk(heap, color', L', x) {
      assert ColorOk(heap, color, L, x);
      if color'[x].Black? {
        BlackGrows(heap, color, color', {r}, x);
      }
    }
    forall x | x in L' ensures x in heap && (ListOk(heap, color', x) || x in except) && Container(heap[x]) {
      assert x in L ==> ListOk(heap, color, x) || x in except;
    }
  }

  /** A white object that is not put onto a list becomes gray. */
  lemma MarkOther(heap: Heap, color: Colors, L: seq<Ref>, except: set<Ref>, r: Ref)
    requires Tri(heap, color, L, except) && r in heap && color[r].White? && r !in except
    requires r in L ==> false
    ensures Tri(heap, color[r := Gray], L, except + {r})
    ensures heap[r].String? || OpenUpval(heap[r]) ==> Tri(heap, color[r := Gray], L, except)
  {
    GrowsOne(color, r, {r}, Gray);
    hide Grows;
    var color' := color[r := Gray];
    forall x | x in heap && x !in except && x != r ensures ColorOk(heap, color', L, x) {
      assert ColorOk(heap, color, L, x);
      if color'[x].Black? {
        BlackGrows(heap, color, color', {r}, x);
      }
    }
    forall x | x in L ensures x in heap && (ListOk(heap, color', x) || x in except) && Container(heap[x]) {
      assert ListOk(heap, color, x) || x in except;
    }
    if heap[r].String? || OpenUpval(heap[r]) {
      assert ColorOk(heap, color', L, r);
    }
  }

  lemma WhiteNotListed(heap: Heap, color: Colors, L: seq<Ref>, except: set<Ref>, r: Ref)
    requires Tri(heap, color, L, except) && r in heap && color[r].White? && r !in except
    ensures r !in L
  {
    assert r in L ==> ListOk(heap, color, r);
  }

  /** The object set aside is done. */
  lemma Blacken(heap: Heap, color: Colors, L: seq<Ref>, except: set<Ref>, r: Ref)
    requires Tri(heap, color, L, except + {r}) && r in heap && !color[r].White? && r !in L
    requires BlackOk(heap, color, r)
    ensures Tri(heap, color[r := Black], L, except)
  {
    var color' := color[r := Black];
    forall x | x in heap && x !in except ensures ColorOk(heap, color', L, x) {
      if x != r {
        assert ColorOk(heap, color, L, x);
      }
      if color'[x].Black? {
        assert BlackOk(heap, color, x);
        assert Marked(color', AnyRefs(heap, heap[x]));
      }
    }
    forall x | x in L ensures x in heap && (ListOk(heap, color', x) || x in except) && Container(heap[x]) {
      assert ListOk(heap, color, x) || x in except + {r};
    }
  }

  /** The object set aside stays gray, on list. */
  lemma KeepGray(heap: Heap, color: Colors, L: seq<Ref>, except: set<Ref>, r: Ref)
    requires Tri(heap, color, L, except + {r}) && r in heap && !color[r].White? && r in L
    ensures Tri(heap, color[r := Gray], L, except)
  {
    var color' := color[r := Gray];
    forall x | x in heap && x !in except ensures ColorOk(heap, color', L, x) {
      if x != r {
        assert ColorOk(heap, color, L, x);
        if color'[x].Black? {
          assert Marked(color', AnyRefs(heap, heap[x]));
        }
      }
    }
    forall x | x in L ensures x in heap && (ListOk(heap, color', x) || x in except) && Container(heap[x]) {
      assert ListOk(heap, color, x) || x in except + {r};
    }
  }

  lemma DistinctAt(L: seq<Ref>, i: nat, j: nat)
    requires Distinct(L) && i < j < |L|
    ensures L[i] != L[j]
  {
  }

  /** Take a gray object off its list and blacken it, to visit it now. */
  lemma TakeOff(heap: Heap, color: Colors, r: Ref, L: seq<Ref>)
    requires Tri(heap, color, [r] + L, {})
    ensures r in heap && Container(heap[r]) && r !in L && color[r] == Gray
    ensures Tri(heap, color[r := Black], L, {r})
  {
    var L0, color' := [r] + L, color[r := Black];
    assert L0[0] == r && r in L0 && forall i :: 0 <= i < |L| ==> L[i] == L0[i + 1];
    assert ListOk(heap, color, r);
    forall i | 0 <= i < |L| ensures L[i] != r {
      DistinctAt(L0, 0, i + 1);
    }
    forall x | x in heap && x != r ensures ColorOk(heap, color', L, x) {
      assert ColorOk(heap, color, L0, x);
      if color'[x].Black? {
        assert Marked(color', AnyRefs(heap, heap[x]));
      }
    }
    forall x | x in L ensures x in heap && ListOk(heap, color', x) && Container(heap[x]) {
      assert x in L0;
      assert ListOk(heap, color, x);
    }
  }

  /** Put the object set aside onto a list. */
  lemma PutOn(heap: Heap, color: Colors, L: seq<Ref>, except: set<Ref>, r: Ref)
    requires Tri(heap, color, L, except + {r}) && r in heap && Container(heap[r]) && r !in L
    ensures Tri(heap, color, [r] + L, except + {r})
  {
    var L' := [r] + L;
    forall x | x in heap && x !in except + {r} ensures ColorOk(heap, color, L', x) {
      assert ColorOk(heap, color, L, x);
    }
    forall x | x in L' ensures x in heap && (ListOk(heap, color, x) || x in except + {r}) && Container(heap[x]) {
      assert x in L ==> ListOk(heap, color, x) || x in except + {r};
    }
  }

  /** The order of the lists does not matter. */
  lemma Reordered(heap: Heap, color: Colors, L: seq<Ref>, L': seq<Ref>, except: set<Ref>)
    requires Tri(heap, color, L, except) && Distinct(L') && forall r :: r in L <==> r in L'
    ensures Tri(heap, color, L', except)
  {
    forall x | x in heap && x !in except ensures ColorOk(heap, color, L', x) {
      assert ColorOk(heap, color, L, x);
    }
    forall x | x in L' ensures x in heap && (ListOk(heap, color, x) || x in except) && Container(heap[x]) {
      assert x in L;
      assert ListOk(heap, color, x) || x in except;
    }
  }

  lemma NewUpvalsOne(heap: Heap, c: Colors, r: Ref, k: Color)
    requires r in heap && !OpenUpval(heap[r]) && k == Gray
    ensures NewUpvals(heap, c, c[r := k])
  {
  }

  lemma OnlyContainersListed(heap: Heap, color: Colors, L: seq<Ref>, except: set<Ref>, r: Ref)
    requires Tri(heap, color, L, except) && r in heap && !Container(heap[r])
    ensures r !in L
  {
    assert r in L ==> ListOk(heap, color, r) || r in except;
  }

  /** The color of an upvalue once its value is marked: open upvalues are never black. */
  function UpvalColor(u: UpvalState): Color {
    if u.Closed? then Black else Gray
  }

  lemma UpvalDone(heap: Heap, c0: Colors, c: Colors, L: seq<Ref>, except: set<Ref>, R: set<Ref>, o: Ref)
    requires o in heap && heap[o].Upval? && o in c0 && c0[o].White? && o in R && c0.Keys == heap.Keys
    requires Grows(c0[o := Gray], c, R) && NewUpvals(heap, c0[o := Gray], c)
    requires Marked(c, Ref1(UpvalValue(heap, heap[o].u))) && Tri(heap, c, L, except + {o})
    ensures o in c && (heap[o].u.Open? ==> c[o := UpvalColor(heap[o].u)] == c)
    ensures var c' := c[o := UpvalColor(heap[o].u)];
            && Tri(heap, c', L, except) && Grows(c0, c', R) && NewUpvals(heap, c0, c')
            && Whites(c') == Whites(c) && !c'[o].White?
  {
    OnlyContainersListed(heap, c, L, except + {o}, o);
    var c', c1 := c[o := UpvalColor(heap[o].u)], c0[o := Gray];
    assert c[o] == Gray by { assert c[o] == c1[o]; }
    if heap[o].u.Closed? {
      Blacken(heap, c, L, except, o);
    } else {
      assert c' == c;
      hide Grows;
      hide NewUpvals;
      GrayUpval(heap, c, L, except, o);
    }
    UpvalGrows(heap, c0, c, R, o);
  }

  lemma GrayUpval(heap: Heap, c: Colors, L: seq<Ref>, except: set<Ref>, o: Ref)
    requires o in heap && OpenUpval(heap[o]) && Tri(heap, c, L, except + {o}) && c[o] == Gray
    ensures Tri(heap, c, L, except)
  {
    OnlyContainersListed(heap, c, L, except + {o}, o);
    forall x | x in heap && x !in except ensures ColorOk(heap, c, L, x) {
      assert x != o ==> ColorOk(heap, c, L, x);
    }
    forall x | x in L ensures x in heap && (ListOk(heap, c, x) || x in except) && Container(heap[x]) {
      assert ListOk(heap, c, x) || x in except + {o};
    }
  }

  lemma UpvalGrows(heap: Heap, c0: Colors, c: Colors, R: set<Ref>, o: Ref)
    requires o in heap && heap[o].Upval? && o in c0 && c0[o].White? && o in R && c0.Keys == heap.Keys
    requires Grows(c0[o := Gray], c, R) && NewUpvals(heap, c0[o := Gray], c)
    requires Marked(c, Ref1(UpvalValue(heap, heap[o].u)))
    ensures o in c
    ensures var c' := c[o := UpvalColor(heap[o].u)];
            Grows(c0, c', R) && NewUpvals(heap, c0, c') && Whites(c') == Whites(c)
  {
    var c', c1 := c[o := UpvalColor(heap[o].u)], c0[o := Gray];
    assert c[o] == c1[o] == Gray;
    forall r | r in c0 ensures c'[r] == c0[r] || (c0[r].White? && !c'[r].White? && r in R) {
      assert c[r] == c1[r] || (c1[r].White? && !c[r].White? && r in R);
    }
    assert Marked(c', Ref1(UpvalValue(heap, heap[o].u)));
    forall r | r in heap && r in c0 && r in c' && c0[r].White? && !c'[r].White?
      ensures OpenUpval(heap[r]) ==> Marked(c', Ref1(UpvalValue(heap, heap[r].u)))
      ensures heap[r].Table? ==> c'[r] == Gray
    {
      if r != o && OpenUpval(heap[r]) {
        assert Marked(c, Ref1(UpvalValue(heap, heap[r].u)));
      }
    }
  }

  lemma NoOtherGrows(c: Colors, c': Colors, R: set<Ref>, white: bool)
    requires Grows(c, c', R) && NoOther(c, white)
    ensures NoOther(c', white)
  {
    forall r | r in c' ensures c'[r] != White(!white) {
      assert c[r] != White(!white);
    }
  }

  lemma UpvalRefs(heap: Heap, o: Ref, R: set<Ref>)
    requires NoDangling(heap) && StrongClosed(heap, R) && o in heap && o in R && heap[o].Upval?
    ensures Ref1(UpvalValue(heap, heap[o].u)) <= heap.Keys && Ref1(UpvalValue(heap, heap[o].u)) <= R
  {
    assert EntryRefs(heap, heap[o]) <= heap.Keys && StrongRefs(heap, heap[o]) <= R;
  }

  lemma GrowsSame(heap: Heap, c: Colors, R: set<Ref>)
    ensures Grows(c, c, R) && NewUpvals(heap, c, c)
  {
  }

  lemma MarkedBoth(c: Colors, S: set<Ref>, T: set<Ref>)
    requires Marked(c, S) && Marked(c, T)
    ensures Marked(c, S + T)
  {
  }

  lemma MarkedNothing(c: Colors)
    ensures Marked(c, {})
  {
  }

  lemma RefsUpTo(vs: seq<Value>, c: Colors)
    ensures Marked(c, Refs(vs[..0]))
  {
  }

  lemma RefsNext(vs: seq<Value>, i: nat)
    requires i < |vs|
    ensures Refs(vs[..i + 1]) == Refs(vs[..i]) + Ref1(vs[i]) && Ref1(vs[i]) <= Refs(vs)
  {
    assert vs[..i + 1] == vs[..i] + [vs[i]];
  }

  /** Only objects that were white were pushed. */
  ghost predicate Pushed(c: Colors, gray: seq<Ref>, gray': seq<Ref>) {
    forall r :: r in gray' ==> r in gray || (r in c && c[r].White?)
  }

  lemma PushedSame(c: Colors, gray: seq<Ref>)
    ensures Pushed(c, gray, gray)
  {
  }

  lemma PushedTwice(c: Colors, c': Colors, R: set<Ref>, gray: seq<Ref>, gray': seq<Ref>, gray'': seq<Ref>)
    requires Grows(c, c', R) && Pushed(c, gray, gray') && Pushed(c', gray', gray'')
    ensures Pushed(c, gray, gray'')
  {
    forall r | r in gray'' ensures r in gray || (r in c && c[r].White?) {
      if r !in gray' {
        assert c'[r].White?;
      }
    }
  }

  lemma PushedAfter(c: Colors, o: Ref, gray: seq<Ref>, gray': seq<Ref>)
    requires Pushed(c[o := Gray], gray, gray')
    ensures Pushed(c, gray, gray')
  {
    forall r | r in gray' ensures r in gray || (r in c && c[r].White?) {
    }
  }

  lemma NotPushed(c: Colors, gray: seq<Ref>, gray': seq<Ref>, grayagain: seq<Ref>, weak: seq<Ref>, r: Ref)
    requires Pushed(c, gray, gray') && r in c && !c[r].White? && r !in gray + grayagain + weak
    ensures r !in gray' + grayagain + weak
  {
  }

  // ----- removing the keys of empty entries -----

  /** `removeentry`. */
  function RemoveEntry(n: Node): Node {
    if n.key.LiveKey? && n.key.v.Gc? then n.(key := DeadKey) else n
  }

  function KeyValue(n: Node): Value {
    if n.key.LiveKey? then n.key.v else Nil
  }

  function CleanNode(n: Node): Node {
    if n.val == Nil then RemoveEntry(n) else n
  }

  /** The keys of empty entries are dead. */
  function Cleaned(nodes: seq<Node>): seq<Node> {
    seq(|nodes|, i requires 0 <= i < |nodes| => CleanNode(nodes[i]))
  }

  /** The entries that are not empty. */
  ghost function Entries(nodes: seq<Node>): set<Node> {
    set n | n in nodes && n.val != Nil
  }

  lemma CleanedEntries(nodes: seq<Node>)
    ensures Entries(Cleaned(nodes)) == Entries(nodes) && LiveKeyRefs(Cleaned(nodes)) == KeyRefs(nodes)
    ensures LiveKeyRefs(Cleaned(nodes)) <= LiveKeyRefs(nodes)
  {
    var ns := Cleaned(nodes);
    forall n | n in Entries(nodes) ensures n in ns {
      var i :| 0 <= i < |nodes| && nodes[i] == n;
      assert ns[i] == n;
    }
    forall r | r in KeyRefs(nodes) ensures r in LiveKeyRefs(ns) {
      var n :| n in nodes && n.val != Nil && n.key.LiveKey? && n.key.v == Gc(r);
      assert n in Entries(nodes) && n in ns;
    }
  }

  /** Empty entries may have lost their keys, and the cached weakness of a table may be new. */
  ghost predicate SameObj(o: Obj, o': Obj) {
    || o' == o
    || (o.Table? && o'.Table? && o'.meta == o.meta && o'.mode == o.mode && o'.arr == o.arr
        && Entries(o'.nodes) == Entries(o.nodes) && LiveKeyRefs(o'.nodes) <= LiveKeyRefs(o.nodes))
  }

  ghost predicate HeapSame(h: Heap, h': Heap) {
    h'.Keys == h.Keys && forall r {:trigger h'[r]} :: r in h ==> SameObj(h[r], h'[r])
  }

  lemma HeapSameTwice(h: Heap, h': Heap, h'': Heap)
    requires HeapSame(h, h') && HeapSame(h', h'')
    ensures HeapSame(h, h'')
  {
    forall r | r in h ensures SameObj(h[r], h''[r]) {
      assert SameObj(h[r], h'[r]);
    }
  }

  lemma SameUpvals(h: Heap, h': Heap, u: UpvalState)
    requires HeapSame(h, h')
    ensures UpvalValue(h', u) == UpvalValue(h, u)
  {
    if u.Open? && u.thread in h {
      var _ := h'[u.thread];
    }
  }

  lemma EntriesRefs(o: Obj, o': Obj, w: Weakness)
    requires o.Table? && o'.Table? && SameObj(o, o')
    ensures TableRefs(o', w) == TableRefs(o, w)
  {
    KeyRefsOfEntries(o.nodes);
    KeyRefsOfEntries(o'.nodes);
  }

  lemma KeyRefsOfEntries(nodes: seq<Node>)
    ensures KeyRefs(nodes) == set n | n in Entries(nodes) && n.key.LiveKey? && n.key.v.Gc? :: n.key.v.r
    ensures ValRefs(nodes) == set n | n in Entries(nodes) && n.val.Gc? :: n.val.r
  {
  }

  lemma HeapSameRefs(h: Heap, h': Heap, r: Ref)
    requires HeapSame(h, h') && r in h
    ensures StrongRefs(h', h'[r]) == StrongRefs(h, h[r]) && EntryRefs(h', h'[r]) == EntryRefs(h, h[r])
    ensures AnyRefs(h', h'[r]) <= AnyRefs(h, h[r])
  {
    assert SameObj(h[r], h'[r]);
    match h[r]
    case Table(_, mode, _, _, _) =>
      EntriesRefs(h[r], h'[r], mode);
      EntriesRefs(h[r], h'[r], STRONG);
    case Upval(u) => SameUpvals(h, h', u);
    case _ =>
  }

  lemma HeapSameKinds(h: Heap, h': Heap, r: Ref)
    requires HeapSame(h, h') && r in h
    ensures h'[r].String? == h[r].String? && h'[r].Table? == h[r].Table? && h'[r].Closure? == h[r].Closure?
    ensures (h[r].Thread? || h[r].Upval? ==> h'[r] == h[r])
  {
    assert SameObj(h[r], h'[r]);
  }

  lemma TriHeap(h: Heap, h': Heap, color: Colors, L: seq<Ref>, except: set<Ref>)
    requires HeapSame(h, h') && Tri(h, color, L, except)
    ensures Tri(h', color, L, except)
  {
    forall r | r in h' && r !in except ensures ColorOk(h', color, L, r) {
      hide HeapSame;
      HeapSameKinds(h, h', r);
      HeapSameRefs(h, h', r);
      assert ColorOk(h, color, L, r);
      if color[r].Black? {
        assert Marked(color, AnyRefs(h, h[r]));
      }
    }
    forall r | r in L ensures r in h' && (ListOk(h', color, r) || r in except) && Container(h'[r]) {
      hide HeapSame;
      assert ListOk(h, color, r) || r in except;
      HeapSameKinds(h, h', r);
    }
  }

  lemma HeapSameClosed(h: Heap, h': Heap, R: set<Ref>)
    requires HeapSame(h, h')
    ensures StrongClosed(h, R) <==> StrongClosed(h', R)
    ensures EntryClosed(h, R) <==> EntryClosed(h', R)
  {
    forall r | r in h
      ensures StrongRefs(h', h'[r]) == StrongRefs(h, h[r]) && EntryRefs(h', h'[r]) == EntryRefs(h, h[r])
    {
      HeapSameRefs(h, h', r);
    }
    hide StrongRefs;
    hide EntryRefs;
  }

  lemma NewUpvalsHeap(h: Heap, h': Heap, c: Colors, c': Colors)
    requires HeapSame(h, h')
    ensures NewUpvals(h, c, c') ==> NewUpvals(h', c, c')
    ensures NewOpen(h, c, c') ==> NewOpen(h', c, c')
  {
    forall r | r in h'
      ensures OpenUpval(h'[r]) == OpenUpval(h[r]) && h'[r].Table? == h[r].Table?
      ensures OpenUpval(h'[r]) ==> h'[r] == h[r] && UpvalValue(h', h'[r].u) == UpvalValue(h, h[r].u)
    {
      HeapSameKinds(h, h', r);
      if OpenUpval(h[r]) {
        SameUpvals(h, h', h[r].u);
      }
    }
  }

  lemma NodesFrom(nodes: seq<Node>, c: Colors)
    ensures Marked(c, KeyRefs(nodes[|nodes|..])) && Marked(c, ValRefs(nodes[|nodes|..]))
  {
  }

  lemma NodesNext(nodes: seq<Node>, i: nat)
    requires i < |nodes|
    ensures KeyRefs(nodes[i..]) == KeyRefs(nodes[i + 1..]) + KeyRefs([nodes[i]])
    ensures ValRefs(nodes[i..]) == ValRefs(nodes[i + 1..]) + ValRefs([nodes[i]])
    ensures KeyRefs([nodes[i]]) == if nodes[i].val == Nil then {} else Ref1(KeyValue(nodes[i]))
    ensures ValRefs([nodes[i]]) == Ref1(nodes[i].val)
    ensures KeyRefs([nodes[i]]) <= KeyRefs(nodes) && ValRefs([nodes[i]]) <= ValRefs(nodes)
  {
    assert nodes[i..] == [nodes[i]] + nodes[i + 1..];
  }

  /** What holds while objects are being marked, the ones in `except` set aside. Marks stay inside
      `R`, which is closed. */
  ghost predicate MarkOk(heap: Heap, color: Colors, L: seq<Ref>, white: bool, except: set<Ref>, R: set<Ref>) {
    && Tri(heap, color, L, except)
    && NoDangling(heap) && NoOther(color, white)
    && StrongClosed(heap, R)
    && except <= heap.Keys && forall r :: r in except ==> !color[r].White?
  }

  /** One table changed without losing or gaining references. */
  lemma NewObj(heap: Heap, color: Colors, L: seq<Ref>, white: bool, except: set<Ref>, R: set<Ref>, r: Ref, o: Obj)
    requires MarkOk(heap, color, L, white, except, R) && r in heap && SameObj(heap[r], o)
    ensures MarkOk(heap[r := o], color, L, white, except, R) && HeapSame(heap, heap[r := o])
  {
    hide Tri;
    hide StrongClosed;
    hide NoOther;
    var h' := heap[r := o];
    forall x | x in heap ensures SameObj(heap[x], h'[x]) {
    }
    assert HeapSame(heap, h');
    hide HeapSame;
    TriHeap(heap, h', color, L, except);
    HeapSameClosed(heap, h', R);
    HeapSameClosed(heap, h', heap.Keys);
    DomainOk(heap, color, L, except);
    DomainOk(h', color, L, except);
  }

  lemma TableRefsIn(heap: Heap, color: Colors, L: seq<Ref>, white: bool, except: set<Ref>, R: set<Ref>, h: Ref)
    requires MarkOk(heap, color, L, white, except, R) && h in heap && heap[h].Table? && h in R
    ensures Ref1(heap[h].meta) <= heap.Keys * R
    ensures !heap[h].mode.values ==> Refs(heap[h].arr) <= heap.Keys * R && ValRefs(heap[h].nodes) <= heap.Keys * R
    ensures !heap[h].mode.keys ==> KeyRefs(heap[h].nodes) <= heap.Keys * R
  {
    hide Tri;
    assert EntryRefs(heap, heap[h]) <= heap.Keys && StrongRefs(heap, heap[h]) <= R;
  }

  lemma TableMarked(heap: Heap, color: Colors, o: Obj, nodes: seq<Node>)
    requires o.Table? && Marked(color, Ref1(o.meta))
    requires o.nodes == nodes || o.nodes == Cleaned(nodes)
    requires !o.mode.values ==> Marked(color, Refs(o.arr)) && Marked(color, ValRefs(nodes))
    requires !o.mode.keys ==> Marked(color, KeyRefs(nodes))
    ensures Marked(color, StrongRefs(heap, o))
    ensures o.mode == STRONG && o.nodes == Cleaned(nodes) ==> Marked(color, AnyRefs(heap, o))
  {
    CleanedEntries(nodes);
    KeyRefsOfEntries(nodes);
    KeyRefsOfEntries(o.nodes);
  }

  lemma DistinctInsert(A: seq<Ref>, B: seq<Ref>, r: Ref)
    requires Distinct(A + B) && r !in A + B
    ensures Distinct(A + ([r] + B))
  {
    var L, L' := A + B, A + ([r] + B);
    forall i, j | 0 <= i < j < |L'| ensures L'[i] != L'[j] {
      var i0, j0 := if i < |A| then i else i - 1, if j < |A| then j else j - 1;
      if i == |A| {
        assert L'[j] == L[j0];
      } else if j == |A| {
        assert L'[i] == L[i0];
      } else {
        assert L'[i] == L[i0] && L'[j] == L[j0];
      }
    }
  }

  lemma NotWhite(heap: Heap, color: Colors, L: seq<Ref>, white: bool, except: set<Ref>, R: set<Ref>, r: Ref)
    requires MarkOk(heap, color, L, white, except, R) && r in except
    ensures r in color && !color[r].White?
  {
    DomainOk(heap, color, L, except);
  }

  // ----- progress of the mark phase -----

  ghost predicate Advances(c: Colors, c': Colors) {
    c'.Keys == c.Keys && forall r {:trigger c'[r]} :: r in c && !c[r].White? ==> !c'[r].White?
  }

  /** A weak table that was traversed. */
  ghost predicate WeakDone(heap: Heap, color: Colors, r: Ref) {
    && r in heap && heap[r].Table? && heap[r].bits == heap[r].mode && heap[r].mode != STRONG
    && Marked(color, StrongRefs(heap, heap[r]))
  }

  ghost predicate ThreadDone(heap: Heap, color: Colors, r: Ref) {
    r in heap && heap[r].Thread? && Marked(color, StrongRefs(heap, heap[r]))
  }

  ghost predicate WeakClean(heap: Heap, color: Colors, weak: seq<Ref>) {
    forall r :: r in weak ==> WeakDone(heap, color, r)
  }

  ghost predicate ThreadsClean(heap: Heap, color: Colors, grayagain: seq<Ref>) {
    forall r :: r in grayagain ==> ThreadDone(heap, color, r)
  }

  /** Objects were marked, all of them in `R`; and if the weak tables and threads on the lists had
      been traversed, so have those on the new lists. */
  ghost predicate Progress(h: Heap, c: Colors, weak: seq<Ref>, again: seq<Ref>,
                           h': Heap, c': Colors, weak': seq<Ref>, again': seq<Ref>, R: set<Ref>) {
    && HeapSame(h, h') && Advances(c, c') && NewOpen(h', c, c')
    && (BlackStrong(h, c) ==> BlackStrong(h', c'))
    && (MarkedIn(c, R) ==> MarkedIn(c', R))
    && (WeakClean(h, c, weak) ==> WeakClean(h', c', weak'))
    && (ThreadsClean(h, c, again) ==> ThreadsClean(h', c', again'))
  }

  lemma MarkedAdvances(c: Colors, c': Colors, S: set<Ref>)
    requires Advances(c, c') && Marked(c, S)
    ensures Marked(c', S)
  {
    forall r | r in S ensures r in c' && !c'[r].White? {
      assert !c[r].White?;
    }
  }

  lemma ProgressTwice(h: Heap, c: Colors, weak: seq<Ref>, again: seq<Ref>,
                      h': Heap, c': Colors, weak': seq<Ref>, again': seq<Ref>,
                      h'': Heap, c'': Colors, weak'': seq<Ref>, again'': seq<Ref>, R: set<Ref>)
    requires Progress(h, c, weak, again, h', c', weak', again', R)
    requires Progress(h', c', weak', again', h'', c'', weak'', again'', R)
    ensures Progress(h, c, weak, again, h'', c'', weak'', again'', R)
  {
    HeapSameTwice(h, h', h'');
    hide WeakClean;
    hide ThreadsClean;
    hide MarkedIn;
    hide BlackStrong;
    NewUpvalsHeap(h', h'', c, c');
    hide HeapSame;
    assert Advances(c, c'') by {
      forall r | r in c && !c[r].White? ensures !c''[r].White? {
        assert !c'[r].White?;
      }
    }
    NewUpvalsAdvance(h'', c, c', c'');
  }

  lemma NewUpvalsAdvance(heap: Heap, c: Colors, c': Colors, c'': Colors)
    requires Advances(c, c') && Advances(c', c'') && NewOpen(heap, c, c') && NewOpen(heap, c', c'')
    ensures NewOpen(heap, c, c'')
  {
    forall r | r in heap && r in c && r in c'' && OpenUpval(heap[r]) && c[r].White? && !c''[r].White?
      ensures Marked(c'', Ref1(UpvalValue(heap, heap[r].u)))
    {
      if !c'[r].White? {
        MarkedAdvances(c', c'', Ref1(UpvalValue(heap, heap[r].u)));
      }
    }
  }

  /** Visiting the object `o` set aside, after which it gets color `k`. */
  lemma Visited(h: Heap, c: Colors, weak: seq<Ref>, again: seq<Ref>, h': Heap, c': Colors,
                weak': seq<Ref>, again': seq<Ref>, o: Ref, k: Color, R: set<Ref>)
    requires o in h && o in R && o in c && !c[o].White? && Container(h[o])
    requires o in h' && h' == h[o := h'[o]] && SameObj(h[o], h'[o])
    requires Grows(c, c', R) && NewUpvals(h', c, c') && !k.White?
    requires weak' == weak || (weak' == [o] + weak && WeakDone(h', c', o))
    requires again' == again || (again' == [o] + again && ThreadDone(h', c', o))
    requires o !in weak && (k == Black && h[o].Table? ==> h[o].mode == STRONG)
    ensures Progress(h, c[o := Gray], weak, again, h', c'[o := k], weak', again', R)
  {
    var c0, c'' := c[o := Gray], c'[o := k];
    forall x | x in h ensures SameObj(h[x], h'[x]) {
    }
    assert HeapSame(h, h');
    forall r | r in c0 && !c0[r].White? ensures !c''[r].White? {
      var _ := c'[r];
    }
    VisitedBlackStrong(h, c, h', c', o, k, R);
    assert NewOpen(h', c0, c'') by {
      forall r | r in h' && r in c0 && r in c'' && OpenUpval(h'[r]) && c0[r].White? && !c''[r].White?
        ensures Marked(c'', Ref1(UpvalValue(h', h'[r].u)))
      {
        assert Marked(c', Ref1(UpvalValue(h', h'[r].u)));
      }
    }
    if MarkedIn(c0, R) {
      forall r | r in c'' && !c''[r].White? ensures r in R {
        var _, _ := c'[r], c0[r];
      }
    }
    hide HeapSame;
    hide NewUpvals;
    hide Grows;
    hide BlackStrong;
    MarkedGrowsRecolored(c, c', R, o, k);
    VisitedLists(h, c0, weak, again, h', c', weak', again', o, k);
  }

  lemma VisitedBlackStrong(h: Heap, c: Colors, h': Heap, c': Colors, o: Ref, k: Color, R: set<Ref>)
    requires o in h && o in c && o in h' && h' == h[o := h'[o]] && SameObj(h[o], h'[o])
    requires Grows(c, c', R) && NewUpvals(h', c, c') && (k == Black && h[o].Table? ==> h[o].mode == STRONG)
    ensures BlackStrong(h, c[o := Gray]) ==> BlackStrong(h', c'[o := k])
  {
    if BlackStrong(h, c[o := Gray]) {
      forall r | r in h' && r in c'[o := k] && h'[r].Table? && c'[o := k][r].Black? ensures h'[r].mode == STRONG {
        if r != o {
          assert h'[r] == h[r] && c'[r] == c[r];
        }
      }
    }
  }

  lemma MarkedGrowsRecolored(c: Colors, c': Colors, R: set<Ref>, o: Ref, k: Color)
    requires Grows(c, c', R) && o in c && !c[o].White? && !k.White?
    ensures forall S {:trigger Marked(c[o := Gray], S)} :: Marked(c[o := Gray], S) ==> Marked(c'[o := k], S)
    ensures forall S {:trigger Marked(c', S)} :: Marked(c', S) ==> Marked(c'[o := k], S)
  {
    var c0 := c[o := Gray];
    forall S | Marked(c0, S) ensures Marked(c'[o := k], S) {
      assert Marked(c, S);
      MarkedGrows(c, c', R, S);
    }
  }

  lemma VisitedLists(h: Heap, c: Colors, weak: seq<Ref>, again: seq<Ref>, h': Heap, c': Colors,
                     weak': seq<Ref>, again': seq<Ref>, o: Ref, k: Color)
    requires o in h && o in h' && h' == h[o := h'[o]] && SameObj(h[o], h'[o]) && HeapSame(h, h') && o !in weak
    requires forall S {:trigger Marked(c, S)} :: Marked(c, S) ==> Marked(c'[o := k], S)
    requires forall S {:trigger Marked(c', S)} :: Marked(c', S) ==> Marked(c'[o := k], S)
    requires weak' == weak || (weak' == [o] + weak && WeakDone(h', c', o))
    requires again' == again || (again' == [o] + again && ThreadDone(h', c', o))
    ensures WeakClean(h, c, weak) ==> WeakClean(h', c'[o := k], weak')
    ensures ThreadsClean(h, c, again) ==> ThreadsClean(h', c'[o := k], again')
  {
    hide Marked;
    hide StrongRefs;
    if WeakClean(h, c, weak) {
      forall r | r in weak' ensures WeakDone(h', c'[o := k], r) {
        if r in weak {
          assert WeakDone(h, c, r);
          HeapSameRefs(h, h', r);
        }
      }
    }
    if ThreadsClean(h, c, again) {
      forall r | r in again' ensures ThreadDone(h', c'[o := k], r) {
        if r in again {
          assert ThreadDone(h, c, r);
          HeapSameRefs(h, h', r);
          HeapSameKinds(h, h', r);
        }
      }
    }
  }

  lemma VisitedGray(heap: Heap, c: Colors, L: seq<Ref>, white: bool, R: set<Ref>, o: Ref)
    requires MarkOk(heap, c, L, white, {o}, R) && o in L
    ensures o in c && MarkOk(heap, c[o := Gray], L, white, {}, R) && Whites(c[o := Gray]) == Whites(c)
  {
    hide NoDangling;
    hide StrongClosed;
    DomainOk(heap, c, L, {o});
    assert {} + {o} == {o};
    KeepGray(heap, c, L, {}, o);
  }

  lemma VisitedBlack(heap: Heap, c: Colors, L: seq<Ref>, white: bool, R: set<Ref>, o: Ref)
    requires MarkOk(heap, c, L, white, {o}, R) && o !in L && o in heap && (heap[o].Table? || heap[o].Closure?)
    requires Marked(c, AnyRefs(heap, heap[o]))
    ensures o in c && MarkOk(heap, c[o := Black], L, white, {}, R)
  {
    hide NoDangling;
    hide StrongClosed;
    DomainOk(heap, c, L, {o});
    assert {} + {o} == {o};
    Blacken(heap, c, L, {}, o);
  }

  lemma StaysBlack(c: Colors, c': Colors, R: set<Ref>, o: Ref)
    requires Grows(c, c', R) && o in c && c[o] == Black
    ensures o in c' && c'[o := Black] == c'
  {
    var _ := c'[o];
  }

  lemma ObjRefsIn(heap: Heap, color: Colors, L: seq<Ref>, white: bool, except: set<Ref>, R: set<Ref>, o: Ref)
    requires MarkOk(heap, color, L, white, except, R) && o in heap && o in R
    ensures StrongRefs(heap, heap[o]) <= heap.Keys * R
  {
    hide Tri;
    RefsNested(heap, heap[o]);
  }

  lemma PutOnList(heap: Heap, color: Colors, A: seq<Ref>, B: seq<Ref>, white: bool, except: set<Ref>, R: set<Ref>, r: Ref)
    requires MarkOk(heap, color, A + B, white, except, R) && r in except && r in heap && Container(heap[r]) && r !in A + B
    ensures MarkOk(heap, color, A + ([r] + B), white, except, R)
  {
    assert except + {r} == except;
    PutOn(heap, color, A + B, except, r);
    DistinctInsert(A, B, r);
    Reordered(heap, color, [r] + (A + B), A + ([r] + B), except);
  }

  lemma TakenOff(heap: Heap, color: Colors, o: Ref, L: seq<Ref>, white: bool, R: set<Ref>)
    requires MarkOk(heap, color, [o] + L, white, {}, R) && MarkedIn(color, R)
    ensures o in heap && o in color && Container(heap[o]) && o !in L && o in R && color[o] == Gray
    ensures color[o := Black][o := Gray] == color
    ensures MarkOk(heap, color[o := Black], L, white, {o}, R) && Whites(color[o := Black]) == Whites(color)
    ensures MarkedIn(color[o := Black], R)
  {
    hide NoDangling;
    hide StrongClosed;
    DomainOk(heap, color, [o] + L, {});
    TakeOff(heap, color, o, L);
  }

  /** Marking after a gray object was set aside as black. */
  lemma Recolored(c: Colors, c': Colors, R: set<Ref>, o: Ref, heap: Heap)
    requires o in c && c[o] == Black && o in heap && Container(heap[o])
    requires Grows(c[o := Gray], c', R) && NewUpvals(heap, c[o := Gray], c')
    ensures o in c' && c'[o] == Gray && Grows(c, c'[o := Black], R) && NewUpvals(heap, c, c'[o := Black])
    ensures c'[o := Black][o := Gray] == c'
    ensures forall S {:trigger Marked(c', S)} :: Marked(c', S) ==> Marked(c'[o := Black], S)
  {
    assert c'[o] == c[o := Gray][o];
    forall r | r in c ensures c'[o := Black][r] == c[r] || (c[r].White? && !c'[o := Black][r].White? && r in R) {
      var _ := c'[r];
    }
    forall r | r in heap && r in c && r in c' && c[r].White? && !c'[o := Black][r].White?
      ensures OpenUpval(heap[r]) ==> Marked(c'[o := Black], Ref1(UpvalValue(heap, heap[r].u)))
      ensures heap[r].Table? ==> c'[o := Black][r] == Gray
    {
      if OpenUpval(heap[r]) {
        assert Marked(c', Ref1(UpvalValue(heap, heap[r].u)));
      }
    }
  }

  lemma ProgressNone(h: Heap, c: Colors, weak: seq<Ref>, again: seq<Ref>, R: set<Ref>)
    ensures Progress(h, c, weak, again, h, c, weak, again, R)
  {
  }


  // ----- the atomic phase -----

  lemma StartMarking(heap: Heap, color: Colors, white: bool, R: set<Ref>)
    requires color.Keys == heap.Keys && NoDangling(heap) && StrongClosed(heap, R)
    requires forall r :: r in color ==> color[r] == White(white)
    ensures MarkOk(heap, color, [], white, {}, R) && MarkedIn(color, R)
  {
  }

  lemma MainGlobals(heap: Heap, main: Ref, R: set<Ref>)
    requires NoDangling(heap) && StrongClosed(heap, R) && main in heap && main in R && heap[main].Thread?
    ensures Ref1(heap[main].globals) <= heap.Keys * R
  {
    assert EntryRefs(heap, heap[main]) <= heap.Keys && StrongRefs(heap, heap[main]) <= R;
  }

  lemma BlackStrongGrows(heap: Heap, c: Colors, c': Colors, R: set<Ref>)
    requires BlackStrong(heap, c) && Grows(c, c', R) && NewUpvals(heap, c, c')
    ensures BlackStrong(heap, c')
  {
    forall r | r in heap && r in c' && heap[r].Table? && c'[r].Black? ensures heap[r].mode == STRONG {
      assert c'[r] == c[r];
    }
  }

  lemma MarkedRoots(heap: Heap, c0: Colors, c1: Colors, c2: Colors, c3: Colors, c: Colors, R: set<Ref>, main: Ref, registry: Value)
    requires Grows(c0, c1, R) && Grows(c1, c2, R) && Grows(c2, c3, R) && Grows(c3, c, R)
    requires NewUpvals(heap, c0, c1) && NewUpvals(heap, c1, c2) && NewUpvals(heap, c2, c3) && NewUpvals(heap, c3, c)
    requires MarkedIn(c0, R) && Marked(c1, Ref1(Gc(main))) && Marked(c3, Ref1(registry)) && forall r :: r in c0 ==> c0[r].White?
    ensures MarkedIn(c, R) && Marked(c, {main} + Ref1(registry)) && Grows(c0, c, R) && BlackStrong(heap, c)
  {
    GrowsTwice(heap, c0, c1, c2, R);
    GrowsTwice(heap, c1, c2, c3, R);
    GrowsTwice(heap, c0, c2, c3, R);
    GrowsTwice(heap, c1, c3, c, R);
    GrowsTwice(heap, c0, c3, c, R);
    MarkedInGrows(c0, c, R);
    BlackStrongGrows(heap, c0, c, R);
    MarkedGrows(c1, c, R, Ref1(Gc(main)));
    MarkedGrows(c3, c, R, Ref1(registry));
  }

  lemma MarkedInGrows(c: Colors, c': Colors, R: set<Ref>)
    requires MarkedIn(c, R) && Grows(c, c', R)
    ensures MarkedIn(c', R)
  {
    forall r | r in c' && !c'[r].White? ensures r in R {
      var _ := c[r];
    }
  }

  lemma MarkedInR(c: Colors, R: set<Ref>, r: Ref)
    requires MarkedIn(c, R) && r in c && !c[r].White?
    ensures r in R
  {
  }

  /** If the open upvalue is marked, so is its value. */
  ghost predicate UpvalDoneAt(heap: Heap, c: Colors, r: Ref) {
    r in heap && r in c && OpenUpval(heap[r]) && !c[r].White? ==> Marked(c, Ref1(UpvalValue(heap, heap[r].u)))
  }

  ghost predicate UpvalsDone(heap: Heap, c: Colors) {
    forall r {:trigger UpvalDoneAt(heap, c, r)} :: r in heap ==> UpvalDoneAt(heap, c, r)
  }

  lemma UpvalNotBlack(heap: Heap, c: Colors, L: seq<Ref>, white: bool, except: set<Ref>, R: set<Ref>, r: Ref)
    requires MarkOk(heap, c, L, white, except, R) && r in heap && OpenUpval(heap[r]) && r !in except
    ensures r in c && !c[r].Black?
  {
    assert ColorOk(heap, c, L, r);
  }

  lemma UpvalNowDone(heap: Heap, c: Colors, r: Ref)
    requires r in heap && heap[r].Upval? && Marked(c, Ref1(UpvalValue(heap, heap[r].u)))
    ensures UpvalDoneAt(heap, c, r)
  {
  }

  lemma WhiteUpvalDone(heap: Heap, c: Colors, r: Ref)
    requires r in c && c[r].White?
    ensures UpvalDoneAt(heap, c, r)
  {
  }

  lemma UpvalStaysDone(heap: Heap, c: Colors, c': Colors, R: set<Ref>, r: Ref)
    requires UpvalDoneAt(heap, c, r) && Grows(c, c', R) && NewUpvals(heap, c, c')
    ensures UpvalDoneAt(heap, c', r)
  {
    if r in heap && r in c && OpenUpval(heap[r]) && !c[r].White? {
      MarkedGrows(c, c', R, Ref1(UpvalValue(heap, heap[r].u)));
    }
  }

  lemma AllUpvalsDone(heap: Heap, c: Colors, uvhead: seq<Ref>)
    requires forall r :: r in heap && OpenUpval(heap[r]) ==> r in uvhead
    requires forall j :: 0 <= j < |uvhead| ==> UpvalDoneAt(heap, c, uvhead[j])
    ensures UpvalsDone(heap, c)
  {
    forall r | r in heap ensures UpvalDoneAt(heap, c, r) {
      if OpenUpval(heap[r]) {
        var j :| 0 <= j < |uvhead| && uvhead[j] == r;
        assert UpvalDoneAt(heap, c, uvhead[j]);
      }
    }
  }

  lemma UpvalsDoneProgress(h: Heap, c: Colors, weak: seq<Ref>, again: seq<Ref>,
                           h': Heap, c': Colors, weak': seq<Ref>, again': seq<Ref>, R: set<Ref>)
    requires UpvalsDone(h, c) && Progress(h, c, weak, again, h', c', weak', again', R) && c.Keys == h.Keys
    ensures UpvalsDone(h', c')
  {
    forall r | r in h' ensures UpvalDoneAt(h', c', r) {
      if OpenUpval(h'[r]) && !c'[r].White? && !c[r].White? {
        HeapSameKinds(h, h', r);
        SameUpvals(h, h', h[r].u);
        assert UpvalDoneAt(h, c, r);
        MarkedAdvances(c, c', Ref1(UpvalValue(h, h[r].u)));
      }
    }
  }

  lemma GrowsAdvances(c: Colors, c': Colors, R: set<Ref>)
    requires Grows(c, c', R)
    ensures Advances(c, c')
  {
    forall r | r in c && !c[r].White? ensures !c'[r].White? {
      var _ := c'[r];
    }
  }

  lemma AdvancesTwice(c: Colors, c': Colors, c'': Colors)
    requires Advances(c, c') && Advances(c', c'')
    ensures Advances(c, c'')
  {
    forall r | r in c && !c[r].White? ensures !c''[r].White? {
      assert !c'[r].White?;
    }
  }

  lemma ProgressKeeps(h: Heap, c: Colors, weak: seq<Ref>, again: seq<Ref>,
                      h': Heap, c': Colors, weak': seq<Ref>, again': seq<Ref>, R: set<Ref>)
    requires UpvalsDone(h, c) && Progress(h, c, weak, again, h', c', weak', again', R) && c.Keys == h.Keys
    ensures UpvalsDone(h', c') && HeapSame(h, h') && Advances(c, c') && c'.Keys == h'.Keys
    ensures WeakClean(h, c, weak) ==> WeakClean(h', c', weak')
    ensures ThreadsClean(h, c, again) ==> ThreadsClean(h', c', again')
    ensures BlackStrong(h, c) ==> BlackStrong(h', c')
  {
    UpvalsDoneProgress(h, c, weak, again, h', c', weak', again', R);
  }

  lemma NothingWeak(heap: Heap, c: Colors)
    ensures WeakClean(heap, c, [])
  {
  }

  lemma NoThreads(heap: Heap, c: Colors)
    ensures ThreadsClean(heap, c, [])
  {
  }

  lemma SameKeys(h: Heap, h': Heap)
    requires HeapSame(h, h')
    ensures h'.Keys == h.Keys
  {
  }

  lemma UpvalsStayDone(heap: Heap, c: Colors, c': Colors, R: set<Ref>)
    requires UpvalsDone(heap, c) && Grows(c, c', R) && NewUpvals(heap, c, c')
    ensures UpvalsDone(heap, c')
  {
    forall r | r in heap ensures UpvalDoneAt(heap, c', r) {
      assert UpvalDoneAt(heap, c, r);
      UpvalStaysDone(heap, c, c', R, r);
    }
  }

  /** The list of weak tables becomes the gray list. */
  lemma ListsMoved(heap: Heap, c: Colors, again: seq<Ref>, weak: seq<Ref>, white: bool, R: set<Ref>)
    requires MarkOk(heap, c, [] + again + weak, white, {}, R)
    ensures MarkOk(heap, c, weak + again + [], white, {}, R)
  {
    var L, L' := [] + again + weak, weak + again + [];
    assert L == again + weak && L' == weak + again;
    forall i, j | 0 <= i < j < |L'| ensures L'[i] != L'[j] {
      var i0, j0 := if i < |weak| then i + |again| else i - |weak|, if j < |weak| then j + |again| else j - |weak|;
      assert L'[i] == L[i0] && L'[j] == L[j0];
      if i0 < j0 {
        DistinctAt(L, i0, j0);
      } else {
        DistinctAt(L, j0, i0);
      }
    }
    Reordered(heap, c, L, L', {});
  }

  /** Every marked table that is weak is on the list. */
  ghost predicate WeakListed(heap: Heap, c: Colors, weak: seq<Ref>) {
    forall r {:trigger heap[r]} :: r in heap && r in c && !c[r].White? && heap[r].Table? && heap[r].mode != STRONG ==> r in weak
  }

  /** Marked objects refer to marked objects only, but for weak references of listed tables. */
  ghost predicate MarksClosed(heap: Heap, c: Colors, weak: seq<Ref>) {
    && c.Keys == heap.Keys
    && (forall r {:trigger heap[r]} :: r in heap && !c[r].White? && r !in weak ==> Marked(c, EntryRefs(heap, heap[r])))
    && (forall r {:trigger heap[r]} :: r in heap && !c[r].White? ==> Marked(c, StrongRefs(heap, heap[r])))
  }

  ghost predicate OpenListed(heap: Heap, uvhead: seq<Ref>) {
    && (forall r :: r in heap && OpenUpval(heap[r]) ==> r in uvhead)
    && (forall r :: r in uvhead ==> r in heap && OpenUpval(heap[r]))
  }

  ghost predicate WeakMarked(heap: Heap, c: Colors, weak: seq<Ref>) {
    forall r :: r in weak ==> r in heap && heap[r].Table? && r in c && !c[r].White?
  }

  lemma EntriesMarked(heap: Heap, c: Colors, again: seq<Ref>, weak: seq<Ref>, white: bool, R: set<Ref>)
    requires MarkOk(heap, c, again + weak, white, {}, R) && c.Keys == heap.Keys && UpvalsDone(heap, c)
    requires WeakClean(heap, c, weak) && ThreadsClean(heap, c, again)
    ensures MarksClosed(heap, c, weak)
    ensures BlackStrong(heap, c) ==> WeakListed(heap, c, weak)
  {
    forall r | r in heap && !c[r].White?
      ensures r !in weak ==> Marked(c, EntryRefs(heap, heap[r]))
      ensures BlackStrong(heap, c) && heap[r].Table? && heap[r].mode != STRONG ==> r in weak
      ensures Marked(c, StrongRefs(heap, heap[r]))
    {
      EntryMarked(heap, c, again, weak, r);
    }
  }

  lemma EntryMarked(heap: Heap, c: Colors, again: seq<Ref>, weak: seq<Ref>, r: Ref)
    requires Tri(heap, c, again + weak, {}) && UpvalsDone(heap, c)
    requires WeakClean(heap, c, weak) && ThreadsClean(heap, c, again) && r in heap && !c[r].White?
    ensures r !in weak ==> Marked(c, EntryRefs(heap, heap[r]))
    ensures Marked(c, StrongRefs(heap, heap[r]))
    ensures BlackStrong(heap, c) && heap[r].Table? && heap[r].mode != STRONG ==> r in weak
  {
    RefsNested(heap, heap[r]);
    assert ColorOk(heap, c, again + weak, r) && UpvalDoneAt(heap, c, r);
    if r in weak {
      assert WeakDone(heap, c, r);
    } else if r in again {
      assert ThreadDone(heap, c, r);
    }
  }

  lemma ProgressMarkedIn(h: Heap, c: Colors, weak: seq<Ref>, again: seq<Ref>,
                         h': Heap, c': Colors, weak': seq<Ref>, again': seq<Ref>, R: set<Ref>)
    requires Progress(h, c, weak, again, h', c', weak', again', R) && MarkedIn(c, R)
    ensures MarkedIn(c', R)
  {
  }

  lemma HeapSameNone(h: Heap)
    ensures HeapSame(h, h)
  {
  }
}
