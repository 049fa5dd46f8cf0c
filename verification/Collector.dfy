/** The incremental garbage collector (lua/lgc.c). */
module Collector {
  import opened GcHeap
  import opened GcStores
  import opened Marking
  import opened WeakTables
  import opened GcInvariant
  import opened GcSweep
  import opened UpvalLinks
  import opened GcReach
  import opened GcContents
  import opened GcUpdate

  const MINSTRTABSIZE: nat := 32
  const NUM_TAGS: nat := 9

  class Global {
    var heap: Heap
    var color: Colors
    var gray: seq<Ref>
    var grayagain: seq<Ref>
    var weak: seq<Ref>
    var currentwhite: bool
    var gcstate: Phase
    var rootgc: seq<Ref>            // every object that is neither a string nor an open upvalue
    var sweepgc: nat                // how far that list is swept
    var strt: seq<seq<Ref>>         // hash table of strings
    var sweepstrgc: nat             // how far that table is swept
    var links: Links                // the circle through the open upvalues
    ghost var uvhead: seq<Ref>      // the upvalues on it, in order
    var fixed: set<Ref>             // strings that no sweep frees
    var mainthread: Ref
    var running: Ref                // the thread that runs
    var registry: Value
    var mt: seq<Value>              // a metatable for each basic type

    /** `lua_newstate`. */
    constructor ()
      ensures Valid() && gcstate == Pause && heap == FirstHeap() && |strt| == MINSTRTABSIZE && fixed == {}
      ensures mainthread == 0 && running == 0 && registry == Gc(2) && mt == seq(NUM_TAGS, _ => Nil)
    {
      heap, color, fixed := FirstHeap(), FirstColors(), {};
      gray, grayagain, weak, currentwhite, gcstate := [], [], [], false, Pause;
      rootgc, sweepgc, strt, sweepstrgc := [2, 1, 0], 0, seq(MINSTRTABSIZE, _ => []), 0;
      links, uvhead := Links(map[Head := Head], map[Head := Head]), [];
      mainthread, running, registry, mt := 0, 0, Gc(2), seq(NUM_TAGS, _ => Nil);
      new;
      hide Valid;
      hide FirstHeap;
      hide FirstColors;
      FirstValid();
    }

    lemma FirstValid()
      requires heap == FirstHeap() && color == FirstColors() && fixed == {} && !currentwhite && gcstate == Pause
      requires rootgc == [2, 1, 0] && sweepgc == 0 && strt == seq(MINSTRTABSIZE, _ => []) && uvhead == []
      requires links == Links(map[Head := Head], map[Head := Head])
      requires mainthread == 0 && running == 0 && registry == Gc(2) && mt == seq(NUM_TAGS, _ => Nil)
      ensures Valid()
    {
      hide Threads;
      hide BaseOk;
      hide FirstHeap;
      hide FirstColors;
      FirstState(strt, mt);
      NoUpvals();
    }

    ghost function Lists(): seq<Ref>
      reads `gray, `grayagain, `weak
    {
      gray + grayagain + weak
    }

    /** What holds while objects are being marked. Marks stay inside `R`, which is closed. */
    ghost predicate MarkPhase(except: set<Ref>, R: set<Ref>)
      reads this
    {
      MarkOk(heap, color, Lists(), currentwhite, except, R)
    }

    /** Upper bound on the marking still to do. */
    ghost function Work(): nat
      reads this
    {
      2 * |Whites(color)| + |gray|
    }

    lemma PushGray(r: Ref)
      ensures ([r] + gray) + grayagain + weak == [r] + Lists()
    {
    }

    /** `reallymarkobject`. */
    method ReallyMarkObject(o: Ref, ghost except: set<Ref>, ghost R: set<Ref>)
      requires MarkPhase(except, R) && o in heap && o in R && color[o].White? && o !in except
      modifies `color, `gray
      ensures MarkPhase(except, R) && Grows(old(color), color, R) && NewUpvals(heap, old(color), color)
      ensures Pushed(old(color), old(gray), gray)
      ensures !color[o].White? && Work() < old(Work())
      decreases |Whites(color)|, 1
    {
      hide Tri;
      hide NoDangling;
      hide StrongClosed;
      hide Grows;
      hide NewUpvals;
      hide Whites;
      DomainOk(heap, color, Lists(), except);
      ghost var c0, L := color, Lists();
      WhiteNotListed(heap, color, L, except, o);
      GrowsOne(c0, o, R, Gray);
      NoOtherGrows(c0, c0[o := Gray], R, currentwhite);
      hide NoOther;
      match heap[o] {
        case String =>
          MarkOther(heap, color, L, except, o);
          NewUpvalsOne(heap, color, o, Gray);
          color := color[o := Gray];
        case Upval(u) =>
          MarkUpval(o, except, R);
        case _ =>
          MarkContainer(heap, color, L, except, o);
          NewUpvalsOne(heap, color, o, Gray);
          PushGray(o);
          color := color[o := Gray];
          gray := [o] + gray;
      }
    }

    /** The case of an upvalue. */
    method MarkUpval(o: Ref, ghost except: set<Ref>, ghost R: set<Ref>)
      requires MarkPhase(except, R) && o in heap && o in R && color[o].White? && heap[o].Upval?
      modifies `color, `gray
      ensures MarkPhase(except, R) && Grows(old(color), color, R) && NewUpvals(heap, old(color), color)
      ensures Pushed(old(color), old(gray), gray)
      ensures !color[o].White? && Work() < old(Work())
      decreases |Whites(color)|, 0
    {
      hide Tri;
      hide NoDangling;
      hide StrongClosed;
      hide Grows;
      hide NewUpvals;
      hide Whites;
      hide NoOther;
      DomainOk(heap, color, Lists(), except);
      ghost var c0 := color;
      WhiteNotListed(heap, color, Lists(), except, o);
      MarkOther(heap, color, Lists(), except, o);
      GrowsOne(c0, o, R, Gray);
      NoOtherGrows(c0, c0[o := Gray], R, currentwhite);
      color := color[o := Gray];
      UpvalRefs(heap, o, R);
      var u := heap[o].u;
      MarkValue(UpvalValue(heap, u), except + {o}, R);
      PushedAfter(c0, o, old(gray), gray);
      UpvalDone(heap, c0, color, Lists(), except, R, o);
      NoOtherGrows(c0, color[o := UpvalColor(u)], R, currentwhite);
      if u.Closed? {
        color := color[o := Black];  // its value can change only with a barrier
      }
      ExceptGrows(c0, color, R, except);
    }

    /** `markvalue` and `markobject`. */
    method MarkValue(v: Value, ghost except: set<Ref>, ghost R: set<Ref>)
      requires MarkPhase(except, R) && Ref1(v) <= heap.Keys && Ref1(v) <= R
      modifies `color, `gray
      ensures MarkPhase(except, R) && Grows(old(color), color, R) && NewUpvals(heap, old(color), color)
      ensures Pushed(old(color), old(gray), gray)
      ensures Marked(color, Ref1(v)) && Work() <= old(Work())
      decreases |Whites(color)|, 2
    {
      hide Tri;
      hide NoDangling;
      hide StrongClosed;
      hide NoOther;
      hide Whites;
      DomainOk(heap, color, Lists(), except);
      if v.Gc? && color[v.r].White? {
        ReallyMarkObject(v.r, except, R);
      }
    }

    /** Mark every value of a vector. */
    method MarkValues(vs: seq<Value>, ghost except: set<Ref>, ghost R: set<Ref>)
      requires MarkPhase(except, R) && Refs(vs) <= heap.Keys && Refs(vs) <= R
      modifies `color, `gray
      ensures MarkPhase(except, R) && Grows(old(color), color, R) && NewUpvals(heap, old(color), color)
      ensures Pushed(old(color), old(gray), gray)
      ensures Marked(color, Refs(vs)) && Work() <= old(Work())
    {
      hide MarkPhase;
      hide Grows;
      hide NewUpvals;
      hide Marked;
      var i := 0;
      GrowsSame(heap, color, R);
      RefsUpTo(vs, color);
      while i < |vs|
        invariant 0 <= i <= |vs| && MarkPhase(except, R)
        invariant Grows(old(color), color, R) && NewUpvals(heap, old(color), color) && Pushed(old(color), old(gray), gray)
        invariant Marked(color, Refs(vs[..i])) && Work() <= old(Work())
      {
        ghost var c, g := color, gray;
        RefsNext(vs, i);
        MarkValue(vs[i], except, R);
        PushedTwice(old(color), c, R, old(gray), g, gray);
        GrowsTwice(heap, old(color), c, color, R);
        MarkedGrows(c, color, R, Refs(vs[..i]));
        MarkedBoth(color, Refs(vs[..i]), Ref1(vs[i]));
        i := i + 1;
      }
      assert vs[..i] == vs;
    }

    /** Mark the key and the value of an entry, as far as they are not weak. */
    method MarkEntry(n: Node, weakkey: bool, weakvalue: bool, ghost except: set<Ref>, ghost R: set<Ref>)
      requires MarkPhase(except, R)
      requires !weakkey ==> Ref1(KeyValue(n)) <= heap.Keys * R
      requires !weakvalue ==> Ref1(n.val) <= heap.Keys * R
      modifies `color, `gray
      ensures MarkPhase(except, R) && Grows(old(color), color, R) && NewUpvals(heap, old(color), color)
      ensures Pushed(old(color), old(gray), gray)
      ensures (!weakkey ==> Marked(color, Ref1(KeyValue(n)))) && (!weakvalue ==> Marked(color, Ref1(n.val)))
      ensures Work() <= old(Work())
    {
      hide MarkPhase;
      hide Grows;
      hide NewUpvals;
      hide Marked;
      hide Pushed;
      GrowsSame(heap, color, R);
      PushedSame(color, gray);
      if !weakkey {
        MarkValue(KeyValue(n), except, R);
      }
      ghost var c, g := color, gray;
      if !weakvalue {
        MarkValue(n.val, except, R);
        GrowsTwice(heap, old(color), c, color, R);
        PushedTwice(old(color), c, R, old(gray), g, gray);
        if !weakkey {
          MarkedGrows(c, color, R, Ref1(KeyValue(n)));
        }
      }
    }

    /** The loop of `traversetable` over the nodes. */
    method TraverseNodes(nodes: seq<Node>, weakkey: bool, weakvalue: bool, ghost except: set<Ref>, ghost R: set<Ref>) returns (ns: seq<Node>)
      requires MarkPhase(except, R)
      requires !weakkey ==> KeyRefs(nodes) <= heap.Keys * R
      requires !weakvalue ==> ValRefs(nodes) <= heap.Keys * R
      modifies `color, `gray
      ensures MarkPhase(except, R) && Grows(old(color), color, R) && NewUpvals(heap, old(color), color)
      ensures Pushed(old(color), old(gray), gray)
      ensures (!weakkey ==> Marked(color, KeyRefs(nodes))) && (!weakvalue ==> Marked(color, ValRefs(nodes)))
      ensures Work() <= old(Work()) && ns == Cleaned(nodes)
    {
      hide MarkPhase;
      hide Grows;
      hide NewUpvals;
      hide Marked;
      hide Pushed;
      hide KeyRefs;
      hide ValRefs;
      PushedSame(color, gray);
      ns := nodes;
      var i := |nodes|;
      GrowsSame(heap, color, R);
      NodesFrom(nodes, color);
      while i > 0
        invariant 0 <= i <= |nodes| && MarkPhase(except, R)
        invariant Grows(old(color), color, R) && NewUpvals(heap, old(color), color) && Work() <= old(Work())
        invariant Pushed(old(color), old(gray), gray)
        invariant (!weakkey ==> Marked(color, KeyRefs(nodes[i..]))) && (!weakvalue ==> Marked(color, ValRefs(nodes[i..])))
        invariant |ns| == |nodes| && forall j :: 0 <= j < |nodes| ==> ns[j] == if j < i then nodes[j] else CleanNode(nodes[j])
      {
        i := i - 1;
        NodesNext(nodes, i);
        var n := ns[i];
        ghost var c, g := color, gray;
        if n.val == Nil {
          ns := ns[i := RemoveEntry(n)];
          MarkedNothing(color);
          GrowsSame(heap, color, R);
        } else {
          MarkEntry(n, weakkey, weakvalue, except, R);
          PushedTwice(old(color), c, R, old(gray), g, gray);
          GrowsTwice(heap, old(color), c, color, R);
        }
        if !weakkey {
          MarkedGrows(c, color, R, KeyRefs(nodes[i + 1..]));
          MarkedBoth(color, KeyRefs(nodes[i + 1..]), KeyRefs([nodes[i]]));
        }
        if !weakvalue {
          MarkedGrows(c, color, R, ValRefs(nodes[i + 1..]));
          MarkedBoth(color, ValRefs(nodes[i + 1..]), ValRefs([nodes[i]]));
        }
      }
      assert nodes[0..] == nodes;
    }

    /** `traversetable`. */
    method TraverseTable(h: Ref, ghost R: set<Ref>) returns (w: bool)
      requires MarkPhase({h}, R) && h in heap && heap[h].Table? && h in R && h !in Lists()
      modifies `color, `gray, `heap, `weak
      ensures MarkPhase({h}, R) && Grows(old(color), color, R) && NewUpvals(heap, old(color), color) && Work() <= old(Work())
      ensures Pushed(old(color), old(gray), gray)
      ensures h in heap && heap == old(heap)[h := heap[h]] && SameObj(old(heap[h]), heap[h])
      ensures w == (heap[h].mode.keys || heap[h].mode.values) && Marked(color, StrongRefs(heap, heap[h]))
      ensures if w then weak == [h] + old(weak) && heap[h].bits == heap[h].mode
              else weak == old(weak) && Marked(color, AnyRefs(heap, heap[h]))
    {
      hide MarkOk;
      hide Grows;
      hide NewUpvals;
      hide Marked;
      hide Pushed;
      hide TableRefs;
      ghost var t := heap[h];
      w := NoteWeakness(h, R);
      ghost var c, g, heap1, L := color, gray, heap, Lists();
      if !(heap[h].mode.keys && heap[h].mode.values) {
        TraverseEntries(h, R);
        PushedTwice(old(color), c, R, old(gray), g, gray);
        CleanedEntries(t.nodes);
        NewObj(heap1, c, L, currentwhite, {h}, R, h, heap[h]);
        NewUpvalsHeap(heap1, heap, old(color), c);
        GrowsTwice(heap, old(color), c, color, R);
        MarkedGrows(c, color, R, Ref1(t.meta));
      }
      TableMarked(heap, color, heap[h], t.nodes);
    }

    /** The first part of `traversetable`: mark the metatable, and list a weak table. */
    method NoteWeakness(h: Ref, ghost R: set<Ref>) returns (w: bool)
      requires MarkPhase({h}, R) && h in heap && heap[h].Table? && h in R && h !in Lists()
      modifies `color, `gray, `heap, `weak
      ensures MarkPhase({h}, R) && Grows(old(color), color, R) && NewUpvals(heap, old(color), color) && Work() <= old(Work())
      ensures Pushed(old(color), old(gray), gray) && Marked(color, Ref1(old(heap[h].meta)))
      ensures var t := old(heap[h]);
              && w == (t.mode.keys || t.mode.values)
              && heap == old(heap)[h := if w then t.(bits := t.mode) else t]
              && weak == if w then [h] + old(weak) else old(weak)
    {
      hide MarkOk;
      hide Grows;
      hide NewUpvals;
      hide Marked;
      hide Pushed;
      hide TableRefs;
      var t := heap[h];
      TableRefsIn(heap, color, Lists(), currentwhite, {h}, R, h);
      NotWhite(heap, color, Lists(), currentwhite, {h}, R, h);
      MarkValue(t.meta, {h}, R);
      NotPushed(old(color), old(gray), gray, grayagain, weak, h);
      w := t.mode.keys || t.mode.values;
      if w {  // some of its entries are not marked here
        heap := heap[h := t.(bits := t.mode)];
        NewObj(old(heap), color, Lists(), currentwhite, {h}, R, h, heap[h]);
        NewUpvalsHeap(old(heap), heap, old(color), color);
        PutOnList(heap, color, gray + grayagain, weak, currentwhite, {h}, R, h);
        weak := [h] + weak;  // ClearTables will visit it
      }
    }

    /** The loops of `traversetable`. */
    method TraverseEntries(h: Ref, ghost R: set<Ref>)
      requires MarkPhase({h}, R) && h in heap && heap[h].Table? && h in R
      modifies `color, `gray, `heap
      ensures MarkPhase({h}, R) && Grows(old(color), color, R) && NewUpvals(heap, old(color), color) && Work() <= old(Work())
      ensures Pushed(old(color), old(gray), gray)
      ensures var t := old(heap[h]);
              && heap == old(heap)[h := t.(nodes := Cleaned(t.nodes))]
              && (!t.mode.values ==> Marked(color, Refs(t.arr)) && Marked(color, ValRefs(t.nodes)))
              && (!t.mode.keys ==> Marked(color, KeyRefs(t.nodes)))
    {
      hide MarkOk;
      hide Grows;
      hide NewUpvals;
      hide Marked;
      hide TableRefs;
      var t := heap[h];
      TableRefsIn(heap, color, Lists(), currentwhite, {h}, R, h);
      GrowsSame(heap, color, R);
      if !t.mode.values {
        MarkValues(t.arr, {h}, R);
      }
      ghost var c, g := color, gray;
      var ns := TraverseNodes(t.nodes, t.mode.keys, t.mode.values, {h}, R);
      GrowsTwice(heap, old(color), c, color, R);
      PushedTwice(old(color), c, R, old(gray), g, gray);
      if !t.mode.values {
        MarkedGrows(c, color, R, Refs(t.arr));
      }
      CleanedEntries(t.nodes);
      NewObj(heap, color, Lists(), currentwhite, {h}, R, h, t.(nodes := ns));
      NewUpvalsHeap(heap, heap[h := t.(nodes := ns)], old(color), color);
      heap := heap[h := t.(nodes := ns)];
    }

    /** Table `o`, already black, is visited; it stays gray if it is weak. */
    method PropagateTable(o: Ref, ghost R: set<Ref>)
      requires Visiting(o, R) && heap[o].Table?
      modifies `color, `gray, `heap, `weak
      ensures MarkPhase({}, R) && Work() <= old(Work())
      ensures Progress(old(heap), old(color)[o := Gray], old(weak), grayagain, heap, color, weak, grayagain, R)
    {
      hide MarkOk;
      hide Grows;
      hide NewUpvals;
      hide Marked;
      hide Pushed;
      hide Progress;
      hide Whites;
      ghost var h0 := heap[o];
      var w := TraverseTable(o, R);
      ghost var c := color;
      Visited(old(heap), old(color), old(weak), grayagain, heap, c, weak, grayagain, o, if w then Gray else Black, R);
      if w {
        VisitedGray(heap, c, Lists(), currentwhite, R, o);
        color := color[o := Gray];  // a weak table is never black
      } else {
        NotPushed(old(color), old(gray), gray, grayagain, weak, o);
        VisitedBlack(heap, c, Lists(), currentwhite, R, o);
        StaysBlack(old(color), c, R, o);
      }
    }

    method PropagateClosure(o: Ref, ghost R: set<Ref>)
      requires Visiting(o, R) && heap[o].Closure?
      modifies `color, `gray
      ensures MarkPhase({}, R) && Work() <= old(Work())
      ensures Progress(heap, old(color)[o := Gray], weak, grayagain, heap, color, weak, grayagain, R)
    {
      hide MarkOk;
      hide Grows;
      hide NewUpvals;
      hide Marked;
      hide Pushed;
      hide Progress;
      hide Whites;
      ObjRefsIn(heap, color, Lists(), currentwhite, {o}, R, o);
      MarkTwo(heap[o].env, heap[o].upvals, {o}, R);
      Visited(heap, old(color), weak, grayagain, heap, color, weak, grayagain, o, Black, R);
      NotPushed(old(color), old(gray), gray, grayagain, weak, o);
      RefsNested(heap, heap[o]);
      VisitedBlack(heap, color, Lists(), currentwhite, R, o);
      StaysBlack(old(color), color, R, o);
    }

    /** Mark a value and all values of a vector. */
    method MarkTwo(v: Value, vs: seq<Value>, ghost except: set<Ref>, ghost R: set<Ref>)
      requires MarkPhase(except, R) && Ref1(v) + Refs(vs) <= heap.Keys * R
      modifies `color, `gray
      ensures MarkPhase(except, R) && Grows(old(color), color, R) && NewUpvals(heap, old(color), color)
      ensures Pushed(old(color), old(gray), gray)
      ensures Marked(color, Ref1(v) + Refs(vs)) && Work() <= old(Work())
    {
      hide MarkOk;
      hide Grows;
      hide NewUpvals;
      hide Marked;
      hide Pushed;
      hide Progress;
      hide Whites;
      MarkValue(v, except, R);
      ghost var c, g := color, gray;
      MarkValues(vs, except, R);
      GrowsTwice(heap, old(color), c, color, R);
      PushedTwice(old(color), c, R, old(gray), g, gray);
      MarkedGrows(c, color, R, Ref1(v));
      MarkedBoth(color, Ref1(v), Refs(vs));
    }

    /** Threads are kept gray: they are visited again in the atomic phase. */
    method PropagateThread(o: Ref, ghost R: set<Ref>)
      requires Visiting(o, R) && heap[o].Thread?
      modifies `color, `gray, `grayagain
      ensures MarkPhase({}, R) && Work() <= old(Work())
      ensures Progress(heap, old(color)[o := Gray], weak, old(grayagain), heap, color, weak, grayagain, R)
    {
      hide MarkOk;
      hide Grows;
      hide NewUpvals;
      hide Marked;
      hide Pushed;
      hide Progress;
      hide Whites;
      assert gray + (grayagain + weak) == Lists() && gray + ([o] + (grayagain + weak)) == gray + ([o] + grayagain) + weak;
      PutOnList(heap, color, gray, grayagain + weak, currentwhite, {o}, R, o);
      VisitedGray(heap, color, gray + ([o] + (grayagain + weak)), currentwhite, R, o);
      grayagain := [o] + grayagain;
      color := color[o := Gray];
      ghost var c := color;
      ObjRefsIn(heap, color, Lists(), currentwhite, {}, R, o);
      MarkTwo(heap[o].globals, heap[o].stack, {}, R);
      Recolored(old(color), color, R, o, heap);
      Visited(heap, old(color), weak, old(grayagain), heap, color[o := Black], weak, grayagain, o, Gray, R);
    }

    /** Object `o` was taken off the gray list to be visited. */
    ghost predicate Visiting(o: Ref, R: set<Ref>)
      reads this
    {
      MarkPhase({o}, R) && o in heap && o in R && o in color && color[o] == Black && Container(heap[o]) && o !in Lists()
    }

    /** `propagatemark`: visit the first object of the gray list. */
    method PropagateMark(ghost R: set<Ref>)
      requires MarkPhase({}, R) && gray != [] && MarkedIn(color, R)
      modifies `color, `gray, `heap, `weak, `grayagain
      ensures MarkPhase({}, R) && MarkedIn(color, R) && Work() < old(Work())
      ensures Progress(old(heap), old(color), old(weak), old(grayagain), heap, color, weak, grayagain, R)
    {
      hide MarkOk;
      hide Grows;
      hide NewUpvals;
      hide Marked;
      hide Pushed;
      hide Progress;
      hide Whites;
      var o := gray[0];
      assert Lists() == [o] + (gray[1..] + grayagain + weak);
      TakenOff(heap, color, o, gray[1..] + grayagain + weak, currentwhite, R);
      gray := gray[1..];
      color := color[o := Black];
      ghost var c := color;
      match heap[o] {
        case Table(_, _, _, _, _) => PropagateTable(o, R);
        case Closure(_, _) => PropagateClosure(o, R);
        case Thread(_, _, _) => PropagateThread(o, R);
      }
      ProgressMarkedIn(old(heap), old(color), old(weak), old(grayagain), heap, color, weak, grayagain, R);
    }

    /** `propagateall`. */
    method PropagateAll(ghost R: set<Ref>)
      requires MarkPhase({}, R) && MarkedIn(color, R)
      modifies `color, `gray, `heap, `weak, `grayagain
      ensures MarkPhase({}, R) && MarkedIn(color, R) && gray == []
      ensures Progress(old(heap), old(color), old(weak), old(grayagain), heap, color, weak, grayagain, R)
    {
      hide MarkPhase;
      hide Progress;
      ProgressNone(heap, color, weak, grayagain, R);
      while gray != []
        invariant MarkPhase({}, R) && MarkedIn(color, R)
        invariant Progress(old(heap), old(color), old(weak), old(grayagain), heap, color, weak, grayagain, R)
        decreases Work()
      {
        ghost var h, c, w, g := heap, color, weak, grayagain;
        PropagateMark(R);
        ProgressTwice(old(heap), old(color), old(weak), old(grayagain), h, c, w, g, heap, color, weak, grayagain, R);
      }
    }

    ghost function RootRefs(): set<Ref>
      reads `mainthread, `running, `registry, `mt
    {
      EnvRefs(Env(mainthread, running, registry, mt))
    }

    /** `markroot`. */
    method MarkRoot(ghost R: set<Ref>)
      requires color.Keys == heap.Keys && NoDangling(heap) && RootRefs() <= heap.Keys * R && StrongClosed(heap, R)
      requires heap[mainthread].Thread? && AllWhite(color, currentwhite)
      modifies `color, `gray, `grayagain, `weak, `gcstate
      ensures MarkPhase({}, R) && MarkedIn(color, R) && gcstate == Propagate
      ensures Marked(color, {mainthread} + Ref1(registry)) && Grows(old(color), color, R) && BlackStrong(heap, color)
    {
      hide Threads;
      hide MarkOk;
      hide Grows;
      hide NewUpvals;
      hide Marked;
      hide Pushed;
      hide Whites;
      hide MarkedIn;
      hide NoDangling;
      hide StrongClosed;
      hide Refs;
      gray, grayagain, weak := [], [], [];
      StartMarking(heap, color, currentwhite, R);
      assert Lists() == [];
      MainGlobals(heap, mainthread, R);
      ghost var c0 := color;
      MarkValue(Gc(mainthread), {}, R);
      ghost var c1 := color;
      MarkValue(heap[mainthread].globals, {}, R);
      ghost var c2 := color;
      MarkValue(registry, {}, R);
      ghost var c3 := color;
      MarkValues(mt, {}, R);
      MarkedRoots(heap, c0, c1, c2, c3, color, R, mainthread, registry);
      gcstate := Propagate;
    }

    /** `remarkupvals`: mark the values of gray upvalues, which may belong to dead threads. */
    method RemarkUpvals(ghost R: set<Ref>)
      requires MarkPhase({}, R) && MarkedIn(color, R)
      requires OpenListed(heap, uvhead) && UpvalsLinked()
      modifies `color, `gray
      ensures MarkPhase({}, R) && MarkedIn(color, R) && UpvalsDone(heap, color)
      ensures Grows(old(color), color, R) && NewUpvals(heap, old(color), color)
    {
      hide MarkOk;
      hide Grows;
      hide NewUpvals;
      hide Marked;
      hide Pushed;
      hide Progress;
      hide Whites;
      hide MarkedIn;
      hide UpvalDoneAt;
      GrowsSame(heap, color, R);
      ghost var i := 0;
      assert LinkedAt(uvhead, links, 0);
      var node := links.next[Head];
      while node != Head
        invariant 0 <= i <= |uvhead| && node == NodeAt(uvhead, i + 1)
        invariant MarkPhase({}, R) && MarkedIn(color, R)
        invariant Grows(old(color), color, R) && NewUpvals(heap, old(color), color)
        invariant forall j :: 0 <= j < i ==> UpvalDoneAt(heap, color, uvhead[j])
        decreases |uvhead| - i
      {
        var uv := node.r;
        ghost var c := color;
        UpvalNotBlack(heap, color, Lists(), currentwhite, {}, R, uv);
        if color[uv] == Gray {
          MarkedInR(color, R, uv);
          ObjRefsIn(heap, color, Lists(), currentwhite, {}, R, uv);
          MarkValue(UpvalValue(heap, heap[uv].u), {}, R);
          UpvalNowDone(heap, color, uv);
          GrowsTwice(heap, old(color), c, color, R);
          MarkedInGrows(c, color, R);
          forall j | 0 <= j < i ensures UpvalDoneAt(heap, color, uvhead[j]) {
            UpvalStaysDone(heap, c, color, R, uvhead[j]);
          }
        } else {
          WhiteUpvalDone(heap, color, uv);
        }
        assert LinkedAt(uvhead, links, i + 1);
        node := links.next[node];
        i := i + 1;
      }
      AllUpvalsDone(heap, color, uvhead);
    }

    ghost predicate MarkingIn(R: set<Ref>)
      reads this
    {
      MarkPhase({}, R) && MarkedIn(color, R) && color.Keys == heap.Keys
    }

    /** First part of `atomic`: traverse objects caught by write barriers and by `remarkupvals`. */
    method AtomicUpvals(ghost R: set<Ref>)
      requires MarkingIn(R)
      requires OpenListed(heap, uvhead) && UpvalsLinked()
      modifies `color, `gray, `heap, `weak, `grayagain
      ensures MarkingIn(R) && HeapSame(old(heap), heap) && Advances(old(color), color)
      ensures old(BlackStrong(heap, color)) ==> BlackStrong(heap, color)
      ensures gray == [] && UpvalsDone(heap, color)
    {
      hide MarkOk;
      hide Grows;
      hide NewUpvals;
      hide Marked;
      hide Pushed;
      hide Progress;
      hide Whites;
      hide MarkedIn;
      hide HeapSame;
      hide Advances;
      hide UpvalsDone;
      hide WeakClean;
      hide ThreadsClean;
      hide BlackStrong;
      hide WeakListed;
      RemarkUpvals(R);
      GrowsAdvances(old(color), color, R);
      if BlackStrong(heap, old(color)) {
        BlackStrongGrows(heap, old(color), color, R);
      }
      ghost var c, w, g := color, weak, grayagain;
      PropagateAll(R);
      ProgressKeeps(old(heap), c, w, g, heap, color, weak, grayagain, R);
      AdvancesTwice(old(color), c, color);
    }

    /** Second part of `atomic`: remark weak tables, the running thread and the basic metatables. */
    method AtomicWeak(ghost R: set<Ref>)
      requires MarkingIn(R) && gray == [] && UpvalsDone(heap, color)
      requires {running} + Refs(mt) <= heap.Keys * R
      modifies `color, `gray, `heap, `weak, `grayagain
      ensures MarkingIn(R) && HeapSame(old(heap), heap) && Advances(old(color), color)
      ensures old(BlackStrong(heap, color)) ==> BlackStrong(heap, color)
      ensures gray == [] && UpvalsDone(heap, color) && WeakClean(heap, color, weak) && Marked(color, {running} + Refs(mt))
    {
      hide MarkOk;
      hide Grows;
      hide NewUpvals;
      hide Marked;
      hide Pushed;
      hide Progress;
      hide Whites;
      hide MarkedIn;
      hide HeapSame;
      hide Advances;
      hide UpvalsDone;
      hide WeakClean;
      hide ThreadsClean;
      hide BlackStrong;
      hide WeakListed;
      hide Refs;
      ListsMoved(heap, color, grayagain, weak, currentwhite, R);
      gray := weak;
      weak := [];
      assert Lists() == gray + grayagain;
      NothingWeak(heap, color);
      MarkTwo(Gc(running), mt, {}, R);
      UpvalsStayDone(heap, old(color), color, R);
      if BlackStrong(heap, old(color)) {
        BlackStrongGrows(heap, old(color), color, R);
      }
      GrowsAdvances(old(color), color, R);
      MarkedInGrows(old(color), color, R);
      ghost var c, g := color, grayagain;
      NothingWeak(heap, color);
      PropagateAll(R);
      ProgressKeeps(old(heap), c, [], g, heap, color, weak, grayagain, R);
      AdvancesTwice(old(color), c, color);
      MarkedAdvances(c, color, Ref1(Gc(running)) + Refs(mt));
    }

    /** Third part of `atomic`: remark the objects that were to be visited again. */
    method AtomicAgain(ghost R: set<Ref>)
      requires MarkingIn(R) && gray == [] && UpvalsDone(heap, color) && WeakClean(heap, color, weak)
      modifies `color, `gray, `heap, `weak, `grayagain
      ensures MarkingIn(R) && HeapSame(old(heap), heap) && Advances(old(color), color)
      ensures old(BlackStrong(heap, color)) ==> BlackStrong(heap, color)
      ensures gray == [] && UpvalsDone(heap, color) && WeakClean(heap, color, weak) && ThreadsClean(heap, color, grayagain)
    {
      hide MarkOk;
      hide Grows;
      hide NewUpvals;
      hide Marked;
      hide Pushed;
      hide Progress;
      hide Whites;
      hide MarkedIn;
      hide HeapSame;
      hide Advances;
      hide UpvalsDone;
      hide WeakClean;
      hide ThreadsClean;
      hide BlackStrong;
      hide WeakListed;
      gray := grayagain;
      grayagain := [];
      assert Lists() == old(Lists());
      NoThreads(heap, color);
      PropagateAll(R);
      ProgressKeeps(old(heap), old(color), old(weak), [], heap, color, weak, grayagain, R);
    }

    /** The marking that `atomic` does: at its end all marked objects refer to marked objects only,
        but for the weak references of weak tables. */
    method MarkAtomic(ghost R: set<Ref>)
      requires MarkingIn(R) && Marked(color, {mainthread} + Ref1(registry)) && RootRefs() <= heap.Keys * R
      requires OpenListed(heap, uvhead) && UpvalsLinked()
      modifies `color, `gray, `heap, `weak, `grayagain
      ensures MarkingIn(R) && HeapSame(old(heap), heap)
      ensures old(BlackStrong(heap, color)) ==> WeakListed(heap, color, weak)
      ensures WeakClean(heap, color, weak) && Marked(color, RootRefs())
      ensures MarksClosed(heap, color, weak)
    {
      hide MarkOk;
      hide Grows;
      hide NewUpvals;
      hide Marked;
      hide Pushed;
      hide Progress;
      hide Whites;
      hide MarkedIn;
      hide HeapSame;
      hide Advances;
      hide UpvalsDone;
      hide WeakClean;
      hide ThreadsClean;
      hide BlackStrong;
      hide WeakListed;
      hide OpenListed;
      hide MarksClosed;
      AtomicUpvals(R);
      MarkedAdvances(old(color), color, {mainthread} + Ref1(registry));
      SameKeys(old(heap), heap);
      ghost var c, h := color, heap;
      AtomicWeak(R);
      MarkedAdvances(c, color, {mainthread} + Ref1(registry));
      HeapSameTwice(old(heap), h, heap);
      c, h := color, heap;
      AtomicAgain(R);
      HeapSameTwice(old(heap), h, heap);
      MarkedAdvances(c, color, {mainthread} + Ref1(registry));
      MarkedAdvances(c, color, {running} + Refs(mt));
      MarkedBoth(color, {mainthread} + Ref1(registry), {running} + Refs(mt));
      assert {mainthread} + Ref1(registry) + ({running} + Refs(mt)) == RootRefs();
      assert Lists() == grayagain + weak;
      EntriesMarked(heap, color, grayagain, weak, currentwhite, R);
    }

    // ----- clearing weak tables -----

    /** `iscleared`: whether a weak reference goes; one to a string never does, and the string is marked. */
    method IsCleared(v: Value) returns (b: bool)
      requires Ref1(v) <= heap.Keys && color.Keys == heap.Keys
      modifies `color
      ensures b == Cleared(heap, old(color), v) && color == MarkStrings(old(color), StringRef(heap, v))
    {
      MarkStringsNone(color);
      if !v.Gc? {
        return false;
      }
      if heap[v.r].String? {
        ghost var c := MarkStrings(color, StringRef(heap, v));
        if color[v.r].White? {
          assert c == color[v.r := Gray];
          color := color[v.r := Gray];
        } else {
          assert c == color;
        }
        return false;
      }
      return color[v.r].White?;
    }

    /** The loop of `cleartable` over the array part. */
    method ClearArray(arr: seq<Value>) returns (a: seq<Value>)
      requires Refs(arr) <= heap.Keys && color.Keys == heap.Keys
      modifies `color
      ensures a == ClearArr(heap, old(color), arr) && color == MarkStrings(old(color), StringsIn(heap, arr))
    {
      hide Cleared;
      hide MarkStrings;
      a := arr;
      var i := |arr|;
      ghost var c0 := color;
      StringsFrom(heap, arr, c0);
      while i > 0
        invariant 0 <= i <= |arr| && color == MarkStrings(c0, StringsIn(heap, arr[i..])) && color.Keys == heap.Keys
        invariant |a| == |arr| && forall j :: 0 <= j < |arr| ==> a[j] == if j < i then arr[j] else ClearValue(heap, c0, arr[j])
      {
        i := i - 1;
        StringsNext(heap, arr, i, c0);
        var b := IsCleared(a[i]);
        MarkStringsDomain(c0, StringsIn(heap, arr[i..]));
        if b {  // the reference would dangle
          a := a[i := Nil];
        }
      }
      assert arr[0..] == arr;
    }

    /** The loop of `cleartable` over the nodes. */
    method ClearHash(nodes: seq<Node>) returns (ns: seq<Node>)
      requires KeyRefs(nodes) + ValRefs(nodes) <= heap.Keys && color.Keys == heap.Keys
      modifies `color
      ensures ns == ClearNodes(heap, old(color), nodes) && color == MarkStrings(old(color), NodesStrings(heap, old(color), nodes))
    {
      hide Cleared;
      hide MarkStrings;
      hide KeyRefs;
      hide ValRefs;
      ns := nodes;
      var i := |nodes|;
      ghost var c0 := color;
      NodesStringsFrom(heap, nodes, c0);
      while i > 0
        invariant 0 <= i <= |nodes| && color == MarkStrings(c0, NodesStrings(heap, c0, nodes[i..])) && color.Keys == heap.Keys
        invariant |ns| == |nodes| && forall j :: 0 <= j < |nodes| ==> ns[j] == if j < i then nodes[j] else ClearNode(heap, c0, nodes[j])
      {
        i := i - 1;
        NodesStringsNext(heap, nodes, i, c0);
        NodesNext(nodes, i);
        var n := ns[i];
        if n.val != Nil {
          var b := IsCleared(KeyValue(n));
          MarkStringsDomain(c0, NodesStrings(heap, c0, nodes[i + 1..]) + StringRef(heap, KeyValue(n)));
          if !b {
            b := IsCleared(n.val);
          }
          MarkStringsDomain(c0, NodesStrings(heap, c0, nodes[i..]));
          if b {
            ns := ns[i := RemoveEntry(n.(val := Nil))];
          }
        }
      }
      assert nodes[0..] == nodes;
    }

    /** `cleartable`, for one table. */
    method ClearTable(h: Ref)
      requires color.Keys == heap.Keys && h in heap && heap[h].Table? && EntryRefs(heap, heap[h]) <= heap.Keys
      modifies `color, `heap
      ensures heap == old(heap)[h := ClearedTable(old(heap), old(color), old(heap[h]))]
      ensures color == MarkStrings(old(color), TableStrings(old(heap), old(color), old(heap[h]), old(heap[h].bits)))
    {
      hide ClearArr;
      hide ClearNodes;
      hide MarkStrings;
      hide StringsIn;
      hide NodesStrings;
      var t := heap[h];
      ghost var S := if t.bits.values then StringsIn(heap, t.arr) else {};
      var arr := t.arr;
      MarkStringsNone(color);
      if t.bits.values {
        arr := ClearArray(t.arr);
      }
      MarkStringsDomain(old(color), S);
      HashAfterArray(heap, old(color), S, t);
      ghost var c1 := color;
      var nodes := ClearHash(t.nodes);
      MarkStringsTwice(old(color), S, NodesStrings(heap, old(color), t.nodes));
      heap := heap[h := t.(arr := arr, nodes := nodes)];
    }

    /** `cleartable`: every listed table loses the entries that would dangle. */
    method ClearTables()
      requires color.Keys == heap.Keys && NoDangling(heap) && Distinct(weak)
      requires WeakMarked(heap, color, weak)
      modifies `color, `heap
      ensures heap == ClearedHeap(old(heap), old(color), weak)
      ensures color == MarkStrings(old(color), WeakStrings(old(heap), old(color), weak))
    {
      hide MarkStrings;
      hide WeakStrings;
      hide ClearedHeap;
      hide ClearedTable;
      hide TableStrings;
      ghost var h0, c0 := heap, color;
      ClearStart(h0, c0);
      assert weak[..0] == [];
      var i := 0;
      while i < |weak|
        invariant 0 <= i <= |weak| && heap == ClearedHeap(h0, c0, weak[..i])
        invariant color == MarkStrings(c0, WeakStrings(h0, c0, weak[..i])) && color.Keys == heap.Keys
      {
        ClearStep(h0, c0, weak, i);
        ClearedDomain(h0, c0, weak[..i], weak[i]);
        MarkStringsDomain(c0, WeakStrings(h0, c0, weak[..i]));
        ClearTable(weak[i]);
        i := i + 1;
        MarkStringsDomain(c0, WeakStrings(h0, c0, weak[..i]));
      }
      assert weak[..i] == weak;
    }

    // ----- the invariant -----

    /** The invariant of the program and the collector. */
    ghost predicate Valid()
      reads this
    {
      Base() && InPhase() && UpvalsLinked()
    }

    /** The doubly linked list goes through exactly the open upvalues. */
    ghost predicate UpvalsLinked()
      reads `links, `uvhead
    {
      Threads(uvhead, links)
    }

    ghost predicate Base()
      reads this
    {
      BaseOk(heap, color, currentwhite, ObjLists(rootgc, strt, uvhead, fixed), Env(mainthread, running, registry, mt))
    }

    ghost predicate InPhase()
      reads this
    {
      PhaseOk(gcstate, heap, color, currentwhite, Lists(), ObjLists(rootgc, strt, uvhead, fixed),
              Env(mainthread, running, registry, mt), sweepgc, sweepstrgc)
    }

    /** `atomic`: finish the mark phase. If no weak table became black since the collection began,
        what is left alive are the reachable objects and the strings that weak tables keep. */
    method Atomic(ghost R: set<Ref>)
      requires Valid() && gcstate == Propagate && StrongClosed(heap, R) && MarkedIn(color, R) && RootRefs() <= R
      modifies `heap, `color, `gray, `grayagain, `weak, `currentwhite, `sweepstrgc, `sweepgc, `gcstate
      ensures Valid() && gcstate == SweepString && heap.Keys == old(heap).Keys
      ensures forall r {:trigger SteppedAt(old(heap), color, heap, r)} :: r in heap ==> SteppedAt(old(heap), color, heap, r)
      ensures old(BlackStrong(heap, color)) && R == ReachSet(old(heap), RootRefs()) ==>
                && NotDead(color, currentwhite) == R + KeptStrings(old(heap), R)
                && AllCollected(old(heap), R, heap)
    {
      hide UpvalsLinked;
      hide SteppedAt;
      hide AllCollected;
      hide Valid;
      hide BlackStrong;
      hide NotDead;
      hide NonWhite;
      hide KeptStrings;
      hide ReachSet;
      hide MarkingDone;
      LinksOfValid();
      MarkAndClear(R);
      // from here on what was not marked is dead
      currentwhite := !currentwhite;
      sweepstrgc, sweepgc := 0, 0;
      gcstate := SweepString;
      ReadyToSweep();
    }

    lemma LinksOfValid()
      requires Valid()
      ensures UpvalsLinked()
    {
    }

    lemma ReadyToSweep()
      requires MarkingDone(!currentwhite) && gcstate == SweepString && sweepgc == 0 && sweepstrgc == 0
      requires UpvalsLinked()
      ensures Valid() && NotDead(color, currentwhite) == NonWhite(color)
    {
      hide NotDead;
      hide NonWhite;
      hide EntryClosed;
      hide NeverBlack;
      hide RootOk;
      hide StringsOk;
      hide UpvalsOk;
    }

    /** The state between marking and sweeping: no marked object refers to an unmarked one. */
    ghost predicate MarkingDone(white: bool)
      reads `heap, `color, `rootgc, `strt, `uvhead, `fixed, `mainthread, `running, `registry, `mt
    {
      && color.Keys == heap.Keys && ShapeOk(heap) && NeverBlack(heap, color)
      && NotDead(color, !white) == NonWhite(color)
      && EntryClosed(heap, NonWhite(color)) && RootRefs() <= NonWhite(color)
    }

    method MarkAndClear(ghost R: set<Ref>)
      requires Valid() && gcstate == Propagate && StrongClosed(heap, R) && MarkedIn(color, R) && RootRefs() <= R
      modifies `heap, `color, `gray, `grayagain, `weak
      ensures MarkingDone(currentwhite) && heap.Keys == old(heap).Keys
      ensures forall r {:trigger SteppedAt(old(heap), color, heap, r)} :: r in heap ==> SteppedAt(old(heap), color, heap, r)
      ensures old(BlackStrong(heap, color)) && R == ReachSet(old(heap), RootRefs()) ==>
                && NonWhite(color) == R + KeptStrings(old(heap), R)
                && AllCollected(old(heap), R, heap)
    {
      hide SteppedAt;
      hide AllCollected;
      hide Valid;
      hide MarkingIn;
      hide Marked;
      hide MarkedIn;
      hide HeapSame;
      hide WeakClean;
      hide BlackStrong;
      hide WeakListed;
      hide ClearedHeap;
      hide MarkStrings;
      hide WeakStrings;
      hide KeptStrings;
      hide EntryClosed;
      hide EntryRefs;
      hide StrongRefs;
      hide StrongClosed;
      hide ReachSet;
      hide NotDead;
      hide NonWhite;
      hide NeverBlack;
      hide NoDangling;
      hide NoOther;
      hide MarksClosed;
      hide OpenListed;
      hide WeakMarked;
      hide Distinct;
      hide ShapeOk;
      hide RootRefs;
      hide MarkingDone;
      StartAtomic(R);
      MarkAtomic(R);
      ghost var h1, c1 := heap, color;
      FinishMarks(R);
      ClearTables();
      EndMarking(old(heap), h1, c1, R);
      EachStepped(old(heap), h1, c1, weak);
      if old(BlackStrong(heap, color)) && R == ReachSet(old(heap), RootRefs()) {
        ExactlyReachable(old(heap), h1, c1, weak, currentwhite, RootRefs(), R);
        EachMarkedCollected(old(heap), h1, c1, weak, R);
      }
    }

    lemma StartAtomic(R: set<Ref>)
      requires Valid() && gcstate == Propagate && StrongClosed(heap, R) && MarkedIn(color, R) && RootRefs() <= R
      ensures MarkingIn(R) && Marked(color, {mainthread} + Ref1(registry)) && RootRefs() <= heap.Keys * R
      ensures OpenListed(heap, uvhead)
      ensures ShapeOk(heap)
      ensures UpvalsLinked()
    {
      NothingDead(color, currentwhite);
    }

    /** The state in which `cleartable` begins. */
    lemma FinishMarks(R: set<Ref>)
      requires MarkingIn(R) && WeakClean(heap, color, weak)
      ensures color.Keys == heap.Keys && NoDangling(heap) && Distinct(weak) && NoOther(color, currentwhite) && MarkedIn(color, R)
      ensures WeakMarked(heap, color, weak)
      ensures NeverBlack(heap, color)
    {
      assert Lists()[|gray + grayagain|..] == weak;
      DistinctTail(gray + grayagain, weak);
      forall r | r in weak ensures r in heap && heap[r].Table? && r in color && !color[r].White? {
        assert r in Lists() && WeakDone(heap, color, r);
        assert ListOk(heap, color, r);
      }
      forall r | r in heap && r in color && (heap[r].String? || heap[r].Thread? || OpenUpval(heap[r]))
        ensures !color[r].Black?
      {
        assert ColorOk(heap, color, Lists(), r);
      }
    }

    /** The lists and roots fit the heap. */
    ghost predicate ShapeOk(h: Heap)
      reads `rootgc, `strt, `uvhead, `fixed, `mainthread, `running
    {
      && ListsOk(h, ObjLists(rootgc, strt, uvhead, fixed))
      && mainthread in h && h[mainthread].Thread? && running in h && h[running].Thread?
    }

    lemma EndMarking(h0: Heap, h1: Heap, c1: Colors, R: set<Ref>)
      requires HeapSame(h0, h1) && heap == ClearedHeap(h1, c1, weak) && color == MarkStrings(c1, WeakStrings(h1, c1, weak))
      requires ShapeOk(h0) && Marked(c1, RootRefs())
      requires c1.Keys == h1.Keys && NoDangling(h1) && NoOther(c1, currentwhite) && NeverBlack(h1, c1)
      requires WeakClean(h1, c1, weak) && WeakMarked(h1, c1, weak) && MarksClosed(h1, c1, weak)
      ensures MarkingDone(currentwhite) && heap.Keys == h0.Keys && NonWhite(color) == NonWhite(c1) + WeakStrings(h1, c1, weak)
    {
      hide NoDangling;
      hide NoOther;
      hide MarksClosed;
      hide WeakClean;
      hide WeakMarked;
      hide ClearedHeap;
      hide MarkStrings;
      hide WeakStrings;
      hide EntryClosed;
      hide NeverBlack;
      hide RootRefs;
      AfterClearing(h1, c1, weak, currentwhite, R);
      HeapSameIsSameKinds(h0, h1);
      ClearedIsSameKinds(h1, c1, weak);
      SameKindsTwice(h0, h1, heap);
      MarkStringsAdvances(c1, WeakStrings(h1, c1, weak), RootRefs());
      assert RootRefs() <= NonWhite(color);
      hide HeapSame;
      hide NotDead;
      hide NonWhite;
      hide RootOk;
      hide StringsOk;
      hide UpvalsOk;
      ListsKept(h0, heap, rootgc, strt, uvhead);
      SameKindsStrings(h0, heap, fixed);
      SameKindsThread(h0, heap, mainthread);
      SameKindsThread(h0, heap, running);
    }

    // ----- sweeping -----

    /** Sweep the strings of one bucket: `sweepwholelist` on it. */
    method SweepBucket(b: nat)
      requires Base() && sweepgc == 0 && b < |strt| && StringsSwept(color, currentwhite, strt, b)
      modifies `heap, `color, `strt
      ensures Base() && |strt| == old(|strt|) && StringsSwept(color, currentwhite, strt, b + 1)
      ensures SweepKeeps(old(heap), old(color), heap, color, currentwhite, fixed)
    {
      hide SweepKeeps;
      hide Base;
      hide StringsSwept;
      SweepKeepsNone(heap, color, currentwhite, fixed);
      var i := 0;
      while i < |strt[b]|
        invariant |strt| == old(|strt|) && 0 <= i <= |strt[b]| && Base() && StringsSwept(color, currentwhite, strt, b)
        invariant forall j :: 0 <= j < i ==> strt[b][j] in color && color[strt[b][j]] == White(currentwhite)
        invariant SweepKeeps(old(heap), old(color), heap, color, currentwhite, fixed)
        decreases |strt[b]| - i
      {
        ghost var h, c := heap, color;
        var kept := SweepOneString(b, i);
        SweepKeepsTwice(old(heap), old(color), h, c, heap, color, currentwhite, fixed);
        if kept {
          i := i + 1;
        }
      }
      BucketSwept(color, currentwhite, strt, b);
    }

    method SweepOneString(b: nat, i: nat) returns (kept: bool)
      requires Base() && b < |strt| && i < |strt[b]| && StringsSwept(color, currentwhite, strt, b)
      requires forall j :: 0 <= j < i ==> strt[b][j] in color && color[strt[b][j]] == White(currentwhite)
      modifies `heap, `color, `strt
      ensures Base() && |strt| == old(|strt|) && StringsSwept(color, currentwhite, strt, b)
      ensures strt[b] == if kept then old(strt[b]) else Remove(old(strt[b]), i)
      ensures forall j :: 0 <= j < (if kept then i + 1 else i) ==> strt[b][j] in color && color[strt[b][j]] == White(currentwhite)
      ensures SweepKeeps(old(heap), old(color), heap, color, currentwhite, fixed)
    {
      hide Base;
      hide SweepKeeps;
      hide StringsSwept;
      var curr := strt[b][i];
      StringFacts(b, i);
      kept := !IsDead(color, currentwhite, curr) || curr in fixed;
      if kept {
        Whiten(curr);
        StringsStaySwept(old(color), color, currentwhite, strt, strt, b, curr);
      } else {
        FreeString(b, i);
        RemovedFirst(old(strt[b]), i);
        StringsStaySwept(old(color), color, currentwhite, old(strt), strt, b, curr);
      }
    }

    lemma StringFacts(b: nat, i: nat)
      requires Base() && b < |strt| && i < |strt[b]|
      ensures strt[b][i] in heap && heap[strt[b][i]].String? && Distinct(strt[b]) && color.Keys == heap.Keys
      ensures forall a :: 0 <= a < b ==> strt[b][i] !in strt[a]
    {
      var r := strt[b][i];
      assert InBucket(strt, b, r);
      forall a: nat | a < b && r in strt[a] ensures false {
        assert InBucket(strt, a, r);
      }
    }

    /** `makewhite`, for the next cycle. */
    method Whiten(r: Ref)
      requires Base() && r in heap && (!IsDead(color, currentwhite, r) || r in fixed)
      modifies `color
      ensures Base() && color == old(color)[r := White(currentwhite)]
      ensures SweepKeeps(heap, old(color), heap, color, currentwhite, fixed)
    {
      hide BaseOk;
      hide SweepKeeps;
      Whitened(heap, color, currentwhite, ObjLists(rootgc, strt, uvhead, fixed), Env(mainthread, running, registry, mt), r);
      color := color[r := White(currentwhite)];
    }

    method FreeString(b: nat, i: nat)
      requires Base() && b < |strt| && i < |strt[b]| && IsDead(color, currentwhite, strt[b][i]) && strt[b][i] !in fixed
      modifies `heap, `color, `strt
      ensures Base() && strt == old(strt)[b := Remove(old(strt[b]), i)]
      ensures heap == old(heap) - {old(strt[b][i])} && color == old(color) - {old(strt[b][i])}
      ensures SweepKeeps(old(heap), old(color), heap, color, currentwhite, fixed)
    {
      hide BaseOk;
      hide SweepKeeps;
      FreedString(heap, color, currentwhite, ObjLists(rootgc, strt, uvhead, fixed), Env(mainthread, running, registry, mt), b, i);
      var curr := strt[b][i];
      heap := heap - {curr};
      color := color - {curr};
      strt := strt[b := Remove(strt[b], i)];
    }

    /** `luaF_freeupval`, for a dead open upvalue of thread `t`. */
    method FreeUpval(t: Ref, i: nat)
      requires Valid() && t in heap && heap[t].Thread? && i < |heap[t].open| && IsDead(color, currentwhite, heap[t].open[i])
      modifies `heap, `color, `links, `uvhead
      ensures Valid() && SweepKeeps(old(heap), old(color), heap, color, currentwhite, fixed)
      ensures var u := old(heap[t].open[i]);
              && heap == (old(heap) - {u})[t := old(heap[t]).(open := Remove(old(heap[t].open), i))]
              && color == old(color) - {u} && uvhead == Without(old(uvhead), u) && |uvhead| == old(|uvhead|) - 1
    {
      hide Threads;
      hide BaseOk;
      hide PhaseOk;
      hide SweepKeeps;
      FreedUpval(gcstate, heap, color, currentwhite, Lists(), ObjLists(rootgc, strt, uvhead, fixed),
                 Env(mainthread, running, registry, mt), sweepgc, sweepstrgc, t, i);
      OpenOnList(t, i);
      var u, th := heap[t].open[i], heap[t];
      heap := (heap - {u})[t := th.(open := Remove(th.open, i))];
      color := color - {u};
      WithoutThreads(uvhead, links, u);
      links, uvhead := WithoutLink(links, u), Without(uvhead, u);
    }

    lemma OpenOnList(t: Ref, i: nat)
      requires Base() && t in heap && heap[t].Thread? && i < |heap[t].open|
      ensures heap[t].open[i] in uvhead && Distinct(uvhead)
    {
      OpenFacts(heap, uvhead, t, i);
    }

    /** One turn of `luaF_close`: close the topmost open upvalue of a thread, or free it if dead. */
    method CloseUpval(t: Ref)
      requires Valid() && t in heap && heap[t].Thread? && heap[t].open != []
      modifies `heap, `color, `links, `uvhead, `rootgc, `sweepgc, `gray
      ensures Valid()
      ensures var u := old(heap[t].open[0]);
              && u in old(heap) && OpenUpval(old(heap[u])) && u != t
              && uvhead == Without(old(uvhead), u) && |uvhead| == old(|uvhead|) - 1
              && if old(IsDead(color, currentwhite, u)) then
                   heap == (old(heap) - {u})[t := old(heap[t]).(open := Remove(old(heap[t].open), 0))]
                   && rootgc == old(rootgc) && sweepgc == old(sweepgc)
                 else heap == CloseHeap(old(heap), t) && rootgc == [u] + old(rootgc) && sweepgc == PushedSweep(old(sweepgc))
      ensures gcstate != Propagate ==>
                && SweepKeeps(old(heap), old(color), heap, color, currentwhite, fixed)
                && gray == old(gray)
                && var u := old(heap[t].open[0]);
                   color == if old(IsDead(color, currentwhite, u)) then old(color) - {u} else old(color)[u := White(currentwhite)]
      ensures gcstate == Propagate ==> forall x :: !IsDead(color, currentwhite, x) && !old(IsDead(color, currentwhite, x))
    {
      hide UpvalsLinked;
      hide BaseOk;
      hide PhaseOk;
      hide SweepKeeps;
      hide Without;
      var u := heap[t].open[0];
      OpenUpvalFacts(t);
      NoDeadInPropagate();
      if IsDead(color, currentwhite, u) {
        FreeUpval(t, 0);
      } else if gcstate == Propagate {
        CloseInPropagate(t);
      } else {
        CloseOutsidePropagate(t);
      }
      NoDeadInPropagate();
    }

    lemma NoDeadInPropagate()
      requires Valid()
      ensures gcstate == Propagate ==> forall x :: !IsDead(color, currentwhite, x)
    {
    }

    lemma OpenUpvalFacts(t: Ref)
      requires Base() && t in heap && heap[t].Thread? && heap[t].open != []
      ensures var u := heap[t].open[0]; u in heap && OpenUpval(heap[u]) && u != t && u in color && u in uvhead
      ensures Distinct(uvhead)
    {
      OpenFacts(heap, uvhead, t, 0);
    }

    /** Take the topmost upvalue off the lists of open ones, copy its value and put it onto `rootgc`. */
    method RelinkUpval(t: Ref)
      requires t in heap && heap[t].Thread? && heap[t].open != [] && heap[t].open[0] in heap && heap[heap[t].open[0]].Upval?
      requires UpvalsLinked() && Distinct(uvhead) && heap[t].open[0] in uvhead
      modifies `heap, `links, `uvhead, `rootgc, `sweepgc
      ensures heap == CloseHeap(old(heap), t)
      ensures uvhead == Without(old(uvhead), old(heap[t].open[0])) && UpvalsLinked()
      ensures rootgc == [old(heap[t].open[0])] + old(rootgc) && sweepgc == PushedSweep(old(sweepgc))
    {
      hide Without;
      var u, th := heap[t].open[0], heap[t];
      var v := UpvalValue(heap, heap[u].u);
      heap := heap[t := th.(open := Remove(th.open, 0))];
      WithoutThreads(uvhead, links, u);
      links, uvhead := WithoutLink(links, u), Without(uvhead, u);
      heap := heap[u := Upval(Closed(v))];  // the value no longer depends on the stack
      rootgc := [u] + rootgc;
      sweepgc := PushedSweep(sweepgc);
    }

    /** `luaC_linkupval` in a sweep phase: the upvalue counts as swept already, so it gets the current white. */
    method CloseOutsidePropagate(t: Ref)
      requires Valid() && t in heap && heap[t].Thread? && heap[t].open != [] && gcstate != Propagate
      requires heap[t].open[0] in heap && OpenUpval(heap[heap[t].open[0]])
      requires !IsDead(color, currentwhite, heap[t].open[0])
      modifies `heap, `color, `links, `uvhead, `rootgc, `sweepgc
      ensures Valid() && SweepKeeps(old(heap), old(color), heap, color, currentwhite, fixed)
      ensures var u := old(heap[t].open[0]);
              && heap == CloseHeap(old(heap), t) && color == old(color)[u := White(currentwhite)]
              && rootgc == [u] + old(rootgc) && uvhead == Without(old(uvhead), u) && |uvhead| == old(|uvhead|) - 1
              && sweepgc == PushedSweep(old(sweepgc))
    {
      hide Threads;
      hide BaseOk;
      hide PhaseOk;
      hide SweepKeeps;
      hide CloseHeap;
      hide Without;
      hide PushedSweep;
      hide Lists;
      var u := heap[t].open[0];
      ClosedOutside(gcstate, heap, color, currentwhite, Lists(), ObjLists(rootgc, strt, uvhead, fixed),
                    Env(mainthread, running, registry, mt), sweepgc, sweepstrgc, t);
      OpenUpvalFacts(t);
      RelinkUpval(t);
      if color[u] == Gray {
        color := color[u := White(currentwhite)];
      }
    }

    /** `luaC_linkupval` in the mark phase: closed upvalues need a barrier. */
    method CloseInPropagate(t: Ref)
      requires Valid() && t in heap && heap[t].Thread? && heap[t].open != [] && gcstate == Propagate
      requires heap[t].open[0] in heap && OpenUpval(heap[heap[t].open[0]])
      modifies `heap, `color, `links, `uvhead, `rootgc, `sweepgc, `gray
      ensures Valid()
      ensures var u := old(heap[t].open[0]);
              && heap == CloseHeap(old(heap), t)
              && rootgc == [u] + old(rootgc) && uvhead == Without(old(uvhead), u) && |uvhead| == old(|uvhead|) - 1
              && sweepgc == PushedSweep(old(sweepgc))
    {
      hide Threads;
      hide UpvalsLinked;
      hide Lists;
      hide BaseOk;
      hide PhaseOk;
      hide MarkOk;
      hide ListsOk;
      hide Without;
      hide Marked;
      hide EnvRefs;
      hide Grows;
      hide Work;
      hide NewUpvals;
      hide Pushed;
      hide CloseHeap;
      hide PushedSweep;
      var u := heap[t].open[0];
      ghost var l, e := ObjLists(rootgc, strt, uvhead, fixed), Env(mainthread, running, registry, mt);
      CloseMarkFacts(heap, color, currentwhite, Lists(), l, e, sweepgc, sweepstrgc, t);
      OpenUpvalFacts(t);
      RelinkUpval(t);
      if color[u] == Gray {
        color := color[u := Black];
        UpvalBarrier(u);
      }
      PropagateWhole(heap, color, currentwhite, Lists(), ObjLists(rootgc, strt, uvhead, fixed), e, sweepgc, sweepstrgc);
    }

    /** `luaC_barrier` for an upvalue that was just closed and is black. */
    method UpvalBarrier(u: Ref)
      requires MarkPhase({u}, heap.Keys) && u in heap && IsClosedUpval(heap[u]) && u in color && color[u] == Black
      requires Marked(color, {mainthread} + Ref1(registry))
      modifies `color, `gray
      ensures MarkPhase({}, heap.Keys) && Marked(color, {mainthread} + Ref1(registry))
    {
      hide MarkOk;
      hide Marked;
      hide Grows;
      hide Work;
      hide NewUpvals;
      hide Pushed;
      ghost var c := color;
      ObjRefsIn(heap, color, Lists(), currentwhite, {u}, heap.Keys, u);
      MarkValue(heap[u].u.v, {u}, heap.Keys);
      MarkedGrows(c, color, heap.Keys, {mainthread} + Ref1(registry));
      StaysBlack(c, color, heap.Keys, u);
      ClosedMarked(heap, color, Lists(), currentwhite, u);
    }

    /** `luaF_close`: close exactly the upvalues at `level` or above, each with the last value of its
        slot; those that are dead are freed. */
    method Close(t: Ref, level: nat)
      requires Valid() && t in heap && heap[t].Thread?
      modifies `heap, `color, `links, `uvhead, `rootgc, `sweepgc, `gray
      ensures Valid() && t in heap && heap[t].Thread?
      ensures heap[t].stack == old(heap[t].stack) && heap[t].globals == old(heap[t].globals)
      ensures NoneOpenFrom(heap, t, level) && ClosedDownTo(old(heap), old(color), currentwhite, heap, t, level)
    {
      hide Valid;
      hide Closing;
      hide ClosedDownTo;
      hide NoneOpenFrom;
      hide IsAbove;
      ghost var h, c, k := heap, color, 0;
      CloseStart(t, level);
      var more := TopIsAbove(t, level, h, c, k);
      while more
        invariant Valid() && Closing(h, c, t, level, k) && (more <==> IsAbove(t, level))
        invariant k <= |h[t].open| && (more ==> k < |h[t].open|)
        decreases |h[t].open| - k
      {
        CloseOne(t, level, h, c, k);
        k := k + 1;
        more := TopIsAbove(t, level, h, c, k);
      }
      CloseDone(h, c, t, level, k);
    }

    /** The topmost open upvalue is at `level` or above. */
    ghost predicate IsAbove(t: Ref, level: nat)
      reads `heap
    {
      && t in heap && heap[t].Thread? && heap[t].open != [] && heap[t].open[0] in heap && OpenUpval(heap[heap[t].open[0]])
      && heap[heap[t].open[0]].u.slot >= level
    }

    /** The first `k` of the upvalues that were open are closed. */
    ghost predicate Closing(h: Heap, c: Colors, t: Ref, level: nat, k: nat)
      reads `heap, `color, `currentwhite
    {
      && OpenKnown(h, t) && k <= |h[t].open|
      && t in heap && heap[t].Thread? && heap[t].open == h[t].open[k..] && heap[t].stack == h[t].stack && heap[t].globals == h[t].globals
      && ClosedFirst(h, c, currentwhite, heap, t, level, k) && StillOpen(h, c, currentwhite, heap, color, t, k)
    }

    method TopIsAbove(t: Ref, level: nat, ghost h: Heap, ghost c: Colors, ghost k: nat) returns (b: bool)
      requires Valid() && Closing(h, c, t, level, k)
      ensures b <==> IsAbove(t, level)
      ensures t in h && h[t].Thread? && k <= |h[t].open| && (b ==> k < |h[t].open|)
    {
      hide BaseOk;
      hide PhaseOk;
      if heap[t].open == [] {
        return false;
      }
      OpenUpvalFacts(t);
      b := heap[heap[t].open[0]].u.slot >= level;
    }

    method CloseOne(t: Ref, level: nat, ghost h: Heap, ghost c: Colors, ghost k: nat)
      requires Valid() && Closing(h, c, t, level, k) && IsAbove(t, level)
      modifies `heap, `color, `links, `uvhead, `rootgc, `sweepgc, `gray
      ensures Valid() && Closing(h, c, t, level, k + 1)
    {
      hide Threads;
      hide BaseOk;
      hide PhaseOk;
      hide SweepKeeps;
      hide Without;
      hide ClosedFirst;
      hide StillOpen;
      hide OpenKnown;
      OpenUpvalFacts(t);
      ClosingFacts(h, c, t, level, k);
      hide Closing;
      ghost var h1, c1 := heap, color;
      CloseUpval(t);
      CloseNext(h, c, currentwhite, h1, c1, heap, color, t, level, k);
      ClosingNext(h, c, h1, t, level, k);
    }

    lemma ClosingFacts(h: Heap, c: Colors, t: Ref, level: nat, k: nat)
      requires Closing(h, c, t, level, k) && IsAbove(t, level)
      ensures OpenKnown(h, t) && t in h && h[t].Thread? && k < |h[t].open| && t in heap && heap[t].Thread?
      ensures heap[t].open == h[t].open[k..] && heap[t].open[0] == h[t].open[k] && heap[t].stack == h[t].stack && heap[t].globals == h[t].globals
      ensures ClosedFirst(h, c, currentwhite, heap, t, level, k) && StillOpen(h, c, currentwhite, heap, color, t, k)
    {
    }

    lemma ClosingNext(h: Heap, c: Colors, h1: Heap, t: Ref, level: nat, k: nat)
      requires OpenKnown(h, t) && t in h && h[t].Thread? && k < |h[t].open| && t in h1 && h1[t].Thread?
      requires h1[t].stack == h[t].stack && h1[t].globals == h[t].globals && t in heap && heap[t] == h1[t].(open := h[t].open[k + 1..])
      requires ClosedFirst(h, c, currentwhite, heap, t, level, k + 1) && StillOpen(h, c, currentwhite, heap, color, t, k + 1)
      ensures Closing(h, c, t, level, k + 1)
    {
    }

    lemma CloseStart(t: Ref, level: nat)
      requires Valid() && t in heap && heap[t].Thread?
      ensures Closing(heap, color, t, level, 0) && t in heap && heap[t].Thread?
    {
      CloseBegins(heap, color, currentwhite, uvhead, t, level);
    }

    lemma CloseDone(h: Heap, c: Colors, t: Ref, level: nat, k: nat)
      requires Valid() && Closing(h, c, t, level, k) && !IsAbove(t, level)
      ensures t in heap && heap[t].Thread? && heap[t].stack == h[t].stack && heap[t].globals == h[t].globals
      ensures NoneOpenFrom(heap, t, level) && ClosedDownTo(h, c, currentwhite, heap, t, level)
    {
      hide BaseOk;
      hide PhaseOk;
      if k < |h[t].open| {
        assert heap[t].open[0] == h[t].open[k];
        OpenUpvalFacts(t);
      }
      ClosedToLevel(t, level);
      forall u ensures ClosedRight(h, c, currentwhite, heap, t, level, u) {
        CloseEnds(h, c, currentwhite, heap, color, t, level, k, u);
      }
    }

    lemma ClosedToLevel(t: Ref, level: nat)
      requires Base() && t in heap && heap[t].Thread?
      requires heap[t].open != [] ==> heap[t].open[0] in heap && OpenUpval(heap[heap[t].open[0]]) && heap[heap[t].open[0]].u.slot < level
      ensures NoneOpenFrom(heap, t, level)
    {
      forall u | OpenAt(heap, u, t) ensures heap[u].u.slot < level {
        HighestOpen(heap, uvhead, t, u);
      }
    }

    /** Number of objects that the sweep phase still has to visit. */
    ghost function ToSweep(): int
      reads `rootgc, `sweepgc, `uvhead
    {
      |rootgc| - sweepgc + |uvhead|
    }

    /** Sweep the open upvalues of a thread. */
    method SweepOpenUpvals(t: Ref)
      requires Valid() && gcstate == Sweep && t in heap && heap[t].Thread?
      modifies `heap, `color, `links, `uvhead
      ensures Valid() && SweepKeeps(old(heap), old(color), heap, color, currentwhite, fixed) && |uvhead| <= old(|uvhead|)
      ensures t in heap && heap[t].Thread? && t in color && color[t] == old(color[t])
      ensures forall j :: 0 <= j < |heap[t].open| ==> heap[t].open[j] in color && color[heap[t].open[j]] == White(currentwhite)
    {
      hide UpvalsLinked;
      hide BaseOk;
      hide PhaseOk;
      hide SweepKeeps;
      hide Without;
      hide Remove;
      SweepKeepsNone(heap, color, currentwhite, fixed);
      HasColor(t);
      var i := 0;
      while i < |heap[t].open|
        invariant Valid() && t in heap && heap[t].Thread? && t in color && color[t] == old(color[t]) && i <= |heap[t].open|
        invariant SweepKeeps(old(heap), old(color), heap, color, currentwhite, fixed) && |uvhead| <= old(|uvhead|)
        invariant forall j :: 0 <= j < i ==> heap[t].open[j] in color && color[heap[t].open[j]] == White(currentwhite)
        decreases |heap[t].open| - i
      {
        ghost var h, c := heap, color;
        var u := heap[t].open[i];
        OpenUpvalAt(t, i);
        RemovedFirst(heap[t].open, i);
        if IsDead(color, currentwhite, u) {
          FreeUpval(t, i);
        } else {
          WhitenSwept(u);
          i := i + 1;
        }
        SweepKeepsTwice(old(heap), old(color), h, c, heap, color, currentwhite, fixed);
      }
    }

    lemma HasColor(t: Ref)
      requires Base() && t in heap
      ensures t in color
    {
    }

    lemma OpenUpvalAt(t: Ref, i: nat)
      requires Base() && t in heap && heap[t].Thread? && i < |heap[t].open|
      ensures var u := heap[t].open[i]; u in heap && u in color && u != t
      ensures Distinct(heap[t].open)
    {
      OpenFacts(heap, uvhead, t, i);
    }

    /** `makewhite` in the sweep phase. */
    method WhitenSwept(r: Ref)
      requires Valid() && gcstate == Sweep && r in heap && !IsDead(color, currentwhite, r)
      modifies `color
      ensures Valid() && color == old(color)[r := White(currentwhite)]
      ensures SweepKeeps(heap, old(color), heap, color, currentwhite, fixed)
    {
      hide BaseOk;
      hide SweepKeeps;
      hide PhaseOk;
      WhitenedPhase(heap, color, currentwhite, Lists(), ObjLists(rootgc, strt, uvhead, fixed), Env(mainthread, running, registry, mt), sweepgc, sweepstrgc, r);
      Whiten(r);
    }

    /** One turn of `sweeplist` on the list of all objects. */
    method SweepObject()
      requires Valid() && gcstate == Sweep && sweepgc < |rootgc|
      modifies `heap, `color, `links, `uvhead, `rootgc, `sweepgc, `gray
      ensures Valid() && SweepKeeps(old(heap), old(color), heap, color, currentwhite, fixed) && ToSweep() < old(ToSweep())
    {
      hide UpvalsLinked;
      hide BaseOk;
      hide PhaseOk;
      hide SweepKeeps;
      var curr := rootgc[sweepgc];
      RootFacts(sweepgc);
      SweepKeepsNone(heap, color, currentwhite, fixed);
      if heap[curr].Thread? {
        SweepOpenUpvals(curr);
      }
      ghost var h, c := heap, color;
      if !IsDead(color, currentwhite, curr) {
        WhitenSwept(curr);
        AdvanceSweep(curr);
        sweepgc := sweepgc + 1;
      } else {
        FreeObject(curr);
      }
      SweepKeepsTwice(old(heap), old(color), h, c, heap, color, currentwhite, fixed);
    }

    lemma RootFacts(i: nat)
      requires Base() && i < |rootgc|
      ensures rootgc[i] in heap && rootgc[i] in color && InRoot(heap[rootgc[i]]) && Distinct(rootgc) && color.Keys == heap.Keys
      ensures rootgc[i] !in rootgc[..i] && rootgc[i] !in fixed
    {
      assert rootgc[i] in rootgc;
      forall j | 0 <= j < i ensures rootgc[j] != rootgc[i] {
        DistinctAt(rootgc, j, i);
      }
    }

    lemma AdvanceSweep(curr: Ref)
      requires Valid() && gcstate == Sweep && sweepgc < |rootgc| && rootgc[sweepgc] == curr && curr in heap && curr in color
      requires color[curr] == White(currentwhite)
      requires heap[curr].Thread? ==> forall j :: 0 <= j < |heap[curr].open| ==> heap[curr].open[j] in color && color[heap[curr].open[j]] == White(currentwhite)
      ensures PhaseOk(gcstate, heap, color, currentwhite, Lists(), ObjLists(rootgc, strt, uvhead, fixed),
                      Env(mainthread, running, registry, mt), sweepgc + 1, sweepstrgc)
    {
      assert SweptAt(heap, color, currentwhite, curr);
    }

    /** `freeobj`, for an object of the list `rootgc`. */
    method FreeObject(curr: Ref)
      requires Valid() && gcstate == Sweep && curr in heap && curr in rootgc && curr !in rootgc[..sweepgc] && sweepgc <= |rootgc|
      requires IsDead(color, currentwhite, curr) && curr !in fixed
      modifies `heap, `color, `links, `uvhead, `rootgc, `sweepgc, `gray
      ensures Valid() && SweepKeeps(old(heap), old(color), heap, color, currentwhite, fixed) && ToSweep() < old(ToSweep())
    {
      hide Threads;
      hide BaseOk;
      hide PhaseOk;
      hide SweepKeeps;
      hide Without;
      SweepKeepsNone(heap, color, currentwhite, fixed);
      if heap[curr].Thread? {
        CloseAll(curr);
      }
      ghost var h, c := heap, color;
      Unlink(curr);
      SweepKeepsTwice(old(heap), old(color), h, c, heap, color, currentwhite, fixed);
    }

    /** `luaE_freethread` closes all upvalues of the thread. */
    method CloseAll(t: Ref)
      requires Valid() && gcstate == Sweep && t in heap && heap[t].Thread? && IsDead(color, currentwhite, t)
      requires t in rootgc && sweepgc <= |rootgc| && t !in rootgc[..sweepgc]
      modifies `heap, `color, `links, `uvhead, `rootgc, `sweepgc, `gray
      ensures Valid() && t in heap && heap[t].Thread? && heap[t].open == [] && IsDead(color, currentwhite, t)
      ensures t in rootgc && sweepgc <= |rootgc| && t !in rootgc[..sweepgc]
      ensures SweepKeeps(old(heap), old(color), heap, color, currentwhite, fixed) && ToSweep() <= old(ToSweep())
    {
      hide Valid;
      hide SweepKeeps;
      hide Without;
      SweepKeepsNone(heap, color, currentwhite, fixed);
      while heap[t].open != []
        invariant Valid() && t in heap && heap[t].Thread? && IsDead(color, currentwhite, t)
        invariant t in rootgc && sweepgc <= |rootgc| && t !in rootgc[..sweepgc]
        invariant SweepKeeps(old(heap), old(color), heap, color, currentwhite, fixed) && ToSweep() <= old(ToSweep())
        decreases |heap[t].open|
      {
        ghost var h, c, s, k := heap, color, rootgc, sweepgc;
        CloseUpval(t);
        SweepKeepsTwice(old(heap), old(color), h, c, heap, color, currentwhite, fixed);
        PushedElsewhere(s, k, h[t].open[0], t);
      }
    }

    /** Take an object off the list and free it. */
    method Unlink(curr: Ref)
      requires Valid() && gcstate == Sweep && curr in heap && curr in rootgc && sweepgc <= |rootgc| && curr !in rootgc[..sweepgc]
      requires IsDead(color, currentwhite, curr) && curr !in fixed && (heap[curr].Thread? ==> heap[curr].open == [])
      modifies `heap, `color, `rootgc
      ensures Valid() && SweepKeeps(old(heap), old(color), heap, color, currentwhite, fixed) && |rootgc| == old(|rootgc|) - 1
    {
      hide BaseOk;
      hide PhaseOk;
      hide SweepKeeps;
      hide Without;
      FreedObject(heap, color, currentwhite, Lists(), ObjLists(rootgc, strt, uvhead, fixed), Env(mainthread, running, registry, mt), sweepgc, sweepstrgc, curr);
      rootgc := Without(rootgc, curr);
      heap := heap - {curr};
      color := color - {curr};
    }

    // ----- single steps -----

    const GCSWEEPMAX: nat := 40

    /** The `GCSsweepstring` step. */
    method StepSweepString()
      requires Valid() && gcstate == SweepString
      modifies `heap, `color, `strt, `sweepstrgc, `gcstate
      ensures Valid() && SweepKeeps(old(heap), old(color), heap, color, currentwhite, fixed)
      ensures |strt| == old(|strt|) && (gcstate == Sweep || (gcstate == SweepString && sweepstrgc == old(sweepstrgc) + 1))
    {
      hide BaseOk;
      hide SweepKeeps;
      hide StringsSwept;
      SweepBucket(sweepstrgc);
      sweepstrgc := sweepstrgc + 1;
      if sweepstrgc >= |strt| {
        gcstate := Sweep;
      }
    }

    /** The `GCSsweep` step. */
    method StepSweep()
      requires Valid() && gcstate == Sweep
      modifies `heap, `color, `links, `uvhead, `rootgc, `sweepgc, `gray, `gcstate
      ensures Valid() && SweepKeeps(old(heap), old(color), heap, color, currentwhite, fixed)
      ensures gcstate == Finalize || (gcstate == Sweep && ToSweep() < old(ToSweep()))
    {
      hide Threads;
      hide BaseOk;
      hide PhaseOk;
      hide SweepKeeps;
      SweepKeepsNone(heap, color, currentwhite, fixed);
      var count := GCSWEEPMAX;
      SweepInRange();
      while sweepgc < |rootgc| && count > 0
        invariant Valid() && gcstate == Sweep && sweepgc <= |rootgc|
        invariant SweepKeeps(old(heap), old(color), heap, color, currentwhite, fixed)
        invariant ToSweep() <= old(ToSweep()) && (count == GCSWEEPMAX || ToSweep() < old(ToSweep()))
        decreases ToSweep()
      {
        ghost var h, c := heap, color;
        SweepObject();
        SweepKeepsTwice(old(heap), old(color), h, c, heap, color, currentwhite, fixed);
        SweepInRange();
        count := count - 1;
      }
      if sweepgc >= |rootgc| {
        EndSweep();
        gcstate := Finalize;
      }
    }

    lemma SweepInRange()
      requires Valid() && gcstate == Sweep
      ensures sweepgc <= |rootgc| && ToSweep() >= 0
    {
    }

    lemma EndSweep()
      requires Valid() && gcstate == Sweep && sweepgc >= |rootgc|
      ensures PhaseOk(Finalize, heap, color, currentwhite, Lists(), ObjLists(rootgc, strt, uvhead, fixed),
                      Env(mainthread, running, registry, mt), sweepgc, sweepstrgc)
    {
      hide BaseOk;
      AllSwept(heap, color, currentwhite, Lists(), ObjLists(rootgc, strt, uvhead, fixed), Env(mainthread, running, registry, mt), sweepgc, sweepstrgc);
    }

    /** The `GCSpause` step: start a new collection. */
    method StepPause(ghost R: set<Ref>)
      requires Valid() && (gcstate == Pause || gcstate == Finalize) && StrongClosed(heap, R) && RootRefs() <= R
      modifies `color, `gray, `grayagain, `weak, `gcstate
      ensures Valid() && gcstate == Propagate && MarkedIn(color, R) && BlackStrong(heap, color)
    {
      hide BaseOk;
      hide PhaseOk;
      hide NoDangling;
      hide StrongClosed;
      hide MarkedIn;
      hide BlackStrong;
      hide Marked;
      hide Grows;
      hide MarkPhase;
      hide AllWhite;
      hide ShapeOk;
      hide RootRefs;
      hide Valid;
      PauseFacts(R);
      MarkRoot(R);
      PropagateStarted(R);
    }

    lemma PauseFacts(R: set<Ref>)
      requires Valid() && (gcstate == Pause || gcstate == Finalize) && RootRefs() <= R
      ensures color.Keys == heap.Keys && NoDangling(heap) && RootRefs() <= heap.Keys * R
      ensures mainthread in heap && heap[mainthread].Thread? && ShapeOk(heap)
      ensures AllWhite(color, currentwhite)
      ensures UpvalsLinked()
    {
      assert NotDead(color, currentwhite) == color.Keys;
    }

    lemma PropagateStarted(R: set<Ref>)
      requires MarkPhase({}, R) && ShapeOk(heap) && RootRefs() <= heap.Keys && gcstate == Propagate
      requires Marked(color, {mainthread} + Ref1(registry))
      requires UpvalsLinked()
      ensures Valid()
    {
      hide Tri;
      hide NoOther;
      hide Marked;
      AllClosed(heap);
      PropagateWhole(heap, color, currentwhite, Lists(), ObjLists(rootgc, strt, uvhead, fixed), Env(mainthread, running, registry, mt), sweepgc, sweepstrgc);
    }

    /** The `GCSpropagate` step. */
    method StepPropagate(ghost R: set<Ref>)
      requires Valid() && gcstate == Propagate && gray != [] && StrongClosed(heap, R) && MarkedIn(color, R)
      modifies `color, `gray, `heap, `weak, `grayagain
      ensures Valid() && HeapSame(old(heap), heap) && MarkedIn(color, R) && Work() < old(Work())
      ensures old(BlackStrong(heap, color)) ==> BlackStrong(heap, color)
    {
      hide BaseOk;
      hide PhaseOk;
      hide Progress;
      hide MarkOk;
      hide MarkedIn;
      hide BlackStrong;
      hide HeapSame;
      hide Marked;
      hide Work;
      PropagateFacts(R);
      PropagateMark(R);
      PropagateDone(old(heap), old(color), old(weak), old(grayagain), R);
    }

    lemma PropagateFacts(R: set<Ref>)
      requires Valid() && gcstate == Propagate && StrongClosed(heap, R)
      ensures MarkPhase({}, R) && ShapeOk(heap) && RootRefs() <= heap.Keys && Marked(color, {mainthread} + Ref1(registry))
      ensures color.Keys == heap.Keys
    {
      hide Tri;
      PropagateParts(heap, color, currentwhite, Lists(), ObjLists(rootgc, strt, uvhead, fixed), Env(mainthread, running, registry, mt), sweepgc, sweepstrgc);
    }

    lemma PropagateDone(h: Heap, c: Colors, w: seq<Ref>, a: seq<Ref>, R: set<Ref>)
      requires Progress(h, c, w, a, heap, color, weak, grayagain, R) && MarkPhase({}, R) && gcstate == Propagate
      requires ShapeOk(h) && RootRefs() <= h.Keys && Marked(c, {mainthread} + Ref1(registry)) && c.Keys == h.Keys
      requires UpvalsLinked()
      ensures Valid() && HeapSame(h, heap) && (BlackStrong(h, c) ==> BlackStrong(heap, color))
    {
      hide MarkOk;
      hide RootRefs;
      MarkedAdvances(c, color, {mainthread} + Ref1(registry));
      HeapSameIsSameKinds(h, heap);
      hide Progress;
      hide Marked;
      hide HeapSame;
      hide StringsOk;
      hide UpvalsOk;
      hide RootOk;
      ListsKept(h, heap, rootgc, strt, uvhead);
      SameKindsStrings(h, heap, fixed);
      SameKindsThread(h, heap, mainthread);
      SameKindsThread(h, heap, running);
      PropagateStarted(R);
    }

    /** One step got further in its phase, or ended it. */
    twostate predicate Advanced()
      reads this
    {
      match old(gcstate)
      case Pause => gcstate == Propagate
      case Propagate => if old(gray) == [] then gcstate == SweepString else gcstate == Propagate && Work() < old(Work())
      case SweepString => gcstate == Sweep || (gcstate == SweepString && sweepstrgc == old(sweepstrgc) + 1)
      case Sweep => gcstate == Finalize || (gcstate == Sweep && ToSweep() < old(ToSweep()))
      case Finalize => gcstate == Pause
    }

    /** `singlestep`: one step of the collector gets on, keeps the invariant, and never frees an object
        that the program can get at. */
    method SingleStep()
      requires Valid()
      modifies `heap, `color, `gray, `grayagain, `weak, `currentwhite, `gcstate, `rootgc, `sweepgc, `strt, `sweepstrgc, `links, `uvhead
      ensures Valid() && Advanced()
      ensures forall r :: Accessible(old(heap), RootRefs(), r) ==> r in heap
      ensures old(gcstate) == SweepString || old(gcstate) == Sweep ==>
                forall r :: Accessible(old(heap), RootRefs(), r) ==> KeepsAt(old(heap), heap, r)
      ensures old(gcstate) != SweepString && old(gcstate) != Sweep && gcstate != SweepString ==> HeapSame(old(heap), heap)
      ensures old(gcstate) == Propagate && gcstate == SweepString ==>
                forall r {:trigger SteppedAt(old(heap), color, heap, r)} :: r in heap ==> SteppedAt(old(heap), color, heap, r)
    {
      hide Threads;
      hide Work;
      hide ToSweep;
      hide SteppedAt;
      hide AllCollected;
      hide BaseOk;
      hide PhaseOk;
      hide SweepKeeps;
      hide StrongClosed;
      hide MarkedIn;
      hide BlackStrong;
      hide HeapSame;
      hide Accessible;
      hide KeptStrings;
      hide ReachSet;
      StepFacts();
      match gcstate {
        case Pause =>
          StepPause(heap.Keys);
          HeapSameNone(heap);
        case Propagate =>
          if gray != [] {
            StepPropagate(heap.Keys);
            SameKeys(old(heap), heap);
          } else {
            Atomic(heap.Keys);
          }
        case SweepString =>
          StepSweepString();
          AliveStay(old(heap), old(color), heap, color, currentwhite, old(ObjLists(rootgc, strt, uvhead, fixed)), Env(mainthread, running, registry, mt));
        case Sweep =>
          StepSweep();
          AliveStay(old(heap), old(color), heap, color, currentwhite, old(ObjLists(rootgc, strt, uvhead, fixed)), Env(mainthread, running, registry, mt));
        case Finalize =>
          EndCollection();
          gcstate := Pause;
          HeapSameNone(heap);
      }
    }

    lemma StepFacts()
      requires Valid()
      ensures gcstate == Pause || gcstate == Propagate ==>
                StrongClosed(heap, heap.Keys) && MarkedIn(color, heap.Keys) && RootRefs() <= heap.Keys
      ensures forall r :: Accessible(heap, RootRefs(), r) ==> r in heap
    {
      forall r | Accessible(heap, RootRefs(), r) ensures r in heap {
        AccessibleAlive(heap, color, currentwhite, ObjLists(rootgc, strt, uvhead, fixed), Env(mainthread, running, registry, mt), r);
      }
      hide Accessible;
      if gcstate == Pause || gcstate == Propagate {
        hide Tri;
        assert NotDead(color, currentwhite) == color.Keys;
        AllClosed(heap);
      }
    }

    lemma EndCollection()
      requires Valid() && gcstate == Finalize
      ensures Base() && PhaseOk(Pause, heap, color, currentwhite, Lists(), ObjLists(rootgc, strt, uvhead, fixed),
                                Env(mainthread, running, registry, mt), sweepgc, sweepstrgc)
      ensures UpvalsLinked()
    {
    }

    // ----- a full collection -----

    /** Sweep everything: what is not dead, and what is fixed, is kept. */
    method FinishSweep()
      requires Valid() && (gcstate == SweepString || gcstate == Sweep || gcstate == Finalize)
      modifies `heap, `color, `gray, `grayagain, `weak, `currentwhite, `gcstate, `rootgc, `sweepgc, `strt, `sweepstrgc, `links, `uvhead
      ensures Valid() && gcstate == Finalize && SweepKeeps(old(heap), old(color), heap, color, currentwhite, fixed)
      ensures currentwhite == old(currentwhite)
    {
      hide Valid;
      hide SweepKeeps;
      SweepKeepsNone(heap, color, currentwhite, fixed);
      while gcstate == SweepString
        invariant Valid() && (gcstate == SweepString || gcstate == Sweep || gcstate == Finalize)
        invariant SweepKeeps(old(heap), old(color), heap, color, currentwhite, fixed) && currentwhite == old(currentwhite)
        decreases if gcstate == SweepString then 1 else 0, |strt| - sweepstrgc
      {
        ghost var h, c := heap, color;
        StringsInRange();
        StepSweepString();
        SweepKeepsTwice(old(heap), old(color), h, c, heap, color, currentwhite, fixed);
      }
      while gcstate == Sweep
        invariant Valid() && (gcstate == Sweep || gcstate == Finalize)
        invariant SweepKeeps(old(heap), old(color), heap, color, currentwhite, fixed) && currentwhite == old(currentwhite)
        decreases if gcstate == Sweep then 1 else 0, ToSweep()
      {
        ghost var h, c := heap, color;
        SweepInRange();
        StepSweep();
        SweepKeepsTwice(old(heap), old(color), h, c, heap, color, currentwhite, fixed);
      }
    }

    lemma StringsInRange()
      requires Valid() && gcstate == SweepString
      ensures sweepstrgc < |strt|
    {
    }

    /** Start a collection and go on to the end of its mark phase. */
    method MarkReachable()
      requires Valid() && gcstate == Finalize
      modifies `heap, `color, `gray, `grayagain, `weak, `currentwhite, `gcstate, `rootgc, `sweepgc, `strt, `sweepstrgc, `links, `uvhead
      ensures Valid() && gcstate == SweepString && heap.Keys == old(heap).Keys
      ensures var R := ReachSet(old(heap), RootRefs());
              NotDead(color, currentwhite) == R + KeptStrings(old(heap), R) && AllCollected(old(heap), R, heap)
    {
      hide Threads;
      hide AllCollected;
      hide SteppedAt;
      hide BaseOk;
      hide PhaseOk;
      hide StrongClosed;
      hide MarkedIn;
      hide BlackStrong;
      hide HeapSame;
      hide ReachSet;
      hide KeptStrings;
      hide Work;
      hide RootRefs;
      ghost var h, R := heap, ReachSet(heap, RootRefs());
      ReachInHeap(h, RootRefs());
      ReachFacts();
      StepPause(R);
      HeapSameNone(h);
      while gray != []
        invariant Valid() && gcstate == Propagate && StrongClosed(heap, R) && MarkedIn(color, R) && BlackStrong(heap, color)
        invariant HeapSame(h, heap)
        decreases Work()
      {
        ghost var h1 := heap;
        StepPropagate(R);
        HeapSameTwice(h, h1, heap);
        HeapSameClosed(h1, heap, R);
      }
      HeapSameReach(h, heap, RootRefs());
      HeapSameKept(h, heap, R);
      SameKeys(h, heap);
      ghost var h1 := heap;
      Atomic(R);
      CollectedFromSame(h, h1, heap, R);
    }

    lemma ReachFacts()
      requires Valid() && gcstate == Finalize
      ensures var R := ReachSet(heap, RootRefs()); StrongClosed(heap, R) && RootRefs() <= R
    {
      assert NotDead(color, currentwhite) == color.Keys;
      ReachSetClosed(heap, RootRefs());
    }

    /** `luaC_fullgc`: from any state, a full collection ends, and what it leaves are the reachable
        objects, the strings that reachable weak tables keep, and the fixed strings; no entry of a
        table refers to an object that was freed. */
    method FullGc()
      requires Valid()
      modifies `heap, `color, `gray, `grayagain, `weak, `currentwhite, `gcstate, `rootgc, `sweepgc, `strt, `sweepstrgc, `links, `uvhead
      ensures Valid() && gcstate == Pause && NoDangling(heap)
      ensures var R := ReachSet(old(heap), RootRefs());
              && heap.Keys == R + KeptStrings(old(heap), R) + fixed && AllCollected(old(heap), R, heap)
              && (heap.Keys == R + fixed <==> KeptStrings(old(heap), R) <= R + fixed)
      ensures forall r, x :: r in heap && Stores(heap, heap[r], Gc(x)) ==> x in heap
    {
      hide Threads;
      hide AllCollected;
      hide Valid;
      hide BaseOk;
      hide PhaseOk;
      hide ReachSet;
      hide KeptStrings;
      hide SweepKeeps;
      hide NotDead;
      hide NoDangling;
      hide RootRefs;
      hide Stores;
      ghost var R, l := ReachSet(heap, RootRefs()), ObjLists(rootgc, strt, uvhead, fixed);
      BaseOfValid();
      PendingSweep();
      ghost var h1, c1 := heap, color;
      MarkReachable();
      ghost var h, c, white := heap, color, currentwhite;
      ReachInHeap(h1, RootRefs());
      FinishSweep();
      EachCollected(old(heap), old(color), old(currentwhite), l, Env(mainthread, running, registry, mt), h1, c1, h, c, heap, color, white, R);
      Finished(h, c);
      EndCollection();
      gcstate := Pause;
      PauseIsValid();
      NothingGone(heap);
    }

    lemma NothingGone(h: Heap)
      requires NoDangling(h)
      ensures forall r, x :: r in h && Stores(h, h[r], Gc(x)) ==> x in h
    {
      forall r, x | r in h && Stores(h, h[r], Gc(x)) ensures x in h {
        EntryIsStored(h, h[r], x);
      }
    }

    lemma ReachInHeap(h: Heap, roots: set<Ref>)
      ensures ReachSet(h, roots) <= h.Keys
    {
    }

    lemma PauseIsValid()
      requires Base() && gcstate == Pause && PhaseOk(Pause, heap, color, currentwhite, Lists(), ObjLists(rootgc, strt, uvhead, fixed),
                      Env(mainthread, running, registry, mt), sweepgc, sweepstrgc)
      requires UpvalsLinked()
      ensures Valid()
    {
    }

    /** The first part of a full collection: what is alive becomes white, from whatever phase. */
    method PendingSweep()
      requires Valid()
      modifies `heap, `color, `gray, `grayagain, `weak, `currentwhite, `gcstate, `rootgc, `sweepgc, `strt, `sweepstrgc, `links, `uvhead
      ensures Valid() && gcstate == Finalize
      ensures SweepKeeps(old(heap), old(color), heap, color, old(currentwhite), fixed)
      ensures var R := ReachSet(old(heap), RootRefs());
              && ReachSet(heap, RootRefs()) == R <= old(NotDead(color, currentwhite))
              && KeptStrings(heap, R) == KeptStrings(old(heap), R)
    {
      hide Threads;
      hide BaseOk;
      hide PhaseOk;
      hide ReachSet;
      hide KeptStrings;
      hide SweepKeeps;
      hide NotDead;
      ghost var h0, c0, w0, l0, e := heap, color, currentwhite, ObjLists(rootgc, strt, uvhead, fixed), Env(mainthread, running, registry, mt);
      hide Valid;
      BaseOfValid();
      if gcstate == Pause || gcstate == Propagate {
        ResetSweep();
      }
      FinishSweep();
      SweepReach(h0, c0, heap, color, w0, l0, e);
      SweepKept(h0, c0, heap, color, w0, l0, e, ReachSet(h0, EnvRefs(e)));
    }

    lemma BaseOfValid()
      requires Valid()
      ensures BaseOk(heap, color, currentwhite, ObjLists(rootgc, strt, uvhead, fixed), Env(mainthread, running, registry, mt))
    {
    }

    /** Give up the marking that was begun: the sweep will make everything white again. */
    method ResetSweep()
      requires Valid() && (gcstate == Pause || gcstate == Propagate)
      modifies `gray, `grayagain, `weak, `gcstate, `sweepgc, `sweepstrgc
      ensures Valid() && gcstate == SweepString
    {
      hide Threads;
      hide BaseOk;
      hide PhaseOk;
      sweepstrgc, sweepgc := 0, 0;
      gray, grayagain, weak := [], [], [];
      gcstate := SweepString;
      ResetIsValid();
    }

    lemma ResetIsValid()
      requires Base() && gcstate == SweepString && sweepgc == 0 && sweepstrgc == 0
      requires UpvalsLinked()
      ensures Valid()
    {
    }

    lemma Finished(h: Heap, c: Colors)
      requires Valid() && gcstate == Finalize && SweepKeeps(h, c, heap, color, currentwhite, fixed)
      ensures heap.Keys == NotDead(c, currentwhite) + fixed && NoDangling(heap)
    {
      OnlyAliveLeft(h, c, heap, color, currentwhite, fixed);
      assert NotDead(color, currentwhite) == color.Keys;
    }

    // ----- barriers and stores -----

    predicate Alive(v: Value)
      reads `color, `currentwhite
    {
      Ref1(v) <= NotDead(color, currentwhite)
    }

    /** `luaC_barrierback`: a black table becomes gray again. */
    method BarrierBack(t: Ref)
      requires Valid() && t in heap && heap[t].Table? && t in color && color[t] == Black
      modifies `color, `grayagain
      ensures Valid() && color == old(color)[t := Gray] && NotDead(color, currentwhite) == old(NotDead(color, currentwhite))
      ensures gcstate != Pause && gcstate != Finalize
    {
      hide BaseOk;
      hide PhaseOk;
      BarrierBackFacts(t);
      color := color[t := Gray];  // it will be visited again, so its stores need no barrier
      grayagain := [t] + grayagain;
      assert Lists() == gray + ([t] + (old(grayagain) + weak));
    }

    lemma BarrierBackFacts(t: Ref)
      requires Valid() && t in heap && heap[t].Table? && t in color && color[t] == Black
      ensures var c' := color[t := Gray];
              && BaseOk(heap, c', currentwhite, ObjLists(rootgc, strt, uvhead, fixed), Env(mainthread, running, registry, mt))
              && PhaseOk(gcstate, heap, c', currentwhite, gray + ([t] + (grayagain + weak)), ObjLists(rootgc, strt, uvhead, fixed),
                         Env(mainthread, running, registry, mt), sweepgc, sweepstrgc)
              && NotDead(c', currentwhite) == NotDead(color, currentwhite)
      ensures gcstate != Pause && gcstate != Finalize
    {
      hide BaseOk;
      hide Tri;
      hide NotDead;
      var l, e := ObjLists(rootgc, strt, uvhead, fixed), Env(mainthread, running, registry, mt);
      assert gray + (grayagain + weak) == Lists();
      BlackPhase(gcstate, heap, color, currentwhite, Lists(), l, e, sweepgc, sweepstrgc, t);
      RecoloredBase(heap, color, currentwhite, l, e, t, Gray);
      if gcstate == Propagate {
        BackInMark(heap, color, gray, grayagain + weak, currentwhite, e, t);
      } else {
        RecoloredPhase(gcstate, heap, color, currentwhite, Lists(), gray + ([t] + (grayagain + weak)), l, e, sweepgc, sweepstrgc, t, Gray);
      }
    }

    /** `luaC_barrierf`: mark the object referred to, or, in a sweep phase, turn the black one white. */
    method BarrierForward(o: Ref, v: Ref)
      requires Valid() && o in heap && o in color && color[o] == Black && v in heap && v in color && color[v] == White(currentwhite)
      modifies `color, `gray
      ensures Valid() && NotDead(color, currentwhite) == old(NotDead(color, currentwhite))
      ensures gcstate != Pause && gcstate != Finalize
      ensures if gcstate == Propagate then Marked(color, {v}) else o in color && color[o] != Black
    {
      hide BaseOk;
      hide PhaseOk;
      hide NotDead;
      BarrierForwardFacts(o);
      if gcstate == Propagate {
        MarkForBarrier(v);  // no black object refers to a white one again
      } else {
        color := color[o := White(currentwhite)];  // it stays alive: this is the current white
      }
    }

    method MarkForBarrier(v: Ref)
      requires Valid() && gcstate == Propagate && v in heap && v in color && color[v].White?
      modifies `color, `gray
      ensures Valid() && Marked(color, {v}) && NotDead(color, currentwhite) == old(NotDead(color, currentwhite))
    {
      hide BaseOk;
      hide PhaseOk;
      hide MarkOk;
      hide Grows;
      hide NewUpvals;
      hide Work;
      hide Pushed;
      hide NotDead;
      hide StrongClosed;
      hide ShapeOk;
      hide RootRefs;
      ReadyToMark();
      ghost var c := color;
      ReallyMarkObject(v, {}, heap.Keys);
      MarkedGrows(c, color, heap.Keys, {mainthread} + Ref1(registry));
      PropagateStarted(heap.Keys);
      AllAlive(c);
      HasColor(v);
    }

    lemma ReadyToMark()
      requires Valid() && gcstate == Propagate
      ensures MarkPhase({}, heap.Keys) && ShapeOk(heap) && RootRefs() <= heap.Keys && Marked(color, {mainthread} + Ref1(registry))
      ensures NoOther(color, currentwhite) && color.Keys == heap.Keys
    {
      hide Tri;
      PropagateParts(heap, color, currentwhite, Lists(), ObjLists(rootgc, strt, uvhead, fixed), Env(mainthread, running, registry, mt), sweepgc, sweepstrgc);
    }

    lemma AllAlive(c: Colors)
      requires Valid() && gcstate == Propagate && NoOther(c, currentwhite) && c.Keys == heap.Keys
      ensures NotDead(color, currentwhite) == NotDead(c, currentwhite)
    {
      NothingDead(c, currentwhite);
      NothingDead(color, currentwhite);
    }

    lemma BarrierForwardFacts(o: Ref)
      requires Valid() && o in color && color[o] == Black
      ensures gcstate != Pause && gcstate != Finalize
      ensures gcstate != Propagate ==>
                var c' := color[o := White(currentwhite)];
                && BaseOk(heap, c', currentwhite, ObjLists(rootgc, strt, uvhead, fixed), Env(mainthread, running, registry, mt))
                && PhaseOk(gcstate, heap, c', currentwhite, Lists(), ObjLists(rootgc, strt, uvhead, fixed),
                           Env(mainthread, running, registry, mt), sweepgc, sweepstrgc)
                && NotDead(c', currentwhite) == NotDead(color, currentwhite)
    {
      hide BaseOk;
      hide Tri;
      hide NotDead;
      var l, e := ObjLists(rootgc, strt, uvhead, fixed), Env(mainthread, running, registry, mt);
      BlackPhase(gcstate, heap, color, currentwhite, Lists(), l, e, sweepgc, sweepstrgc, o);
      RecoloredBase(heap, color, currentwhite, l, e, o, White(currentwhite));
      if gcstate != Propagate {
        RecoloredPhase(gcstate, heap, color, currentwhite, Lists(), Lists(), l, e, sweepgc, sweepstrgc, o, White(currentwhite));
      }
    }

    /** Replace the contents of an object. */
    method Store(r: Ref, o: Obj)
      requires Valid() && r in heap && r in color && Fits(heap, r, o) && SlotsIn(heap, r, o, NotDead(color, currentwhite))
      requires !IsDead(color, currentwhite, r) ==> EntryRefs(heap[r := o], o) <= NotDead(color, currentwhite)
      requires gcstate == Propagate && color[r] == Black ==> Marked(color, AnyRefs(heap[r := o], o))
      modifies `heap
      ensures Valid() && heap == old(heap)[r := o]
    {
      hide BaseOk;
      hide PhaseOk;
      hide Fits;
      hide SlotsIn;
      Stored(gcstate, heap, color, currentwhite, Lists(), ObjLists(rootgc, strt, uvhead, fixed), Env(mainthread, running, registry, mt),
             sweepgc, sweepstrgc, r, o);
      heap := heap[r := o];
    }

    /** Store a value into a table, followed by `luaC_barriert`. */
    method StoreInTable(t: Ref, o: Obj, v: Value)
      requires Valid() && t in heap && t in color && heap[t].Table? && o.Table? && !IsDead(color, currentwhite, t) && Alive(v)
      requires EntryRefs(heap, o) <= NotDead(color, currentwhite) && AnyRefs(heap, o) <= AnyRefs(heap, heap[t]) + Ref1(v)
      modifies `heap, `color, `grayagain
      ensures Valid() && heap == old(heap)[t := o] && NotDead(color, currentwhite) == old(NotDead(color, currentwhite))
    {
      hide BaseOk;
      hide PhaseOk;
      AliveIn(v);
      if v.Gc? && color[v.r].White? && color[t] == Black {
        BarrierBack(t);
      }
      TableStoreOk(t, o, v);
      Store(t, o);
    }

    lemma AliveIn(v: Value)
      requires Base() && Alive(v)
      ensures v.Gc? ==> v.r in heap && v.r in color && !IsDead(color, currentwhite, v.r)
    {
      assert v.Gc? ==> v.r in Ref1(v);
    }

    lemma TableStoreOk(t: Ref, o: Obj, v: Value)
      requires Valid() && t in heap && t in color && heap[t].Table? && o.Table? && Alive(v)
      requires AnyRefs(heap, o) <= AnyRefs(heap, heap[t]) + Ref1(v)
      requires color[t] == Black ==> (v.Gc? ==> v.r in color && !color[v.r].White?)
      ensures Fits(heap, t, o) && SlotsIn(heap, t, o, NotDead(color, currentwhite))
      ensures EntryRefs(heap[t := o], o) == EntryRefs(heap, o)
      ensures gcstate == Propagate && color[t] == Black ==> Marked(color, AnyRefs(heap[t := o], o))
    {
      hide BaseOk;
      hide PhaseOk;
      hide NotDead;
      if gcstate == Propagate && color[t] == Black {
        BlackRefsMarked(t);
      }
      NoSlots(t, o);
    }

    lemma BlackRefsMarked(r: Ref)
      requires Valid() && gcstate == Propagate && r in heap && r in color && color[r] == Black
      ensures Marked(color, AnyRefs(heap, heap[r]))
    {
      assert ColorOk(heap, color, Lists(), r);
    }

    lemma NoSlots(t: Ref, o: Obj)
      requires Base() && t in heap && !heap[t].Thread?
      ensures SlotsIn(heap, t, o, NotDead(color, currentwhite))
    {
      forall x | x in heap && OpenUpval(heap[x]) ensures heap[x].u.thread != t {
        assert OpenAt(heap, x, heap[x].u.thread);
      }
    }

    /** Store a value into a closure or a closed upvalue, followed by `luaC_barrier`. */
    method StoreWithBarrier(r: Ref, o: Obj, v: Value)
      requires Valid() && r in heap && r in color && !IsDead(color, currentwhite, r) && Alive(v)
      requires (heap[r].Closure? && o.Closure?) || (IsClosedUpval(heap[r]) && IsClosedUpval(o))
      requires EntryRefs(heap, o) <= NotDead(color, currentwhite) && EntryRefs(heap, o) <= EntryRefs(heap, heap[r]) + Ref1(v)
      modifies `heap, `color, `gray
      ensures Valid() && heap == old(heap)[r := o] && NotDead(color, currentwhite) == old(NotDead(color, currentwhite))
    {
      hide BaseOk;
      hide PhaseOk;
      AliveIn(v);
      if v.Gc? && color[v.r].White? && color[r] == Black {
        BarrierForward(r, v.r);
        HasColor(r);
        HasColor(v.r);
      }
      ForwardStoreOk(r, o, v);
      Store(r, o);
    }

    lemma ForwardStoreOk(r: Ref, o: Obj, v: Value)
      requires Valid() && r in heap && r in color && Alive(v)
      requires (heap[r].Closure? && o.Closure?) || (IsClosedUpval(heap[r]) && IsClosedUpval(o))
      requires EntryRefs(heap, o) <= EntryRefs(heap, heap[r]) + Ref1(v)
      requires gcstate == Propagate && color[r] == Black ==> (v.Gc? ==> v.r in color && !color[v.r].White?)
      ensures Fits(heap, r, o) && SlotsIn(heap, r, o, NotDead(color, currentwhite))
      ensures EntryRefs(heap[r := o], o) == EntryRefs(heap, o)
      ensures gcstate == Propagate && color[r] == Black ==> Marked(color, AnyRefs(heap[r := o], o))
    {
      hide BaseOk;
      hide PhaseOk;
      hide NotDead;
      if gcstate == Propagate && color[r] == Black {
        BlackRefsMarked(r);
      }
      NoSlots(r, o);
    }

    /** Change the stack of a thread. Threads are never black, so this needs no barrier. */
    method StoreInThread(t: Ref, o: Obj)
      requires Valid() && t in heap && t in color && heap[t].Thread? && o.Thread? && Fits(heap, t, o)
      requires SlotsIn(heap, t, o, NotDead(color, currentwhite))
      requires !IsDead(color, currentwhite, t) ==> EntryRefs(heap, o) <= NotDead(color, currentwhite)
      modifies `heap
      ensures Valid() && heap == old(heap)[t := o]
    {
      hide BaseOk;
      hide PhaseOk;
      hide Fits;
      hide SlotsIn;
      ThreadNotBlack(t);
      Store(t, o);
    }

    lemma ThreadNotBlack(t: Ref)
      requires Base() && t in heap && heap[t].Thread? && t in color
      ensures color[t] != Black
    {
    }

    /** `luaC_link`. */
    method Link(r: Ref, o: Obj)
      requires Valid() && r !in heap && Linkable(o) && EntryRefs(heap[r := o], o) <= NotDead(color, currentwhite)
      modifies `heap, `color, `rootgc, `sweepgc
      ensures Valid() && heap == old(heap)[r := o] && color == old(color)[r := White(currentwhite)]
      ensures rootgc == [r] + old(rootgc)
    {
      hide Threads;
      hide BaseOk;
      hide PhaseOk;
      Linked(gcstate, heap, color, currentwhite, Lists(), ObjLists(rootgc, strt, uvhead, fixed), Env(mainthread, running, registry, mt),
             sweepgc, sweepstrgc, r, o);
      heap := heap[r := o];
      color := color[r := White(currentwhite)];
      rootgc := [r] + rootgc;
      sweepgc := PushedSweep(sweepgc);
    }
  }
}