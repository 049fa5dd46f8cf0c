/** The steps of a running program, as the collector sees them. */
module Mutator {
  // Every step keeps the invariant of the collector, in whatever phase it is, as long as the objects
  // it uses are not dead; and nothing that the program can get at is dead (lua/lapi.c, lua/lvm.c,
  // lua/lfunc.c, lua/lstring.c, lua/ltable.c).

  import opened GcHeap
  import opened GcStores
  import opened Marking
  import opened GcInvariant
  import opened GcSweep
  import opened UpvalLinks
  import opened GcUpdate
  import opened Collector

  /** The program can use this object. */
  predicate Usable(g: Global, r: Ref)
    reads g
  {
    r in g.heap && r in g.color && !IsDead(g.color, g.currentwhite, r)
  }

  /** What the program can get at through any references, weak ones too, it can use. */
  lemma AccessibleUsable(g: Global, r: Ref)
    requires g.Valid() && Accessible(g.heap, g.RootRefs(), r)
    ensures Usable(g, r)
  {
    AccessibleAlive(g.heap, g.color, g.currentwhite, ObjLists(g.rootgc, g.strt, g.uvhead, g.fixed),
                    Env(g.mainthread, g.running, g.registry, g.mt), r);
  }

  /** In the mark phase no black object refers to a white one, not even by a weak reference or by the
      key of an empty entry. */
  lemma NoBlackToWhite(g: Global, r: Ref, x: Ref)
    requires g.Valid() && g.gcstate == Propagate && r in g.heap && r in g.color && g.color[r] == Black
    requires x in AnyRefs(g.heap, g.heap[r])
    ensures x in g.color && !g.color[x].White?
  {
    g.BlackRefsMarked(r);
  }

  /** In particular what is reachable, that is, what the program can get at by strong references. */
  lemma ReachableUsable(g: Global, r: Ref)
    requires g.Valid() && Reachable(g.heap, g.RootRefs(), r)
    ensures Usable(g, r)
  {
    ReachableIsAccessible(g.heap, g.RootRefs(), r);
    AccessibleUsable(g, r);
  }

  /** A value that the program reads from a field of a usable object, weak ones included, is usable. */
  lemma LoadUsable(g: Global, r: Ref, v: Value)
    requires g.Valid() && Usable(g, r) && Stores(g.heap, g.heap[r], v)
    ensures g.Alive(v) && (v.Gc? ==> Usable(g, v.r))
  {
    if v.Gc? {
      EntryIsStored(g.heap, g.heap[r], v.r);
      assert EntryClosed(g.heap, NotDead(g.color, g.currentwhite));
    }
  }

  /** The values that the program starts from. */
  predicate IsRoot(g: Global, v: Value)
    reads g
  {
    v == Gc(g.mainthread) || v == Gc(g.running) || v == g.registry || v in g.mt
  }

  lemma RootUsable(g: Global, v: Value)
    requires g.Valid() && IsRoot(g, v)
    ensures g.Alive(v) && (v.Gc? ==> Usable(g, v.r))
  {
    if v.Gc? {
      assert v.r in EnvRefs(Env(g.mainthread, g.running, g.registry, g.mt)) by {
        ValueRefs(v.r);
      }
    }
  }

  // ----- tables -----

  lemma TableEntries(g: Global, t: Ref)
    requires g.Valid() && Usable(g, t)
    ensures EntryRefs(g.heap, g.heap[t]) <= NotDead(g.color, g.currentwhite)
  {
  }

  lemma ArrRefs(o: Obj, i: nat, v: Value)
    requires o.Table? && i < |o.arr|
    ensures var o' := o.(arr := o.arr[i := v]);
            EntryRefs(map[], o') <= EntryRefs(map[], o) + Ref1(v) && AnyRefs(map[], o') <= AnyRefs(map[], o) + Ref1(v)
  {
    assert forall x :: x in o.arr[i := v] ==> x in o.arr || x == v;
  }

  lemma NodeRefs(o: Obj, i: nat, n: Node)
    requires o.Table? && i < |o.nodes|
    ensures var o' := o.(nodes := o.nodes[i := n]);
            && EntryRefs(map[], o') <= EntryRefs(map[], o) + Ref1(n.val) + (if n.val == Nil then {} else Ref1(KeyValue(n)))
            && AnyRefs(map[], o') <= AnyRefs(map[], o) + Ref1(n.val) + Ref1(KeyValue(n))
  {
    assert forall x :: x in o.nodes[i := n] ==> x in o.nodes || x == n;
  }

  lemma HeapFree(h: Heap, o: Obj)
    requires o.Table?
    ensures EntryRefs(h, o) == EntryRefs(map[], o) && AnyRefs(h, o) == AnyRefs(map[], o)
  {
  }

  /** `t[i] = v` in the array part. */
  method SetArray(g: Global, t: Ref, i: nat, v: Value)
    requires g.Valid() && Usable(g, t) && g.heap[t].Table? && i < |g.heap[t].arr| && g.Alive(v)
    modifies g`heap, g`color, g`grayagain
    ensures g.Valid() && g.heap == old(g.heap)[t := old(g.heap[t]).(arr := old(g.heap[t].arr)[i := v])]
  {
    hide BaseOk;
    hide PhaseOk;
    hide NotDead;
    TableEntries(g, t);
    ArrRefs(g.heap[t], i, v);
    HeapFree(g.heap, g.heap[t]);
    HeapFree(g.heap, g.heap[t].(arr := g.heap[t].arr[i := v]));
    g.StoreInTable(t, g.heap[t].(arr := g.heap[t].arr[i := v]), v);
  }

  /** `t[k] = v` for a key that is there, maybe with an empty entry: there is no barrier for the key. */
  method SetNode(g: Global, t: Ref, i: nat, v: Value)
    requires g.Valid() && Usable(g, t) && g.heap[t].Table? && i < |g.heap[t].nodes| && g.Alive(v)
    requires g.heap[t].nodes[i].key.LiveKey? && g.Alive(g.heap[t].nodes[i].key.v)
    modifies g`heap, g`color, g`grayagain
    ensures g.Valid()
    ensures g.heap == old(g.heap)[t := old(g.heap[t]).(nodes := old(g.heap[t].nodes)[i := Node(old(g.heap[t].nodes[i].key), v)])]
  {
    hide BaseOk;
    hide PhaseOk;
    hide NotDead;
    var n := Node(g.heap[t].nodes[i].key, v);
    var o := g.heap[t].(nodes := g.heap[t].nodes[i := n]);
    TableEntries(g, t);
    NodeRefs(g.heap[t], i, n);
    assert g.heap[t].nodes[i] in g.heap[t].nodes;
    assert Ref1(KeyValue(n)) <= LiveKeyRefs(g.heap[t].nodes);
    HeapFree(g.heap, g.heap[t]);
    HeapFree(g.heap, o);
    g.StoreInTable(t, o, v);
  }

  /** `newkey`: a new key takes a node whose entry is empty, with a barrier for the key. */
  method NewKey(g: Global, t: Ref, i: nat, k: Value)
    requires g.Valid() && Usable(g, t) && g.heap[t].Table? && i < |g.heap[t].nodes| && g.heap[t].nodes[i].val == Nil && g.Alive(k)
    modifies g`heap, g`color, g`grayagain
    ensures g.Valid()
    ensures g.heap == old(g.heap)[t := old(g.heap[t]).(nodes := old(g.heap[t].nodes)[i := Node(LiveKey(k), Nil)])]
  {
    hide BaseOk;
    hide PhaseOk;
    hide NotDead;
    var n := Node(LiveKey(k), Nil);
    var o := g.heap[t].(nodes := g.heap[t].nodes[i := n]);
    TableEntries(g, t);
    NodeRefs(g.heap[t], i, n);
    HeapFree(g.heap, g.heap[t]);
    HeapFree(g.heap, o);
    g.StoreInTable(t, o, k);
  }

  /** `resize`, and the move of a colliding node in `newkey`: entries and keys go to other places, without
      barriers. */
  method Rearrange(g: Global, t: Ref, arr: seq<Value>, nodes: seq<Node>)
    requires g.Valid() && Usable(g, t) && g.heap[t].Table?
    requires Refs(arr) + ValRefs(nodes) <= Refs(g.heap[t].arr) + ValRefs(g.heap[t].nodes)
    requires KeyRefs(nodes) <= KeyRefs(g.heap[t].nodes) && LiveKeyRefs(nodes) <= LiveKeyRefs(g.heap[t].nodes)
    modifies g`heap, g`color, g`grayagain
    ensures g.Valid() && g.heap == old(g.heap)[t := old(g.heap[t]).(arr := arr, nodes := nodes)]
  {
    hide BaseOk;
    hide PhaseOk;
    hide NotDead;
    var o := g.heap[t].(arr := arr, nodes := nodes);
    TableEntries(g, t);
    HeapFree(g.heap, g.heap[t]);
    HeapFree(g.heap, o);
    g.StoreInTable(t, o, Nil);
  }

  /** `lua_setmetatable` on a table. */
  method SetMetatable(g: Global, t: Ref, m: Value)
    requires g.Valid() && Usable(g, t) && g.heap[t].Table? && g.Alive(m)
    modifies g`heap, g`color, g`grayagain
    ensures g.Valid() && g.heap == old(g.heap)[t := old(g.heap[t]).(meta := m)]
  {
    hide BaseOk;
    hide PhaseOk;
    hide NotDead;
    var o := g.heap[t].(meta := m);
    TableEntries(g, t);
    HeapFree(g.heap, g.heap[t]);
    HeapFree(g.heap, o);
    g.StoreInTable(t, o, m);
  }

  /** The `__mode` field of the metatable changes: nothing happens to the table itself. */
  method SetMode(g: Global, t: Ref, mode: Weakness)
    requires g.Valid() && Usable(g, t) && g.heap[t].Table?
    modifies g`heap, g`color, g`grayagain
    ensures g.Valid() && g.heap == old(g.heap)[t := old(g.heap[t]).(mode := mode)]
  {
    hide BaseOk;
    hide PhaseOk;
    hide NotDead;
    var o := g.heap[t].(mode := mode);
    TableEntries(g, t);
    HeapFree(g.heap, g.heap[t]);
    HeapFree(g.heap, o);
    g.StoreInTable(t, o, Nil);
  }

  // ----- closures and upvalues -----

  lemma SeqRefs(vs: seq<Value>, i: nat, v: Value)
    requires i < |vs|
    ensures Refs(vs[i := v]) <= Refs(vs) + Ref1(v)
  {
    assert forall x :: x in vs[i := v] ==> x in vs || x == v;
  }

  /** `lua_setfenv` on a function. */
  method SetEnv(g: Global, f: Ref, env: Value)
    requires g.Valid() && Usable(g, f) && g.heap[f].Closure? && g.Alive(env)
    modifies g`heap, g`color, g`gray
    ensures g.Valid() && g.heap == old(g.heap)[f := old(g.heap[f]).(env := env)]
  {
    hide BaseOk;
    hide PhaseOk;
    hide NotDead;
    TableEntries(g, f);
    g.StoreWithBarrier(f, g.heap[f].(env := env), env);
  }

  /** `lua_replace` on an upvalue of a C function. */
  method SetClosureValue(g: Global, f: Ref, i: nat, v: Value)
    requires g.Valid() && Usable(g, f) && g.heap[f].Closure? && i < |g.heap[f].upvals| && g.Alive(v)
    modifies g`heap, g`color, g`gray
    ensures g.Valid() && g.heap == old(g.heap)[f := old(g.heap[f]).(upvals := old(g.heap[f].upvals)[i := v])]
  {
    hide BaseOk;
    hide PhaseOk;
    hide NotDead;
    TableEntries(g, f);
    SeqRefs(g.heap[f].upvals, i, v);
    g.StoreWithBarrier(f, g.heap[f].(upvals := g.heap[f].upvals[i := v]), v);
  }

  /** `OP_SETUPVAL`: the upvalue may be open in the stack of a thread that is dead itself. */
  method SetUpval(g: Global, u: Ref, v: Value)
    requires g.Valid() && Usable(g, u) && g.heap[u].Upval? && g.Alive(v)
    modifies g`heap, g`color, g`gray
    ensures g.Valid() && u in g.heap && g.heap[u].Upval? && UpvalValue(g.heap, g.heap[u].u) == v
    ensures forall x :: x in old(g.heap) && !old(g.heap[x]).Thread? && x != u ==> x in g.heap && g.heap[x] == old(g.heap[x])
  {
    hide BaseOk;
    hide PhaseOk;
    hide NotDead;
    if g.heap[u].u.Closed? {
      TableEntries(g, u);
      g.StoreWithBarrier(u, Upval(Closed(v)), v);
    } else {
      OpenSlot(g, u);
      SetStack(g, g.heap[u].u.thread, g.heap[u].u.slot, v);
    }
  }

  lemma OpenSlot(g: Global, u: Ref)
    requires g.Valid() && u in g.heap && OpenUpval(g.heap[u])
    ensures OpenAt(g.heap, u, g.heap[u].u.thread) && g.heap[u].u.thread in g.color
  {
  }

  // ----- stacks -----

  /** Write a stack slot; the thread may be one that only an open upvalue refers to. */
  method SetStack(g: Global, t: Ref, i: nat, v: Value)
    requires g.Valid() && t in g.heap && t in g.color && g.heap[t].Thread? && i < |g.heap[t].stack| && g.Alive(v)
    modifies g`heap
    ensures g.Valid() && g.heap == old(g.heap)[t := old(g.heap[t]).(stack := old(g.heap[t].stack)[i := v])]
  {
    hide BaseOk;
    hide PhaseOk;
    hide NotDead;
    var o := g.heap[t].(stack := g.heap[t].stack[i := v]);
    SlotWritten(g, t, i, v);
    g.StoreInThread(t, o);
  }

  lemma SlotWritten(g: Global, t: Ref, i: nat, v: Value)
    requires g.Valid() && t in g.heap && t in g.color && g.heap[t].Thread? && i < |g.heap[t].stack| && g.Alive(v)
    ensures var o := g.heap[t].(stack := g.heap[t].stack[i := v]);
            && Fits(g.heap, t, o) && SlotsIn(g.heap, t, o, NotDead(g.color, g.currentwhite))
            && (!IsDead(g.color, g.currentwhite, t) ==> EntryRefs(g.heap, o) <= NotDead(g.color, g.currentwhite))
  {
    hide PhaseOk;
    var N, o := NotDead(g.color, g.currentwhite), g.heap[t].(stack := g.heap[t].stack[i := v]);
    SlotIn(g.heap, N, t, i, v);
    if !IsDead(g.color, g.currentwhite, t) {
      TableEntries(g, t);
      SeqRefs(g.heap[t].stack, i, v);
    }
  }

  /** Push a value onto a stack. */
  method Push(g: Global, t: Ref, v: Value)
    requires g.Valid() && Usable(g, t) && g.heap[t].Thread? && g.Alive(v)
    modifies g`heap
    ensures g.Valid() && g.heap == old(g.heap)[t := old(g.heap[t]).(stack := old(g.heap[t].stack) + [v])]
  {
    hide BaseOk;
    hide PhaseOk;
    hide NotDead;
    var o := g.heap[t].(stack := g.heap[t].stack + [v]);
    TableEntries(g, t);
    assert Refs(o.stack) <= Refs(g.heap[t].stack) + Ref1(v);
    StackChanged(g, t, o);
    g.StoreInThread(t, o);
  }

  /** Pop stack slots in which no upvalue is open any more. */
  method Pop(g: Global, t: Ref, n: nat)
    requires g.Valid() && Usable(g, t) && g.heap[t].Thread? && n <= |g.heap[t].stack|
    requires NoneOpenFrom(g.heap, t, n)
    modifies g`heap
    ensures g.Valid() && g.heap == old(g.heap)[t := old(g.heap[t]).(stack := old(g.heap[t].stack)[..n])]
  {
    hide BaseOk;
    hide PhaseOk;
    hide NotDead;
    var o := g.heap[t].(stack := g.heap[t].stack[..n]);
    TableEntries(g, t);
    assert forall x :: x in g.heap[t].stack[..n] ==> x in g.heap[t].stack;
    StackChanged(g, t, o);
    g.StoreInThread(t, o);
  }

  lemma StackChanged(g: Global, t: Ref, o: Obj)
    requires g.Valid() && Usable(g, t) && g.heap[t].Thread? && o.Thread? && Fits(g.heap, t, o)
    requires EntryRefs(g.heap, o) <= NotDead(g.color, g.currentwhite)
    ensures SlotsIn(g.heap, t, o, NotDead(g.color, g.currentwhite))
  {
    var N := NotDead(g.color, g.currentwhite);
    forall x | x in N && x in g.heap && OpenUpval(g.heap[x]) && g.heap[x].u.thread == t
      ensures Ref1(UpvalValue(g.heap[t := o], g.heap[x].u)) <= N
    {
      assert OpenAt(g.heap, x, t);
      assert o.stack[g.heap[x].u.slot] in o.stack;
    }
  }

  /** `lua_setfenv` on a thread. */
  method SetGlobals(g: Global, t: Ref, v: Value)
    requires g.Valid() && Usable(g, t) && g.heap[t].Thread? && g.Alive(v)
    modifies g`heap
    ensures g.Valid() && g.heap == old(g.heap)[t := old(g.heap[t]).(globals := v)]
  {
    hide BaseOk;
    hide PhaseOk;
    hide NotDead;
    var o := g.heap[t].(globals := v);
    TableEntries(g, t);
    StackChanged(g, t, o);
    g.StoreInThread(t, o);
  }

  // ----- new objects -----

  /** `luaH_new`. */
  method NewTable(g: Global, r: Ref, narray: nat, nhash: nat)
    requires g.Valid() && r !in g.heap
    modifies g`heap, g`color, g`rootgc, g`sweepgc
    ensures g.Valid() && Usable(g, r)
    ensures g.heap == old(g.heap)[r := Table(Nil, STRONG, STRONG, seq(narray, _ => Nil), seq(nhash, _ => Node(LiveKey(Nil), Nil)))]
  {
    hide BaseOk;
    hide PhaseOk;
    g.Link(r, Table(Nil, STRONG, STRONG, seq(narray, _ => Nil), seq(nhash, _ => Node(LiveKey(Nil), Nil))));
  }

  /** `luaF_newLclosure` and `luaF_newCclosure`, with their upvalues. */
  method NewClosure(g: Global, r: Ref, env: Value, upvals: seq<Value>)
    requires g.Valid() && r !in g.heap && g.Alive(env) && Refs(upvals) <= NotDead(g.color, g.currentwhite)
    modifies g`heap, g`color, g`rootgc, g`sweepgc
    ensures g.Valid() && Usable(g, r) && g.heap == old(g.heap)[r := Closure(env, upvals)]
  {
    hide BaseOk;
    hide PhaseOk;
    g.Link(r, Closure(env, upvals));
  }

  /** `luaE_newthread`. */
  method NewThread(g: Global, r: Ref, globals: Value)
    requires g.Valid() && r !in g.heap && g.Alive(globals)
    modifies g`heap, g`color, g`rootgc, g`sweepgc
    ensures g.Valid() && Usable(g, r) && g.heap == old(g.heap)[r := Thread(globals, [], [])]
  {
    hide BaseOk;
    hide PhaseOk;
    g.Link(r, Thread(globals, [], []));
  }

  /** `luaF_newupval`: an upvalue that is closed from the start. */
  method NewUpval(g: Global, r: Ref)
    requires g.Valid() && r !in g.heap
    modifies g`heap, g`color, g`rootgc, g`sweepgc
    ensures g.Valid() && Usable(g, r) && g.heap == old(g.heap)[r := Upval(Closed(Nil))]
  {
    hide BaseOk;
    hide PhaseOk;
    g.Link(r, Upval(Closed(Nil)));
  }

  /** `newlstr`: a new string in bucket `b`. */
  method NewString(g: Global, r: Ref, b: nat)
    requires g.Valid() && r !in g.heap && b < |g.strt|
    modifies g`heap, g`color, g`strt
    ensures g.Valid() && Usable(g, r) && g.heap == old(g.heap)[r := String]
  {
    hide BaseOk;
    hide PhaseOk;
    Interned(g.gcstate, g.heap, g.color, g.currentwhite, g.Lists(), ObjLists(g.rootgc, g.strt, g.uvhead, g.fixed),
             Env(g.mainthread, g.running, g.registry, g.mt), g.sweepgc, g.sweepstrgc, r, b);
    g.heap := g.heap[r := String];
    g.color := g.color[r := White(g.currentwhite)];
    g.strt := g.strt[b := [r] + g.strt[b]];
  }

  /** `luaS_newlstr` finds the string in the table of strings, where it may be dead already. */
  method FoundString(g: Global, s: Ref)
    requires g.Valid() && s in g.heap && g.heap[s].String?
    modifies g`color
    ensures g.Valid() && Usable(g, s) && g.heap == old(g.heap)
  {
    hide BaseOk;
    hide PhaseOk;
    Revive(g, s);
  }

  /** `luaS_fix`: the string is not collected any more. */
  method FixString(g: Global, s: Ref)
    requires g.Valid() && Usable(g, s) && g.heap[s].String?
    modifies g`fixed
    ensures g.Valid() && g.fixed == old(g.fixed) + {s}
  {
    hide BaseOk;
    hide PhaseOk;
    Fixed(g.gcstate, g.heap, g.color, g.currentwhite, g.Lists(), ObjLists(g.rootgc, g.strt, g.uvhead, g.fixed),
          Env(g.mainthread, g.running, g.registry, g.mt), g.sweepgc, g.sweepstrgc, s);
    g.fixed := g.fixed + {s};
  }

  /** Resurrect an object if it is dead (`changewhite`). */
  method Revive(g: Global, r: Ref)
    requires g.Valid() && r in g.heap && EntryRefs(g.heap, g.heap[r]) <= NotDead(g.color, g.currentwhite)
    modifies g`color
    ensures g.Valid() && Usable(g, r)
  {
    hide BaseOk;
    hide PhaseOk;
    g.HasColor(r);
    if IsDead(g.color, g.currentwhite, r) {
      Revived(g.gcstate, g.heap, g.color, g.currentwhite, g.Lists(), ObjLists(g.rootgc, g.strt, g.uvhead, g.fixed),
              Env(g.mainthread, g.running, g.registry, g.mt), g.sweepgc, g.sweepstrgc, r);
      g.color := g.color[r := White(g.currentwhite)];
    }
  }

  // ----- open upvalues -----

  /** `luaF_findupval`: captures of the same slot share one upvalue, until it is closed. */
  method FindUpval(g: Global, t: Ref, level: nat, r: Ref) returns (u: Ref)
    requires g.Valid() && Usable(g, t) && g.heap[t].Thread? && level < |g.heap[t].stack| && r !in g.heap
    modifies g`heap, g`color, g`links, g`uvhead
    ensures g.Valid() && Usable(g, u) && u in g.heap && g.heap[u] == Upval(Open(t, level))
    ensures forall x :: x in old(g.heap) && old(g.heap[x]) == Upval(Open(t, level)) ==> u == x && g.heap == old(g.heap)
    ensures (forall x :: x in old(g.heap) ==> old(g.heap[x]) != Upval(Open(t, level))) ==>
              u == r && exists pp: nat :: pp <= |old(g.heap[t].open)| && g.heap == WithUpval(old(g.heap), t, level, pp, r)
  {
    hide BaseOk;
    hide PhaseOk;
    var pp := 0;
    OpenSorted(g, t);
    hide UpvalsOk;
    while pp < |g.heap[t].open| && g.heap[g.heap[t].open[pp]].u.slot >= level
      invariant pp <= |g.heap[t].open|
      invariant forall i :: 0 <= i < pp ==> g.heap[g.heap[t].open[i]].u.slot > level
    {
      var p := g.heap[t].open[pp];
      if g.heap[p].u.slot == level {  // the slot was captured before
        TableEntries(g, t);
        SharedUpval(g.heap, g.uvhead, t, pp, level, NotDead(g.color, g.currentwhite));
        Revive(g, p);  // if it is dead, resurrect it
        return p;
      }
      pp := pp + 1;
    }
    NewUpvalHere(g.heap, g.uvhead, t, pp, level);
    u := r;  // no upvalue is open at this slot
    NewOpenUpval(g, t, level, pp, u);
  }

  /** A new upvalue for slot `level`, at place `pp` of the list of open upvalues of its thread. */
  method NewOpenUpval(g: Global, t: Ref, level: nat, pp: nat, u: Ref)
    requires g.Valid() && Usable(g, t) && g.heap[t].Thread? && level < |g.heap[t].stack| && u !in g.heap
    requires InsertHere(g.heap, t, level, pp)
    modifies g`heap, g`color, g`links, g`uvhead
    ensures g.Valid() && Usable(g, u) && g.heap == WithUpval(old(g.heap), t, level, pp, u)
  {
    hide BaseOk;
    hide PhaseOk;
    OpenSorted(g, t);
    assert u !in g.uvhead;
    hide UpvalsOk;
    hide OpenListOk;
    Opened(g.gcstate, g.heap, g.color, g.currentwhite, g.Lists(), ObjLists(g.rootgc, g.strt, g.uvhead, g.fixed),
           Env(g.mainthread, g.running, g.registry, g.mt), g.sweepgc, g.sweepstrgc, t, level, pp, u);
    g.heap := WithUpval(g.heap, t, level, pp, u);  // the list of the thread stays sorted
    g.color := g.color[u := White(g.currentwhite)];
    PushThreads(g.uvhead, g.links, u);
    g.links, g.uvhead := PushLink(g.links, u), [u] + g.uvhead;
  }

  lemma OpenSorted(g: Global, t: Ref)
    requires g.Valid() && t in g.heap && g.heap[t].Thread?
    ensures OpenListOk(g.heap, t) && UpvalsOk(g.heap, g.uvhead)
  {
  }

  // ----- roots -----

  /** `lua_setmetatable` on a basic type. */
  method SetBasicMetatable(g: Global, i: nat, m: Value)
    requires g.Valid() && i < |g.mt| && g.Alive(m)
    modifies g`mt
    ensures g.Valid() && g.mt == old(g.mt)[i := m]
  {
    hide BaseOk;
    hide PhaseOk;
    SeqRefs(g.mt, i, m);
    EnvChanged(g.gcstate, g.heap, g.color, g.currentwhite, g.Lists(), ObjLists(g.rootgc, g.strt, g.uvhead, g.fixed),
               Env(g.mainthread, g.running, g.registry, g.mt), Env(g.mainthread, g.running, g.registry, g.mt[i := m]), g.sweepgc, g.sweepstrgc);
    g.mt := g.mt[i := m];
  }

  /** Another thread runs. */
  method Resume(g: Global, t: Ref)
    requires g.Valid() && Usable(g, t) && g.heap[t].Thread?
    modifies g`running
    ensures g.Valid() && g.running == t
  {
    hide BaseOk;
    hide PhaseOk;
    EnvChanged(g.gcstate, g.heap, g.color, g.currentwhite, g.Lists(), ObjLists(g.rootgc, g.strt, g.uvhead, g.fixed),
               Env(g.mainthread, g.running, g.registry, g.mt), Env(g.mainthread, t, g.registry, g.mt), g.sweepgc, g.sweepstrgc);
    g.running := t;
  }
}