/** The heap as the collector sees it (lua/lgc.c, lua/lobject.h). */
module GcHeap {
  // Objects, the references between them, and reachability.

  type Ref = nat

  /** Nil, a value that is not collectable, or a reference to a collectable object. */
  datatype Value = Nil | Plain | Gc(r: Ref)

  datatype NodeKey = DeadKey | LiveKey(v: Value)
  datatype Node = Node(key: NodeKey, val: Value)

  datatype Weakness = Weakness(keys: bool, values: bool)

  datatype UpvalState = Open(thread: Ref, slot: nat) | Closed(v: Value)

  /** The parts of an object that matter to the collector. The `mode` of a table is what its
      metatable's `__mode` field says, `bits` is what the last traversal found there. */
  datatype Obj =
    | String
    | Table(meta: Value, mode: Weakness, bits: Weakness, arr: seq<Value>, nodes: seq<Node>)
    | Closure(env: Value, upvals: seq<Value>)
    | Thread(globals: Value, stack: seq<Value>, open: seq<Ref>)
    | Upval(u: UpvalState)

  type Heap = map<Ref, Obj>

  datatype Color = White(bit: bool) | Gray | Black

  type Colors = map<Ref, Color>

  // ----- references -----

  function Ref1(v: Value): set<Ref> {
    if v.Gc? then {v.r} else {}
  }

  function Refs(vs: seq<Value>): set<Ref> {
    set v | v in vs && v.Gc? :: v.r
  }

  /** Keys and values of the entries that are not empty. */
  function KeyRefs(nodes: seq<Node>): set<Ref> {
    set n | n in nodes && n.val != Nil && n.key.LiveKey? && n.key.v.Gc? :: n.key.v.r
  }

  function ValRefs(nodes: seq<Node>): set<Ref> {
    set n | n in nodes && n.val.Gc? :: n.val.r
  }

  /** All keys that a lookup could still find, also those of empty entries. */
  function LiveKeyRefs(nodes: seq<Node>): set<Ref> {
    set n | n in nodes && n.key.LiveKey? && n.key.v.Gc? :: n.key.v.r
  }

  ghost function TableRefs(o: Obj, w: Weakness): set<Ref>
    requires o.Table?
  {
    Ref1(o.meta) + (if w.values then {} else Refs(o.arr) + ValRefs(o.nodes)) + (if w.keys then {} else KeyRefs(o.nodes))
  }

  /** The current value of an upvalue: an open one lives in a stack slot. */
  function UpvalValue(heap: Heap, u: UpvalState): Value {
    match u
    case Closed(v) => v
    case Open(t, i) =>
      if t in heap && heap[t].Thread? && i < |heap[t].stack| then heap[t].stack[i] else Nil
  }

  /** References that keep their target alive. */
  ghost function StrongRefs(heap: Heap, o: Obj): set<Ref> {
    match o
    case String => {}
    case Table(_, mode, _, _, _) => TableRefs(o, mode)
    case Closure(env, upvals) => Ref1(env) + Refs(upvals)
    case Thread(globals, stack, _) => Ref1(globals) + Refs(stack)
    case Upval(u) => Ref1(UpvalValue(heap, u))
  }

  const STRONG := Weakness(false, false)

  /** All references that the program can follow, weak ones too. */
  ghost function EntryRefs(heap: Heap, o: Obj): set<Ref> {
    if o.Table? then TableRefs(o, STRONG) else StrongRefs(heap, o)
  }

  /** All references that the program can use, counting keys of empty entries. */
  ghost function AnyRefs(heap: Heap, o: Obj): set<Ref> {
    EntryRefs(heap, o) + if o.Table? then LiveKeyRefs(o.nodes) else {}
  }

  lemma RefsNested(heap: Heap, o: Obj)
    ensures StrongRefs(heap, o) <= EntryRefs(heap, o) <= AnyRefs(heap, o)
    ensures !o.Table? ==> StrongRefs(heap, o) == AnyRefs(heap, o)
  {
  }

  // ----- reachability -----

  ghost predicate StrongClosed(heap: Heap, R: set<Ref>) {
    forall r {:trigger heap[r]} :: r in R && r in heap ==> StrongRefs(heap, heap[r]) <= R
  }

  /** Reachable through strong references: in every set that contains the roots and is closed. */
  ghost predicate Reachable(heap: Heap, roots: set<Ref>, r: Ref) {
    forall R: set<Ref> {:trigger StrongClosed(heap, R)} :: roots <= R && StrongClosed(heap, R) ==> r in R
  }

  ghost function ReachSet(heap: Heap, roots: set<Ref>): set<Ref> {
    set r | r in heap && Reachable(heap, roots, r)
  }

  ghost predicate EntryClosed(heap: Heap, R: set<Ref>) {
    forall r {:trigger heap[r]} :: r in R && r in heap ==> EntryRefs(heap, heap[r]) <= R
  }

  /** What the program can get at, through weak references too. */
  ghost predicate Accessible(heap: Heap, roots: set<Ref>, r: Ref) {
    forall R: set<Ref> {:trigger EntryClosed(heap, R)} :: roots <= R && EntryClosed(heap, R) ==> r in R
  }

  lemma ReachableIsAccessible(heap: Heap, roots: set<Ref>, r: Ref)
    requires Reachable(heap, roots, r)
    ensures Accessible(heap, roots, r)
  {
    forall R: set<Ref> | roots <= R && EntryClosed(heap, R) ensures r in R {
      forall x | x in R && x in heap ensures StrongRefs(heap, heap[x]) <= R {
        RefsNested(heap, heap[x]);
      }
      assert StrongClosed(heap, R);
    }
  }

  /** The reachable set is closed, if no reference dangles. */
  lemma ReachSetClosed(heap: Heap, roots: set<Ref>)
    requires roots <= heap.Keys && EntryClosed(heap, heap.Keys)
    ensures StrongClosed(heap, ReachSet(heap, roots)) && roots <= ReachSet(heap, roots)
  {
    forall r | r in ReachSet(heap, roots) ensures StrongRefs(heap, heap[r]) <= ReachSet(heap, roots) {
      RefsNested(heap, heap[r]);
      forall x | x in StrongRefs(heap, heap[r]) ensures Reachable(heap, roots, x) {
        ReachableStep(heap, roots, r, x);
      }
    }
  }

  lemma ReachableStep(heap: Heap, roots: set<Ref>, r: Ref, x: Ref)
    requires r in heap && Reachable(heap, roots, r) && x in StrongRefs(heap, heap[r])
    ensures Reachable(heap, roots, x)
  {
    hide StrongRefs;
  }

  /** Any closed set that contains the roots contains what is reachable. */
  lemma ReachSetLeast(heap: Heap, roots: set<Ref>, R: set<Ref>)
    requires roots <= R && StrongClosed(heap, R)
    ensures ReachSet(heap, roots) <= R
  {
  }
}
