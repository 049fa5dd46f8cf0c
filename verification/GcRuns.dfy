/** Programs with the collector (lua/lgc.c). */
module GcRuns {
  // In whatever order steps of the program and steps of the collector follow each other, the program
  // never gets at an object that was freed or is about to be freed.

  import opened GcHeap
  import opened GcStores
  import opened Marking
  import opened GcInvariant
  import opened GcSweep
  import opened GcReach
  import opened GcContents
  import opened GcUpdate
  import opened Collector
  import opened Mutator

  datatype Step =
    | CollectorStep
    | FullCollection
    | ArrayStore(t: Ref, i: nat, v: Value)
    | NodeStore(t: Ref, i: nat, v: Value)
    | KeyStore(t: Ref, i: nat, v: Value)
    | TableResize(t: Ref, arr: seq<Value>, nodes: seq<Node>)
    | MetatableStore(t: Ref, v: Value)
    | ModeChange(t: Ref, mode: Weakness)
    | EnvStore(t: Ref, v: Value)
    | ClosureStore(t: Ref, i: nat, v: Value)
    | UpvalStore(t: Ref, v: Value)
    | StackStore(t: Ref, i: nat, v: Value)
    | StackPush(t: Ref, v: Value)
    | Load(t: Ref, r: Ref, v: Value)
    | LoadRoot(t: Ref, v: Value)
    | StackPop(t: Ref, n: nat)
    | GlobalsStore(t: Ref, v: Value)
    | TableNew(r: Ref, narray: nat, nhash: nat)
    | ClosureNew(r: Ref, v: Value, upvals: seq<Value>)
    | ThreadNew(r: Ref, v: Value)
    | UpvalNew(r: Ref)
    | StringNew(r: Ref, b: nat)
    | StringFound(t: Ref)
    | StringFix(t: Ref)
    | Capture(t: Ref, level: nat, r: Ref)
    | CloseFrom(t: Ref, level: nat)
    | BasicMetatable(i: nat, v: Value)
    | Switch(t: Ref)

  /** The program may take this step: it uses only objects that are not dead, of the right kind; new
      objects get new references. What it loads onto a stack, from a field of such an object or from
      the roots, need not be known to be alive. */
  predicate Enabled(g: Global, s: Step)
    reads g
  {
    match s
    case CollectorStep => true
    case FullCollection => true
    case ArrayStore(t, i, v) => Usable(g, t) && g.heap[t].Table? && i < |g.heap[t].arr| && g.Alive(v)
    case NodeStore(t, i, v) =>
      && Usable(g, t) && g.heap[t].Table? && i < |g.heap[t].nodes| && g.Alive(v)
      && g.heap[t].nodes[i].key.LiveKey? && g.Alive(g.heap[t].nodes[i].key.v)
    case KeyStore(t, i, v) =>
      Usable(g, t) && g.heap[t].Table? && i < |g.heap[t].nodes| && g.heap[t].nodes[i].val == Nil && g.Alive(v)
    case TableResize(t, arr, nodes) =>
      && Usable(g, t) && g.heap[t].Table?
      && Refs(arr) + ValRefs(nodes) <= Refs(g.heap[t].arr) + ValRefs(g.heap[t].nodes)
      && KeyRefs(nodes) <= KeyRefs(g.heap[t].nodes) && LiveKeyRefs(nodes) <= LiveKeyRefs(g.heap[t].nodes)
    case MetatableStore(t, v) => Usable(g, t) && g.heap[t].Table? && g.Alive(v)
    case ModeChange(t, _) => Usable(g, t) && g.heap[t].Table?
    case EnvStore(t, v) => Usable(g, t) && g.heap[t].Closure? && g.Alive(v)
    case ClosureStore(t, i, v) => Usable(g, t) && g.heap[t].Closure? && i < |g.heap[t].upvals| && g.Alive(v)
    case UpvalStore(t, v) => Usable(g, t) && g.heap[t].Upval? && g.Alive(v)
    case StackStore(t, i, v) => Usable(g, t) && g.heap[t].Thread? && i < |g.heap[t].stack| && g.Alive(v)
    case StackPush(t, v) => Usable(g, t) && g.heap[t].Thread? && g.Alive(v)
    case Load(t, r, v) => Usable(g, t) && g.heap[t].Thread? && Usable(g, r) && Stores(g.heap, g.heap[r], v)
    case LoadRoot(t, v) => Usable(g, t) && g.heap[t].Thread? && IsRoot(g, v)
    case StackPop(t, n) => Usable(g, t) && g.heap[t].Thread? && n <= |g.heap[t].stack| && AllBelow(g.heap, t, n)
    case GlobalsStore(t, v) => Usable(g, t) && g.heap[t].Thread? && g.Alive(v)
    case TableNew(r, _, _) => r !in g.heap
    case ClosureNew(r, v, upvals) => r !in g.heap && g.Alive(v) && Refs(upvals) <= NotDead(g.color, g.currentwhite)
    case ThreadNew(r, v) => r !in g.heap && g.Alive(v)
    case UpvalNew(r) => r !in g.heap
    case StringNew(r, b) => r !in g.heap && b < |g.strt|
    case StringFound(t) => t in g.heap && g.heap[t].String?
    case StringFix(t) => Usable(g, t) && g.heap[t].String?
    case Capture(t, level, r) => Usable(g, t) && g.heap[t].Thread? && level < |g.heap[t].stack| && r !in g.heap
    case CloseFrom(t, _) => Usable(g, t) && g.heap[t].Thread?
    case BasicMetatable(i, v) => i < |g.mt| && g.Alive(v)
    case Switch(t) => Usable(g, t) && g.heap[t].Thread?
  }

  predicate AllBelow(h: Heap, t: Ref, n: nat) {
    forall u :: u in h ==> OpenUpval(h[u]) && h[u].u.thread == t ==> h[u].u.slot < n
  }

  lemma BelowIsNoneFrom(h: Heap, t: Ref, n: nat)
    requires AllBelow(h, t, n)
    ensures NoneOpenFrom(h, t, n)
  {
  }

  /** New objects, upvalues and roots. */
  predicate OtherStep(s: Step) {
    || s.TableNew? || s.ClosureNew? || s.ThreadNew? || s.UpvalNew? || s.StringNew? || s.StringFound? || s.StringFix?
    || s.Capture? || s.CloseFrom? || s.BasicMetatable? || s.Switch?
  }

  method PerformOther(g: Global, s: Step)
    requires g.Valid() && Enabled(g, s) && OtherStep(s)
    modifies g
    ensures g.Valid()
  {
    hide Global.Valid;
    hide ClosedDownTo;
    hide WithUpval;
    match s {
      case TableNew(r, narray, nhash) => NewTable(g, r, narray, nhash);
      case ClosureNew(r, v, upvals) => NewClosure(g, r, v, upvals);
      case ThreadNew(r, v) => NewThread(g, r, v);
      case UpvalNew(r) => NewUpval(g, r);
      case StringNew(r, b) => NewString(g, r, b);
      case StringFound(t) => FoundString(g, t);
      case StringFix(t) => FixString(g, t);
      case Capture(t, level, r) =>
        var _ := FindUpval(g, t, level, r);
      case CloseFrom(t, level) => g.Close(t, level);
      case BasicMetatable(i, v) => SetBasicMetatable(g, i, v);
      case Switch(t) => Resume(g, t);
    }
  }

  /** Take one step. The collector's own steps free nothing that the program can get at. */
  method Perform(g: Global, s: Step)
    requires g.Valid() && Enabled(g, s)
    modifies g
    ensures g.Valid()
    ensures s == CollectorStep ==> forall r :: old(Accessible(g.heap, g.RootRefs(), r)) ==> r in g.heap
  {
    hide Global.Valid;
    hide Accessible;
    hide ReachSet;
    hide KeptStrings;
    hide AllCollected;
    hide SteppedAt;
    hide ClosedDownTo;
    hide WithUpval;
    match s {
      case CollectorStep => g.SingleStep();
      case FullCollection => g.FullGc();
      case ArrayStore(t, i, v) => SetArray(g, t, i, v);
      case NodeStore(t, i, v) => SetNode(g, t, i, v);
      case KeyStore(t, i, v) => NewKey(g, t, i, v);
      case TableResize(t, arr, nodes) => Rearrange(g, t, arr, nodes);
      case MetatableStore(t, v) => SetMetatable(g, t, v);
      case ModeChange(t, mode) => SetMode(g, t, mode);
      case EnvStore(t, v) => SetEnv(g, t, v);
      case ClosureStore(t, i, v) => SetClosureValue(g, t, i, v);
      case UpvalStore(t, v) => SetUpval(g, t, v);
      case StackStore(t, i, v) => SetStack(g, t, i, v);
      case StackPush(t, v) => Push(g, t, v);
      case Load(t, r, v) =>
        LoadUsable(g, r, v);
        Push(g, t, v);
      case LoadRoot(t, v) =>
        RootUsable(g, v);
        Push(g, t, v);
      case StackPop(t, n) =>
        BelowIsNoneFrom(g.heap, t, n);
        Pop(g, t, n);
      case GlobalsStore(t, v) => SetGlobals(g, t, v);
      case _ => PerformOther(g, s);
    }
  }

  /** Nothing that the program can get at is dead, and in the mark phase no black object refers to a
      white one. */
  ghost predicate Safe(g: Global)
    reads g
  {
    && (forall r :: Accessible(g.heap, g.RootRefs(), r) ==> Usable(g, r))
    && (g.gcstate == Propagate ==>
          forall r, x :: r in g.heap && r in g.color && g.color[r] == Black && Mentions(g.heap, g.heap[r], Gc(x)) ==>
            x in g.color && !g.color[x].White?)
  }

  lemma ValidIsSafe(g: Global)
    requires g.Valid()
    ensures Safe(g)
  {
    hide BaseOk;
    hide PhaseOk;
    hide Accessible;
    hide AnyRefs;
    hide Mentions;
    forall r | Accessible(g.heap, g.RootRefs(), r) ensures Usable(g, r) {
      AccessibleUsable(g, r);
    }
    if g.gcstate == Propagate {
      forall r, x | r in g.heap && r in g.color && g.color[r] == Black && Mentions(g.heap, g.heap[r], Gc(x))
        ensures x in g.color && !g.color[x].White?
      {
        AnyIsMentioned(g.heap, g.heap[r], x);
        NoBlackToWhite(g, r, x);
      }
    }
  }

  /** Every run from a new state, whatever its steps, ends in a safe state; a step that the program may
      not take there is left out. */
  method Run(steps: seq<Step>) returns (g: Global)
    ensures fresh(g) && g.Valid() && Safe(g)
  {
    hide BaseOk;
    hide PhaseOk;
    hide Safe;
    hide Accessible;
    hide Enabled;
    g := new Global();
    for i := 0 to |steps|
      invariant fresh(g) && g.Valid()
    {
      if Enabled(g, steps[i]) {
        Perform(g, steps[i]);
      }
    }
    ValidIsSafe(g);
  }

  // ----- strings in weak tables -----

  lemma PauseUsable(g: Global, r: Ref)
    requires g.Valid() && g.gcstate == Pause && r in g.heap
    ensures Usable(g, r) && g.Alive(Gc(r))
  {
  }

  lemma FirstRoots()
    ensures EnvRefs(Env(0, 0, Gc(2), seq(NUM_TAGS, _ => Nil))) == {0, 2}
  {
  }

  /** The first state with a new table `t`, which is not on the stack yet. */
  function TableHeap(t: Obj): Heap {
    FirstHeap()[3 := t]
  }

  method WeakTable() returns (g: Global)
    ensures fresh(g) && g.Valid() && g.gcstate == Pause && g.RootRefs() == {0, 2} && g.fixed == {} && |g.strt| > 0
    ensures g.heap == TableHeap(Table(Nil, Weakness(false, true), STRONG, [Nil], []))
  {
    hide Global.Valid;
    hide EnvRefs;
    g := new Global();
    FirstRoots();
    NewTable(g, 3, 1, 0);
    assert seq(1, _ => Nil) == [Nil] && seq(0, _ => Node(LiveKey(Nil), Nil)) == [];
    PauseUsable(g, 3);
    SetMode(g, 3, Weakness(false, true));
  }

  /** The state in which the main thread has a table with weak values that holds a string. */
  method StringInWeakTable() returns (g: Global)
    ensures fresh(g) && g.Valid() && g.heap == WeakHeap() && g.RootRefs() == {0, 2} && g.fixed == {}
  {
    hide Global.Valid;
    hide Global.RootRefs;
    g := WeakTable();
    PauseUsable(g, 0);
    PauseUsable(g, 3);
    Push(g, 0, Gc(3));
    assert [] + [Gc(3)] == [Gc(3)];
    NewString(g, 4, 0);
    PauseUsable(g, 3);
    PauseUsable(g, 4);
    SetArray(g, 3, 0, Gc(4));
    assert [Nil][0 := Gc(4)] == [Gc(4)];
  }

  /** After a full collection the string is still there, although it cannot be reached. */
  method WeakStringStays() returns (g: Global)
    ensures fresh(g) && g.Valid() && g.gcstate == Pause && g.heap.Keys == {0, 1, 2, 3, 4}
    ensures !Reachable(g.heap, g.RootRefs(), 4)
  {
    hide Global.Valid;
    hide KeptStrings;
    hide ReachSet;
    hide AllCollected;
    hide Reachable;
    hide NoDangling;
    g := StringInWeakTable();
    WeakStringIsKept();
    g.FullGc();
    StillUnreachable(g.heap);
  }

  lemma StillUnreachable(h: Heap)
    requires AllCollected(WeakHeap(), {0, 1, 2, 3}, h)
    ensures !Reachable(h, {0, 2}, 4)
  {
    var R := {0, 1, 2, 3};
    forall r | r in R ensures r in h && StrongRefs(h, h[r]) <= R {
      StillInside(h, r);
    }
    assert StrongClosed(h, R);
  }

  lemma StillInside(h: Heap, r: Ref)
    requires CollectedAt(WeakHeap(), Marks(WeakHeap(), {0, 1, 2, 3}), h, r) && r in {0, 1, 2, 3}
    ensures r in h && StrongRefs(h, h[r]) <= {0, 1, 2, 3}
  {
    var h0 := WeakHeap();
    if r == 0 {
      WeakHeapRefs();
    } else {
      assert Entries(h0[r].nodes) == {} && Entries(h[r].nodes) == {};
      KeyRefsOfEntries(h[r].nodes);
    }
  }
}
