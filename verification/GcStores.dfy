/** What objects store, field by field (lua/lobject.h). */
module GcStores {
  // The sets of references that the collector follows are tied to the fields here, and reachability
  // to paths along them.

  import opened GcHeap

  /** The program can read `v` from some field of the object; an open upvalue is a stack slot. */
  predicate Stores(h: Heap, o: Obj, v: Value) {
    match o
    case String => false
    case Table(meta, _, _, arr, nodes) =>
      v == meta || v in arr || exists n :: n in nodes && n.val != Nil && (n.val == v || n.key == LiveKey(v))
    case Closure(env, upvals) => v == env || v in upvals
    case Thread(globals, stack, _) => v == globals || v in stack
    case Upval(Closed(w)) => v == w
    case Upval(Open(t, i)) => t in h && h[t].Thread? && i < |h[t].stack| && v == h[t].stack[i]
  }

  /** The same, leaving out the fields of a table that are weak. */
  predicate Holds(h: Heap, o: Obj, v: Value) {
    if o.Table? then
      || v == o.meta
      || (!o.mode.values && (v in o.arr || exists n :: n in o.nodes && n.val != Nil && n.val == v))
      || (!o.mode.keys && exists n :: n in o.nodes && n.val != Nil && n.key == LiveKey(v))
    else Stores(h, o, v)
  }

  /** What the collector takes for the references of an object is what the object stores. */
  lemma EntriesAreStored(h: Heap, o: Obj)
    ensures forall x :: x in EntryRefs(h, o) <==> Stores(h, o, Gc(x))
  {
    forall x ensures x in EntryRefs(h, o) <==> Stores(h, o, Gc(x)) {
      EntryIsStored(h, o, x);
    }
  }

  lemma EntryIsStored(h: Heap, o: Obj, x: Ref)
    ensures x in EntryRefs(h, o) <==> Stores(h, o, Gc(x))
  {
    ValueRefs(x);
    if o.Table? {
      NodeRefsAre(o.nodes, x);
    }
  }

  lemma ValueRefs(x: Ref)
    ensures forall v :: x in Ref1(v) <==> v == Gc(x)
    ensures forall vs :: x in Refs(vs) <==> Gc(x) in vs
  {
  }

  lemma NodeRefsAre(nodes: seq<Node>, x: Ref)
    ensures x in ValRefs(nodes) <==> exists n :: n in nodes && n.val != Nil && n.val == Gc(x)
    ensures x in KeyRefs(nodes) <==> exists n :: n in nodes && n.val != Nil && n.key == LiveKey(Gc(x))
  {
  }

  /** What the collector takes for strong references is what the object holds. */
  lemma StrongIsHeld(h: Heap, o: Obj, x: Ref)
    ensures x in StrongRefs(h, o) <==> Holds(h, o, Gc(x))
  {
    ValueRefs(x);
    if o.Table? {
      NodeRefsAre(o.nodes, x);
    }
  }

  /** The object stores the value, or has it as the key of an empty entry. */
  predicate Mentions(h: Heap, o: Obj, v: Value) {
    Stores(h, o, v) || (o.Table? && exists n :: n in o.nodes && n.key == LiveKey(v))
  }

  lemma AnyIsMentioned(h: Heap, o: Obj, x: Ref)
    ensures x in AnyRefs(h, o) <==> Mentions(h, o, Gc(x))
  {
    EntryIsStored(h, o, x);
  }

  // ----- paths -----

  /** Each object on the path holds a reference to the next one, and the first one is a root. */
  ghost predicate IsPath(h: Heap, roots: set<Ref>, p: seq<Ref>) {
    && |p| > 0 && p[0] in roots
    && forall i, j {:trigger p[i], p[j]} :: 0 <= i && j == i + 1 < |p| ==> p[i] in h && Holds(h, h[p[i]], Gc(p[j]))
  }

  ghost predicate HasPath(h: Heap, roots: set<Ref>, r: Ref) {
    exists p :: IsPath(h, roots, p) && p[|p| - 1] == r
  }

  lemma {:induction false} PathStaysIn(h: Heap, roots: set<Ref>, p: seq<Ref>, R: set<Ref>, i: nat)
    requires IsPath(h, roots, p) && roots <= R && StrongClosed(h, R) && i < |p|
    ensures p[i] in R
  {
    if i > 0 {
      PathStaysIn(h, roots, p, R, i - 1);
      var a, b := p[i - 1], p[i];
      assert a in h && Holds(h, h[a], Gc(b));
      StrongIsHeld(h, h[a], b);
    }
  }

  lemma PathExtends(h: Heap, roots: set<Ref>, r: Ref, x: Ref)
    requires HasPath(h, roots, r) && r in h && Holds(h, h[r], Gc(x))
    ensures HasPath(h, roots, x)
  {
    var p :| IsPath(h, roots, p) && p[|p| - 1] == r;
    ExtendedPath(h, roots, p, p + [x]);
  }

  lemma ExtendedPath(h: Heap, roots: set<Ref>, p: seq<Ref>, q: seq<Ref>)
    requires IsPath(h, roots, p) && |q| == |p| + 1 && q[..|p|] == p
    requires p[|p| - 1] in h && Holds(h, h[p[|p| - 1]], Gc(q[|p|]))
    ensures IsPath(h, roots, q)
  {
    hide Holds;
    forall i | 0 <= i < |p| ensures q[i] == p[i] {
      assert q[i] == q[..|p|][i];
    }
    forall i, j | 0 <= i && j == i + 1 < |q| ensures q[i] in h && Holds(h, h[q[i]], Gc(q[j])) {
      assert q[i] == p[i] && (j < |p| ==> q[j] == p[j]);
    }
  }

  /** An object is reachable if and only if a path of held references leads to it from a root. */
  lemma ReachableByPath(h: Heap, roots: set<Ref>, r: Ref)
    requires roots <= h.Keys && EntryClosed(h, h.Keys)
    ensures Reachable(h, roots, r) <==> HasPath(h, roots, r)
  {
    if HasPath(h, roots, r) {
      var p :| IsPath(h, roots, p) && p[|p| - 1] == r;
      forall R: set<Ref> | roots <= R && StrongClosed(h, R) ensures r in R {
        PathStaysIn(h, roots, p, R, |p| - 1);
      }
    }
    if Reachable(h, roots, r) {
      var R := set x | x in h && HasPath(h, roots, x);
      forall x | x in roots ensures x in R {
        assert IsPath(h, roots, [x]);
      }
      forall x, y | x in R && x in h && y in StrongRefs(h, h[x]) ensures y in R {
        RefsNested(h, h[x]);
        StrongIsHeld(h, h[x], y);
        PathExtends(h, roots, x, y);
      }
      assert StrongClosed(h, R);
    }
  }
}
