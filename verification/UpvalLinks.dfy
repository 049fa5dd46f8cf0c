/** The doubly linked list of all open upvalues (lua/lfunc.c). */
module UpvalLinks {
  // A circle through `uvhead`. Upvalues are put in behind the head and taken out anywhere.

  import opened GcHeap
  import opened Marking
  import opened GcSweep

  /** The head of the list, or an upvalue. */
  datatype UvNode = Head | Uv(r: Ref)

  datatype Links = Links(next: map<UvNode, UvNode>, prev: map<UvNode, UvNode>)

  /** Going around from the head, which comes before the first and after the last upvalue of `s`. */
  function NodeAt(s: seq<Ref>, i: nat): UvNode {
    if 1 <= i <= |s| then Uv(s[i - 1]) else Head
  }

  /** The links between place `i` and the place after it lead to each other. */
  ghost predicate LinkedAt(s: seq<Ref>, l: Links, i: nat) {
    var a, b := NodeAt(s, i), NodeAt(s, i + 1);
    a in l.next && l.next[a] == b && b in l.prev && l.prev[b] == a
  }

  /** The links form a circle through the head and exactly the upvalues of `s`, in this order. */
  ghost predicate Threads(s: seq<Ref>, l: Links) {
    forall i {:trigger LinkedAt(s, l, i)} :: 0 <= i <= |s| ==> LinkedAt(s, l, i)
  }

  /** The part of `luaF_findupval` that links a new upvalue into the list. */
  function PushLink(l: Links, u: Ref): Links
    requires Head in l.next
  {
    var first := l.next[Head];
    Links(l.next[Uv(u) := first][Head := Uv(u)], l.prev[Uv(u) := Head][first := Uv(u)])
  }

  /** `unlinkupval`. */
  function WithoutLink(l: Links, u: Ref): Links
    requires Uv(u) in l.next && Uv(u) in l.prev
  {
    var n, p := l.next[Uv(u)], l.prev[Uv(u)];
    Links(l.next[p := n], l.prev[n := p])
  }

  lemma PushThreads(s: seq<Ref>, l: Links, u: Ref)
    requires Threads(s, l) && u !in s
    ensures Head in l.next && Threads([u] + s, PushLink(l, u))
  {
    assert LinkedAt(s, l, 0);
    var s', l' := [u] + s, PushLink(l, u);
    forall i | 0 <= i <= |s'| ensures LinkedAt(s', l', i) {
      if i > 0 {
        assert LinkedAt(s, l, i - 1);
      }
    }
  }

  lemma UnlinkThreads(s: seq<Ref>, l: Links, j: nat)
    requires Threads(s, l) && Distinct(s) && j < |s|
    ensures Uv(s[j]) in l.next && Uv(s[j]) in l.prev
    ensures Threads(Remove(s, j), WithoutLink(l, s[j]))
  {
    assert LinkedAt(s, l, j) && LinkedAt(s, l, j + 1);
    var s', l' := Remove(s, j), WithoutLink(l, s[j]);
    forall i | 0 <= i <= |s'| ensures LinkedAt(s', l', i) {
      if i < j {
        assert LinkedAt(s, l, i);
      } else if i > j {
        assert LinkedAt(s, l, i + 1);
      }
    }
  }

  /** The same for an upvalue on the list, wherever it is. */
  lemma WithoutThreads(s: seq<Ref>, l: Links, u: Ref)
    requires Threads(s, l) && Distinct(s) && u in s
    ensures Uv(u) in l.next && Uv(u) in l.prev && Threads(Without(s, u), WithoutLink(l, u))
  {
    var j :| 0 <= j < |s| && s[j] == u;
    WithoutIsRemove(s, j);
    UnlinkThreads(s, l, j);
  }

  lemma NoUpvals()
    ensures Threads([], Links(map[Head := Head], map[Head := Head]))
  {
  }
}
