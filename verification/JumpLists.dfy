/** Patch lists threaded through unpatched jumps (lua/lcode.c). */
module JumpLists {
  // A list is an index of a jump in the code array of a function being compiled; each jump's offset
  // leads to the next one.

  import opened Bytecode
  import opened PendingCode
  import opened Patching
  import opened ExpSemantics
  import opened ExpLemmas
  import opened ExpFinish

  const NO_JUMP: int := -1

  /** `getjump` on a code array. */
  function Next(code: seq<Instruction>, pc: nat): int
    requires pc < |code| && code[pc].Jmp?
  {
    if code[pc].sbx == NO_JUMP then NO_JUMP else pc + 1 + code[pc].sbx
  }

  ghost function ToSet(L: seq<nat>): set<nat> {
    set x | x in L
  }

  /** The jumps of `L`, in this order and without repetition, are the list that starts at `head`. */
  ghost predicate IsList(code: seq<Instruction>, head: int, L: seq<nat>) {
    && head == (if L == [] then NO_JUMP else L[0])
    && (forall j :: j in L ==> j < |code| && code[j].Jmp?)
    && (forall i {:trigger LinkAt(code, L, i)} :: 0 <= i < |L| ==> LinkAt(code, L, i))
    && (forall i, j :: 0 <= i < j < |L| ==> L[i] != L[j])
  }

  ghost predicate LinkAt(code: seq<Instruction>, L: seq<nat>, i: nat)
    requires i < |L|
  {
    && L[i] < |code| && code[L[i]].Jmp?
    && Next(code, L[i]) == if i + 1 < |L| then L[i + 1] else NO_JUMP
  }

  /** A list depends only on its own jumps. */
  lemma IsListFrame(code: seq<Instruction>, code': seq<Instruction>, head: int, L: seq<nat>)
    requires IsList(code, head, L)
    requires forall j :: j in L ==> j < |code| && j < |code'| && code'[j] == code[j]
    ensures IsList(code', head, L)
  {
    forall i | 0 <= i < |L| ensures LinkAt(code', L, i) {
      assert LinkAt(code, L, i) && L[i] in L;
    }
  }

  /** A list is determined by its head: the walk along the links is unique and acyclic. */
  lemma {:induction false} IsListUnique(code: seq<Instruction>, head: int, L: seq<nat>, M: seq<nat>)
    requires IsList(code, head, L) && IsList(code, head, M)
    ensures L == M
    decreases |L|
  {
    if L != [] && M != [] {
      IsListTail(code, head, L);
      IsListTail(code, head, M);
      IsListUnique(code, Next(code, L[0]), L[1..], M[1..]);
      assert L == [L[0]] + L[1..] && M == [M[0]] + M[1..];
    }
  }

  lemma IsListTail(code: seq<Instruction>, head: int, L: seq<nat>)
    requires IsList(code, head, L) && L != []
    ensures L[0] < |code| && code[L[0]].Jmp? && IsList(code, Next(code, L[0]), L[1..])
  {
    assert LinkAt(code, L, 0);
    var M := L[1..];
    assert |M| == |L| - 1 && forall i :: 0 <= i < |M| ==> M[i] == L[i + 1];
    assert Next(code, L[0]) == if M == [] then NO_JUMP else M[0];
    forall j | j in M ensures j < |code| && code[j].Jmp? {
      assert j in L;
    }
    forall i | 0 <= i < |M| ensures LinkAt(code, M, i) {
      assert LinkAt(code, L, i + 1);
    }
    forall i, j | 0 <= i < j < |M| ensures M[i] != M[j] {
      assert L[i + 1] != L[j + 1];
    }
  }

  /** Joining two lists by the last link of the first. */
  ghost function Linked(code: seq<Instruction>, L: seq<nat>, M: seq<nat>): seq<Instruction>
    requires L != [] ==> L[|L| - 1] < |code|
  {
    if L == [] || M == [] then code
    else code[L[|L| - 1] := Jmp(M[0] as int - (L[|L| - 1] + 1))]
  }

  lemma LinkedIsList(code: seq<Instruction>, l1: int, L: seq<nat>, l2: int, M: seq<nat>)
    requires IsList(code, l1, L) && IsList(code, l2, M)
    requires forall j :: j in L ==> j !in M
    ensures L != [] ==> L[|L| - 1] < |code| && code[L[|L| - 1]].Jmp?
    ensures IsList(Linked(code, L, M), if L == [] then l2 else l1, L + M)
    ensures Relinked(code, Linked(code, L, M), ToSet(L))
  {
    if L != [] {
      assert LinkAt(code, L, |L| - 1);
    }
    var code' := Linked(code, L, M);
    if L != [] && M != [] {
      forall i | 0 <= i < |L + M| ensures LinkAt(code', L + M, i) {
        LinkedAt(code, l1, L, l2, M, i);
      }
      forall i, j | 0 <= i < j < |L + M| ensures (L + M)[i] != (L + M)[j] {
        if i < |L| <= j {
          assert L[i] in L && M[j - |L|] in M;
        }
      }
    } else {
      assert L + M == if L == [] then M else L;
    }
  }

  lemma LinkedAt(code: seq<Instruction>, l1: int, L: seq<nat>, l2: int, M: seq<nat>, i: nat)
    requires IsList(code, l1, L) && IsList(code, l2, M) && L != [] && M != []
    requires forall j :: j in L ==> j !in M
    requires i < |L + M| && L[|L| - 1] < |code|
    ensures LinkAt(Linked(code, L, M), L + M, i)
  {
    var last := L[|L| - 1];
    assert last in L;
    if i < |L| {
      assert LinkAt(code, L, i);
      assert i == |L| - 1 || L[i] != last;
      assert M[0] in M;
    } else {
      assert LinkAt(code, M, i - |L|);
      assert M[i - |L|] in M;
    }
  }

  /** Patching one more jump of a list. */
  lemma PatchedOneMore(code: seq<Instruction>, k: seq<Value>, X: set<nat>, lim: nat,
                       L: set<nat>, j: nat, vtarget: int, reg: int, dtarget: int)
    requires WellFormed(code, k, X, lim) && L <= X && j in X && j !in L
    ensures var c := Patched(code, L, vtarget, reg, dtarget);
            && |c| == |code| && Control(c, j) == Control(code, j)
            && c[Control(c, j)] == code[Control(code, j)] && c[j] == code[j]
            && Patched(code, L + {j}, vtarget, reg, dtarget) ==
               c[Control(c, j) := PatchTest(c[Control(c, j)], reg)][j := Jmp(Target(c, j, vtarget, dtarget) - (j + 1))]
  {
    var c := Patched(code, L, vtarget, reg, dtarget);
    OtherJumpKept(code, k, X, lim, L, vtarget, reg, dtarget, j);
    var d := c[Control(c, j) := PatchTest(c[Control(c, j)], reg)][j := Jmp(Target(c, j, vtarget, dtarget) - (j + 1))];
    forall p | 0 <= p < |code| ensures Patched(code, L + {j}, vtarget, reg, dtarget)[p] == d[p] {
      assert c[p] == PatchedAt(code, L, vtarget, reg, dtarget, p);
      assert Fits(code, k, X, lim, p);
    }
  }

  lemma RemovedOneMore(code: seq<Instruction>, k: seq<Value>, X: set<nat>, lim: nat, L: set<nat>, j: nat)
    requires WellFormed(code, k, X, lim) && L <= X && j in X && j !in L
    ensures var c := Removed(code, L);
            && |c| == |code| && Control(c, j) == Control(code, j)
            && c[Control(c, j)] == code[Control(code, j)] && c[j] == code[j]
            && Removed(code, L + {j}) ==
               if c[Control(c, j)].TestSet?
               then c[Control(c, j) := Test(c[Control(c, j)].b, c[Control(c, j)].c)] else c
  {
    var c := Removed(code, L);
    RemovedSame(code, k, X, lim, L);
    assert SameJump(code, c, j);
    var d := if c[Control(c, j)].TestSet?
             then c[Control(c, j) := Test(c[Control(c, j)].b, c[Control(c, j)].c)] else c;
    forall p | 0 <= p < |code| ensures Removed(code, L + {j})[p] == d[p] {
      assert c[p] == RemovedAt(code, L, p);
      assert Fits(code, k, X, lim, p);
    }
  }

  lemma RemovedTwice(code: seq<Instruction>, L: set<nat>, M: set<nat>)
    ensures Removed(Removed(code, L), M) == Removed(code, L + M)
  {
    var c := Removed(code, L);
    forall p | 0 <= p < |code| ensures Removed(c, M)[p] == Removed(code, L + M)[p] {
      assert c[p] == RemovedAt(code, L, p);
      assert Removed(c, M)[p] == RemovedAt(c, M, p);
    }
  }
}
