/** The effect of `patchlistaux` (lua/lcode.c) on the code array and on its meaning. */
module Patching {
  import opened Bytecode
  import opened PendingCode

  /** `patchtestreg`: give a TESTSET its register, or turn it into a TEST when no register is wanted
      or the register already holds the value. */
  function PatchTest(c: Instruction, reg: int): Instruction {
    if !c.TestSet? then c
    else if reg >= 0 && reg != c.b then TestSet(reg, c.b, c.c)
    else Test(c.b, c.c)
  }

  /** Where jump `j` is sent: jumps that deliver a value go to `vtarget`, the others to `dtarget`. */
  function Target(code: seq<Instruction>, j: nat, vtarget: int, dtarget: int): int
    requires j < |code|
  {
    if code[Control(code, j)].TestSet? then vtarget else dtarget
  }

  /** The instruction at `p` once the jumps of `L` are patched. */
  function PatchedAt(code: seq<Instruction>, L: set<nat>, vtarget: int, reg: int, dtarget: int, p: nat): Instruction
    requires p < |code|
  {
    if p in L then Jmp(Target(code, p, vtarget, dtarget) - (p + 1))
    else if p + 1 in L && IsTest(code[p]) then PatchTest(code[p], reg)
    else code[p]
  }

  /** The whole code once the jumps of `L` are patched. */
  function Patched(code: seq<Instruction>, L: set<nat>, vtarget: int, reg: int, dtarget: int): seq<Instruction>
  {
    seq(|code|, p requires 0 <= p < |code| => PatchedAt(code, L, vtarget, reg, dtarget, p))
  }

  /** The jumps of `L` are pending and their targets lie ahead, at most at `lim`. */
  ghost predicate Patchable(code: seq<Instruction>, X: set<nat>, L: set<nat>, vtarget: int, dtarget: int, lim: nat) {
    && L <= X
    && forall j :: j in L ==>
         && j < |code|
         && j < Target(code, j, vtarget, dtarget) <= lim <= |code|
         && !Inside(code, Target(code, j, vtarget, dtarget))
  }

  lemma WellFormedMono(code: seq<Instruction>, k: seq<Value>, X: set<nat>, lim: nat, lim': nat)
    requires WellFormed(code, k, X, lim) && lim <= lim' <= |code|
    ensures WellFormed(code, k, X, lim')
  {
    forall p | 0 <= p < |code| ensures Fits(code, k, X, lim', p) {
      assert Fits(code, k, X, lim, p);
    }
  }

  /** Patching keeps every instruction a test, a jump or neither. */
  lemma PatchedShape(code: seq<Instruction>, k: seq<Value>, X: set<nat>, lim: nat,
                     L: set<nat>, vtarget: int, reg: int, dtarget: int)
    requires WellFormed(code, k, X, lim) && L <= X
    ensures |Patched(code, L, vtarget, reg, dtarget)| == |code|
    ensures forall p {:trigger Patched(code, L, vtarget, reg, dtarget)[p]} :: 0 <= p < |code| ==>
              && IsTest(Patched(code, L, vtarget, reg, dtarget)[p]) == IsTest(code[p])
              && Patched(code, L, vtarget, reg, dtarget)[p].Jmp? == code[p].Jmp?
    ensures forall p :: Inside(Patched(code, L, vtarget, reg, dtarget), p) == Inside(code, p)
    ensures forall p :: 0 <= p < |code| ==>
              Control(Patched(code, L, vtarget, reg, dtarget), p) == Control(code, p)
  {
  }

  lemma PatchedWellFormed(code: seq<Instruction>, k: seq<Value>, X: set<nat>, lim: nat,
                          L: set<nat>, vtarget: int, reg: int, dtarget: int, lim': nat)
    requires WellFormed(code, k, X, lim) && Patchable(code, X, L, vtarget, dtarget, lim')
    requires lim <= lim' <= |code|
    ensures WellFormed(Patched(code, L, vtarget, reg, dtarget), k, X - L, lim')
  {
    hide Fits;
    var code' := Patched(code, L, vtarget, reg, dtarget);
    PatchedShape(code, k, X, lim, L, vtarget, reg, dtarget);
    forall p | 0 <= p < |code'| ensures Fits(code', k, X - L, lim', p) {
      PatchedFits(code, k, X, lim, L, vtarget, reg, dtarget, lim', p);
    }
    assert forall j :: j in X - L ==> j < |code'| && code'[j].Jmp?;
  }

  lemma PatchedFits(code: seq<Instruction>, k: seq<Value>, X: set<nat>, lim: nat,
                    L: set<nat>, vtarget: int, reg: int, dtarget: int, lim': nat, p: nat)
    requires WellFormed(code, k, X, lim) && Patchable(code, X, L, vtarget, dtarget, lim')
    requires lim <= lim' <= |code| && p < |code|
    ensures Fits(Patched(code, L, vtarget, reg, dtarget), k, X - L, lim', p)
  {
    var code' := Patched(code, L, vtarget, reg, dtarget);
    PatchedShape(code, k, X, lim, L, vtarget, reg, dtarget);
    assert code'[p] == PatchedAt(code, L, vtarget, reg, dtarget, p);
    hide Patched;
    hide Inside;
    hide Control;
    assert Fits(code, k, X, lim, p);
    assert p in L ==> p < Target(code, p, vtarget, dtarget) <= lim' && !Inside(code, Target(code, p, vtarget, dtarget));
    hide Patchable;
    hide WellFormed;
    hide Target;
    if p in L {
      assert !Inside(code', Target(code, p, vtarget, dtarget));
    } else if p + 1 in L && IsTest(code[p]) {
      assert code'[p + 1].Jmp?;
    } else {
      assert code'[p] == code[p];
    }
  }

  /** The meaning of patching: leaving through a jump of `L` becomes going on at its target, with
      the copy its control instruction now makes; nothing else changes. */
  lemma {:induction false} RunPatched(code: seq<Instruction>, k: seq<Value>, X: set<nat>, L: set<nat>,
                                      vtarget: int, reg: int, dtarget: int, p: nat, R: Registers)
    requires WellFormed(code, k, X, |code|) && Patchable(code, X, L, vtarget, dtarget, |code|)
    requires WellFormed(Patched(code, L, vtarget, reg, dtarget), k, X - L, |code|)
    requires p <= |code| && !Inside(code, p)
    ensures var code' := Patched(code, L, vtarget, reg, dtarget);
            Run(code', k, X - L, p, R) ==
            match Run(code, k, X, p, R)
            case Exit(j, S) =>
              if j in L
              then Run(code', k, X - L, Target(code, j, vtarget, dtarget),
                       Copy(PatchTest(code[Control(code, j)], reg), S))
              else Exit(j, S)
            case o => o
    decreases |code| - p
  {
    hide Act;
    hide Run;
    hide Fits;
    var code' := Patched(code, L, vtarget, reg, dtarget);
    if p == |code| {
      RunEnd(code, k, X, R);
      RunEnd(code', k, X - L, R);
    } else {
      RunStep(code, k, X, p, R);
      RunStep(code', k, X - L, p, R);
      ActTargets(code[p], k, p, R);
      assert code'[p] == PatchedAt(code, L, vtarget, reg, dtarget, p);
      if p in L {
        ActTargets(code'[p], k, p, R);
        assert Control(code, p) == p;
      } else if p + 1 in L && IsTest(code[p]) {
        assert code'[p + 1] == PatchedAt(code, L, vtarget, reg, dtarget, p + 1);
        PatchedTestActs(code[p], k, p, reg, R);
        if Act(code[p], k, p, R).Goto? {
          RunPatched(code, k, X, L, vtarget, reg, dtarget, p + 2, Act(code[p], k, p, R).regs);
        }
      } else {
        match Act(code[p], k, p, R)
        case Goto(q, S) => RunPatched(code, k, X, L, vtarget, reg, dtarget, q, S);
        case Take(i, S, S') =>
          if i !in X {
            assert code'[i] == PatchedAt(code, L, vtarget, reg, dtarget, i);
            RunPatched(code, k, X, L, vtarget, reg, dtarget, i + 1 + code[i].sbx, S');
          }
        case Throw =>
      }
    }
  }

  /** A patched test decides as the original does. */
  lemma PatchedTestActs(c: Instruction, k: seq<Value>, p: nat, reg: int, R: Registers)
    requires IsTest(c) && OperandsOk(c, k)
    ensures OperandsOk(PatchTest(c, reg), k)
    ensures Act(c, k, p, R).Goto? || Act(c, k, p, R).Throw? ==> Act(PatchTest(c, reg), k, p, R) == Act(c, k, p, R)
    ensures Act(c, k, p, R).Take? ==>
              var S := Act(c, k, p, R).before;
              Act(PatchTest(c, reg), k, p, R) == Take(p + 1, S, Copy(PatchTest(c, reg), S))
  {
  }
}
