/** Compiling `return <expression>` and running it. */
module Compile {
  // The code that the generator emits for an expression computes the value of the expression on the
  // virtual machine.

  import opened Bytecode
  import opened PendingCode
  import opened Patching
  import opened ExpSemantics
  import opened ExpLemmas
  import opened JumpLists
  import opened CodeGen

  /** With no pending jumps and a RETURN at the end, the code is fit for the machine. */
  lemma SettledIsExecutable(code: seq<Instruction>, k: seq<Value>, a: nat)
    requires WellFormed(code, k, {}, |code|)
    ensures Executable(code + [Return(a)], k)
  {
    var code' := code + [Return(a)];
    forall p | 0 <= p < |code'| ensures StaysInside(code', k, p) {
      if p < |code| {
        assert Fits(code, k, {}, |code|, p);
      }
    }
  }

  /** The machine follows `Run` step by step, to the RETURN or to the error. */
  lemma {:induction false} MachineFollowsRun(code: seq<Instruction>, k: seq<Value>, a: nat, p: nat, R: Registers)
    returns (n: nat)
    requires WellFormed(code, k, {}, |code|) && Executable(code + [Return(a)], k)
    requires p <= |code|
    ensures var m := Steps(code + [Return(a)], k, Running(p, R), n);
            match Run(code, k, {}, p, R)
            case Fall(S) => m == Halted(|code|, S)
            case Exit(_, _) => false
            case Fail => m == Failed
    decreases |code| - p
  {
    hide Act;
    hide Run;
    var code' := code + [Return(a)];
    if p == |code| {
      RunEnd(code, k, {}, R);
      ActTargets(Return(a), k, p, R);
      ReturnHalts(a, k, p, R);
      n := 1;
      assert Steps(code', k, Running(p, R), 1) == Steps(code', k, Step(code', k, Running(p, R)), 0);
    } else {
      RunStep(code, k, {}, p, R);
      assert code'[p] == code[p];
      match Act(code[p], k, p, R)
      case Goto(q, S) =>
        var n' := MachineFollowsRun(code, k, a, q, S);
        n := n' + 1;
      case Take(j, S, S') =>
        assert code'[j] == code[j];
        var n' := MachineFollowsRun(code, k, a, j + 1 + code[j].sbx, S');
        n := n' + 1;
      case Throw =>
        n := 1;
        assert Steps(code', k, Running(p, R), 1) == Steps(code', k, Step(code', k, Running(p, R)), 0);
    }
  }

  lemma ReturnHalts(a: nat, k: seq<Value>, p: nat, R: Registers)
    ensures Act(Return(a), k, p, R) == Halt(R)
  {
  }

  /** The machine, started at the first instruction with the parameters in the low registers and
      nil above them, halts with the value of `ex` in `reg` and the parameters unchanged, or fails
      if the evaluation of `ex` is an error. */
  ghost predicate RunsTo(code: seq<Instruction>, k: seq<Value>, R0: Registers, nact: nat, ex: Expr, reg: nat)
    requires Executable(code, k) && |code| > 0
  {
    exists n: nat {:trigger Steps(code, k, Running(0, R0), n)} ::
      var m := Steps(code, k, Running(0, R0), n);
      match Eval(ex, R0)
      case Ok(v) => m.Halted? && Get(m.regs, reg) == v && Agree(R0, m.regs, nact)
      case Error => m == Failed
  }

  ghost predicate CleanAbove(R0: Registers, nact: nat) {
    forall r :: r >= nact ==> Get(R0, r) == Nil
  }

  /** The whole code computes the expression from the function's entry. */
  lemma FinalCodeRuns(g: Goal, s: Snap, reg: nat, R0: Registers)
    requires Computes(g, s, InReg(reg), {}, {}) && g.s0 == Snap([], [], {}, {}, 0) && g.start == 0
    requires s.J == {} && CleanAbove(R0, g.nact)
    ensures WellFormed(s.code, s.k, {}, |s.code|) && Executable(s.code + [Return(reg)], s.k)
    ensures RunsTo(s.code + [Return(reg)], s.k, R0, g.nact, g.ex, reg)
  {
    assert s.X == {};
    WellFormedMono(s.code, s.k, s.X, s.lim, |s.code|);
    SettledIsExecutable(s.code, s.k, reg);
    assert EntryOk(g, R0);
    assert ComputesAt(g, s, InReg(reg), {}, {}, R0);
    assert Sem(g.s0, 0, R0) == Fall(R0);
    var n := MachineFollowsRun(s.code, s.k, reg, 0, R0);
    assert Sem(s, 0, R0) == Run(s.code, s.k, {}, 0, R0);
  }

  /** Compile `return ex` for a function with `nparams` parameters. */
  method CompileReturn(ex: Expr, nparams: nat) returns (code: seq<Instruction>, k: seq<Value>, reg: nat)
    requires LocalsBelow(ex, nparams)
    ensures Executable(code, k) && |code| > 0 && reg == nparams && code[|code| - 1] == Return(reg)
    ensures forall R0 :: CleanAbove(R0, nparams) ==> RunsTo(code, k, R0, nparams, ex, reg)
  {
    var fs := new FuncState(nparams);
    ghost var g := Goal(fs.S(), 0, nparams, nparams, ex);
    ghost var T, F;
    var e;
    e, T, F := fs.SubExpr(ex, g);
    e := fs.Exp2NextReg(e, g, T, F);
    reg := e.k.info;
    ghost var s := fs.S();
    assert ToSet([]) == {};
    ComputesDischarged(g, s, InReg(reg), {}, {});
    var _ := fs.Code(Return(reg));  // luaK_ret
    code, k := fs.code, fs.k;
    assert code == Discharged(s).code + [Return(reg)];
    FinalCodeRuns(g, Discharged(s), reg, map[]);
    forall R0 | CleanAbove(R0, nparams) ensures RunsTo(code, k, R0, nparams, ex, reg) {
      FinalCodeRuns(g, Discharged(s), reg, R0);
    }
  }
}
