/** `exp2reg` (lua/lcode.c). */
module ExpFinish {
  // All exits of an expression are brought together in one register.

  import opened Bytecode
  import opened PendingCode
  import opened Patching
  import opened ExpSemantics
  import opened ExpLemmas

  /** Patching one list leaves the jumps of other lists alone. */
  lemma OtherJumpKept(code: seq<Instruction>, k: seq<Value>, X: set<nat>, lim: nat,
                      L: set<nat>, vtarget: int, reg: int, dtarget: int, j: nat)
    requires WellFormed(code, k, X, lim) && L <= X && j in X && j !in L
    ensures SameJump(code, Patched(code, L, vtarget, reg, dtarget), j)
  {
    var code' := Patched(code, L, vtarget, reg, dtarget);
    PatchedShape(code, k, X, lim, L, vtarget, reg, dtarget);
    assert code'[j] == PatchedAt(code, L, vtarget, reg, dtarget, j);
    assert Fits(code, k, X, lim, j);
    if Control(code, j) < j {
      assert code'[j - 1] == PatchedAt(code, L, vtarget, reg, dtarget, j - 1);
      assert Fits(code, k, X, lim, j - 1);
    }
  }

  /** The code of `b` before the labels: an exit of `b.J` already has the value in `reg`; falling
      off the end means the value is false. */
  ghost predicate DeliversAt(g: Goal, b: Snap, reg: nat, T: set<nat>, F: set<nat>, R0: Registers)
    requires GoalOk(g) && SnapOk(b, g.start)
  {
    WellFormedMono(b.code, b.k, b.X, b.lim, |b.code|);
    var o := Run(b.code, b.k, b.X, g.start, R0);
    match Sem(g.s0, g.start, R0)
    case Fall(R) =>
      (match Eval(g.ex, R)
       case Error => o == Fail
       case Ok(v) =>
         match o
         case Fall(S) => Agree(R, S, g.fr) && v == Boolean(false)
         case Exit(j, S) =>
           && Agree(R, S, g.fr)
           && (if j in b.J then Get(S, reg) == v
               else (j in T || j in F) && Carries(b.code, j, S, v, j in T))
         case Fail => false)
    case o' => o == o'
  }

  ghost predicate Delivers(g: Goal, b: Snap, reg: nat, T: set<nat>, F: set<nat>) {
    && GoalOk(g) && SnapOk(b, g.start)
    && T !! F && Tidy(g.s0, b, T + F)
    && forall R0 {:trigger DeliversAt(g, b, reg, T, F, R0)} ::
         EntryOk(g, R0) ==> DeliversAt(g, b, reg, T, F, R0)
  }

  /** A value that sits in `reg` jumps over the labels together with the jumps due here. */
  lemma DeliversJump(g: Goal, b: Snap, reg: nat, T: set<nat>, F: set<nat>, link: int)
    requires Computes(g, b, InReg(reg), T, F)
    ensures var n := |b.code|;
            Delivers(g, Snap(b.code + [Jmp(link)], b.k, b.X + {n}, b.J + {n}, n + 1), reg, T, F)
  {
    var n := |b.code|;
    var c := Snap(b.code + [Jmp(link)], b.k, b.X + {n}, b.J + {n}, n + 1);
    forall p | 0 <= p < |c.code| ensures Fits(c.code, c.k, c.X, c.lim, p) {
      if p < n {
        assert Fits(b.code, b.k, b.X, b.lim, p);
      }
    }
    forall j | j in g.s0.X && j !in g.s0.J ensures SameJump(g.s0.code, c.code, j) {
      assert SameJump(g.s0.code, b.code, j);
    }
    forall R0 | EntryOk(g, R0) ensures DeliversAt(g, c, reg, T, F, R0) {
      assert ComputesAt(g, b, InReg(reg), T, F, R0);
      DeliversJumpAt(g, b, reg, T, F, link, R0);
    }
  }

  lemma DeliversJumpAt(g: Goal, b: Snap, reg: nat, T: set<nat>, F: set<nat>, link: int, R0: Registers)
    requires Computes(g, b, InReg(reg), T, F) && ComputesAt(g, b, InReg(reg), T, F, R0)
    requires SnapOk(Snap(b.code + [Jmp(link)], b.k, b.X + {|b.code|}, b.J + {|b.code|}, |b.code| + 1), g.start)
    ensures DeliversAt(g, Snap(b.code + [Jmp(link)], b.k, b.X + {|b.code|}, b.J + {|b.code|}, |b.code| + 1), reg, T, F, R0)
  {
    hide Run;
    var n := |b.code|;
    var c := Snap(b.code + [Jmp(link)], b.k, b.X + {n}, b.J + {n}, n + 1);
    WellFormedMono(b.code, b.k, b.X, b.lim, n);
    SemExits(g.s0, g.start, R0);
    SemExits(b, g.start, R0);
    RunExits(b.code, b.k, b.X, g.start, R0);
    RunAppend(b.code, b.k, b.X, c.code, c.k, c.X, g.start, R0);
    match Run(b.code, b.k, b.X, g.start, R0)
    case Fall(S) => RunStep(c.code, c.k, c.X, n, S);
    case Exit(j, S) => if j in T + F { assert SameJump(b.code, c.code, j); }
    case Fail =>
  }

  /** A comparison leaves through its own jump when true and falls through when false. */
  lemma DeliversComparison(g: Goal, b: Snap, op: Comparison, cond: bool, rb: RK, rc: RK,
                           reg: nat, T: set<nat>, F: set<nat>, link: int)
    requires Computes(g, b, Cmp(op, cond, rb, rc), T, F) && b.J == {}
    ensures var n := |b.code|;
            Delivers(g, b.(code := b.code + [Compare(op, cond, rb, rc), Jmp(link)], X := b.X + {n + 1}),
                     reg, T + {n + 1}, F)
  {
    hide Sem;
    var n, i := |b.code|, Compare(op, cond, rb, rc);
    var c := b.(code := b.code + [i, Jmp(link)], X := b.X + {n + 1});
    SnapAppendTest(b, g.start, i, link);
    TidyAppend(g.s0, b, T + F, [i, Jmp(link)], b.k, c.X, {n + 1}, b.lim);
    assert T + F + {n + 1} == T + {n + 1} + F;
    forall R0 | EntryOk(g, R0) ensures DeliversAt(g, c, reg, T + {n + 1}, F, R0) {
      assert ComputesAt(g, b, Cmp(op, cond, rb, rc), T, F, R0);
      DeliversComparisonAt(g, b, op, cond, rb, rc, reg, T, F, link, R0);
    }
  }

  lemma DeliversComparisonAt(g: Goal, b: Snap, op: Comparison, cond: bool, rb: RK, rc: RK,
                             reg: nat, T: set<nat>, F: set<nat>, link: int, R0: Registers)
    requires Computes(g, b, Cmp(op, cond, rb, rc), T, F) && b.J == {}
    requires ComputesAt(g, b, Cmp(op, cond, rb, rc), T, F, R0)
    ensures var n := |b.code|;
            var c := b.(code := b.code + [Compare(op, cond, rb, rc), Jmp(link)], X := b.X + {n + 1});
            SnapOk(c, g.start) && DeliversAt(g, c, reg, T + {n + 1}, F, R0)
  {
    hide Run;
    hide Residual;
    hide Act;
    var n, i := |b.code|, Compare(op, cond, rb, rc);
    var c := b.(code := b.code + [i, Jmp(link)], X := b.X + {n + 1});
    SnapAppendTest(b, g.start, i, link);
    SemAppendTest(b, g.start, i, link, R0);
    SemExits(g.s0, g.start, R0);
    WellFormedMono(b.code, b.k, b.X, b.lim, n);
    WellFormedMono(c.code, c.k, c.X, c.lim, n + 2);
    match Sem(b, g.start, R0)
    case Fall(S) =>
      assert Tests(i, Cmp(op, cond, rb, rc), false);
      TestsActs(i, Cmp(op, cond, rb, rc), false, b.k, n, S);
      ComparisonIsBoolean(op, cond, rb, rc, b.k, S);
    case Exit(j, S) => if j in T + F { assert SameJump(b.code, c.code, j); }
    case Fail =>
  }

  lemma ComparisonIsBoolean(op: Comparison, cond: bool, rb: RK, rc: RK, k: seq<Value>, S: Registers)
    requires RKOk(k, rb) && RKOk(k, rc)
    ensures Residual(Cmp(op, cond, rb, rc), k, S).Ok? ==> Residual(Cmp(op, cond, rb, rc), k, S).value.Boolean?
  {
  }

  lemma DeliversRelinked(g: Goal, b: Snap, reg: nat, T: set<nat>, F: set<nat>, code': seq<Instruction>)
    requires Delivers(g, b, reg, T, F) && Relinked(b.code, code', T + F)
    ensures Delivers(g, b.(code := code'), reg, T, F)
  {
    var b' := b.(code := code');
    assert SameUpToPending(b.code, code', b.X);
    SemRelinked(b, g.start, code', map[]);
    assert Relinked(b.code, code', T + F + b.J);
    TidyRelinked(g.s0, b, T + F, code');
    WellFormedMono(b.code, b.k, b.X, b.lim, |b.code|);
    WellFormedMono(code', b.k, b.X, b.lim, |b.code|);
    forall R0 | EntryOk(g, R0) ensures DeliversAt(g, b', reg, T, F, R0) {
      assert DeliversAt(g, b, reg, T, F, R0);
      hide Run;
      RunSameUpToPending(b.code, code', b.k, b.X, g.start, R0);
    }
  }

  // ----- the labels -----

  ghost predicate HasLabels(code: seq<Instruction>, reg: nat) {
    && |code| >= 2
    && code[|code| - 2] == LoadBool(reg, false, true)
    && code[|code| - 1] == LoadBool(reg, true, false)
  }

  lemma RunLabels(code: seq<Instruction>, k: seq<Value>, X: set<nat>, reg: nat, S: Registers)
    requires WellFormed(code, k, X, |code|) && HasLabels(code, reg)
    ensures Run(code, k, X, |code| - 2, S) == Fall(S[reg := Boolean(false)])
    ensures Run(code, k, X, |code| - 1, S) == Fall(S[reg := Boolean(true)])
    ensures Run(code, k, X, |code|, S) == Fall(S)
  {
    hide Run;
    RunStep(code, k, X, |code| - 2, S);
    RunStep(code, k, X, |code| - 1, S);
    RunEnd(code, k, X, S);
    RunEnd(code, k, X, S[reg := Boolean(false)]);
    RunEnd(code, k, X, S[reg := Boolean(true)]);
  }

  /** The registers with which an exit with control `c` arrives at the end. */
  function Arrive(c: Instruction, reg: nat, S: Registers, onTrue: bool): Registers {
    if c.TestSet? then Copy(PatchTest(c, reg), S) else S[reg := Boolean(onTrue)]
  }

  lemma ArriveValue(code: seq<Instruction>, j: nat, reg: nat, S: Registers, v: Value, onTrue: bool)
    requires Carries(code, j, S, v, onTrue)
    ensures Get(Arrive(code[Control(code, j)], reg, S, onTrue), reg) == v
    ensures Agree(S, Arrive(code[Control(code, j)], reg, S, onTrue), reg)
  {
  }

  /** Where the jumps of a list are sent when the code ends in the two labels. */
  function LabelOf(code: seq<Instruction>, onTrue: bool): int {
    if onTrue then |code| - 1 else |code| - 2
  }

  /** Jumps of a list that precede the labels can be patched to them. */
  lemma LabelsPatchable(code: seq<Instruction>, k: seq<Value>, X: set<nat>, L: set<nat>, reg: nat, onTrue: bool)
    requires WellFormed(code, k, X, |code|) && HasLabels(code, reg) && L <= X
    ensures Patchable(code, X, L, |code|, LabelOf(code, onTrue), |code|)
    ensures WellFormed(Patched(code, L, |code|, reg, LabelOf(code, onTrue)), k, X - L, |code|)
    ensures HasLabels(Patched(code, L, |code|, reg, LabelOf(code, onTrue)), reg)
  {
    var n := |code|;
    var code' := Patched(code, L, n, reg, LabelOf(code, onTrue));
    EndNotInside(code, k, X, n);
    assert Fits(code, k, X, n, n - 2);
    if n >= 3 {
      assert Fits(code, k, X, n, n - 3);
    }
    assert !Inside(code, n - 1) && !Inside(code, n - 2);
    forall j | j in L ensures j < n - 2 {
      assert code[j].Jmp?;
    }
    PatchedWellFormed(code, k, X, n, L, n, reg, LabelOf(code, onTrue), n);
    assert code'[n - 2] == PatchedAt(code, L, n, reg, LabelOf(code, onTrue), n - 2);
    assert code'[n - 1] == PatchedAt(code, L, n, reg, LabelOf(code, onTrue), n - 1);
  }

  lemma RunPatchedLabels(code: seq<Instruction>, k: seq<Value>, X: set<nat>, L: set<nat>,
                         reg: nat, onTrue: bool, start: nat, R0: Registers)
    requires WellFormed(code, k, X, |code|) && HasLabels(code, reg) && L <= X
    requires WellFormed(Patched(code, L, |code|, reg, LabelOf(code, onTrue)), k, X - L, |code|)
    requires start <= |code| && !Inside(code, start)
    ensures Run(Patched(code, L, |code|, reg, LabelOf(code, onTrue)), k, X - L, start, R0) ==
            match Run(code, k, X, start, R0)
            case Exit(j, S) =>
              if j in L then Fall(Arrive(code[Control(code, j)], reg, S, onTrue)) else Exit(j, S)
            case o => o
  {
    hide Run;
    LabelsPatchable(code, k, X, L, reg, onTrue);
    RunPatched(code, k, X, L, |code|, reg, LabelOf(code, onTrue), start, R0);
    match Run(code, k, X, start, R0)
    case Exit(j, S) =>
      if j in L {
        RunLabels(Patched(code, L, |code|, reg, LabelOf(code, onTrue)), k, X - L, reg,
                  Copy(PatchTest(code[Control(code, j)], reg), S));
      }
    case _ =>
  }

  /** The final code of `exp2reg` when some exit needs a boolean to be loaded. */
  ghost function WithLabels(b: Snap, reg: nat, T: set<nat>, F: set<nat>): Snap {
    var code1 := b.code + [LoadBool(reg, false, true), LoadBool(reg, true, false)];
    var codeF := Patched(code1, F, |code1|, reg, LabelOf(code1, false));
    var codeT := Patched(codeF, T, |codeF|, reg, LabelOf(codeF, true));
    Snap(codeT, b.k, b.X - F - T, b.J, |code1|)
  }

  lemma LabelsAppended(b: Snap, start: nat, reg: nat)
    requires SnapOk(b, start)
    ensures var code1 := b.code + [LoadBool(reg, false, true), LoadBool(reg, true, false)];
            WellFormed(code1, b.k, b.X, |code1|) && HasLabels(code1, reg)
  {
    var code1 := b.code + [LoadBool(reg, false, true), LoadBool(reg, true, false)];
    forall p | 0 <= p < |code1| ensures Fits(code1, b.k, b.X, |code1|, p) {
      if p < |b.code| {
        assert Fits(b.code, b.k, b.X, b.lim, p);
      }
    }
  }

  lemma WithLabelsOk(g: Goal, b: Snap, reg: nat, T: set<nat>, F: set<nat>)
    requires GoalOk(g) && SnapOk(b, g.start) && T !! F && Tidy(g.s0, b, T + F)
    ensures SnapOk(WithLabels(b, reg, T, F), g.start) && Tidy(g.s0, WithLabels(b, reg, T, F), {})
  {
    hide Patched;
    var code1 := b.code + [LoadBool(reg, false, true), LoadBool(reg, true, false)];
    var n := |code1|;
    var codeF := Patched(code1, F, n, reg, LabelOf(code1, false));
    LabelsAppended(b, g.start, reg);
    LabelsPatchable(code1, b.k, b.X, F, reg, false);
    PatchedShape(code1, b.k, b.X, n, F, n, reg, LabelOf(code1, false));
    LabelsPatchable(codeF, b.k, b.X - F, T, reg, true);
    PatchedShape(codeF, b.k, b.X - F, n, T, n, reg, LabelOf(codeF, true));
    var c := WithLabels(b, reg, T, F);
    forall j | j in g.s0.X && j !in g.s0.J ensures SameJump(g.s0.code, c.code, j) {
      assert SameJump(g.s0.code, b.code, j) && SameJump(b.code, code1, j);
      OtherJumpKept(code1, b.k, b.X, n, F, n, reg, LabelOf(code1, false), j);
      OtherJumpKept(codeF, b.k, b.X - F, n, T, n, reg, LabelOf(codeF, true), j);
    }
    assert c.X == (g.s0.X - g.s0.J) + {} + c.J;
  }

  lemma FinishLabels(g: Goal, b: Snap, reg: nat, T: set<nat>, F: set<nat>)
    requires Delivers(g, b, reg, T, F) && g.fr <= reg
    ensures Computes(g, WithLabels(b, reg, T, F), InReg(reg), {}, {})
  {
    hide Sem;
    hide WithLabels;
    WithLabelsOk(g, b, reg, T, F);
    forall R0 | EntryOk(g, R0) ensures ComputesAt(g, WithLabels(b, reg, T, F), InReg(reg), {}, {}, R0) {
      assert DeliversAt(g, b, reg, T, F, R0);
      FinishLabelsAt(g, b, reg, T, F, R0);
    }
  }

  /** What a run of the final code does, in terms of a run of the code before the labels. */
  lemma RunWithLabels(b: Snap, start: nat, reg: nat, T: set<nat>, F: set<nat>, R0: Registers)
    requires SnapOk(b, start) && T !! F && T + F <= b.X
    requires WellFormed(b.code, b.k, b.X, |b.code|)
    requires var c := WithLabels(b, reg, T, F); WellFormed(c.code, c.k, c.X, |c.code|) && |c.code| == |b.code| + 2
    ensures var c := WithLabels(b, reg, T, F);
            Run(c.code, c.k, c.X, start, R0) ==
            match Run(b.code, b.k, b.X, start, R0)
            case Fall(S) => Fall(S[reg := Boolean(false)])
            case Exit(j, S) =>
              if j in T + F then Fall(Arrive(b.code[Control(b.code, j)], reg, S, j in T)) else Exit(j, S)
            case Fail => Fail
  {
    hide Run;
    hide Patched;
    var code1 := b.code + [LoadBool(reg, false, true), LoadBool(reg, true, false)];
    var n := |code1|;
    var codeF := Patched(code1, F, n, reg, LabelOf(code1, false));
    LabelsAppended(b, start, reg);
    LabelsPatchable(code1, b.k, b.X, F, reg, false);
    PatchedShape(code1, b.k, b.X, n, F, n, reg, LabelOf(code1, false));
    RunAppend(b.code, b.k, b.X, code1, b.k, b.X, start, R0);
    RunPatchedLabels(code1, b.k, b.X, F, reg, false, start, R0);
    LabelsPatchable(codeF, b.k, b.X - F, T, reg, true);
    RunPatchedLabels(codeF, b.k, b.X - F, T, reg, true, start, R0);
    RunExits(b.code, b.k, b.X, start, R0);
    match Run(b.code, b.k, b.X, start, R0)
    case Fall(S) => RunLabels(code1, b.k, b.X, reg, S);
    case Exit(j, S) =>
      assert SameJump(b.code, code1, j);
      if j !in F { OtherJumpKept(code1, b.k, b.X, n, F, n, reg, LabelOf(code1, false), j); }
    case Fail =>
  }

  lemma FinishLabelsAt(g: Goal, b: Snap, reg: nat, T: set<nat>, F: set<nat>, R0: Registers)
    requires Delivers(g, b, reg, T, F) && g.fr <= reg && DeliversAt(g, b, reg, T, F, R0)
    requires SnapOk(WithLabels(b, reg, T, F), g.start)
    ensures ComputesAt(g, WithLabels(b, reg, T, F), InReg(reg), {}, {}, R0)
  {
    hide Run;
    hide Patched;
    var c := WithLabels(b, reg, T, F);
    WellFormedMono(b.code, b.k, b.X, b.lim, |b.code|);
    WellFormedMono(c.code, c.k, c.X, c.lim, |c.code|);
    WithLabelsLength(b, g.start, reg, T, F);
    RunWithLabels(b, g.start, reg, T, F, R0);
    SemExits(g.s0, g.start, R0);
    match Sem(g.s0, g.start, R0)
    case Fall(R) =>
      match Eval(g.ex, R) {
        case Error =>
        case Ok(v) =>
          match Run(b.code, b.k, b.X, g.start, R0) {
            case Exit(j, S) => if j !in b.J { ArriveValue(b.code, j, reg, S, v, j in T); }
            case _ =>
          }
      }
    case _ =>
  }

  lemma WithLabelsLength(b: Snap, start: nat, reg: nat, T: set<nat>, F: set<nat>)
    ensures |WithLabels(b, reg, T, F).code| == |b.code| + 2
  {
  }

  // ----- without labels -----

  /** The final code of `exp2reg` when every exit already has its value in a register. */
  ghost function Joined(b: Snap, reg: nat, T: set<nat>, F: set<nat>): Snap {
    var codeF := Patched(b.code, F, |b.code|, reg, -1);
    var codeT := Patched(codeF, T, |b.code|, reg, -1);
    Snap(codeT, b.k, b.X - F - T, b.J, |b.code|)
  }

  /** `need_value` answers no. */
  ghost predicate AllDeliver(code: seq<Instruction>, L: set<nat>) {
    forall j :: j in L ==> j < |code| && code[Control(code, j)].TestSet?
  }

  lemma EndPatchable(code: seq<Instruction>, k: seq<Value>, X: set<nat>, lim: nat, L: set<nat>, reg: nat)
    requires WellFormed(code, k, X, lim) && L <= X && AllDeliver(code, L)
    ensures Patchable(code, X, L, |code|, -1, |code|)
    ensures WellFormed(Patched(code, L, |code|, reg, -1), k, X - L, |code|)
    ensures |Patched(code, L, |code|, reg, -1)| == |code|
  {
    EndNotInside(code, k, X, lim);
    PatchedWellFormed(code, k, X, lim, L, |code|, reg, -1, |code|);
  }

  lemma RunPatchedEnd(code: seq<Instruction>, k: seq<Value>, X: set<nat>, L: set<nat>, reg: nat,
                      start: nat, R0: Registers)
    requires WellFormed(code, k, X, |code|) && L <= X && AllDeliver(code, L)
    requires WellFormed(Patched(code, L, |code|, reg, -1), k, X - L, |code|)
    requires start <= |code| && !Inside(code, start)
    ensures Run(Patched(code, L, |code|, reg, -1), k, X - L, start, R0) ==
            match Run(code, k, X, start, R0)
            case Exit(j, S) =>
              if j in L then Fall(Arrive(code[Control(code, j)], reg, S, true)) else Exit(j, S)
            case o => o
  {
    hide Run;
    EndPatchable(code, k, X, |code|, L, reg);
    RunPatched(code, k, X, L, |code|, reg, -1, start, R0);
    match Run(code, k, X, start, R0)
    case Exit(j, S) =>
      if j in L {
        RunEnd(Patched(code, L, |code|, reg, -1), k, X - L, Copy(PatchTest(code[Control(code, j)], reg), S));
      }
    case _ =>
  }

  lemma FinishJoined(g: Goal, b: Snap, reg: nat, T: set<nat>, F: set<nat>)
    requires Computes(g, b, InReg(reg), T, F) && g.fr <= reg
    requires AllDeliver(b.code, T + F)
    ensures Computes(g, Joined(b, reg, T, F), InReg(reg), {}, {})
  {
    hide Sem;
    hide Joined;
    JoinedOk(g, b, reg, T, F);
    forall R0 | EntryOk(g, R0) ensures ComputesAt(g, Joined(b, reg, T, F), InReg(reg), {}, {}, R0) {
      assert ComputesAt(g, b, InReg(reg), T, F, R0);
      FinishJoinedAt(g, b, reg, T, F, R0);
    }
  }

  lemma JoinedOk(g: Goal, b: Snap, reg: nat, T: set<nat>, F: set<nat>)
    requires GoalOk(g) && SnapOk(b, g.start) && T !! F && Tidy(g.s0, b, T + F) && AllDeliver(b.code, T + F)
    ensures SnapOk(Joined(b, reg, T, F), g.start) && Tidy(g.s0, Joined(b, reg, T, F), {})
    ensures AllDeliver(Patched(b.code, F, |b.code|, reg, -1), T)
  {
    hide Patched;
    var n, codeF := |b.code|, Patched(b.code, F, |b.code|, reg, -1);
    EndPatchable(b.code, b.k, b.X, b.lim, F, reg);
    PatchedShape(b.code, b.k, b.X, b.lim, F, n, reg, -1);
    forall j | j in T ensures j < |codeF| && codeF[Control(codeF, j)].TestSet? {
      OtherJumpKept(b.code, b.k, b.X, b.lim, F, n, reg, -1, j);
    }
    EndPatchable(codeF, b.k, b.X - F, n, T, reg);
    PatchedShape(codeF, b.k, b.X - F, n, T, n, reg, -1);
    var c := Joined(b, reg, T, F);
    forall j | j in g.s0.X && j !in g.s0.J ensures SameJump(g.s0.code, c.code, j) {
      assert SameJump(g.s0.code, b.code, j);
      OtherJumpKept(b.code, b.k, b.X, b.lim, F, n, reg, -1, j);
      OtherJumpKept(codeF, b.k, b.X - F, n, T, n, reg, -1, j);
    }
    assert c.X == (g.s0.X - g.s0.J) + {} + c.J;
  }

  lemma FinishJoinedAt(g: Goal, b: Snap, reg: nat, T: set<nat>, F: set<nat>, R0: Registers)
    requires Computes(g, b, InReg(reg), T, F) && g.fr <= reg && ComputesAt(g, b, InReg(reg), T, F, R0)
    requires AllDeliver(b.code, T + F) && SnapOk(Joined(b, reg, T, F), g.start)
    ensures ComputesAt(g, Joined(b, reg, T, F), InReg(reg), {}, {}, R0)
  {
    hide Run;
    hide Patched;
    var n, codeF := |b.code|, Patched(b.code, F, |b.code|, reg, -1);
    var c := Joined(b, reg, T, F);
    WellFormedMono(b.code, b.k, b.X, b.lim, n);
    EndPatchable(b.code, b.k, b.X, n, F, reg);
    PatchedShape(b.code, b.k, b.X, n, F, n, reg, -1);
    JoinedOk(g, b, reg, T, F);
    EndPatchable(codeF, b.k, b.X - F, n, T, reg);
    RunPatchedEnd(b.code, b.k, b.X, F, reg, g.start, R0);
    RunPatchedEnd(codeF, b.k, b.X - F, T, reg, g.start, R0);
    RunExits(b.code, b.k, b.X, g.start, R0);
    SemExits(g.s0, g.start, R0);
    match Run(b.code, b.k, b.X, g.start, R0)
    case Exit(j, S) =>
      if j in T { OtherJumpKept(b.code, b.k, b.X, n, F, n, reg, -1, j); }
      if j in T + F && Sem(g.s0, g.start, R0).Fall? && Eval(g.ex, Sem(g.s0, g.start, R0).regs).Ok? {
        ArriveValue(b.code, j, reg, S, Eval(g.ex, Sem(g.s0, g.start, R0).regs).value, j in T);
      }
    case _ =>
  }
}
