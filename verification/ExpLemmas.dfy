/** The operations of the code generator on snapshots. */
module ExpLemmas {
  // Each operation keeps the meaning.

  import opened Bytecode
  import opened PendingCode
  import opened Patching
  import opened ExpSemantics

  lemma SemExits(s: Snap, start: nat, R0: Registers)
    requires SnapOk(s, start)
    ensures Sem(s, start, R0).Exit? ==> Sem(s, start, R0).jump in s.X - s.J
  {
    WellFormedMono(s.code, s.k, s.X, s.lim, |s.code|);
    RunExits(s.code, s.k, s.X, start, R0);
  }

  // ----- discharging the jumps that are due here (`dischargejpc`) -----

  ghost function Discharged(b: Snap): Snap {
    b.(code := Patched(b.code, b.J, |b.code|, NO_REG, |b.code|), X := b.X - b.J, J := {})
  }

  lemma PatchedNothing(code: seq<Instruction>, vtarget: int, reg: int, dtarget: int)
    ensures Patched(code, {}, vtarget, reg, dtarget) == code
  {
  }

  lemma DischargedOk(b: Snap, start: nat)
    requires SnapOk(b, start)
    ensures SnapOk(Discharged(b), start)
    ensures |Discharged(b).code| == |b.code|
  {
    PatchedShape(b.code, b.k, b.X, b.lim, b.J, |b.code|, NO_REG, |b.code|);
    EndNotInside(b.code, b.k, b.X, b.lim);
    PatchedWellFormed(b.code, b.k, b.X, b.lim, b.J, |b.code|, NO_REG, |b.code|, b.lim);
  }

  lemma SemDischarged(b: Snap, start: nat, R0: Registers)
    requires SnapOk(b, start) && SnapOk(Discharged(b), start)
    ensures Sem(Discharged(b), start, R0) == Sem(b, start, R0)
  {
    hide Run;
    var n := |b.code|;
    EndNotInside(b.code, b.k, b.X, b.lim);
    WellFormedMono(b.code, b.k, b.X, b.lim, n);
    WellFormedMono(Discharged(b).code, b.k, b.X - b.J, b.lim, n);
    RunPatched(b.code, b.k, b.X, b.J, n, NO_REG, n, start, R0);
    match Run(b.code, b.k, b.X, start, R0)
    case Exit(j, S) =>
      if j in b.J {
        RunEnd(Discharged(b).code, b.k, b.X - b.J, S);
      }
    case _ =>
  }

  // ----- appending -----

  /** Appending one instruction that is neither a test nor a jump. */
  lemma SemAppend(b: Snap, start: nat, i: Instruction, k': seq<Value>, R0: Registers)
    requires SnapOk(b, start) && b.J == {} && b.k <= k'
    requires OperandsOk(i, k') && !IsTest(i) && !i.Jmp? && !i.Return? && !(i.LoadBool? && i.skip)
    ensures var b' := b.(code := b.code + [i], k := k');
            && SnapOk(b', start)
            && Sem(b', start, R0) ==
               match Sem(b, start, R0)
               case Fall(S) => Fall(Act(i, k', |b.code|, S).regs)
               case o => o
  {
    hide Act;
    var b' := b.(code := b.code + [i], k := k');
    forall p | 0 <= p < |b'.code| ensures Fits(b'.code, k', b.X, b.lim, p) {
      if p < |b.code| {
        assert Fits(b.code, b.k, b.X, b.lim, p);
      }
    }
    var n := |b.code|;
    WellFormedMono(b.code, b.k, b.X, b.lim, n);
    WellFormedMono(b'.code, b'.k, b'.X, b'.lim, n + 1);
    RunAppend(b.code, b.k, b.X, b'.code, k', b.X, start, R0);
    match Run(b.code, b.k, b.X, start, R0)
    case Fall(S) =>
      RunStep(b'.code, k', b.X, n, S);
      ActTargets(i, k', n, S);
      RunEnd(b'.code, k', b.X, Act(i, k', n, S).regs);
    case _ =>
  }

  /** Appending a test and the pending jump that belongs to it. */
  lemma SemAppendTest(b: Snap, start: nat, i: Instruction, link: int, R0: Registers)
    requires SnapOk(b, start) && b.J == {}
    requires OperandsOk(i, b.k) && IsTest(i)
    ensures var b' := b.(code := b.code + [i, Jmp(link)], X := b.X + {|b.code| + 1});
            && SnapOk(b', start)
            && Sem(b', start, R0) ==
               match Sem(b, start, R0)
               case Fall(S) =>
                 (match Act(i, b.k, |b.code|, S)
                  case Take(_, _, _) => Exit(|b.code| + 1, S)
                  case Throw => Fail
                  case _ => Fall(S))
               case o => o
  {
    var b' := b.(code := b.code + [i, Jmp(link)], X := b.X + {|b.code| + 1});
    var n := |b.code|;
    SnapAppendTest(b, start, i, link);
    WellFormedMono(b.code, b.k, b.X, b.lim, n);
    WellFormedMono(b'.code, b'.k, b'.X, b'.lim, n + 2);
    hide Run;
    RunAppend(b.code, b.k, b.X, b'.code, b.k, b'.X, start, R0);
    match Run(b.code, b.k, b.X, start, R0)
    case Fall(S) =>
      RunStep(b'.code, b'.k, b'.X, n, S);
      RunEnd(b'.code, b'.k, b'.X, S);
    case _ =>
  }

  lemma SnapAppendTest(b: Snap, start: nat, i: Instruction, link: int)
    requires SnapOk(b, start) && b.J == {}
    requires OperandsOk(i, b.k) && IsTest(i)
    ensures SnapOk(b.(code := b.code + [i, Jmp(link)], X := b.X + {|b.code| + 1}), start)
  {
    var b' := b.(code := b.code + [i, Jmp(link)], X := b.X + {|b.code| + 1});
    forall p | 0 <= p < |b'.code| ensures Fits(b'.code, b'.k, b'.X, b'.lim, p) {
      if p < |b.code| {
        assert Fits(b.code, b.k, b.X, b.lim, p);
      }
    }
  }

  // ----- the relation is kept -----

  lemma ComputesDischarged(g: Goal, b: Snap, res: Residue, T: set<nat>, F: set<nat>)
    requires Computes(g, b, res, T, F)
    ensures Computes(g, Discharged(b), res, T, F)
  {
    hide Sem;
    var b' := Discharged(b);
    DischargedOk(b, g.start);
    TidyDischarged(g.s0, b, T + F);
    forall R0 | EntryOk(g, R0) ensures ComputesAt(g, b', res, T, F, R0) {
      assert ComputesAt(g, b, res, T, F, R0);
      SemDischarged(b, g.start, R0);
      match Sem(b, g.start, R0)
      case Exit(j, S) => if j in T + F { JumpKept(b, g.start, T + F, j); }
      case _ =>
    }
  }

  /** Discharging leaves a jump that is not due here alone. */
  lemma JumpKept(b: Snap, start: nat, L: set<nat>, j: nat)
    requires SnapOk(b, start) && j in b.X && j !in b.J
    ensures SameJump(b.code, Discharged(b).code, j)
  {
    var code' := Discharged(b).code;
    PatchedShape(b.code, b.k, b.X, b.lim, b.J, |b.code|, NO_REG, |b.code|);
    assert code'[j] == PatchedAt(b.code, b.J, |b.code|, NO_REG, |b.code|, j);
    if Control(b.code, j) < j {
      assert code'[j - 1] == PatchedAt(b.code, b.J, |b.code|, NO_REG, |b.code|, j - 1);
      assert Fits(b.code, b.k, b.X, b.lim, j - 1);
    } else {
      assert Fits(b.code, b.k, b.X, b.lim, j);
    }
  }

  lemma TidyDischarged(s0: Snap, b: Snap, L: set<nat>)
    requires Tidy(s0, b, L) && WellFormed(b.code, b.k, b.X, b.lim) && b.J <= b.X && SnapOk(b, 0)
    ensures Tidy(s0, Discharged(b), L)
  {
    assert b.X - b.J == (s0.X - s0.J) + L + {};
    forall j | j in s0.X && j !in s0.J ensures SameJump(s0.code, Discharged(b).code, j) {
      assert SameJump(s0.code, b.code, j);
      JumpKept(b, 0, L, j);
    }
  }

  /** Jumps of the old code are the same in the longer code. */
  lemma TidyAppend(s0: Snap, b: Snap, L: set<nat>, ext: seq<Instruction>, k': seq<Value>, X': set<nat>, D: set<nat>, lim': nat)
    requires Tidy(s0, b, L) && b.k <= k' && b.J == {} && D !! b.X
    requires X' == b.X + D && forall j :: j in D ==> j >= |b.code|
    ensures Tidy(s0, Snap(b.code + ext, k', X', {}, lim'), L + D)
  {
    forall j | j in s0.X && j !in s0.J ensures SameJump(s0.code, b.code + ext, j) {
      assert SameJump(s0.code, b.code, j);
    }
  }

  /** `i` puts the value that `res` describes into register `reg`. */
  predicate LoadsInto(i: Instruction, res: Residue, reg: nat, k: seq<Value>) {
    match i
    case LoadBool(a, v, skip) => a == reg && !skip && res == Const(Boolean(v))
    case LoadNil(a, b) => a == reg && b == reg && res == Const(Nil)
    case LoadK(a, bx) => a == reg && bx < |k| && res == Const(k[bx])
    case Move(a, b) => a == reg && res == InReg(b)
    case Not(a, b) => a == reg && res == NotReg(b)
    case _ => false
  }

  lemma LoadsIntoActs(i: Instruction, res: Residue, reg: nat, k0: seq<Value>, k: seq<Value>, n: nat, S: Registers)
    requires LoadsInto(i, res, reg, k)
    ensures Act(i, k, n, S).Goto?
    ensures Agree(S, Act(i, k, n, S).regs, reg)
    ensures Residual(res, k0, S) == Ok(Get(Act(i, k, n, S).regs, reg))
  {
  }

  /** Emitting the load turns the residue into a register. */
  lemma ComputesLoad(g: Goal, b: Snap, res: Residue, T: set<nat>, F: set<nat>,
                     i: Instruction, k': seq<Value>, reg: nat)
    requires Computes(g, b, res, T, F) && b.J == {} && b.k <= k'
    requires LoadsInto(i, res, reg, k') && g.fr <= reg
    ensures Computes(g, b.(code := b.code + [i], k := k'), InReg(reg), T, F)
  {
    hide Sem;
    hide Act;
    var b' := b.(code := b.code + [i], k := k');
    TidyAppend(g.s0, b, T + F, [i], k', b.X, {}, b.lim);
    assert T + F + {} == T + F;
    SemAppend(b, g.start, i, k', map[]);
    forall R0 | EntryOk(g, R0) ensures ComputesAt(g, b', InReg(reg), T, F, R0) {
      assert ComputesAt(g, b, res, T, F, R0);
      SemAppend(b, g.start, i, k', R0);
      match Sem(b, g.start, R0)
      case Fall(S) => LoadsIntoActs(i, res, reg, b.k, k', |b.code|, S);
      case Exit(j, S) => assert j in T + F ==> SameJump(b.code, b'.code, j);
      case Fail =>
    }
  }

  // ----- conditional jumps -----

  /** The jump of test `i` is taken exactly when the truth of `res` is not `want`. */
  predicate Tests(i: Instruction, res: Residue, want: bool) {
    match i
    case TestSet(_, r, c) => res == InReg(r) && c == !want
    case Test(r, c) => res == NotReg(r) && c == want
    case Compare(op, cond, rb, rc) => res == Cmp(op, if want then !cond else cond, rb, rc)
    case _ => false
  }

  lemma TestsActs(i: Instruction, res: Residue, want: bool, k: seq<Value>, n: nat, S: Registers)
    requires Tests(i, res, want) && ResidueOk(res, k)
    ensures OperandsOk(i, k) && IsTest(i)
    ensures match Residual(res, k, S)
            case Error => Act(i, k, n, S).Throw?
            case Ok(v) =>
              if IsFalse(v) <==> !want then Act(i, k, n, S).Goto?
              else Act(i, k, n, S).Take? && (if i.TestSet? then Get(S, i.b) == v else v == Boolean(!want))
  {
  }

  /** Declaring the jumps of `D` due at the current end. */
  lemma SemDue(b: Snap, start: nat, D: set<nat>, R0: Registers)
    requires SnapOk(b, start) && D <= b.X
    ensures var s := b.(J := b.J + D, lim := |b.code|);
            && SnapOk(s, start)
            && Sem(s, start, R0) ==
               match Sem(b, start, R0)
               case Exit(j, S) => if j in D then Fall(S) else Exit(j, S)
               case o => o
  {
    WellFormedMono(b.code, b.k, b.X, b.lim, |b.code|);
  }

  lemma TidyDue(s0: Snap, b: Snap, L: set<nat>, D: set<nat>)
    requires Tidy(s0, b, L) && D <= L
    ensures Tidy(s0, b.(J := b.J + D, lim := |b.code|), L - D)
  {
    assert (s0.X - s0.J) + L + b.J == (s0.X - s0.J) + (L - D) + (b.J + D);
    forall j | j in s0.X && j !in s0.J ensures j !in D {
      assert SameJump(s0.code, b.code, j);
    }
  }

  /** `luaK_goiftrue` and `luaK_goiffalse` on an expression that needs a test: go on when the truth
      is `want`; the exits for that truth are due here, the others remain. */
  lemma GuardsTest(g: Goal, b: Snap, res: Residue, T: set<nat>, F: set<nat>,
                   i: Instruction, link: int, want: bool)
    requires Computes(g, b, res, T, F) && b.J == {}
    requires Tests(i, res, want)
    ensures var n := |b.code|;
            var (due, rest) := if want then (T, F) else (F, T);
            Guards(g, Snap(b.code + [i, Jmp(link)], b.k, b.X + {n + 1}, due, n + 2), want, rest + {n + 1})
  {
    hide Sem;
    hide Act;
    var n := |b.code|;
    var (due, rest) := if want then (T, F) else (F, T);
    var b1 := b.(code := b.code + [i, Jmp(link)], X := b.X + {n + 1});
    var s := b1.(J := b1.J + due, lim := |b1.code|);
    assert s == Snap(b.code + [i, Jmp(link)], b.k, b.X + {n + 1}, due, n + 2);
    assert n + 1 !in b.X;
    TestsActs(i, res, want, b.k, n, map[]);
    SemAppendTest(b, g.start, i, link, map[]);
    SemDue(b1, g.start, due, map[]);
    TidyAppend(g.s0, b, T + F, [i, Jmp(link)], b.k, b1.X, {n + 1}, b.lim);
    TidyDue(g.s0, b1, T + F + {n + 1}, due);
    assert T + F + {n + 1} - due == rest + {n + 1};
    forall R0 | EntryOk(g, R0) ensures GuardsAt(g, s, want, rest + {n + 1}, R0) {
      assert ComputesAt(g, b, res, T, F, R0);
      GuardsTestAt(g, b, res, T, F, i, link, want, R0);
    }
  }

  lemma GuardsTestAt(g: Goal, b: Snap, res: Residue, T: set<nat>, F: set<nat>,
                     i: Instruction, link: int, want: bool, R0: Registers)
    requires Computes(g, b, res, T, F) && b.J == {} && Tests(i, res, want)
    requires ComputesAt(g, b, res, T, F, R0)
    ensures var n := |b.code|;
            var (due, rest) := if want then (T, F) else (F, T);
            var s := Snap(b.code + [i, Jmp(link)], b.k, b.X + {n + 1}, due, n + 2);
            SnapOk(s, g.start) && GuardsAt(g, s, want, rest + {n + 1}, R0)
  {
    hide Sem;
    hide Act;
    hide Residual;
    hide Tests;
    hide Eval;
    var n := |b.code|;
    var due := if want then T else F;
    var b1 := b.(code := b.code + [i, Jmp(link)], X := b.X + {n + 1});
    var s := b1.(J := b1.J + due, lim := |b1.code|);
    assert s == Snap(b.code + [i, Jmp(link)], b.k, b.X + {n + 1}, due, n + 2);
    TestsActs(i, res, want, b.k, n, map[]);
    SemExits(g.s0, g.start, R0);
    SemAppendTest(b, g.start, i, link, R0);
    SemDue(b1, g.start, due, R0);
    match Sem(b, g.start, R0)
    case Fall(S) => TestsActs(i, res, want, b.k, n, S);
    case Exit(j, S) => assert j in T + F ==> SameJump(b.code, s.code, j);
    case Fail =>
  }

  /** The same for a constant whose truth is already `want`: no code is needed. */
  lemma GuardsConst(g: Goal, b: Snap, v: Value, T: set<nat>, F: set<nat>, want: bool)
    requires Computes(g, b, Const(v), T, F)
    requires IsFalse(v) <==> !want
    ensures var (due, rest) := if want then (T, F) else (F, T);
            Guards(g, b.(J := b.J + due, lim := |b.code|), want, rest)
  {
    hide Sem;
    var (due, rest) := if want then (T, F) else (F, T);
    var s := b.(J := b.J + due, lim := |b.code|);
    SemDue(b, g.start, due, map[]);
    TidyDue(g.s0, b, T + F, due);
    assert T + F - due == rest;
    forall R0 | EntryOk(g, R0) ensures GuardsAt(g, s, want, rest, R0) {
      assert ComputesAt(g, b, Const(v), T, F, R0);
      SemExits(g.s0, g.start, R0);
      SemDue(b, g.start, due, R0);
    }
  }

  // ----- changing only what pending jumps carry -----

  /** Only list links differ. */
  ghost predicate Relinked(code: seq<Instruction>, code': seq<Instruction>, L: set<nat>) {
    && |code| == |code'|
    && forall p {:trigger code[p]} {:trigger code'[p]} :: 0 <= p < |code| ==>
         code[p] == code'[p] || (p in L && code[p].Jmp? && code'[p].Jmp?)
  }

  lemma SemRelinked(b: Snap, start: nat, code': seq<Instruction>, R0: Registers)
    requires SnapOk(b, start) && SameUpToPending(b.code, code', b.X)
    ensures SnapOk(b.(code := code'), start)
    ensures Sem(b.(code := code'), start, R0) == Sem(b, start, R0)
  {
    SameUpToPendingWellFormed(b.code, code', b.k, b.X, b.lim);
    WellFormedMono(b.code, b.k, b.X, b.lim, |b.code|);
    WellFormedMono(code', b.k, b.X, b.lim, |b.code|);
    RunSameUpToPending(b.code, code', b.k, b.X, start, R0);
  }

  lemma TidyRelinked(s0: Snap, b: Snap, L: set<nat>, code': seq<Instruction>)
    requires Tidy(s0, b, L) && Relinked(b.code, code', L + b.J)
    requires forall p :: p in b.J && p < |s0.code| ==> p in s0.J
    ensures Tidy(s0, b.(code := code'), L)
  {
    forall j | j in s0.X && j !in s0.J ensures SameJump(s0.code, code', j) {
      assert SameJump(s0.code, b.code, j);
      assert j !in L + b.J;
    }
  }

  /** Concatenating lists does not change what the code computes. */
  lemma ComputesRelinked(g: Goal, b: Snap, res: Residue, T: set<nat>, F: set<nat>, code': seq<Instruction>)
    requires Computes(g, b, res, T, F) && Relinked(b.code, code', T + F + b.J)
    ensures Computes(g, b.(code := code'), res, T, F)
  {
    hide Sem;
    var b' := b.(code := code');
    assert SameUpToPending(b.code, code', b.X);
    SemRelinked(b, g.start, code', map[]);
    TidyRelinked(g.s0, b, T + F, code');
    forall R0 | EntryOk(g, R0) ensures ComputesAt(g, b', res, T, F, R0) {
      assert ComputesAt(g, b, res, T, F, R0);
      SemRelinked(b, g.start, code', R0);
    }
  }

  lemma GuardsRelinked(g: Goal, s: Snap, want: bool, L: set<nat>, code': seq<Instruction>)
    requires Guards(g, s, want, L) && Relinked(s.code, code', L + s.J)
    ensures Guards(g, s.(code := code'), want, L)
  {
    hide Sem;
    var s' := s.(code := code');
    assert SameUpToPending(s.code, code', s.X);
    SemRelinked(s, g.start, code', map[]);
    TidyRelinked(g.s0, s, L, code');
    forall R0 | EntryOk(g, R0) ensures GuardsAt(g, s', want, L, R0) {
      assert GuardsAt(g, s, want, L, R0);
      SemRelinked(s, g.start, code', R0);
    }
  }

  /** `removevalues` on all lists of `L`. */
  function RemovedAt(code: seq<Instruction>, L: set<nat>, p: nat): Instruction
    requires p < |code|
  {
    if p + 1 in L && code[p].TestSet? then Test(code[p].b, code[p].c) else code[p]
  }

  function Removed(code: seq<Instruction>, L: set<nat>): seq<Instruction> {
    seq(|code|, p requires 0 <= p < |code| => RemovedAt(code, L, p))
  }

  lemma RemovedSame(code: seq<Instruction>, k: seq<Value>, X: set<nat>, lim: nat, L: set<nat>)
    requires WellFormed(code, k, X, lim) && L <= X
    ensures SameUpToPending(code, Removed(code, L), X)
    ensures forall j :: 0 <= j < |code| ==> Control(Removed(code, L), j) == Control(code, j)
    ensures forall j :: j in L ==> !Removed(code, L)[Control(code, j)].TestSet?
    ensures forall j {:trigger SameJump(code, Removed(code, L), j)} :: j in X && j !in L ==> SameJump(code, Removed(code, L), j)
  {
    var code' := Removed(code, L);
    forall p | 0 <= p < |code|
      ensures code'[p] == RemovedAt(code, L, p) && IsTest(code'[p]) == IsTest(code[p])
    {
    }
    forall j | j in L ensures !code'[Control(code, j)].TestSet? {
      assert code'[j] == RemovedAt(code, L, j);
    }
    forall j | j in X && j !in L ensures SameJump(code, code', j) {
      assert code'[j] == RemovedAt(code, L, j);
    }
  }

  function Negated(res: Residue): Residue
    requires !res.NotReg?
  {
    match res
    case Const(v) => Const(Boolean(IsFalse(v)))
    case InReg(r) => NotReg(r)
    case Cmp(op, cond, b, c) => Cmp(op, !cond, b, c)
  }

  /** `codenot`: negate the residue, interchange the lists and make them deliver booleans. */
  lemma ComputesNot(g: Goal, b: Snap, res: Residue, T: set<nat>, F: set<nat>)
    requires Computes(g, b, res, T, F) && !res.NotReg?
    ensures Computes(g.(ex := NotE(g.ex)), b.(code := Removed(b.code, T + F)), Negated(res), F, T)
  {
    hide Sem;
    var g', code' := g.(ex := NotE(g.ex)), Removed(b.code, T + F);
    var b' := b.(code := code');
    RemovedSame(b.code, b.k, b.X, b.lim, T + F);
    SemRelinked(b, g.start, code', map[]);
    assert F + T == T + F;
    forall j | j in g.s0.X && j !in g.s0.J ensures SameJump(g.s0.code, code', j) {
      assert SameJump(g.s0.code, b.code, j);
      assert j !in T + F;
      assert SameJump(b.code, code', j);
    }
    forall R0 | EntryOk(g', R0) ensures ComputesAt(g', b', Negated(res), F, T, R0) {
      assert ComputesAt(g, b, res, T, F, R0);
      SemRelinked(b, g.start, code', R0);
    }
  }

  // ----- combining subexpressions -----

  lemma TidyTrans(s0: Snap, s1: Snap, b: Snap, L1: set<nat>, L2: set<nat>)
    requires Tidy(s0, s1, L1) && Tidy(s1, b, L2)
    ensures Tidy(s0, b, L1 + L2)
  {
    assert s1.X - s1.J == (s0.X - s0.J) + L1;
    forall j | j in s0.X && j !in s0.J ensures SameJump(s0.code, b.code, j) {
      assert SameJump(s0.code, s1.code, j);
      assert SameJump(s1.code, b.code, j);
    }
  }

  /** `and` and `or`: after the guard on the left operand the right operand decides; the exits of
      the left operand join the false list (and) or the true list (or). */
  lemma ComputesLogical(g1: Goal, s1: Snap, want: bool, L: set<nat>,
                        b: Snap, res: Residue, T: set<nat>, F: set<nat>, right: Expr)
    requires Guards(g1, s1, want, L)
    requires Computes(Goal(s1, g1.start, g1.nact, g1.fr, right), b, res, T, F)
    ensures var g := g1.(ex := BinE(if want then OprAnd else OprOr, g1.ex, right));
            if want then Computes(g, b, res, T, F + L) else Computes(g, b, res, T + L, F)
  {
    hide Sem;
    var g := g1.(ex := BinE(if want then OprAnd else OprOr, g1.ex, right));
    var g2 := Goal(s1, g1.start, g1.nact, g1.fr, right);
    var (T', F') := if want then (T, F + L) else (T + L, F);
    TidyTrans(g1.s0, s1, b, L, T + F);
    assert L + (T + F) == T' + F';
    forall R0 | EntryOk(g, R0) ensures ComputesAt(g, b, res, T', F', R0) {
      assert EntryOk(g1, R0) && EntryOk(g2, R0);
      assert GuardsAt(g1, s1, want, L, R0) && ComputesAt(g2, b, res, T, F, R0);
      SemExits(s1, g.start, R0);
      match Sem(g1.s0, g.start, R0)
      case Fall(R) =>
        match Sem(s1, g.start, R0) {
          case Fall(S) => EvalAgree(right, R, S, g.nact);
          case Exit(j, S) => if j in L { assert SameJump(s1.code, b.code, j); }
          case Fail =>
        }
      case _ =>
    }
  }

  /** `o` is where a value computed without jumps is found. */
  predicate Operand(o: RK, res: Residue, k: seq<Value>) {
    match o
    case Reg(r) => res == InReg(r)
    case Kst(i) => i < |k| && res == Const(k[i])
  }

  /** The comparison emitted for a source operator (`codecomp`): `~=`, `>` and `>=` become `==`, `<`
      and `<=` with the condition inverted or the operands exchanged. */
  function ComparisonOf(op: BinOpr, o1: RK, o2: RK): Residue
    requires !op.OprAnd? && !op.OprOr?
  {
    match op
    case OprEq => Cmp(Eq, true, o1, o2)
    case OprNe => Cmp(Eq, false, o1, o2)
    case OprLt => Cmp(Lt, true, o1, o2)
    case OprLe => Cmp(Le, true, o1, o2)
    case OprGt => Cmp(Lt, true, o2, o1)
    case OprGe => Cmp(Le, true, o2, o1)
  }

  lemma ComparisonValue(op: BinOpr, o1: RK, o2: RK, k: seq<Value>, S: Registers)
    requires !op.OprAnd? && !op.OprOr? && RKOk(k, o1) && RKOk(k, o2)
    ensures ResidueOk(ComparisonOf(op, o1, o2), k)
    ensures Residual(ComparisonOf(op, o1, o2), k, S) ==
            EvalComparison(op, RKValue(k, S, o1), RKValue(k, S, o2))
  {
  }

  lemma OperandValue(o: RK, res: Residue, k: seq<Value>, k': seq<Value>, S: Registers, S': Registers, n: nat)
    requires Operand(o, res, k) && k <= k' && Agree(S, S', n) && (o.Reg? ==> o.r < n)
    ensures RKOk(k', o) && ResidueOk(res, k) && Residual(res, k, S) == Ok(RKValue(k', S', o))
  {
  }

  lemma ComputesComparison(g1: Goal, s1: Snap, res1: Residue, o1: RK,
                           fr2: nat, b: Snap, res2: Residue, o2: RK, op: BinOpr, right: Expr)
    requires !op.OprAnd? && !op.OprOr?
    requires Computes(g1, s1, res1, {}, {}) && g1.fr <= fr2
    requires Computes(Goal(s1, g1.start, g1.nact, fr2, right), b, res2, {}, {})
    requires Operand(o1, res1, s1.k) && Operand(o2, res2, b.k)
    requires o1.Reg? ==> o1.r < fr2
    ensures Computes(g1.(ex := BinE(op, g1.ex, right)), b, ComparisonOf(op, o1, o2), {}, {})
  {
    hide Sem;
    hide ComparisonOf;
    var g := g1.(ex := BinE(op, g1.ex, right));
    TidyTrans(g1.s0, s1, b, {}, {});
    ComparisonValue(op, o1, o2, b.k, map[]);
    forall R0 | EntryOk(g, R0) ensures ComputesAt(g, b, ComparisonOf(op, o1, o2), {}, {}, R0) {
      var g2 := Goal(s1, g1.start, g1.nact, fr2, right);
      assert EntryOk(g1, R0) && EntryOk(g2, R0);
      assert ComputesAt(g1, s1, res1, {}, {}, R0) && ComputesAt(g2, b, res2, {}, {}, R0);
      ComputesComparisonAt(g1, s1, res1, o1, fr2, b, res2, o2, op, right, R0);
    }
  }

  lemma ComputesComparisonAt(g1: Goal, s1: Snap, res1: Residue, o1: RK,
                             fr2: nat, b: Snap, res2: Residue, o2: RK, op: BinOpr, right: Expr, R0: Registers)
    requires !op.OprAnd? && !op.OprOr?
    requires GoalOk(g1) && SnapOk(s1, g1.start) && SnapOk(b, g1.start) && LocalsBelow(right, g1.nact)
    requires Operand(o1, res1, s1.k) && Operand(o2, res2, b.k) && s1.k <= b.k && g1.fr <= fr2
    requires o1.Reg? ==> o1.r < fr2
    requires ResidueOk(ComparisonOf(op, o1, o2), b.k)
    requires ComputesAt(g1, s1, res1, {}, {}, R0)
    requires ComputesAt(Goal(s1, g1.start, g1.nact, fr2, right), b, res2, {}, {}, R0)
    ensures ComputesAt(g1.(ex := BinE(op, g1.ex, right)), b, ComparisonOf(op, o1, o2), {}, {}, R0)
  {
    hide Sem;
    hide ComparisonOf;
    hide EvalComparison;
    hide RKValue;
    match Sem(g1.s0, g1.start, R0)
    case Fall(R) =>
      match Sem(s1, g1.start, R0) {
        case Fall(S) =>
          EvalAgree(right, R, S, g1.nact);
          match Sem(b, g1.start, R0) {
            case Fall(U) =>
              OperandValue(o1, res1, s1.k, b.k, S, U, fr2);
              OperandValue(o2, res2, b.k, b.k, U, U, if o2.Reg? then o2.r + 1 else 0);
              ComparisonValue(op, o1, o2, b.k, U);
            case _ =>
          }
        case Exit(j, S) =>
        case Fail =>
      }
    case _ =>
  }

  // ----- the first step, and loading nil -----

  /** A constant or a local costs no code. */
  lemma ComputesNothing(g: Goal, res: Residue)
    requires GoalOk(g) && ResidueOk(res, g.s0.k)
    requires forall R :: Residual(res, g.s0.k, R) == Eval(g.ex, R)
    ensures Computes(g, g.s0, res, {}, {})
  {
    hide Sem;
    forall R0 | EntryOk(g, R0) ensures ComputesAt(g, g.s0, res, {}, {}, R0) {
    }
  }

  /** More constants do not matter. */
  lemma ComputesMoreConstants(g: Goal, b: Snap, res: Residue, T: set<nat>, F: set<nat>, k': seq<Value>)
    requires Computes(g, b, res, T, F) && b.k <= k'
    ensures Computes(g, b.(k := k'), res, T, F)
  {
    hide Sem;
    SemMoreConstants(b, g.start, k', map[]);
    forall R0 | EntryOk(g, R0) ensures ComputesAt(g, b.(k := k'), res, T, F, R0) {
      assert ComputesAt(g, b, res, T, F, R0);
      SemMoreConstants(b, g.start, k', R0);
    }
  }

  lemma SemMoreConstants(b: Snap, start: nat, k': seq<Value>, R0: Registers)
    requires SnapOk(b, start) && b.k <= k'
    ensures SnapOk(b.(k := k'), start)
    ensures Sem(b.(k := k'), start, R0) == Sem(b, start, R0)
  {
    forall p | 0 <= p < |b.code| ensures Fits(b.code, k', b.X, b.lim, p) {
      assert Fits(b.code, b.k, b.X, b.lim, p);
    }
    WellFormedMono(b.code, b.k, b.X, b.lim, |b.code|);
    WellFormedMono(b.code, k', b.X, b.lim, |b.code|);
    RunAppend(b.code, b.k, b.X, b.code, k', b.X, start, R0);
    match Run(b.code, b.k, b.X, start, R0)
    case Fall(S) => RunEnd(b.code, k', b.X, S);
    case _ =>
  }

  /** `luaK_nil` at the start of a function: the register is nil already. */
  lemma ComputesCleanRegister(g: Goal, b: Snap, T: set<nat>, F: set<nat>, reg: nat)
    requires Computes(g, b, Const(Nil), T, F) && b.code == [] && g.nact <= reg
    ensures Computes(g, b, InReg(reg), T, F)
  {
    forall R0 | EntryOk(g, R0) ensures ComputesAt(g, b, InReg(reg), T, F, R0) {
      assert ComputesAt(g, b, Const(Nil), T, F, R0);
    }
  }

  /** Dropping a last instruction that nothing jumps past. */
  lemma SnapTrim(b: Snap, start: nat)
    requires SnapOk(b, start) && b.J == {} && |b.code| > 0 && b.lim < |b.code|
    requires !b.code[|b.code| - 1].Jmp?
    ensures SnapOk(b.(code := b.code[..|b.code| - 1]), start)
  {
    var n := |b.code|;
    var code' := b.code[..n - 1];
    forall p | 0 <= p < |code'| ensures Fits(code', b.k, b.X, b.lim, p) {
      assert Fits(b.code, b.k, b.X, b.lim, p);
    }
    forall j | j in b.X ensures j < |code'| && code'[j].Jmp? {
      assert j != n - 1;
    }
  }

  /** `luaK_nil` after another LOADNIL that is not a jump target: widen that instruction. */
  lemma ComputesWiderNil(g: Goal, b: Snap, T: set<nat>, F: set<nat>, from: nat, to: nat, reg: nat)
    requires Computes(g, b, Const(Nil), T, F) && b.J == {} && |b.code| > 0 && b.lim < |b.code|
    requires b.code[|b.code| - 1] == LoadNil(from, to) && from <= reg <= to + 1 && from <= to
    requires g.fr <= reg
    ensures var to' := if reg > to then reg else to;
            Computes(g, b.(code := b.code[..|b.code| - 1] + [LoadNil(from, to')]), InReg(reg), T, F)
  {
    hide Sem;
    var to' := if reg > to then reg else to;
    var n := |b.code|;
    var b0 := b.(code := b.code[..n - 1]);
    var b' := b.(code := b0.code + [LoadNil(from, to')]);
    assert b0.code + [LoadNil(from, to)] == b.code;
    SnapTrim(b, g.start);
    SemAppend(b0, g.start, LoadNil(from, to'), b.k, map[]);
    forall j | j in g.s0.X && j !in g.s0.J ensures SameJump(g.s0.code, b'.code, j) {
      assert SameJump(g.s0.code, b.code, j);
      assert j in b.X;
    }
    forall R0 | EntryOk(g, R0) ensures ComputesAt(g, b', InReg(reg), T, F, R0) {
      assert ComputesAt(g, b, Const(Nil), T, F, R0);
      SemAppend(b0, g.start, LoadNil(from, to), b.k, R0);
      SemAppend(b0, g.start, LoadNil(from, to'), b.k, R0);
      SemExits(b, g.start, R0);
      match Sem(b0, g.start, R0)
      case Fall(S) =>
        forall r: nat ensures Get(SetNils(S, from, to'), r) == if from <= r <= to' then Nil else Get(S, r) {
          SetNilsGet(S, from, to', r);
        }
        forall r: nat ensures Get(SetNils(S, from, to), r) == if from <= r <= to then Nil else Get(S, r) {
          SetNilsGet(S, from, to, r);
        }
      case Exit(j, S) => assert j in T + F ==> SameJump(b.code, b'.code, j);
      case Fail =>
    }
  }
}
