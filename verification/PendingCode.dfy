/** Code under construction (lua/lcode.c). */
module PendingCode {
  // Some jump instructions are pending, that is, they sit on a patch list and their offset is a list
  // link rather than a destination. `Run` executes such code and reports through which pending jump
  // it leaves. All settled jumps go forward.

  import opened Bytecode

  datatype Outcome =
    | Fall(regs: Registers)              // reached the end of the code
    | Exit(jump: nat, regs: Registers)   // took a pending jump; a TESTSET has not copied yet
    | Fail                               // run-time error

  /** Position `q` lies between a test and the jump that belongs to it. */
  predicate Inside(code: seq<Instruction>, q: nat) {
    1 <= q <= |code| && IsTest(code[q - 1])
  }

  /** Instruction `p` is complete, apart from a pending jump; settled targets are at most `lim`. */
  ghost predicate Fits(code: seq<Instruction>, k: seq<Value>, X: set<nat>, lim: nat, p: nat)
    requires p < |code|
  {
    && OperandsOk(code[p], k)
    && !code[p].Return?
    && (code[p].Jmp? && p !in X ==> 0 <= code[p].sbx && p + 1 + code[p].sbx <= lim
                                        && !Inside(code, p + 1 + code[p].sbx))
    && (IsTest(code[p]) ==> p + 1 < |code| && code[p + 1].Jmp?)
    && (code[p].TestSet? && p + 1 !in X ==> code[p].ta >= 0)
    && (code[p].LoadBool? && code[p].skip ==> p + 2 <= lim && !Inside(code, p + 2))
  }

  ghost predicate WellFormed(code: seq<Instruction>, k: seq<Value>, X: set<nat>, lim: nat) {
    && lim <= |code|
    && (forall p {:trigger Fits(code, k, X, lim, p)} :: 0 <= p < |code| ==> Fits(code, k, X, lim, p))
    && (forall j :: j in X ==> j < |code| && code[j].Jmp?)
  }

  ghost function Run(code: seq<Instruction>, k: seq<Value>, X: set<nat>, p: nat, R: Registers): Outcome
    requires WellFormed(code, k, X, |code|)
    requires p <= |code|
    decreases |code| - p
  {
    if p == |code| then Fall(R) else
    assert Fits(code, k, X, |code|, p);
    assert IsTest(code[p]) ==> Fits(code, k, X, |code|, p + 1);
    assert IsTest(code[p]) ==> !Inside(code, p + 2);
    match Act(code[p], k, p, R)
    case Goto(q, S) => Run(code, k, X, q, S)
    case Take(j, S, S') =>
      if j in X then Exit(j, S) else Run(code, k, X, j + 1 + code[j].sbx, S')
    case Throw => Fail
  }

  /** One step of `Run`, for proofs that hide its body. */
  lemma RunStep(code: seq<Instruction>, k: seq<Value>, X: set<nat>, p: nat, R: Registers)
    requires WellFormed(code, k, X, |code|)
    requires p < |code|
    ensures OperandsOk(code[p], k)
    ensures match Act(code[p], k, p, R)
            case Goto(q, S) =>
              p < q <= |code| && !Inside(code, q) && Run(code, k, X, p, R) == Run(code, k, X, q, S)
            case Take(j, S, S') =>
              j < |code| && code[j].Jmp?
              && if j in X then Run(code, k, X, p, R) == Exit(j, S)
                 else p < j + 1 + code[j].sbx <= |code| && !Inside(code, j + 1 + code[j].sbx)
                      && Run(code, k, X, p, R) == Run(code, k, X, j + 1 + code[j].sbx, S')
            case Halt(_) => false
            case Throw => Run(code, k, X, p, R) == Fail
  {
    assert Fits(code, k, X, |code|, p);
    assert IsTest(code[p]) ==> Fits(code, k, X, |code|, p + 1);
  }

  lemma RunEnd(code: seq<Instruction>, k: seq<Value>, X: set<nat>, R: Registers)
    requires WellFormed(code, k, X, |code|)
    ensures Run(code, k, X, |code|, R) == Fall(R)
  {
  }

  lemma {:induction false} RunExits(code: seq<Instruction>, k: seq<Value>, X: set<nat>, p: nat, R: Registers)
    requires WellFormed(code, k, X, |code|)
    requires p <= |code|
    ensures Run(code, k, X, p, R).Exit? ==> Run(code, k, X, p, R).jump in X
    decreases |code| - p
  {
    hide Act;
    hide Run;
    if p == |code| {
      RunEnd(code, k, X, R);
    } else {
      RunStep(code, k, X, p, R);
      match Act(code[p], k, p, R)
      case Goto(q, S) => RunExits(code, k, X, q, S);
      case Take(j, S, S') => if j !in X { RunExits(code, k, X, j + 1 + code[j].sbx, S'); }
      case Throw =>
    }
  }

  /** The control instruction of the jump at `j` (`getjumpcontrol`). */
  function Control(code: seq<Instruction>, j: nat): nat
    requires j < |code|
  {
    if j >= 1 && IsTest(code[j - 1]) then j - 1 else j
  }

  // ----- appending -----

  ghost predicate Extends(code: seq<Instruction>, k: seq<Value>, X: set<nat>,
                          code': seq<Instruction>, k': seq<Value>, X': set<nat>)
  {
    && code <= code' && k <= k'
    && (forall j :: 0 <= j < |code| ==> (j in X <==> j in X'))
  }

  /** Code that falls off the old end continues with whatever was appended. */
  lemma {:induction false} RunAppend(code: seq<Instruction>, k: seq<Value>, X: set<nat>,
                                     code': seq<Instruction>, k': seq<Value>, X': set<nat>,
                                     p: nat, R: Registers)
    requires WellFormed(code, k, X, |code|) && WellFormed(code', k', X', |code'|)
    requires Extends(code, k, X, code', k', X')
    requires p <= |code| && !Inside(code, p)
    ensures Run(code', k', X', p, R) ==
            match Run(code, k, X, p, R)
            case Fall(S) => Run(code', k', X', |code|, S)
            case o => o
    decreases |code| - p
  {
    hide Act;
    hide Run;
    hide Fits;
    if p == |code| {
      RunEnd(code, k, X, R);
    } else {
      RunStep(code, k, X, p, R);
      assert code[p] == code'[p];
      ActMoreConstants(code[p], k, k', p, R);
      RunStep(code', k', X', p, R);
      match Act(code[p], k, p, R)
      case Goto(q, S) => RunAppend(code, k, X, code', k', X', q, S);
      case Take(j, S, S') =>
        assert code[j] == code'[j];
        if j !in X {
          RunAppend(code, k, X, code', k', X', j + 1 + code[j].sbx, S');
        }
      case Throw =>
    }
  }

  // ----- what a pending jump carries does not matter -----

  ghost predicate SameUpToPending(code: seq<Instruction>, code': seq<Instruction>, X: set<nat>) {
    && |code| == |code'|
    && forall p {:trigger code[p]} {:trigger code'[p]} :: 0 <= p < |code| ==>
         || code[p] == code'[p]
         || (p in X && code[p].Jmp? && code'[p].Jmp?)
         || (p + 1 in X && SameTest(code[p], code'[p]))
  }

  lemma SameUpToPendingWellFormed(code: seq<Instruction>, code': seq<Instruction>,
                                  k: seq<Value>, X: set<nat>, lim: nat)
    requires WellFormed(code, k, X, lim) && SameUpToPending(code, code', X)
    ensures WellFormed(code', k, X, lim)
  {
    forall p | 0 <= p < |code'| ensures Fits(code', k, X, lim, p) {
      assert Fits(code, k, X, lim, p);
    }
  }

  lemma {:induction false} RunSameUpToPending(code: seq<Instruction>, code': seq<Instruction>,
                                              k: seq<Value>, X: set<nat>, p: nat, R: Registers)
    requires WellFormed(code, k, X, |code|) && WellFormed(code', k, X, |code'|)
    requires SameUpToPending(code, code', X)
    requires p <= |code| && !Inside(code, p)
    ensures Run(code', k, X, p, R) == Run(code, k, X, p, R)
    decreases |code| - p
  {
    hide Act;
    hide Run;
    hide Fits;
    if p == |code| {
      RunEnd(code, k, X, R);
      RunEnd(code', k, X, R);
    } else {
      RunStep(code, k, X, p, R);
      RunStep(code', k, X, p, R);
      ActTargets(code[p], k, p, R);
      ActTargets(code'[p], k, p, R);
      if code[p] != code'[p] && SameTest(code[p], code'[p]) {
        ActSameTest(code[p], code'[p], k, p, R);
      }
      match Act(code[p], k, p, R)
      case Goto(q, S) => RunSameUpToPending(code, code', k, X, q, S);
      case Take(j, S, S') =>
        if j !in X {
          assert code'[j] == code[j];
          RunSameUpToPending(code, code', k, X, j + 1 + code[j].sbx, S');
        }
      case Throw =>
    }
  }
}
