/** What it means for code to compute a source expression. */
module ExpSemantics {
  // A relation between the code before and after compiling, and the operations on code that keep it.

  import opened Bytecode
  import opened PendingCode
  import opened Patching

  // ----- source expressions -----

  datatype BinOpr = OprAnd | OprOr | OprEq | OprNe | OprLt | OprLe | OprGt | OprGe

  datatype Expr =
    | NilE | TrueE | FalseE
    | NumE(n: real)
    | StrE(s: string)
    | LocalE(reg: nat)
    | NotE(e: Expr)
    | BinE(op: BinOpr, l: Expr, r: Expr)

  function EvalComparison(op: BinOpr, x: Value, y: Value): Result
    requires !op.OprAnd? && !op.OprOr?
  {
    match op
    case OprEq => Ok(Boolean(x == y))
    case OprNe => Ok(Boolean(x != y))
    case OprLt => EvalCompare(Lt, x, y)
    case OprLe => EvalCompare(Le, x, y)
    case OprGt => EvalCompare(Lt, y, x)
    case OprGe => EvalCompare(Le, y, x)
  }

  /** The value of an expression (sections 2.5.2 and 2.5.3 of the Lua 5.1 Reference Manual); local
      variables live in the low registers. */
  function Eval(e: Expr, R: Registers): Result {
    match e
    case NilE => Ok(Nil)
    case TrueE => Ok(Boolean(true))
    case FalseE => Ok(Boolean(false))
    case NumE(n) => Ok(Number(n))
    case StrE(s) => Ok(Str(s))
    case LocalE(r) => Ok(Get(R, r))
    case NotE(x) =>
      (match Eval(x, R) case Error => Error case Ok(v) => Ok(Boolean(IsFalse(v))))
    case BinE(op, l, r) =>
      match Eval(l, R)
      case Error => Error
      case Ok(v) =>
        if op.OprAnd? then (if IsFalse(v) then Ok(v) else Eval(r, R))
        else if op.OprOr? then (if IsFalse(v) then Eval(r, R) else Ok(v))
        else match Eval(r, R)
             case Error => Error
             case Ok(w) => EvalComparison(op, v, w)
  }

  /** Every local the expression names is active. */
  predicate LocalsBelow(e: Expr, n: nat) {
    match e
    case LocalE(r) => r < n
    case NotE(x) => LocalsBelow(x, n)
    case BinE(_, l, r) => LocalsBelow(l, n) && LocalsBelow(r, n)
    case _ => true
  }

  lemma {:induction false} EvalAgree(e: Expr, R: Registers, S: Registers, n: nat)
    requires LocalsBelow(e, n) && Agree(R, S, n)
    ensures Eval(e, R) == Eval(e, S)
  {
    match e
    case NotE(x) => EvalAgree(x, R, S, n);
    case BinE(_, l, r) => EvalAgree(l, R, S, n); EvalAgree(r, R, S, n);
    case _ =>
  }

  // ----- snapshots of the code -----

  /** The code, the constants, the pending jumps `X`, those of them that will be settled to the
      current end (`J`, the list `jpc`), and a bound on all settled targets. */
  datatype Snap = Snap(code: seq<Instruction>, k: seq<Value>, X: set<nat>, J: set<nat>, lim: nat)

  ghost predicate SnapOk(s: Snap, start: nat) {
    && WellFormed(s.code, s.k, s.X, s.lim)
    && s.J <= s.X
    && start <= s.lim && !Inside(s.code, start)
    && (s.J != {} ==> s.lim == |s.code|)
  }

  lemma EndNotInside(code: seq<Instruction>, k: seq<Value>, X: set<nat>, lim: nat)
    requires WellFormed(code, k, X, lim)
    ensures !Inside(code, |code|)
  {
    if |code| > 0 {
      assert Fits(code, k, X, lim, |code| - 1);
    }
  }

  /** Run from `start`; a jump on its way to the current end counts as having arrived there. */
  ghost function Sem(s: Snap, start: nat, R0: Registers): Outcome
    requires SnapOk(s, start)
  {
    WellFormedMono(s.code, s.k, s.X, s.lim, |s.code|);
    match Run(s.code, s.k, s.X, start, R0)
    case Exit(j, S) => if j in s.J then Fall(S) else Exit(j, S)
    case o => o
  }

  // ----- the relation -----

  /** What is left to be done with the registers the code leaves behind to obtain the value. */
  datatype Residue =
    | Const(v: Value)
    | InReg(r: nat)
    | NotReg(r: nat)
    | Cmp(op: Comparison, cond: bool, rb: RK, rc: RK)

  predicate ResidueOk(res: Residue, k: seq<Value>) {
    res.Cmp? ==> RKOk(k, res.rb) && RKOk(k, res.rc)
  }

  function Residual(res: Residue, k: seq<Value>, R: Registers): Result
    requires ResidueOk(res, k)
  {
    match res
    case Const(v) => Ok(v)
    case InReg(r) => Ok(Get(R, r))
    case NotReg(r) => Ok(Boolean(IsFalse(Get(R, r))))
    case Cmp(op, cond, b, c) =>
      match EvalCompare(op, RKValue(k, R, b), RKValue(k, R, c))
      case Error => Error
      case Ok(v) => Ok(Boolean(v == Boolean(cond)))
  }

  /** The value `v` travels through the pending jump `j` of a true list or a false list: a TESTSET
      still holds it in a register, any other jump stands for the boolean itself. */
  ghost predicate Carries(code: seq<Instruction>, j: nat, S: Registers, v: Value, onTrue: bool) {
    && j < |code|
    && (IsFalse(v) <==> !onTrue)
    && var c := code[Control(code, j)];
       if c.TestSet? then Get(S, c.b) == v else v == Boolean(onTrue)
  }

  /** The compilation of `ex` from the snapshot `s0`, for code entered at `start`, with `nact`
      active locals and first free register `fr`. */
  datatype Goal = Goal(s0: Snap, start: nat, nact: nat, fr: nat, ex: Expr)

  ghost predicate GoalOk(g: Goal) {
    SnapOk(g.s0, g.start) && g.nact <= g.fr && LocalsBelow(g.ex, g.nact)
  }

  /** At the start of a function all registers above the parameters are nil. */
  ghost predicate EntryOk(g: Goal, R0: Registers) {
    g.start == 0 ==> forall r :: r >= g.nact ==> Get(R0, r) == Nil
  }

  /** The control of jump `j` and the jump itself are as before. */
  ghost predicate SameJump(code: seq<Instruction>, code': seq<Instruction>, j: nat)
  {
    && j < |code| && j < |code'|
    && Control(code', j) == Control(code, j)
    && code'[j] == code[j] && code'[Control(code, j)] == code[Control(code, j)]
  }

  /** From `s0` to `b`: constants and code only grow; the pending jumps are those that were pending
      before and not yet due, which are untouched, the new lists `L`, and the jumps due here. */
  ghost predicate Tidy(s0: Snap, b: Snap, L: set<nat>) {
    && s0.k <= b.k && |s0.code| <= |b.code|
    && b.X == (s0.X - s0.J) + L + b.J
    && L !! b.J && (s0.X - s0.J) !! b.J
    && (forall j :: j in L ==> j >= |s0.code|)
    && (forall j :: j in b.J ==> j in s0.J || j >= |s0.code|)
    && (forall j {:trigger SameJump(s0.code, b.code, j)} :: j in s0.X && j !in s0.J ==> SameJump(s0.code, b.code, j))
  }

  /** Executing the code of `b` and then evaluating `res` gives the value of the expression, or
      the value leaves through a jump of `T` (true values) or `F` (false values). */
  ghost predicate Meets(o: Outcome, value: Result, b: Snap, res: Residue, T: set<nat>, F: set<nat>,
                        R: Registers, fr: nat)
    requires ResidueOk(res, b.k)
  {
    match value
    case Error => o == Fail || (o.Fall? && Residual(res, b.k, o.regs) == Error)
    case Ok(v) =>
      match o
      case Fall(S) => Agree(R, S, fr) && Residual(res, b.k, S) == Ok(v)
      case Exit(j, S) => (j in T || j in F) && Agree(R, S, fr) && Carries(b.code, j, S, v, j in T)
      case Fail => false
  }

  ghost predicate ComputesAt(g: Goal, b: Snap, res: Residue, T: set<nat>, F: set<nat>, R0: Registers)
    requires GoalOk(g) && SnapOk(b, g.start) && ResidueOk(res, b.k)
  {
    match Sem(g.s0, g.start, R0)
    case Fall(R) => Meets(Sem(b, g.start, R0), Eval(g.ex, R), b, res, T, F, R, g.fr)
    case o => Sem(b, g.start, R0) == o
  }

  ghost predicate Computes(g: Goal, b: Snap, res: Residue, T: set<nat>, F: set<nat>) {
    && GoalOk(g) && SnapOk(b, g.start) && ResidueOk(res, b.k)
    && T !! F && Tidy(g.s0, b, T + F)
    && forall R0 {:trigger ComputesAt(g, b, res, T, F, R0)} ::
         EntryOk(g, R0) ==> ComputesAt(g, b, res, T, F, R0)
  }

  /** The code of `s` goes on exactly when the truth of the expression is `want`, and otherwise
      leaves through a jump of `L`, which carries the value. */
  ghost predicate GuardsAt(g: Goal, s: Snap, want: bool, L: set<nat>, R0: Registers)
    requires GoalOk(g) && SnapOk(s, g.start)
  {
    match Sem(g.s0, g.start, R0)
    case Fall(R) =>
      (match Eval(g.ex, R)
       case Error => Sem(s, g.start, R0) == Fail
       case Ok(v) =>
         match Sem(s, g.start, R0)
         case Fall(S) => Agree(R, S, g.fr) && (IsFalse(v) <==> !want)
         case Exit(j, S) => j in L && Agree(R, S, g.fr) && Carries(s.code, j, S, v, !want)
         case Fail => false)
    case o => Sem(s, g.start, R0) == o
  }

  ghost predicate Guards(g: Goal, s: Snap, want: bool, L: set<nat>) {
    && GoalOk(g) && SnapOk(s, g.start)
    && Tidy(g.s0, s, L)
    && forall R0 {:trigger GuardsAt(g, s, want, L, R0)} ::
         EntryOk(g, R0) ==> GuardsAt(g, s, want, L, R0)
  }
}
