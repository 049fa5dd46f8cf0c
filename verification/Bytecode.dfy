/** Instructions and the interpreter loop (lua/lopcodes.h, lua/lvm.c). */
module Bytecode {
  // The part of the virtual machine that expression code uses. An instruction is a datatype value;
  // its packing into 32 bits is not modelled.

  /** The tagged values an expression of this fragment can produce. */
  datatype Value = Nil | Boolean(b: bool) | Number(n: real) | Str(s: string)

  /** `l_isfalse`: only nil and false are false. */
  predicate IsFalse(v: Value) {
    v == Nil || v == Boolean(false)
  }

  datatype Result = Ok(value: Value) | Error

  datatype Comparison = Eq | Lt | Le

  /** An RK operand: a register or an index into the constant table. */
  datatype RK = Reg(r: nat) | Kst(i: nat)

  /** "No register": the A operand of a TESTSET that has not been given a target yet. */
  const NO_REG: int := -1

  datatype Instruction =
    | Move(a: nat, b: nat)
    | LoadK(a: nat, bx: nat)
    | LoadBool(a: nat, val: bool, skip: bool)
    | LoadNil(a: nat, b: nat)
    | Not(a: nat, b: nat)
    | Jmp(sbx: int)
    | Compare(op: Comparison, cond: bool, rb: RK, rc: RK)
    | Test(a: nat, c: bool)
    | TestSet(ta: int, b: nat, c: bool)
    | Return(a: nat)

  /** `testTMode`: the instruction is a test, and the jump after it belongs to it. */
  predicate IsTest(i: Instruction) {
    i.Compare? || i.Test? || i.TestSet?
  }

  /** A register file; a register that was never written holds nil. */
  type Registers = map<nat, Value>

  function Get(R: Registers, r: nat): Value {
    if r in R then R[r] else Nil
  }

  /** Registers below `n` have the same contents in both files. */
  ghost predicate Agree(R: Registers, S: Registers, n: nat) {
    forall r :: 0 <= r < n ==> Get(R, r) == Get(S, r)
  }

  /** The do-while loop of OP_LOADNIL, from `b` down to `a`. */
  function SetNils(R: Registers, a: nat, b: nat): Registers
    decreases b
  {
    if b <= a then R[b := Nil] else SetNils(R[b := Nil], a, b - 1)
  }

  lemma {:induction false} SetNilsGet(R: Registers, a: nat, b: nat, r: nat)
    requires a <= b
    ensures Get(SetNils(R, a, b), r) == if a <= r <= b then Nil else Get(R, r)
    decreases b
  {
    if b > a {
      SetNilsGet(R[b := Nil], a, b - 1, r);
    }
  }

  /** `equalobj`, `luaV_lessthan` and `lessequal` without metamethods: equality is raw, and an
      order comparison of anything but two numbers or two strings is an error. */
  function EvalCompare(op: Comparison, x: Value, y: Value): Result {
    match op
    case Eq => Ok(Boolean(x == y))
    case Lt =>
      if x.Number? && y.Number? then Ok(Boolean(x.n < y.n))
      else if x.Str? && y.Str? then Ok(Boolean(StrLess(x.s, y.s)))
      else Error
    case Le =>
      if x.Number? && y.Number? then Ok(Boolean(x.n <= y.n))
      else if x.Str? && y.Str? then Ok(Boolean(!StrLess(y.s, x.s)))
      else Error
  }

  /** `l_strcmp` in the C locale: strings are ordered by their characters. */
  predicate StrLess(x: string, y: string) {
    if y == "" then false
    else if x == "" then true
    else x[0] < y[0] || (x[0] == y[0] && StrLess(x[1..], y[1..]))
  }

  predicate RKOk(k: seq<Value>, o: RK) {
    o.Kst? ==> o.i < |k|
  }

  function RKValue(k: seq<Value>, R: Registers, o: RK): Value
    requires RKOk(k, o)
  {
    match o
    case Reg(r) => Get(R, r)
    case Kst(i) => k[i]
  }

  predicate OperandsOk(i: Instruction, k: seq<Value>) {
    match i
    case LoadK(_, bx) => bx < |k|
    case LoadNil(a, b) => a <= b
    case Compare(_, _, b, c) => RKOk(k, b) && RKOk(k, c)
    case _ => true
  }

  /** What one instruction does before the program counter is settled: continue at `pc`, or take
      the jump instruction at `jump` (`before` are the registers without, `after` the registers
      with the copy a TESTSET makes), or stop. */
  datatype Action =
    | Goto(pc: nat, regs: Registers)
    | Take(jump: nat, before: Registers, after: Registers)
    | Halt(regs: Registers)
    | Throw

  /** One iteration of the loop of `luaV_execute`, for the instruction `i` found at `p`. */
  function Act(i: Instruction, k: seq<Value>, p: nat, R: Registers): Action
    requires OperandsOk(i, k)
  {
    match i
    case Move(a, b) => Goto(p + 1, R[a := Get(R, b)])
    case LoadK(a, bx) => Goto(p + 1, R[a := k[bx]])
    case LoadBool(a, b, skip) => Goto(if skip then p + 2 else p + 1, R[a := Boolean(b)])
    case LoadNil(a, b) => Goto(p + 1, SetNils(R, a, b))
    case Not(a, b) => Goto(p + 1, R[a := Boolean(IsFalse(Get(R, b)))])
    case Jmp(_) => Take(p, R, R)
    case Compare(op, cond, b, c) =>
      (match EvalCompare(op, RKValue(k, R, b), RKValue(k, R, c))
       case Error => Throw
       case Ok(v) => if v == Boolean(cond) then Take(p + 1, R, R) else Goto(p + 2, R))
    case Test(a, c) => if IsFalse(Get(R, a)) != c then Take(p + 1, R, R) else Goto(p + 2, R)
    case TestSet(ta, b, c) =>
      if IsFalse(Get(R, b)) != c
      then Take(p + 1, R, if ta >= 0 then R[ta := Get(R, b)] else R)
      else Goto(p + 2, R)
    case Return(_) => Halt(R)
  }

  /** Where `Act` can lead, without looking at what it does to the registers. */
  lemma ActTargets(i: Instruction, k: seq<Value>, p: nat, R: Registers)
    requires OperandsOk(i, k)
    ensures Act(i, k, p, R).Goto? && IsTest(i) ==> Act(i, k, p, R).pc == p + 2
    ensures Act(i, k, p, R).Goto? && !IsTest(i) ==>
              Act(i, k, p, R).pc == if i.LoadBool? && i.skip then p + 2 else p + 1
    ensures i.Jmp? ==> Act(i, k, p, R) == Take(p, R, R)
    ensures Act(i, k, p, R).Take? ==> i.Jmp? || IsTest(i)
    ensures Act(i, k, p, R).Take? ==> Act(i, k, p, R).jump == if i.Jmp? then p else p + 1
    ensures Act(i, k, p, R).Take? && !i.TestSet? ==> Act(i, k, p, R).before == Act(i, k, p, R).after
    ensures Act(i, k, p, R).Halt? <==> i.Return?
    ensures Act(i, k, p, R).Throw? ==> i.Compare?
    ensures IsTest(i) ==> !Act(i, k, p, R).Halt?
  {
  }

  lemma ActMoreConstants(i: Instruction, k: seq<Value>, k': seq<Value>, p: nat, R: Registers)
    requires OperandsOk(i, k) && k <= k'
    ensures OperandsOk(i, k') && Act(i, k', p, R) == Act(i, k, p, R)
  {
  }

  /** `d` tests the same thing as `c`; they may differ in the copy that is made. */
  predicate SameTest(c: Instruction, d: Instruction) {
    || (c.TestSet? && d.TestSet? && c.b == d.b && c.c == d.c)
    || (c.TestSet? && d.Test? && c.b == d.a && c.c == d.c)
  }

  /** The copy made by a control instruction when its jump is taken. */
  function Copy(c: Instruction, R: Registers): Registers {
    if c.TestSet? && c.ta >= 0 then R[c.ta := Get(R, c.b)] else R
  }

  lemma ActSameTest(c: Instruction, d: Instruction, k: seq<Value>, p: nat, R: Registers)
    requires SameTest(c, d)
    ensures Act(c, k, p, R).Goto? || Act(c, k, p, R).Take?
    ensures Act(c, k, p, R).Goto? ==> Act(d, k, p, R) == Act(c, k, p, R)
    ensures Act(c, k, p, R).Take? ==>
              Act(d, k, p, R) == Take(p + 1, Act(c, k, p, R).before, Copy(d, Act(c, k, p, R).before))
  {
  }

  // ----- the virtual machine -----

  datatype Machine = Running(pc: nat, regs: Registers) | Halted(pc: nat, regs: Registers) | Failed

  /** A complete code array: every operand is in range and every jump lands inside. */
  ghost predicate Executable(code: seq<Instruction>, k: seq<Value>) {
    forall p :: 0 <= p < |code| ==> StaysInside(code, k, p)
  }

  ghost predicate StaysInside(code: seq<Instruction>, k: seq<Value>, p: nat)
    requires p < |code|
  {
    && OperandsOk(code[p], k)
    && (code[p].Jmp? ==> 0 <= p + 1 + code[p].sbx < |code|)
    && (IsTest(code[p]) ==> p + 2 < |code| && code[p + 1].Jmp?)
    && (code[p].LoadBool? && code[p].skip ==> p + 2 < |code|)
    && (!code[p].Return? ==> p + 1 < |code|)
  }

  ghost predicate InCode(code: seq<Instruction>, m: Machine) {
    m.Running? ==> m.pc < |code|
  }

  /** One machine step. */
  ghost function Step(code: seq<Instruction>, k: seq<Value>, m: Machine): (m': Machine)
    requires Executable(code, k) && InCode(code, m)
    ensures InCode(code, m')
  {
    if !m.Running? then m else
    assert StaysInside(code, k, m.pc);
    assert IsTest(code[m.pc]) ==> StaysInside(code, k, m.pc + 1);
    match Act(code[m.pc], k, m.pc, m.regs)
    case Goto(q, R) => Running(q, R)
    case Take(j, _, R) => Running(j + 1 + code[j].sbx, R)
    case Halt(R) => Halted(m.pc, R)
    case Throw => Failed
  }

  ghost function Steps(code: seq<Instruction>, k: seq<Value>, m: Machine, n: nat): (m': Machine)
    requires Executable(code, k) && InCode(code, m)
    ensures InCode(code, m')
    decreases n
  {
    if n == 0 then m else Steps(code, k, Step(code, k, m), n - 1)
  }
}
