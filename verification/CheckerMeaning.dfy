/** What checked code keeps (lua/lopcodes.h). */
module CheckerMeaning {
  // The checker works from tables of argument modes and from the word before a jump target. Here the
  // same is said from the meaning of each instruction, R(x) being a register, Kst(x) a constant and
  // RK(x) either. Runs of checked code keep it, and code that keeps it is never refused.
  import opened Checker

  // ----- the fields of a word -----

  function Encode(op: nat, a: nat, b: nat, c: nat): Word
    requires op < 64 && a < 256 && b < 512 && c < 512
  {
    op + 0x40 * a + 0x4000 * c + 0x80_0000 * b
  }

  lemma Fields(op: nat, a: nat, b: nat, c: nat)
    requires op < 64 && a < 256 && b < 512 && c < 512
    ensures var w := Encode(op, a, b, c);
      && Op(w) == op && ArgA(w) == a && ArgB(w) == b && ArgC(w) == c
      && ArgBx(w) == 512 * b + c && ArgSBx(w) == 512 * b + c - 131071
  {
    LowFields(op, a, 512 * b + c);
    HighFields(op + 0x40 * a, b, c);
    hide Op;
    hide ArgA;
    hide ArgB;
    hide ArgC;
    hide ArgBx;
  }

  lemma LowFields(op: nat, a: nat, bx: nat)
    requires op < 64 && a < 256 && bx < 0x4_0000
    ensures var w := op + 0x40 * a + 0x4000 * bx; w < 0x1_0000_0000 && Op(w) == op && ArgA(w) == a
  {
    Quotient(a + 0x100 * bx, op, 0x40);
    Quotient(bx, a, 0x100);
  }

  lemma HighFields(low: nat, b: nat, c: nat)
    requires low < 0x4000 && b < 512 && c < 512
    ensures var w := low + 0x4000 * (512 * b + c);
      w < 0x1_0000_0000 && ArgB(w) == b && ArgC(w) == c && ArgBx(w) == 512 * b + c
  {
    Quotient(512 * b + c, low, 0x4000);
    Quotient(b, c, 0x200);
    Quotient(b, low + 0x4000 * c, 0x80_0000);
  }

  /** The low part `r` and the rest `q` of a number. */
  lemma Quotient(q: nat, r: nat, m: nat)
    requires r < m && m in {0x40, 0x100, 0x200, 0x4000, 0x80_0000}
    ensures (q * m + r) / m == q && (q * m + r) % m == r
  {
    if m == 0x40 {
    } else if m == 0x100 {
    } else if m == 0x200 {
    } else if m == 0x4000 {
    } else {
    }
  }

  /** No two words have the same fields. */
  lemma FieldsAreAll(w: Word)
    ensures w == Encode(Op(w), ArgA(w), ArgB(w), ArgC(w))
  {
    var x := w / 64;
    var y := x / 256;
    var op, a, b, c := w % 64, x % 256, y / 512, y % 512;
    assert w == op + 64 * (a + 256 * (c + 512 * b));
    Fields(op, a, b, c);
  }

  // ----- what an instruction needs -----

  predicate R(pt: Proto, x: int) {
    x < pt.maxstacksize
  }

  predicate Kst(pt: Proto, x: int) {
    0 <= x < |pt.kIsString|
  }

  predicate RK(pt: Proto, x: nat) {
    if x < 256 then R(pt, x) else Kst(pt, x - 256)
  }

  /** The instruction uses all values up to the top of the stack. */
  predicate Takes(w: Word) {
    (Op(w) == CALL || Op(w) == TAILCALL || Op(w) == RETURN || Op(w) == SETLIST) && ArgB(w) == 0
  }

  /** The instruction leaves a number of values that is not known, up to the top of the stack. */
  predicate Opens(w: Word) {
    (Op(w) == VARARG && ArgB(w) == 0) || ((Op(w) == CALL || Op(w) == TAILCALL) && ArgC(w) == 0)
  }

  /** There is an instruction right after this one, and it is a jump. */
  predicate JumpFollows(pt: Proto, pc: nat) {
    pc + 2 < |pt.code| && Op(pt.code[pc + 1]) == JMP
  }

  /** The operands of instruction `pc` exist, and what must follow it does. */
  predicate InRange(pt: Proto, pc: nat)
    requires pc < |pt.code|
  {
    var i := pt.code[pc];
    var op, a, b, c, bx := Op(i), ArgA(i), ArgB(i), ArgC(i), ArgBx(i);
    && op < 38 && R(pt, a)
    && (op == MOVE ==> R(pt, b) && c == 0)
    && (op == LOADK ==> Kst(pt, bx))
    && (op == LOADBOOL ==> (c == 1 ==> pc + 2 < |pt.code| && !(Op(pt.code[pc + 1]) == SETLIST && ArgC(pt.code[pc + 1]) == 0)))
    && (op == LOADNIL ==> R(pt, b) && c == 0)
    && (op == GETUPVAL || op == SETUPVAL ==> b < pt.nups && c == 0)
    && (op == GETGLOBAL || op == SETGLOBAL ==> Kst(pt, bx) && pt.kIsString[bx])
    && (op == GETTABLE ==> R(pt, b) && RK(pt, c))
    && (op == SETTABLE ==> RK(pt, b) && RK(pt, c))
    && (op == SELF ==> R(pt, a + 1) && R(pt, b) && RK(pt, c))
    && (ADD <= op <= POW ==> RK(pt, b) && RK(pt, c))
    && (op == UNM || op == NOT || op == LEN ==> R(pt, b) && c == 0)
    && (op == CONCAT ==> b < c && R(pt, c))
    && (op == JMP ==> Good(pt, pc + 1 + ArgSBx(i)))
    && (op == EQ || op == LT || op == LE ==> RK(pt, b) && RK(pt, c) && JumpFollows(pt, pc))
    && (op == TEST || op == TESTSET ==> R(pt, b) && JumpFollows(pt, pc))
    && (op == CALL || op == TAILCALL ==> (b > 0 ==> R(pt, a + b - 1)) && (c > 1 ==> R(pt, a + c - 2)))
    && (op == RETURN ==> (b > 1 ==> R(pt, a + b - 2)) && c == 0)
    && (op == FORLOOP || op == FORPREP ==> R(pt, a + 3) && Good(pt, pc + 1 + ArgSBx(i)))
    && (op == TFORLOOP ==> b == 0 && c > 0 && R(pt, a + 2 + c) && JumpFollows(pt, pc))
    && (op == SETLIST ==> (b > 0 ==> R(pt, a + b)) && (c == 0 ==> pc + 2 < |pt.code|))
    && (op == CLOSE ==> b == 0 && c == 0)
    && (op == CLOSURE ==>
          && bx < |pt.subNups| && pc + pt.subNups[bx] < |pt.code|
          && forall q :: pc < q <= pc + pt.subNups[bx] ==> Op(pt.code[q]) == MOVE || Op(pt.code[q]) == GETUPVAL)
    && (op == VARARG ==> pt.isVararg && !pt.needsArg && c == 0 && (b > 1 ==> R(pt, a + b - 2)))
    && (Opens(i) ==> pc + 1 < |pt.code| && Takes(pt.code[pc + 1]))
  }

  /** The header fits, the code ends with a RETURN and every instruction is in range. */
  ghost predicate Disciplined(pt: Proto) {
    && pt.maxstacksize <= 250
    && (if pt.hasArg then pt.numparams < pt.maxstacksize else pt.numparams <= pt.maxstacksize && !pt.needsArg)
    && pt.sizeupvalues <= pt.nups && (pt.sizelineinfo == 0 || pt.sizelineinfo == |pt.code|)
    && pt.code != [] && Op(pt.code[|pt.code| - 1]) == RETURN
    && forall pc :: Good(pt, pc) ==> InRange(pt, pc)
  }

  lemma JumpMeans(pt: Proto, dest: int)
    ensures JumpOk(pt.code, dest) <==> Good(pt, dest)
  {
    if 0 <= dest < |pt.code| {
      Parity(pt.code, dest);
    }
  }

  lemma OperandsMean(pt: Proto, pc: nat)
    requires Precheck(pt) && pc < |pt.code|
    ensures OperandsOk(pt, pc) && (IsTest(Op(pt.code[pc])) ==> JumpFollows(pt, pc)) && SpecificOk(pt, pc) <==> InRange(pt, pc)
  {
    var i := pt.code[pc];
    JumpMeans(pt, pc + 1 + ArgSBx(i));
    if Op(i) != RETURN {
      NotLast(pt, pc);
    }
    hide Op;
    hide ArgA;
    hide ArgB;
    hide ArgC;
    hide ArgBx;
    hide ArgSBx;
    hide Instr;
    hide RunBefore;
  }

  /** The checker accepts exactly the disciplined code. */
  lemma AcceptedMeans(pt: Proto)
    ensures Accepted(pt) <==> Disciplined(pt)
  {
    if Precheck(pt) {
      forall pc | Good(pt, pc) ensures WordOk(pt, pc) <==> InRange(pt, pc) {
        OperandsMean(pt, pc);
      }
      assert Accepted(pt) ==> forall pc :: Good(pt, pc) ==> InRange(pt, pc);
      assert Disciplined(pt) ==> forall pc :: 0 <= pc < |pt.code| && Instr(pt.code, pc) ==> Good(pt, pc) && WordOk(pt, pc);
    }
  }

  // ----- runs -----

  /** Where each instruction of accepted code may lead. */
  lemma NextMeans(pt: Proto, pc: nat, q: int)
    requires Accepted(pt) && Good(pt, pc)
    ensures var i := pt.code[pc];
      var op := Op(i);
      q in Successors(pt, pc) <==>
        && op != RETURN
        && if op == JMP || op == FORPREP then q == pc + 1 + ArgSBx(i)
           else if op == FORLOOP then q == pc + 1 || q == pc + 1 + ArgSBx(i)
           else if op == EQ || op == LT || op == LE || op == TEST || op == TESTSET || op == TFORLOOP then
             q == pc + 2 || q == pc + 2 + ArgSBx(pt.code[pc + 1])
           else if op == CLOSURE then q == pc + 1 + pt.subNups[ArgBx(i)]
           else if (op == LOADBOOL && ArgC(i) > 0) || (op == SETLIST && ArgC(i) == 0) then q == pc + 2
           else q == pc + 1
  {
    AcceptedMeans(pt);
    hide Op;
    hide ArgA;
    hide ArgB;
    hide ArgC;
    hide ArgBx;
    hide Instr;
    assert InRange(pt, pc);
  }

  /** In a run of accepted code every operand of every instruction exists. */
  lemma RunInRange(pt: Proto, pcs: seq<int>, k: nat)
    requires Accepted(pt) && Safe(pt) && IsRun(pt, pcs) && k < |pcs|
    ensures Good(pt, pcs[k]) && InRange(pt, pcs[k])
  {
    AcceptedMeans(pt);
    RunsAreGood(pt, pcs, k);
  }

  /** Values that are left up to the top of the stack are taken by the next step of the run. */
  lemma OpenTop(pt: Proto, pcs: seq<int>, k: nat)
    requires Accepted(pt) && Safe(pt) && IsRun(pt, pcs) && k + 1 < |pcs|
    ensures Good(pt, pcs[k]) && Good(pt, pcs[k + 1])
    ensures Opens(pt.code[pcs[k]]) ==> pcs[k + 1] == pcs[k] + 1 && Takes(pt.code[pcs[k + 1]])
  {
    RunInRange(pt, pcs, k);
    RunInRange(pt, pcs, k + 1);
    assert pcs[k + 1] in Successors(pt, pcs[k]);
  }

  /** A function that only returns is accepted exactly if its header fits: RETURN 0 1. */
  lemma OnlyReturn(pt: Proto)
    requires pt.code == [Encode(30, 0, 1, 0)]
    ensures Accepted(pt) <==>
      && 0 < pt.maxstacksize <= 250
      && (if pt.hasArg then pt.numparams < pt.maxstacksize else pt.numparams <= pt.maxstacksize && !pt.needsArg)
      && pt.sizeupvalues <= pt.nups && pt.sizelineinfo <= 1
  {
    hide Encode;
    hide Op;
    hide ArgA;
    hide ArgB;
    hide ArgC;
    hide ArgBx;
    Fields(30, 0, 1, 0);
    AcceptedMeans(pt);
    assert Good(pt, 0);
    assert InRange(pt, 0) <==> R(pt, 0);
  }

  /** The code of `return ...` in a vararg function: VARARG 0 0; RETURN 0 0; RETURN 0 1. */
  function ReturnAll(): Proto {
    Proto([Encode(37, 0, 0, 0), Encode(30, 0, 0, 0), Encode(30, 0, 1, 0)], 2, 0, false, true, false, 0, 0, 0, [], [])
  }

  lemma ReturnAllIsAccepted()
    ensures Accepted(ReturnAll()) && IsRun(ReturnAll(), [0, 1])
    ensures Opens(ReturnAll().code[0]) && Takes(ReturnAll().code[1])
  {
    hide Encode;
    hide Op;
    hide ArgA;
    hide ArgB;
    hide ArgC;
    hide ArgBx;
    var pt := ReturnAll();
    Fields(37, 0, 0, 0);
    Fields(30, 0, 0, 0);
    Fields(30, 0, 1, 0);
    assert InRange(pt, 0) && InRange(pt, 1) && InRange(pt, 2);
    AcceptedMeans(pt);
    assert [0, 1][1] in Successors(pt, 0);
  }
}
