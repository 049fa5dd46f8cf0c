/** The bytecode checker (lua/ldebug.c). */
module Checker {
  // What `luaG_checkcode` accepts cannot make the virtual machine leave the code of a function or
  // take the count word of a SETLIST for an instruction (lua/lopcodes.h, lua/lopcodes.c, lua/lvm.c).

  // ----- instruction words -----

  type Word = w: nat | w < 0x1_0000_0000

  function Op(w: Word): nat { w % 64 }
  function ArgA(w: Word): nat { w / 64 % 256 }
  function ArgC(w: Word): nat { w / 0x4000 % 512 }
  function ArgB(w: Word): nat { w / 0x80_0000 % 512 }
  function ArgBx(w: Word): nat { w / 0x4000 % 0x4_0000 }
  function ArgSBx(w: Word): int { ArgBx(w) - 0x1_FFFF }

  const MOVE := 0
  const LOADK := 1
  const LOADBOOL := 2
  const LOADNIL := 3
  const GETUPVAL := 4
  const GETGLOBAL := 5
  const GETTABLE := 6
  const SETGLOBAL := 7
  const SETUPVAL := 8
  const SETTABLE := 9
  const NEWTABLE := 10
  const SELF := 11
  const ADD := 12
  const POW := 17
  const UNM := 18
  const NOT := 19
  const LEN := 20
  const CONCAT := 21
  const JMP := 22
  const EQ := 23
  const LT := 24
  const LE := 25
  const TEST := 26
  const TESTSET := 27
  const CALL := 28
  const TAILCALL := 29
  const RETURN := 30
  const FORLOOP := 31
  const FORPREP := 32
  const TFORLOOP := 33
  const SETLIST := 34
  const CLOSE := 35
  const CLOSURE := 36
  const VARARG := 37
  const NUM_OPCODES := 38

  datatype OpMode = ABC | ABx | AsBx
  datatype ArgMode = ArgN | ArgU | ArgR | ArgK

  function ModeOf(op: nat): OpMode {
    if op in {LOADK, GETGLOBAL, SETGLOBAL, CLOSURE} then ABx
    else if op in {JMP, FORLOOP, FORPREP} then AsBx
    else ABC
  }

  function BMode(op: nat): ArgMode {
    if op in {LOADBOOL, GETUPVAL, SETUPVAL, NEWTABLE, CALL, TAILCALL, RETURN, SETLIST, CLOSURE, VARARG} then ArgU
    else if op in {MOVE, LOADNIL, GETTABLE, SELF, UNM, NOT, LEN, CONCAT, JMP, TEST, TESTSET, FORLOOP, FORPREP} then ArgR
    else if op in {TFORLOOP, CLOSE} then ArgN
    else ArgK
  }

  function CMode(op: nat): ArgMode {
    if op in {LOADBOOL, NEWTABLE, TEST, TESTSET, CALL, TAILCALL, TFORLOOP, SETLIST} then ArgU
    else if op == CONCAT then ArgR
    else if op in {GETTABLE, SETTABLE, SELF, EQ, LT, LE} || ADD <= op <= POW then ArgK
    else ArgN
  }

  /** The operator sets register A. */
  function SetsA(op: nat): bool {
    op !in {SETGLOBAL, SETUPVAL, SETTABLE, JMP, EQ, LT, LE, RETURN, TFORLOOP, SETLIST, CLOSE}
  }

  /** The operator is a test: the next instruction is a jump. */
  function IsTest(op: nat): bool {
    op in {EQ, LT, LE, TEST, TESTSET, TFORLOOP}
  }

  const BITRK := 256
  const NO_REG := 255
  const MAXSTACK := 250
  const VARARG_HASARG := 1

  /** The parts of a function prototype that the checker looks at. */
  datatype Proto = Proto(
    code: seq<Word>,
    maxstacksize: nat,
    numparams: nat,
    hasArg: bool,       // the bits of is_vararg
    isVararg: bool,
    needsArg: bool,
    nups: nat,
    sizeupvalues: nat,
    sizelineinfo: nat,
    kIsString: seq<bool>,  // for each constant, whether it is a string
    subNups: seq<nat>      // the number of upvalues of each nested prototype
  )

  /** A SETLIST whose count is in the next word. */
  predicate SetList0(w: Word) {
    Op(w) == SETLIST && ArgC(w) == 0
  }

  // ----- which words are instructions -----

  /** Word `pc` is an instruction, not the count of a SETLIST before it. */
  predicate Instr(code: seq<Word>, pc: nat)
    requires pc <= |code|
  {
    pc == 0 || !(Instr(code, pc - 1) && SetList0(code[pc - 1]))
  }

  /** How many words right before `d` look like a SETLIST with a count. */
  function RunBefore(code: seq<Word>, d: nat): (n: nat)
    requires d <= |code|
    ensures n <= d
  {
    if d == 0 || !SetList0(code[d - 1]) then 0 else 1 + RunBefore(code, d - 1)
  }

  /** A count may look like a SETLIST itself; but whether a word is an instruction shows in the parity
      of the run of such words before it. */
  lemma {:induction false} Parity(code: seq<Word>, d: nat)
    requires d <= |code|
    ensures Instr(code, d) <==> RunBefore(code, d) % 2 == 0
  {
    hide SetList0;
    if d > 0 {
      Parity(code, d - 1);
    }
  }

  /** The loop that counts the run. */
  method CountRun(code: seq<Word>, dest: nat) returns (j: nat)
    requires dest <= |code|
    ensures j == RunBefore(code, dest)
  {
    hide SetList0;
    j := 0;
    while j < dest
      invariant j <= dest && RunBefore(code, dest) == j + RunBefore(code, dest - j)
    {
      var d := code[dest - 1 - j];
      if !SetList0(d) {
        break;
      }
      j := j + 1;
    }
  }

  // ----- the checks -----

  predicate Precheck(pt: Proto) {
    && pt.maxstacksize <= MAXSTACK
    && pt.numparams + (if pt.hasArg then VARARG_HASARG else 0) <= pt.maxstacksize
    && (pt.needsArg ==> pt.hasArg)
    && pt.sizeupvalues <= pt.nups
    && (pt.sizelineinfo == |pt.code| || pt.sizelineinfo == 0)
    && |pt.code| > 0 && Op(pt.code[|pt.code| - 1]) == RETURN
  }

  /** `luaG_checkopenop`. */
  predicate OpenOpOk(i: Word) {
    Op(i) in {CALL, TAILCALL, RETURN, SETLIST} && ArgB(i) == 0
  }

  /** `checkArgMode`. */
  predicate ArgOk(pt: Proto, r: nat, mode: ArgMode) {
    match mode
    case ArgN => r == 0
    case ArgU => true
    case ArgR => r < pt.maxstacksize
    case ArgK => if r >= BITRK then r - BITRK < |pt.kIsString| else r < pt.maxstacksize
  }

  predicate RegOk(pt: Proto, r: int) {
    r < pt.maxstacksize
  }

  /** A jump to `dest` lands inside the code, on a word after an even run. */
  predicate JumpOk(code: seq<Word>, dest: int) {
    0 <= dest < |code| && RunBefore(code, dest) % 2 == 0
  }

  predicate OperandsOk(pt: Proto, pc: nat)
    requires pc < |pt.code|
  {
    var i := pt.code[pc];
    var op := Op(i);
    && op < NUM_OPCODES && RegOk(pt, ArgA(i))
    && match ModeOf(op)
       case ABC => ArgOk(pt, ArgB(i), BMode(op)) && ArgOk(pt, ArgC(i), CMode(op))
       case ABx => BMode(op) == ArgK ==> ArgBx(i) < |pt.kIsString|
       case AsBx => JumpOk(pt.code, pc + 1 + ArgSBx(i))
  }

  predicate SkipOk(pt: Proto, pc: nat)
    requires pc < |pt.code|
  {
    pc + 2 < |pt.code| && !SetList0(pt.code[pc + 1])
  }

  /** The checks for one opcode. */
  predicate SpecificOk(pt: Proto, pc: nat)
    requires Precheck(pt) && pc < |pt.code| && OperandsOk(pt, pc)
  {
    var i := pt.code[pc];
    var op, a, b, c := Op(i), ArgA(i), ArgB(i), ArgC(i);
    && (op == LOADBOOL && c == 1 ==> SkipOk(pt, pc))
    && (op in {GETUPVAL, SETUPVAL} ==> b < pt.nups)
    && (op in {GETGLOBAL, SETGLOBAL} ==> pt.kIsString[ArgBx(i)])
    && (op == SELF ==> RegOk(pt, a + 1))
    && (op == CONCAT ==> b < c)
    && (op == TFORLOOP ==> c >= 1 && RegOk(pt, a + 2 + c))
    && (op in {FORLOOP, FORPREP} ==> RegOk(pt, a + 3))
    && (op in {CALL, TAILCALL} ==>
          && (b != 0 ==> RegOk(pt, a + b - 1))
          && (if c == 0 then OpenOpOk(pt.code[pc + 1]) else c != 1 ==> RegOk(pt, a + c - 2)))
    && (op == RETURN ==> (b > 1 ==> RegOk(pt, a + b - 2)))
    && (op == SETLIST ==> (b > 0 ==> RegOk(pt, a + b)) && (c == 0 ==> pc + 1 < |pt.code| - 1))
    && (op == CLOSURE ==> ClosureOk(pt, pc, ArgBx(i)))
    && (op == VARARG ==> pt.isVararg && !pt.needsArg && (b == 0 ==> OpenOpOk(pt.code[pc + 1])) && RegOk(pt, a + b - 2))
  }

  predicate ClosureOk(pt: Proto, pc: nat, b: nat) {
    && b < |pt.subNups| && pc + pt.subNups[b] < |pt.code|
    && forall q :: pc < q <= pc + pt.subNups[b] ==> Op(pt.code[q]) in {GETUPVAL, MOVE}
  }

  predicate WordOk(pt: Proto, pc: nat)
    requires Precheck(pt) && pc < |pt.code|
  {
    && OperandsOk(pt, pc)
    && (IsTest(Op(pt.code[pc])) ==> pc + 2 < |pt.code| && Op(pt.code[pc + 1]) == JMP)
    && SpecificOk(pt, pc)
  }

  /** What the checker accepts: every word that is an instruction is in order. */
  ghost predicate Accepted(pt: Proto) {
    Precheck(pt) && forall pc :: 0 <= pc < |pt.code| && Instr(pt.code, pc) ==> WordOk(pt, pc)
  }

  // ----- the checker -----

  /** The loop over the pseudo-instructions after a CLOSURE. */
  method CheckClosure(pt: Proto, pc: nat, b: nat) returns (ok: bool)
    requires pc < |pt.code|
    ensures ok == ClosureOk(pt, pc, b)
  {
    if b >= |pt.subNups| {
      return false;
    }
    var nup := pt.subNups[b];
    if pc + nup >= |pt.code| {
      return false;
    }
    var j := 1;
    while j <= nup
      invariant 1 <= j <= nup + 1
      invariant forall q :: pc < q < pc + j ==> Op(pt.code[q]) in {GETUPVAL, MOVE}
    {
      var op1 := Op(pt.code[pc + j]);
      if op1 != GETUPVAL && op1 != MOVE {
        return false;
      }
      j := j + 1;
    }
    return true;
  }

  /** The checks of the operands and of the instruction that a test needs after it. */
  method CheckOperands(pt: Proto, pc: nat) returns (ok: bool)
    requires Precheck(pt) && pc < |pt.code|
    ensures ok == (OperandsOk(pt, pc) && (IsTest(Op(pt.code[pc])) ==> pc + 2 < |pt.code| && Op(pt.code[pc + 1]) == JMP))
  {
    var i := pt.code[pc];
    var op := Op(i);
    hide Op;
    hide ArgA;
    hide ArgB;
    hide ArgC;
    hide ArgBx;
    if !(op < NUM_OPCODES && RegOk(pt, ArgA(i))) {
      return false;
    }
    match ModeOf(op) {
      case ABC =>
        if !ArgOk(pt, ArgB(i), BMode(op)) || !ArgOk(pt, ArgC(i), CMode(op)) {
          return false;
        }
      case ABx =>
        if BMode(op) == ArgK && ArgBx(i) >= |pt.kIsString| {
          return false;
        }
      case AsBx =>
        var dest := pc + 1 + ArgSBx(i);
        if !(0 <= dest < |pt.code|) {
          return false;
        }
        if dest > 0 {
          // by Parity the target must be an instruction
          var j := CountRun(pt.code, dest);
          if j % 2 != 0 {
            return false;
          }
        }
    }
    return !IsTest(op) || (pc + 2 < |pt.code| && Op(pt.code[pc + 1]) == JMP);
  }

  /** The last instruction is a RETURN, so other instructions are followed by one more. */
  lemma NotLast(pt: Proto, pc: nat)
    requires Precheck(pt) && pc < |pt.code| && Op(pt.code[pc]) != RETURN
    ensures pc + 1 < |pt.code|
  {
  }

  /** The `switch` with the checks for one opcode. */
  method CheckSpecific(pt: Proto, pc: nat) returns (ok: bool)
    requires Precheck(pt) && pc < |pt.code| && OperandsOk(pt, pc)
    ensures ok == SpecificOk(pt, pc)
  {
    var i := pt.code[pc];
    var op, a, b, c := Op(i), ArgA(i), ArgB(i), ArgC(i);
    if op != RETURN {
      NotLast(pt, pc);
    }
    if op == CLOSURE {
      ok := CheckClosure(pt, pc, ArgBx(i));
      return;
    }
    if op == GETGLOBAL || op == SETGLOBAL {
      return pt.kIsString[ArgBx(i)];
    }
    hide Op;
    hide ArgA;
    hide ArgB;
    hide ArgC;
    hide ArgBx;
    hide OperandsOk;
    if op == LOADBOOL {
      return c != 1 || (pc + 2 < |pt.code| && (Op(pt.code[pc + 1]) != SETLIST || ArgC(pt.code[pc + 1]) != 0));
    } else if op == GETUPVAL || op == SETUPVAL {
      return b < pt.nups;
    } else if op == SELF {
      return RegOk(pt, a + 1);
    } else if op == CONCAT {
      return b < c;
    } else if op == TFORLOOP {
      return c >= 1 && RegOk(pt, a + 2 + c);
    } else if op == FORLOOP || op == FORPREP {
      return RegOk(pt, a + 3);
    } else if op == CALL || op == TAILCALL {
      var nresults := c - 1;
      return (b == 0 || RegOk(pt, a + b - 1)) &&
             (if nresults == -1 then OpenOpOk(pt.code[pc + 1]) else nresults == 0 || RegOk(pt, a + nresults - 1));
    } else if op == RETURN {
      return b - 1 <= 0 || RegOk(pt, a + (b - 1) - 1);
    } else if op == SETLIST {
      return (b == 0 || RegOk(pt, a + b)) && (c != 0 || pc + 1 < |pt.code| - 1);
    } else if op == VARARG {
      return pt.isVararg && !pt.needsArg && (b != 0 || OpenOpOk(pt.code[pc + 1])) && RegOk(pt, a + (b - 1) - 1);
    } else {
      return true;
    }
  }

  /** The instruction changes register `reg` beyond what its mode says. */
  predicate AlsoChanges(i: Word, reg: nat) {
    var op, a, b := Op(i), ArgA(i), ArgB(i);
    || (op == LOADNIL && a <= reg <= b)
    || (op == SELF && reg == a + 1)
    || (op == TFORLOOP && reg >= a + 2)
    || (op in {CALL, TAILCALL} && reg >= a)
  }

  /** `symbexec`. A full check is one up to the end of the code without a register to trace; only then
      are jumps and pseudo-instructions not followed. The result is zero if a check fails. */
  method SymbExec(pt: Proto, lastpc: nat, reg: nat) returns (w: Word)
    requires lastpc <= |pt.code|
    ensures lastpc == |pt.code| && reg == NO_REG ==> (w != 0 <==> Accepted(pt))
  {
    hide OperandsOk;
    hide SpecificOk;
    hide Instr;
    if !Precheck(pt) {
      return 0;
    }
    ghost var full := lastpc == |pt.code| && reg == NO_REG;
    var last := |pt.code| - 1;  // Precheck asks for a RETURN there
    var pc := 0;
    FirstInstr(pt.code);
    while pc < lastpc
      invariant 0 <= last < |pt.code| && (reg == NO_REG ==> Op(pt.code[last]) != MOVE)
      invariant full ==> pc <= |pt.code| && Instr(pt.code, pc)
      invariant full ==> forall q :: 0 <= q < pc && Instr(pt.code, q) ==> WordOk(pt, q)
      decreases lastpc - pc
    {
      var i := pt.code[pc];
      var ok := CheckOperands(pt, pc);
      if !ok {
        return 0;
      }
      ok := CheckSpecific(pt, pc);
      if !ok {
        return 0;
      }
      RegisterFits(pt, pc);
      if (SetsA(Op(i)) && ArgA(i) == reg) || AlsoChanges(i, reg) {
        last := pc;
      }
      var next := pc + 1;
      if Op(i) in {JMP, FORLOOP, FORPREP} {
        var dest := pc + 1 + ArgSBx(i);
        // a trace follows a jump that does not pass its end
        if reg != NO_REG && pc < dest <= lastpc {
          next := dest;
        }
      } else if Op(i) == SETLIST && ArgC(i) == 0 {
        next := pc + 2;
      } else if Op(i) == CLOSURE && reg != NO_REG {
        SubIndex(pt, pc);
        next := pc + 1 + pt.subNups[ArgBx(i)];  // ClosureOk covers the words that are skipped
      }
      NextInstr(pt, pc);
      pc := next;
    }
    ZeroIsMove();
    return pt.code[last];
  }

  lemma FirstInstr(code: seq<Word>)
    ensures Instr(code, 0)
  {
  }

  lemma ZeroIsMove()
    ensures Op(0) == MOVE
  {
  }

  lemma RegisterFits(pt: Proto, pc: nat)
    requires Precheck(pt) && pc < |pt.code| && OperandsOk(pt, pc)
    ensures ArgA(pt.code[pc]) < MAXSTACK
  {
  }

  lemma SubIndex(pt: Proto, pc: nat)
    requires Precheck(pt) && pc < |pt.code| && WordOk(pt, pc) && Op(pt.code[pc]) == CLOSURE
    ensures ArgBx(pt.code[pc]) < |pt.subNups|
  {
  }

  /** The instruction after an instruction. */
  lemma NextInstr(pt: Proto, pc: nat)
    requires Precheck(pt) && pc < |pt.code| && WordOk(pt, pc)
    ensures SetList0(pt.code[pc]) ==> pc + 2 < |pt.code| && (Instr(pt.code, pc) ==> !Instr(pt.code, pc + 1) && Instr(pt.code, pc + 2))
    ensures !SetList0(pt.code[pc]) ==> Instr(pt.code, pc + 1)
  {
  }

  /** `luaG_checkcode`. */
  method CheckCode(pt: Proto) returns (ok: bool)
    ensures ok <==> Accepted(pt)
  {
    var w := SymbExec(pt, |pt.code|, NO_REG);
    return w != 0;
  }

  // ----- the virtual machine -----

  /** Where the virtual machine may go from instruction `pc`, inside the same function: a RETURN
      leaves it, and a call comes back to the next instruction. */
  function Successors(pt: Proto, pc: nat): set<int>
    requires pc < |pt.code|
  {
    var i := pt.code[pc];
    var op, n := Op(i), pc + 1;
    if op == RETURN then {}
    else if op == LOADBOOL then {if ArgC(i) != 0 then n + 1 else n}
    else if op in {JMP, FORPREP} then {n + ArgSBx(i)}
    else if op == FORLOOP then {n, n + ArgSBx(i)}
    else if IsTest(op) then {n + 1, n + (if n < |pt.code| then ArgSBx(pt.code[n]) else 0) + 1}
    else if op == SETLIST then {if ArgC(i) == 0 then n + 1 else n}
    else if op == CLOSURE then {n + if ArgBx(i) < |pt.subNups| then pt.subNups[ArgBx(i)] else 0}
    else {n}
  }

  /** A position where the machine may be: inside the code and on an instruction. */
  predicate Good(pt: Proto, pc: int) {
    0 <= pc < |pt.code| && Instr(pt.code, pc)
  }

  /** No step from an instruction goes astray. */
  ghost predicate Safe(pt: Proto) {
    forall pc, q {:trigger Instr(pt.code, pc), q in Successors(pt, pc)} ::
      0 <= pc < |pt.code| && Instr(pt.code, pc) && q in Successors(pt, pc) ==> Good(pt, q)
  }

  /** A LOADBOOL may have any nonzero C to skip an instruction, but the checker looks only at 1. */
  ghost predicate SkipsOk(pt: Proto) {
    forall pc {:trigger Instr(pt.code, pc)} ::
      0 <= pc < |pt.code| && Instr(pt.code, pc) && Op(pt.code[pc]) == LOADBOOL && ArgC(pt.code[pc]) >= 2 ==> SkipOk(pt, pc)
  }

  lemma JumpIsGood(pt: Proto, dest: int)
    requires JumpOk(pt.code, dest)
    ensures Good(pt, dest)
  {
    Parity(pt.code, dest);
  }

  lemma FallsThrough(pt: Proto, pc: nat)
    requires Precheck(pt) && pc < |pt.code| && Op(pt.code[pc]) != RETURN && !SetList0(pt.code[pc])
    ensures Good(pt, pc + 1)
  {
  }

  /** The target of a jump instruction that is an instruction. */
  lemma TargetIsGood(pt: Proto, pc: nat)
    requires Accepted(pt) && Good(pt, pc) && Op(pt.code[pc]) in {JMP, FORLOOP, FORPREP}
    ensures Good(pt, pc + 1 + ArgSBx(pt.code[pc]))
  {
    hide Op;
    hide ArgBx;
    hide Instr;
    assert WordOk(pt, pc);
    JumpIsGood(pt, pc + 1 + ArgSBx(pt.code[pc]));
  }

  /** A test skips a jump, or does it. */
  lemma TestIsGood(pt: Proto, pc: nat)
    requires Accepted(pt) && Good(pt, pc) && IsTest(Op(pt.code[pc]))
    ensures pc + 1 < |pt.code| && Good(pt, pc + 2) && Good(pt, pc + 2 + ArgSBx(pt.code[pc + 1]))
  {
    hide ArgBx;
    hide ArgSBx;
    assert WordOk(pt, pc);
    FallsThrough(pt, pc);
    FallsThrough(pt, pc + 1);
    TargetIsGood(pt, pc + 1);
  }

  lemma {:induction false} AfterPseudo(pt: Proto, pc: nat, n: nat)
    requires Precheck(pt) && pc + n < |pt.code| && Op(pt.code[pc]) == CLOSURE
    requires forall q :: pc < q <= pc + n ==> Op(pt.code[q]) in {GETUPVAL, MOVE}
    ensures Good(pt, pc + n + 1)
  {
    FallsThrough(pt, pc + n);
  }

  lemma ClosureIsGood(pt: Proto, pc: nat)
    requires Accepted(pt) && Good(pt, pc) && Op(pt.code[pc]) == CLOSURE
    ensures ArgBx(pt.code[pc]) < |pt.subNups| && Good(pt, pc + 1 + pt.subNups[ArgBx(pt.code[pc])])
  {
    hide ArgA;
    hide ArgB;
    hide ArgC;
    hide ArgBx;
    hide Instr;
    assert WordOk(pt, pc);
    AfterPseudo(pt, pc, pt.subNups[ArgBx(pt.code[pc])]);
  }

  lemma SetListIsGood(pt: Proto, pc: nat)
    requires Accepted(pt) && Good(pt, pc) && Op(pt.code[pc]) == SETLIST
    ensures Good(pt, if ArgC(pt.code[pc]) == 0 then pc + 2 else pc + 1)
  {
    assert WordOk(pt, pc);
    hide OperandsOk;
    NextInstr(pt, pc);
    NotLast(pt, pc);
  }

  /** Skipping is safe exactly when what is skipped is a whole instruction that is not the last. */
  lemma SkipIsGood(pt: Proto, pc: nat)
    requires Precheck(pt) && Good(pt, pc) && Op(pt.code[pc]) == LOADBOOL
    ensures SkipOk(pt, pc) <==> Good(pt, pc + 2)
  {
    NotLast(pt, pc);
    hide Op;
    assert Instr(pt.code, pc + 1) by { assert !SetList0(pt.code[pc]); }
  }

  lemma StepIsGood(pt: Proto, pc: nat, q: int)
    requires Accepted(pt) && SkipsOk(pt) && Good(pt, pc) && q in Successors(pt, pc)
    ensures Good(pt, q)
  {
    hide ArgBx;
    hide ArgSBx;
    var i := pt.code[pc];
    var op := Op(i);
    hide Instr;
    if op == LOADBOOL {
      LoadBoolIsGood(pt, pc);
    } else if op in {JMP, FORPREP} {
      TargetIsGood(pt, pc);
    } else if op == FORLOOP {
      TargetIsGood(pt, pc);
      FallsThrough(pt, pc);
    } else if IsTest(op) {
      TestIsGood(pt, pc);
    } else if op == SETLIST {
      SetListIsGood(pt, pc);
    } else if op == CLOSURE {
      ClosureIsGood(pt, pc);
    } else {
      FallsThrough(pt, pc);
    }
  }

  lemma LoadBoolIsGood(pt: Proto, pc: nat)
    requires Accepted(pt) && SkipsOk(pt) && Good(pt, pc) && Op(pt.code[pc]) == LOADBOOL
    ensures Good(pt, if ArgC(pt.code[pc]) != 0 then pc + 2 else pc + 1)
  {
    if ArgC(pt.code[pc]) == 0 {
      FallsThrough(pt, pc);
    } else {
      assert WordOk(pt, pc) && Instr(pt.code, pc);
      hide OperandsOk;
      SkipIsGood(pt, pc);
    }
  }

  /** Of the code that the checker accepts, exactly that is safe in which every LOADBOOL with a C of 2
      or more skips a whole instruction. */
  lemma AcceptedIsSafe(pt: Proto)
    requires Accepted(pt)
    ensures Safe(pt) <==> SkipsOk(pt)
  {
    if SkipsOk(pt) {
      forall pc, q | 0 <= pc < |pt.code| && Instr(pt.code, pc) && q in Successors(pt, pc) ensures Good(pt, q) {
        StepIsGood(pt, pc, q);
      }
    } else {
      var pc :| 0 <= pc < |pt.code| && Instr(pt.code, pc) && Op(pt.code[pc]) == LOADBOOL && ArgC(pt.code[pc]) >= 2 && !SkipOk(pt, pc);
      SkipIsGood(pt, pc);
      assert pc + 2 in Successors(pt, pc) && !Good(pt, pc + 2);
    }
  }

  /** Code in which C of every LOADBOOL is 0 or 1, which is all that the code generator emits. */
  lemma GeneratedIsSafe(pt: Proto)
    requires Accepted(pt)
    requires forall pc :: 0 <= pc < |pt.code| && Op(pt.code[pc]) == LOADBOOL ==> ArgC(pt.code[pc]) <= 1
    ensures Safe(pt)
  {
    AcceptedIsSafe(pt);
  }

  /** The positions of a run of the machine from the start of the function. */
  ghost predicate IsRun(pt: Proto, pcs: seq<int>) {
    && |pcs| > 0 && pcs[0] == 0
    && forall i, j {:trigger pcs[i], pcs[j]} :: 0 <= i && j == i + 1 < |pcs| ==>
         0 <= pcs[i] < |pt.code| && pcs[j] in Successors(pt, pcs[i])
  }

  /** Every run stays inside the code and on instructions. */
  lemma {:induction false} RunsAreGood(pt: Proto, pcs: seq<int>, k: nat)
    requires Accepted(pt) && Safe(pt) && IsRun(pt, pcs) && k < |pcs|
    ensures Good(pt, pcs[k])
  {
    if k > 0 {
      RunsAreGood(pt, pcs, k - 1);
      var pc, q := pcs[k - 1], pcs[k];
      assert Instr(pt.code, pc) && q in Successors(pt, pc);
    }
  }

  // ----- what the checker does not see -----

  /** LOADBOOL 0 0 2; RETURN 0 1 0. */
  function SkipTooFar(): Proto {
    Proto([2 + 2 * 0x4000, 30 + 0x80_0000], 2, 0, false, false, false, 0, 0, 0, [], [])
  }

  /** The checker accepts it, and its first instruction skips the last one. */
  lemma SkipTooFarIsAccepted()
    ensures Accepted(SkipTooFar()) && 2 in Successors(SkipTooFar(), 0) && !Safe(SkipTooFar())
  {
    var pt := SkipTooFar();
    assert Op(pt.code[0]) == LOADBOOL && ArgC(pt.code[0]) == 2 && ArgA(pt.code[0]) == 0;
    assert Op(pt.code[1]) == RETURN && ArgA(pt.code[1]) == 0 && ArgB(pt.code[1]) == 1 && ArgC(pt.code[1]) == 0;
    hide Op;
    hide ArgA;
    hide ArgB;
    hide ArgC;
    hide ArgBx;
    assert WordOk(pt, 0) && WordOk(pt, 1);
    assert Instr(pt.code, 0) && 2 in Successors(pt, 0) && !Good(pt, 2);
  }
}
