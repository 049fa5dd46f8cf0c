/** What the operators mean (lua/lvm.c). */
module ExpMeaning {
  // Sections 2.5.2 and 2.5.3 of the Lua 5.1 Reference Manual, stated without the functions that the
  // source language and the machine share.

  import opened Bytecode
  import opened ExpSemantics
  import opened Compile

  /** Strings in the order of a dictionary: up to some place they are the same, and there `s` ends or has
      the smaller character. */
  ghost predicate Precedes(s: string, t: string) {
    exists i: nat :: i <= |s| && i < |t| && s[..i] == t[..i] && (i == |s| || s[i] < t[i])
  }

  lemma {:induction false} StrLessIsPrecedes(s: string, t: string)
    ensures StrLess(s, t) <==> Precedes(s, t)
  {
    if t == "" {
    } else if s == "" {
      assert s[..0] == t[..0];
    } else {
      StrLessIsPrecedes(s[1..], t[1..]);
      if s[0] < t[0] {
        assert s[..0] == t[..0];
      }
      if s[0] == t[0] && Precedes(s[1..], t[1..]) {
        var i: nat :| i <= |s[1..]| && i < |t[1..]| && s[1..][..i] == t[1..][..i] && (i == |s[1..]| || s[1..][i] < t[1..][i]);
        assert s[..i + 1] == [s[0]] + s[1..][..i] && t[..i + 1] == [t[0]] + t[1..][..i];
      }
      if Precedes(s, t) {
        var i: nat :| i <= |s| && i < |t| && s[..i] == t[..i] && (i == |s| || s[i] < t[i]);
        if i > 0 {
          assert s[0] == s[..i][0] == t[..i][0] == t[0];
          assert s[1..][..i - 1] == s[..i][1..] && t[1..][..i - 1] == t[..i][1..];
        }
      }
    }
  }

  /** What a comparison operator decides for two numbers. */
  predicate NumbersCompare(op: BinOpr, a: real, b: real)
    requires !op.OprAnd? && !op.OprOr?
  {
    match op
    case OprEq => a == b
    case OprNe => a != b
    case OprLt => a < b
    case OprLe => a <= b
    case OprGt => a > b
    case OprGe => a >= b
  }

  ghost predicate StringsCompare(op: BinOpr, s: string, t: string)
    requires !op.OprAnd? && !op.OprOr?
  {
    match op
    case OprEq => s == t
    case OprNe => s != t
    case OprLt => Precedes(s, t)
    case OprLe => !Precedes(t, s)
    case OprGt => Precedes(t, s)
    case OprGe => !Precedes(s, t)
  }

  /** A comparison of two values: any two may be tested for equality, and values of different types are
      different; numbers and strings are ordered; to order anything else is an error. */
  lemma ComparisonMeans(op: BinOpr, l: Expr, r: Expr, R: Registers, v: Value, w: Value)
    requires !op.OprAnd? && !op.OprOr? && Eval(l, R) == Ok(v) && Eval(r, R) == Ok(w)
    ensures v.Number? && w.Number? ==> Eval(BinE(op, l, r), R) == Ok(Boolean(NumbersCompare(op, v.n, w.n)))
    ensures v.Str? && w.Str? ==> Eval(BinE(op, l, r), R) == Ok(Boolean(StringsCompare(op, v.s, w.s)))
    ensures op.OprEq? ==> Eval(BinE(op, l, r), R) == Ok(Boolean(v == w))
    ensures op.OprNe? ==> Eval(BinE(op, l, r), R) == Ok(Boolean(v != w))
    ensures !op.OprEq? && !op.OprNe? && !(v.Number? && w.Number?) && !(v.Str? && w.Str?) ==> Eval(BinE(op, l, r), R) == Error
  {
    if v.Str? && w.Str? {
      StrLessIsPrecedes(v.s, w.s);
      StrLessIsPrecedes(w.s, v.s);
    }
  }

  /** An operand that is an error makes the operation one, unless the left operand decides. */
  lemma ErrorsPass(op: BinOpr, l: Expr, r: Expr, R: Registers)
    ensures Eval(l, R) == Error ==> Eval(BinE(op, l, r), R) == Error && Eval(NotE(l), R) == Error
    ensures !op.OprAnd? && !op.OprOr? && Eval(r, R) == Error ==> Eval(BinE(op, l, r), R) == Error
  {
  }

  /** Only nil and false are false; `and` and `or` give one of their operands, and evaluate the right one
      only if the left one does not decide. */
  lemma LogicMeans(l: Expr, r: Expr, R: Registers, v: Value)
    requires Eval(l, R) == Ok(v)
    ensures Eval(NotE(l), R) == Ok(Boolean(v == Nil || v == Boolean(false)))
    ensures Eval(BinE(OprAnd, l, r), R) == if v == Nil || v == Boolean(false) then Ok(v) else Eval(r, R)
    ensures Eval(BinE(OprOr, l, r), R) == if v == Nil || v == Boolean(false) then Eval(r, R) else Ok(v)
  {
  }

  /** Constants, and local variables: a variable has the value last assigned to it, and nil before. */
  lemma AtomsMean(n: real, s: string, R: Registers, x: nat, v: Value)
    ensures Eval(NumE(n), R) == Ok(Number(n)) && Eval(StrE(s), R) == Ok(Str(s))
    ensures Eval(NilE, R) == Ok(Nil) && Eval(TrueE, R) == Ok(Boolean(true)) && Eval(FalseE, R) == Ok(Boolean(false))
    ensures Eval(LocalE(x), R[x := v]) == Ok(v) && Eval(LocalE(x), map[]) == Ok(Nil)
    ensures forall y :: y != x ==> Eval(LocalE(y), R[x := v]) == Eval(LocalE(y), R)
  {
  }

  // ----- compiled comparisons -----

  /** The machine, run on the code, halts with the value in the register. */
  ghost predicate HaltsWith(code: seq<Instruction>, k: seq<Value>, R0: Registers, reg: nat, v: Value)
    requires Executable(code, k) && |code| > 0
  {
    exists n: nat {:trigger Steps(code, k, Running(0, R0), n)} ::
      var m := Steps(code, k, Running(0, R0), n);
      m.Halted? && Get(m.regs, reg) == v
  }

  /** `return a <op> b` for two numbers. */
  method CompareNumbers(op: BinOpr, a: real, b: real) returns (code: seq<Instruction>, k: seq<Value>, reg: nat)
    requires !op.OprAnd? && !op.OprOr?
    ensures Executable(code, k) && |code| > 0
    ensures HaltsWith(code, k, map[], reg, Boolean(NumbersCompare(op, a, b)))
  {
    hide Executable;
    code, k, reg := CompileReturn(BinE(op, NumE(a), NumE(b)), 0);
    AtomsMean(a, "", map[], 0, Nil);
    AtomsMean(b, "", map[], 0, Nil);
    ComparisonMeans(op, NumE(a), NumE(b), map[], Number(a), Number(b));
    CleanStart();
    hide Eval;
    assert RunsTo(code, k, map[], 0, BinE(op, NumE(a), NumE(b)), reg);
  }

  /** `return s <op> t` for two strings. */
  method CompareStrings(op: BinOpr, s: string, t: string) returns (code: seq<Instruction>, k: seq<Value>, reg: nat)
    requires !op.OprAnd? && !op.OprOr?
    ensures Executable(code, k) && |code| > 0
    ensures HaltsWith(code, k, map[], reg, Boolean(StringsCompare(op, s, t)))
  {
    hide Executable;
    code, k, reg := CompileReturn(BinE(op, StrE(s), StrE(t)), 0);
    AtomsMean(0.0, s, map[], 0, Nil);
    AtomsMean(0.0, t, map[], 0, Nil);
    ComparisonMeans(op, StrE(s), StrE(t), map[], Str(s), Str(t));
    CleanStart();
    hide Eval;
    assert RunsTo(code, k, map[], 0, BinE(op, StrE(s), StrE(t)), reg);
  }

  lemma CleanStart()
    ensures CleanAbove(map[], 0)
  {
  }
}
