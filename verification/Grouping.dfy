/** The grammar behind the operator priorities (lua/lparser.c). */
module Grouping {
  // Section 2.5.6 of the Lua 5.1 Reference Manual lists the operators from lower to higher priority:
  // `or`; `and`; the comparisons; `..`; `+ -`; `* / %`; `not # -` (unary); `^`. Concatenation and power
  // are right associative. What `subexpr` reads with its table of numbers is this grammar.
  import opened Basics
  import opened Precedence

  function Level(op: BinOp): (n: nat)
    ensures 1 <= n <= 8 && n != 7
  {
    if op == Or then 1
    else if op == And then 2
    else if op in {Lt, Gt, Le, Ge, Ne, Eq} then 3
    else if op == Concat then 4
    else if op in {Add, Sub} then 5
    else if op in {Mul, Div, Mod} then 6
    else 8
  }

  const UNARY_LEVEL: nat := 7
  const OPERAND_LEVEL: nat := 9

  function RootLevel(e: Tree): nat {
    match e
    case Unary(_, _) => UNARY_LEVEL
    case Binary(op, _, _) => Level(op)
    case _ => OPERAND_LEVEL
  }

  /** The operands of an operator are of its level or above: the one on the side to which it does not
      associate is strictly above. A power may have a unary operator in its exponent. */
  predicate InGrammar(e: Tree) {
    match e
    case Leaf(_) => true
    case Group(x) => InGrammar(x)
    case Unary(_, x) => InGrammar(x) && RootLevel(x) >= UNARY_LEVEL
    case Binary(op, l, r) =>
      && InGrammar(l) && InGrammar(r)
      && if op == Pow then RootLevel(l) == OPERAND_LEVEL && RootLevel(r) >= UNARY_LEVEL
         else if op == Concat then RootLevel(l) > Level(op) && RootLevel(r) >= Level(op)
         else RootLevel(l) >= Level(op) && RootLevel(r) > Level(op)
  }

  // ----- the numbers mean the grammar -----

  /** Only the operator at the root meets the limit. */
  lemma {:induction false} LimitIsAtRoot(e: Tree, limit: nat)
    ensures Respects(e, limit) <==> Respects(e, 0) && (e.Binary? ==> Left(e.op) > limit)
  {
    if e.Binary? {
      LimitIsAtRoot(e.l, limit);
      hide Respects;
    }
  }

  lemma {:induction false} BindsAtLeast(e: Tree, limit: nat)
    requires Respects(e, limit)
    ensures Binds(e) >= Min(limit, UNARY)
  {
    match e
    case Unary(_, x) => BindsAtLeast(x, UNARY);
    case Binary(op, _, r) => BindsAtLeast(r, Right(op));
    case _ =>
  }

  lemma BindsByRoot(e: Tree)
    requires Respects(e, 0)
    ensures match e
      case Unary(_, _) => Binds(e) == UNARY
      case Binary(op, _, _) => if op == Pow then UNARY <= Binds(e) <= 9 else Binds(e) == Right(op)
      case _ => Binds(e) == TOP
  {
    match e
    case Unary(_, x) => BindsAtLeast(x, UNARY);
    case Binary(op, _, r) => BindsAtLeast(r, Right(op));
    case _ =>
  }

  /** Whether an operator takes the tree whole depends on the root. */
  lemma TakesWhole(e: Tree, op: BinOp)
    requires Respects(e, 0)
    ensures Left(op) <= Binds(e) <==>
      if op == Pow then RootLevel(e) == OPERAND_LEVEL
      else if op == Concat then RootLevel(e) > Level(op)
      else RootLevel(e) >= Level(op)
  {
    BindsByRoot(e);
    match e
    case Binary(_, _, _) =>
      hide Binds;
      hide Respects;
    case _ =>
  }

  lemma {:induction false} RespectsIsGrammar(e: Tree)
    ensures Respects(e, 0) <==> InGrammar(e)
  {
    match e
    case Leaf(_) =>
    case Group(x) => RespectsIsGrammar(x);
    case Unary(_, x) =>
      RespectsIsGrammar(x);
      LimitIsAtRoot(x, UNARY);
    case Binary(op, l, r) =>
      RespectsIsGrammar(l);
      RespectsIsGrammar(r);
      LimitIsAtRoot(r, Right(op));
      if Respects(l, 0) {
        TakesWhole(l, op);
      }
  }

  /** `subexpr` reads all of a text as `e` exactly if `e` is a tree of the grammar with these tokens. */
  lemma ReadsTheGrammar(ts: seq<Token>, e: Tree)
    ensures SubExpr(ts, 0) == Ok(e, []) <==> InGrammar(e) && Print(e) == ts
  {
    RespectsIsGrammar(e);
    ReadsRespecting(ts, 0);
    if SubExpr(ts, 0) == Ok(e, []) {
      assert Print(e) + [] == Print(e);
    }
    if InGrammar(e) && Print(e) == ts {
      ReadsBack(e, 0, []);
      assert ts + [] == ts;
    }
  }

  // ----- how two operators group -----

  /** `a op1 b op2 c`: the operator of the higher level goes first; of one level, the left one does,
      except for `..` and `^`. */
  lemma TwoBinary(a: nat, b: nat, c: nat, op1: BinOp, op2: BinOp)
    ensures var x, y, z := Leaf(a), Leaf(b), Leaf(c);
      SubExpr([Operand(a), BinToken(op1), Operand(b), BinToken(op2), Operand(c)], 0) ==
        if Level(op1) > Level(op2) || (Level(op1) == Level(op2) && op1 != Concat && op1 != Pow)
        then Ok(Binary(op2, Binary(op1, x, y), z), [])
        else Ok(Binary(op1, x, Binary(op2, y, z)), [])
  {
    var ts := [Operand(a), BinToken(op1), Operand(b), BinToken(op2), Operand(c)];
    var x, y, z := Leaf(a), Leaf(b), Leaf(c);
    hide SubExpr;
    assert Print(Binary(op1, x, y)) == [Operand(a), BinToken(op1), Operand(b)];
    assert Print(Binary(op2, y, z)) == [Operand(b), BinToken(op2), Operand(c)];
    var left, right := Binary(op2, Binary(op1, x, y), z), Binary(op1, x, Binary(op2, y, z));
    assert Print(left) == ts && Print(right) == ts;
    assert InGrammar(Binary(op1, x, y));
    assert InGrammar(Binary(op2, y, z));
    ReadsTheGrammar(ts, left);
    ReadsTheGrammar(ts, right);
  }

  /** `uop a op b`: only a power is inside the operand of a unary operator. */
  lemma UnaryFirst(a: nat, b: nat, op: BinOp)
    ensures SubExpr([Minus, Operand(a), BinToken(op), Operand(b)], 0) ==
      if op == Pow then Ok(Unary(Neg, Binary(Pow, Leaf(a), Leaf(b))), [])
      else Ok(Binary(op, Unary(Neg, Leaf(a)), Leaf(b)), [])
  {
    var ts := [Minus, Operand(a), BinToken(op), Operand(b)];
    hide SubExpr;
    assert Print(Binary(op, Leaf(a), Leaf(b))) == [Operand(a), BinToken(op), Operand(b)];
    assert Print(Unary(Neg, Leaf(a))) == [Minus, Operand(a)];
    var inside, outside := Unary(Neg, Binary(op, Leaf(a), Leaf(b))), Binary(op, Unary(Neg, Leaf(a)), Leaf(b));
    assert Print(inside) == ts && Print(outside) == ts;
    assert InGrammar(Binary(op, Leaf(a), Leaf(b)));
    assert InGrammar(Unary(Neg, Leaf(a)));
    ReadsTheGrammar(ts, inside);
    ReadsTheGrammar(ts, outside);
  }

  /** `a - b - c` and `a ^ - b ^ c`. */
  lemma MinusSigns(a: nat, b: nat, c: nat)
    ensures var x, y, z := Leaf(a), Leaf(b), Leaf(c);
      && SubExpr([Operand(a), Minus, Operand(b), Minus, Operand(c)], 0) == Ok(Binary(Sub, Binary(Sub, x, y), z), [])
      && SubExpr([Operand(a), Sign(Pow), Minus, Operand(b), Sign(Pow), Operand(c)], 0)
           == Ok(Binary(Pow, x, Unary(Neg, Binary(Pow, y, z))), [])
  {
    var x, y, z := Leaf(a), Leaf(b), Leaf(c);
    hide SubExpr;
    assert Print(Binary(Sub, x, y)) == [Operand(a), Minus, Operand(b)];
    assert Print(Unary(Neg, Binary(Pow, y, z))) == [Minus, Operand(b), Sign(Pow), Operand(c)] by {
      assert Print(Binary(Pow, y, z)) == [Operand(b), Sign(Pow), Operand(c)];
    }
    var minus, power := Binary(Sub, Binary(Sub, x, y), z), Binary(Pow, x, Unary(Neg, Binary(Pow, y, z)));
    assert Print(minus) == [Operand(a), Minus, Operand(b), Minus, Operand(c)];
    assert Print(power) == [Operand(a), Sign(Pow), Minus, Operand(b), Sign(Pow), Operand(c)];
    assert InGrammar(minus) by { assert InGrammar(minus.l); }
    assert InGrammar(power) by { assert InGrammar(power.r.e); }
    ReadsTheGrammar(Print(minus), minus);
    ReadsTheGrammar(Print(power), power);
  }
}
