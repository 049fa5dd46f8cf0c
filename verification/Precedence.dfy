/** How `subexpr` groups operators (lua/lparser.c). */
module Precedence {
  // The priority table decides, and it leaves no ambiguity (section 2.5.6 of the Lua 5.1 Reference
  // Manual).

  import opened Basics

  datatype BinOp = Add | Sub | Mul | Div | Mod | Pow | Concat | Ne | Eq | Lt | Le | Gt | Ge | And | Or

  datatype UnOp = Neg | Not | Len

  /** The left priority of a binary operator. */
  function Left(op: BinOp): nat {
    match op
    case Add => 6 case Sub => 6 case Mul => 7 case Div => 7 case Mod => 7
    case Pow => 10 case Concat => 5
    case Ne => 3 case Eq => 3
    case Lt => 3 case Le => 3 case Gt => 3 case Ge => 3
    case And => 2 case Or => 1
  }

  /** The right priority: power and concatenation are right associative. */
  function Right(op: BinOp): nat {
    if op == Pow then 9 else if op == Concat then 4 else Left(op)
  }

  const UNARY: nat := 8

  /** Operands are anything that `simpleexp` reads but expressions in parentheses. */
  datatype Token = Operand(id: nat) | Minus | NotSign | LenSign | Sign(op: BinOp) | LPar | RPar | Other

  datatype Tree = Leaf(id: nat) | Group(e: Tree) | Unary(uop: UnOp, e: Tree) | Binary(op: BinOp, l: Tree, r: Tree)

  /** `getunopr`. */
  function GetUnOp(t: Token): Option<UnOp> {
    match t
    case NotSign => Some(Not)
    case Minus => Some(Neg)
    case LenSign => Some(Len)
    case _ => None
  }

  /** `getbinopr`. */
  function GetBinOp(t: Token): Option<BinOp> {
    match t
    case Minus => Some(Sub)
    case Sign(op) => if op == Sub then None else Some(op)
    case _ => None
  }

  function UnToken(op: UnOp): Token {
    match op case Neg => Minus case Not => NotSign case Len => LenSign
  }

  function BinToken(op: BinOp): Token {
    if op == Sub then Minus else Sign(op)
  }

  /** The tokens of a tree, in order. */
  function Print(e: Tree): seq<Token> {
    match e
    case Leaf(id) => [Operand(id)]
    case Group(x) => [LPar] + Print(x) + [RPar]
    case Unary(op, x) => [UnToken(op)] + Print(x)
    case Binary(op, l, r) => Print(l) + ([BinToken(op)] + Print(r))
  }

  // ----- which trees respect the priorities -----

  const TOP: nat := 100

  /** An operator after the tree that binds tighter than this would go to an operand inside it. */
  function Binds(e: Tree): nat {
    match e
    case Binary(op, _, r) => Min(Right(op), Binds(r))
    case Unary(_, x) => Min(UNARY, Binds(x))
    case _ => TOP
  }

  /** The tree groups its operators as the priorities say, all of them above `limit` outside operands. */
  predicate Respects(e: Tree, limit: nat) {
    match e
    case Leaf(_) => true
    case Group(x) => Respects(x, 0)
    case Unary(_, x) => Respects(x, UNARY)
    case Binary(op, l, r) => Left(op) > limit && Respects(l, limit) && Left(op) <= Binds(l) && Respects(r, Right(op))
  }

  /** What follows is no binary operator with a left priority above `b`. */
  predicate Stops(ts: seq<Token>, b: nat) {
    ts == [] || GetBinOp(ts[0]).None? || Left(GetBinOp(ts[0]).v) <= b
  }

  // ----- subexpr -----

  datatype Parsed = Err | Ok(e: Tree, rest: seq<Token>)

  /** What `subexpr` reads from the tokens. */
  function SubExpr(ts: seq<Token>, limit: nat): (r: Parsed)
    ensures r.Ok? ==> |r.rest| < |ts|
    decreases |ts|, 0
  {
    if ts == [] then Err
    else if GetUnOp(ts[0]).Some? then
      match SubExpr(ts[1..], UNARY)
      case Err => Err
      case Ok(x, rest) => Expand(Unary(GetUnOp(ts[0]).v, x), rest, limit)
    else if ts[0].Operand? then Expand(Leaf(ts[0].id), ts[1..], limit)
    else if ts[0] == LPar then
      match SubExpr(ts[1..], 0)
      case Err => Err
      case Ok(x, rest) => if rest != [] && rest[0] == RPar then Expand(Group(x), rest[1..], limit) else Err
    else Err
  }

  /** The tree `v`, and the operators after it that bind tighter than `limit`, with their right operands. */
  function Expand(v: Tree, ts: seq<Token>, limit: nat): (r: Parsed)
    ensures r.Ok? ==> |r.rest| <= |ts|
    decreases |ts|, 1
  {
    if ts != [] && GetBinOp(ts[0]).Some? && Left(GetBinOp(ts[0]).v) > limit then
      var op := GetBinOp(ts[0]).v;
      match SubExpr(ts[1..], Right(op))
      case Err => Err
      case Ok(v2, rest) => Expand(Binary(op, v, v2), rest, limit)
    else Ok(v, ts)
  }

  // ----- trees that respect the priorities are read back -----

  /** After the tokens of a tree, the loop goes on with the tree. */
  lemma {:induction false} PrintExpands(e: Tree, limit: nat, rest: seq<Token>)
    requires Respects(e, limit) && Stops(rest, Binds(e))
    ensures SubExpr(Print(e) + rest, limit) == Expand(e, rest, limit)
    decreases e
  {
    match e
    case Leaf(id) => assert (Print(e) + rest)[1..] == rest;
    case Group(x) => GroupExpands(x, limit, rest);
    case Unary(op, x) => UnaryExpands(op, x, limit, rest);
    case Binary(op, l, r) => BinaryExpands(op, l, r, limit, rest);
  }

  lemma {:induction false} UnaryExpands(op: UnOp, x: Tree, limit: nat, rest: seq<Token>)
    requires Respects(x, UNARY) && Stops(rest, Binds(Unary(op, x)))
    ensures SubExpr(Print(Unary(op, x)) + rest, limit) == Expand(Unary(op, x), rest, limit)
    decreases Unary(op, x), 0
  {
    assert (Print(Unary(op, x)) + rest)[1..] == Print(x) + rest;
    PrintExpands(x, UNARY, rest);
    assert Expand(x, rest, UNARY) == Ok(x, rest);
  }

  lemma {:induction false} GroupExpands(x: Tree, limit: nat, rest: seq<Token>)
    requires Respects(x, 0)
    ensures SubExpr(Print(Group(x)) + rest, limit) == Expand(Group(x), rest, limit)
    decreases Group(x), 0
  {
    var ts := Print(Group(x)) + rest;
    assert ts[1..] == Print(x) + ([RPar] + rest);
    PrintExpands(x, 0, [RPar] + rest);
    assert Expand(x, [RPar] + rest, 0) == Ok(x, [RPar] + rest);
    assert ([RPar] + rest)[1..] == rest;
  }

  lemma {:induction false} BinaryExpands(op: BinOp, l: Tree, r: Tree, limit: nat, rest: seq<Token>)
    requires Respects(Binary(op, l, r), limit) && Stops(rest, Binds(Binary(op, l, r)))
    ensures SubExpr(Print(Binary(op, l, r)) + rest, limit) == Expand(Binary(op, l, r), rest, limit)
    decreases Binary(op, l, r), 0
  {
    hide SubExpr;
    var t1 := [BinToken(op)] + (Print(r) + rest);
    Assoc([BinToken(op)], Print(r), rest);
    Assoc(Print(l), [BinToken(op)] + Print(r), rest);
    assert GetBinOp(t1[0]) == Some(op) && t1[1..] == Print(r) + rest;
    PrintExpands(l, limit, t1);
    PrintExpands(r, Right(op), rest);
    assert Expand(r, rest, Right(op)) == Ok(r, rest);
  }

  /** A tree that respects the priorities is what `subexpr` reads from its tokens. */
  lemma ReadsBack(e: Tree, limit: nat, rest: seq<Token>)
    requires Respects(e, limit) && Stops(rest, Min(limit, Binds(e)))
    ensures SubExpr(Print(e) + rest, limit) == Ok(e, rest)
  {
    PrintExpands(e, limit, rest);
  }

  // ----- and nothing else is read -----

  /** Whatever `subexpr` reads respects the priorities, and it reads as far as it can. */
  lemma {:induction false} ReadsRespecting(ts: seq<Token>, limit: nat)
    ensures var r := SubExpr(ts, limit);
            r.Ok? ==> ts == Print(r.e) + r.rest && Respects(r.e, limit) && Stops(r.rest, Min(limit, Binds(r.e)))
    decreases |ts|, 3
  {
    var r := SubExpr(ts, limit);
    if r.Ok? {
      if GetUnOp(ts[0]).Some? {
        UnaryRespecting(ts, limit);
      } else if ts[0].Operand? {
        assert ts == Print(Leaf(ts[0].id)) + ts[1..];
        ExpandsRespecting(Leaf(ts[0].id), ts[1..], limit);
      } else {
        GroupRespecting(ts, limit);
      }
    }
  }

  lemma {:induction false} UnaryRespecting(ts: seq<Token>, limit: nat)
    requires ts != [] && GetUnOp(ts[0]).Some? && SubExpr(ts, limit).Ok?
    ensures var r := SubExpr(ts, limit);
            ts == Print(r.e) + r.rest && Respects(r.e, limit) && Stops(r.rest, Min(limit, Binds(r.e)))
    decreases |ts|, 2
  {
    var u, x := GetUnOp(ts[0]).v, SubExpr(ts[1..], UNARY);
    assert SubExpr(ts, limit) == Expand(Unary(u, x.e), x.rest, limit);
    ReadsRespecting(ts[1..], UNARY);
    hide SubExpr;
    hide Expand;
    assert ts == [UnToken(u)] + ts[1..];
    Assoc([UnToken(u)], Print(x.e), x.rest);
    ExpandsRespecting(Unary(u, x.e), x.rest, limit);
  }

  lemma {:induction false} GroupRespecting(ts: seq<Token>, limit: nat)
    requires ts != [] && ts[0] == LPar && SubExpr(ts, limit).Ok?
    ensures var r := SubExpr(ts, limit);
            ts == Print(r.e) + r.rest && Respects(r.e, limit) && Stops(r.rest, Min(limit, Binds(r.e)))
    decreases |ts|, 2
  {
    var x := SubExpr(ts[1..], 0);
    assert SubExpr(ts, limit) == Expand(Group(x.e), x.rest[1..], limit);
    ReadsRespecting(ts[1..], 0);
    hide SubExpr;
    hide Expand;
    assert ts == [LPar] + ts[1..] && x.rest == [RPar] + x.rest[1..];
    Assoc([LPar], Print(x.e), [RPar] + x.rest[1..]);
    Assoc([LPar] + Print(x.e), [RPar], x.rest[1..]);
    ExpandsRespecting(Group(x.e), x.rest[1..], limit);
  }

  lemma Assoc(a: seq<Token>, b: seq<Token>, c: seq<Token>)
    ensures a + b + c == a + (b + c)
  {
  }

  lemma {:induction false} ExpandsRespecting(v: Tree, ts: seq<Token>, limit: nat)
    requires Respects(v, limit) && Stops(ts, Binds(v))
    ensures var r := Expand(v, ts, limit);
            r.Ok? ==> Print(v) + ts == Print(r.e) + r.rest && Respects(r.e, limit) && Stops(r.rest, Min(limit, Binds(r.e)))
    decreases |ts|, 1
  {
    hide SubExpr;
    if ts != [] && GetBinOp(ts[0]).Some? && Left(GetBinOp(ts[0]).v) > limit {
      var op := GetBinOp(ts[0]).v;
      ReadsRespecting(ts[1..], Right(op));
      var x := SubExpr(ts[1..], Right(op));
      if x.Ok? {
        assert ts == [BinToken(op)] + (Print(x.e) + x.rest);
        Assoc([BinToken(op)], Print(x.e), x.rest);
        Assoc(Print(v), [BinToken(op)] + Print(x.e), x.rest);
        ExpandsRespecting(Binary(op, v, x.e), x.rest, limit);
      }
    }
  }

  /** The priorities leave no ambiguity: a text has at most one tree that respects them. */
  lemma Unambiguous(e: Tree, e': Tree)
    requires Respects(e, 0) && Respects(e', 0) && Print(e) == Print(e')
    ensures e == e'
  {
    ReadsBack(e, 0, []);
    ReadsBack(e', 0, []);
  }

  // ----- the parser -----

  class LexState {
    var tokens: seq<Token>        // the current token and those after it

    constructor (tokens: seq<Token>)
      ensures this.tokens == tokens
    {
      this.tokens := tokens;
    }

    /** `subexpr`: it reads a tree that respects the priorities; false if there is none. */
    method ReadSubExpr(limit: nat) returns (ok: bool, v: Tree)
      modifies this
      ensures match SubExpr(old(tokens), limit)
              case Err => !ok
              case Ok(e, rest) => ok && v == e && tokens == rest
      decreases |tokens|
    {
      ok, v := true, Leaf(0);
      ghost var ts := tokens;
      if tokens == [] {
        return false, v;
      }
      var uop := GetUnOp(tokens[0]);
      if uop.Some? {
        tokens := tokens[1..];
        ok, v := ReadSubExpr(UNARY);
        if !ok {
          return;
        }
        v := Unary(uop.v, v);
      } else {
        ok, v := SimpleExp();
        if !ok {
          return;
        }
      }
      while tokens != [] && GetBinOp(tokens[0]).Some? && Left(GetBinOp(tokens[0]).v) > limit
        invariant ok && |tokens| < |ts| && SubExpr(ts, limit) == Expand(v, tokens, limit)
        decreases |tokens|
      {
        var op := GetBinOp(tokens[0]).v;
        tokens := tokens[1..];
        var v2;
        // ReadSubExpr of what binds tighter
        ok, v2 := ReadSubExpr(Right(op));
        if !ok {
          return;
        }
        v := Binary(op, v, v2);
      }
    }

    /** An operand, or an expression in parentheses. */
    method SimpleExp() returns (ok: bool, v: Tree)
      requires tokens != [] && GetUnOp(tokens[0]).None?
      modifies this
      ensures ok ==> |tokens| < |old(tokens)| && forall limit :: SubExpr(old(tokens), limit) == Expand(v, tokens, limit)
      ensures !ok ==> forall limit :: SubExpr(old(tokens), limit) == Err
      decreases |tokens|, 0
    {
      v := Leaf(0);
      if tokens[0].Operand? {
        v := Leaf(tokens[0].id);
        tokens := tokens[1..];
        return true, v;
      } else if tokens[0] == LPar {
        tokens := tokens[1..];
        ok, v := ReadSubExpr(0);
        if !ok || tokens == [] || tokens[0] != RPar {
          return false, v;
        }
        v := Group(v);
        tokens := tokens[1..];
      } else {
        return false, v;  // unexpected symbol
      }
    }
  }
}
