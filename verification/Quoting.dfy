/** Quoted strings (lua/lstrlib.c, lua/llex.c). */
module Quoting {
  // Strings quoted by `string.format("%q")` are read back by the lexer.

  import opened Basics
  import opened ChunkFormat
  import opened ChunkIO

  const QUOTE: Byte := 34
  const BACKSLASH: Byte := 92
  const NEWLINE: Byte := 10
  const RETURN: Byte := 13
  const MAX_LINES: nat := 0x7FFF_FFFD  // MAX_INT

  // ----- quoting -----

  function QuotedByte(c: Byte): seq<Byte> {
    if c == QUOTE || c == BACKSLASH || c == NEWLINE then [BACKSLASH, c]
    else if c == RETURN then [BACKSLASH, 114]
    else if c == 0 then [BACKSLASH, 48, 48, 48]
    else [c]
  }

  function QuotedBytes(s: seq<Byte>): seq<Byte> {
    if s == [] then [] else QuotedByte(s[0]) + QuotedBytes(s[1..])
  }

  function Quoted(s: seq<Byte>): seq<Byte> {
    [QUOTE] + QuotedBytes(s) + [QUOTE]
  }

  /** `addquoted`. */
  method AddQuoted(s: seq<Byte>) returns (b: seq<Byte>)
    ensures b == Quoted(s)
  {
    b := [QUOTE];
    var i := 0;
    while i < |s|
      invariant 0 <= i <= |s| && b + QuotedBytes(s[i..]) == [QUOTE] + QuotedBytes(s)
    {
      ghost var b0 := b;
      if s[i] == QUOTE || s[i] == BACKSLASH || s[i] == NEWLINE {
        b := b + [BACKSLASH];
        b := b + [s[i]];
      } else if s[i] == RETURN {
        b := b + [BACKSLASH, 114];
      } else if s[i] == 0 {
        b := b + [BACKSLASH, 48, 48, 48];
      } else {
        b := b + [s[i]];
      }
      assert b == b0 + QuotedByte(s[i]);
      assert s[i..][1..] == s[i + 1..];
      Assoc(b0, QuotedByte(s[i]), QuotedBytes(s[i + 1..]));
      i := i + 1;
    }
    assert b + [] == b;
    b := b + [QUOTE];
  }

  // ----- reading -----

  predicate IsDigit(c: Byte) {
    48 <= c <= 57
  }

  predicate IsNewline(c: Byte) {
    c == NEWLINE || c == RETURN
  }

  /** The escapes that stand for one character. */
  function Escape(c: Byte): Option<Byte> {
    if c == 97 then Some(7)         // \a
    else if c == 98 then Some(8)    // \b
    else if c == 102 then Some(12)  // \f
    else if c == 110 then Some(10)  // \n
    else if c == 114 then Some(13)  // \r
    else if c == 116 then Some(9)   // \t
    else if c == 118 then Some(11)  // \v
    else None
  }

  datatype Scanned = Scanned(value: nat, rest: seq<Byte>)

  /** A number of up to `max` digits. */
  function ScanDigits(t: seq<Byte>, max: nat, acc: nat): (r: Scanned)
    ensures |r.rest| <= |t| && (max > 0 && t != [] && IsDigit(t[0]) ==> |r.rest| < |t|)
    decreases max
  {
    if max == 0 || t == [] || !IsDigit(t[0]) then Scanned(acc, t)
    else ScanDigits(t[1..], max - 1, 10 * acc + (t[0] - 48))
  }

  lemma ScanCases(t: seq<Byte>, max: nat, acc: nat)
    ensures ScanDigits(t, max, acc) ==
              if max == 0 || t == [] || !IsDigit(t[0]) then Scanned(acc, t) else ScanDigits(t[1..], max - 1, 10 * acc + (t[0] - 48))
  {
  }

  /** What follows a newline: `\n\r` and `\r\n` count as one. */
  function SkipNewline(t: seq<Byte>): (u: seq<Byte>)
    requires t != []
    ensures |u| < |t|
  {
    if |t| > 1 && IsNewline(t[1]) && t[1] != t[0] then t[2..] else t[1..]
  }

  datatype StrError = Unfinished | TooLarge | TooManyLines

  datatype Literal = Malformed(e: StrError) | Literal(s: seq<Byte>, rest: seq<Byte>, line: nat)

  datatype Token = LexError(e: StrError) | StringToken(s: seq<Byte>)

  /** The string literal in the text `t` after its opening delimiter; `acc` was read already. */
  function ReadLiteral(t: seq<Byte>, del: Byte, acc: seq<Byte>, line: nat): Literal
    decreases |t|
  {
    if t == [] then Malformed(Unfinished)
    else if t[0] == del then Literal(acc, t[1..], line)
    else if IsNewline(t[0]) then Malformed(Unfinished)
    else if t[0] != BACKSLASH then ReadLiteral(t[1..], del, acc + [t[0]], line)
    else if |t| == 1 then Malformed(Unfinished)
    else
      var u := t[1..];
      if Escape(u[0]).Some? then ReadLiteral(u[1..], del, acc + [Escape(u[0]).v], line)
      else if IsNewline(u[0]) then
        if line + 1 >= MAX_LINES then Malformed(TooManyLines)
        else ReadLiteral(SkipNewline(u), del, acc + [NEWLINE], line + 1)
      else if !IsDigit(u[0]) then ReadLiteral(u[1..], del, acc + [u[0]], line)
      else
        var d := ScanDigits(u, 3, 0);
        if d.value > 255 then Malformed(TooLarge) else ReadLiteral(d.rest, del, acc + [d.value], line)
  }

  /** What a backslash comes to. */
  lemma EscapeCases(t: seq<Byte>, del: Byte, acc: seq<Byte>, line: nat)
    requires t != [] && t[0] == BACKSLASH && del != BACKSLASH
    ensures var r, u := ReadLiteral(t, del, acc, line), t[1..];
            if u == [] then r == Malformed(Unfinished)
            else if Escape(u[0]).Some? then r == ReadLiteral(u[1..], del, acc + [Escape(u[0]).v], line)
            else if IsNewline(u[0]) then
              r == if line + 1 >= MAX_LINES then Malformed(TooManyLines) else ReadLiteral(SkipNewline(u), del, acc + [NEWLINE], line + 1)
            else if !IsDigit(u[0]) then r == ReadLiteral(u[1..], del, acc + [u[0]], line)
            else
              var d := ScanDigits(u, 3, 0);
              r == if d.value > 255 then Malformed(TooLarge) else ReadLiteral(d.rest, del, acc + [d.value], line)
  {
  }

  lemma PlainCases(t: seq<Byte>, del: Byte, acc: seq<Byte>, line: nat)
    requires !IsNewline(del)
    ensures var r := ReadLiteral(t, del, acc, line);
            if t == [] then r == Malformed(Unfinished)
            else if t[0] == del then r == Literal(acc, t[1..], line)
            else if IsNewline(t[0]) then r == Malformed(Unfinished)
            else t[0] != BACKSLASH ==> r == ReadLiteral(t[1..], del, acc + [t[0]], line)
  {
  }

  // ----- the round trip -----

  function Newlines(s: seq<Byte>): nat {
    if s == [] then 0 else (if s[0] == NEWLINE then 1 else 0) + Newlines(s[1..])
  }

  /** One quoted character is read as that character. */
  lemma ByteBack(c: Byte, t: seq<Byte>, acc: seq<Byte>, line: nat)
    requires t != [] && !IsNewline(t[0]) && (c == NEWLINE ==> line + 1 < MAX_LINES)
    ensures ReadLiteral(QuotedByte(c) + t, QUOTE, acc, line) == ReadLiteral(t, QUOTE, acc + [c], if c == NEWLINE then line + 1 else line)
  {
    var q := QuotedByte(c) + t;
    if c == QUOTE || c == BACKSLASH || c == NEWLINE {
      assert q[1..] == [c] + t && q[1..][1..] == t;
    } else if c == RETURN {
      assert q[1..] == [114] + t && q[1..][1..] == t;
    } else if c == 0 {
      ZeroBack(t);
      assert q[1..] == [48, 48, 48] + t;
    } else {
      assert q[1..] == t;
    }
  }

  /** Three zeros are one character, whatever digit comes next. */
  lemma ZeroBack(t: seq<Byte>)
    ensures ScanDigits([48, 48, 48] + t, 3, 0) == Scanned(0, t)
  {
    var u, u1, u2 := [48, 48, 48] + t, [48, 48] + t, [48] + t;
    assert u[1..] == u1 && u1[1..] == u2 && u2[1..] == t;
    assert ScanDigits(u2, 1, 0) == Scanned(0, t) && ScanDigits(u1, 2, 0) == Scanned(0, t);
  }

  lemma QuotedStart(s: seq<Byte>, tail: seq<Byte>)
    ensures QuotedBytes(s) + [QUOTE] + tail != [] && !IsNewline((QuotedBytes(s) + [QUOTE] + tail)[0])
  {
    if s != [] {
      assert QuotedByte(s[0])[0] == (QuotedBytes(s) + [QUOTE] + tail)[0];
    }
  }

  /** Reading what was quoted gives back the string: newlines, carriage returns, zero bytes and all. */
  lemma {:induction false} LiteralBack(s: seq<Byte>, acc: seq<Byte>, line: nat, tail: seq<Byte>)
    requires line + Newlines(s) < MAX_LINES
    ensures ReadLiteral(QuotedBytes(s) + [QUOTE] + tail, QUOTE, acc, line) == Literal(acc + s, tail, line + Newlines(s))
    decreases |s|
  {
    if s == [] {
      assert QuotedBytes(s) + [QUOTE] + tail == [QUOTE] + tail && ([QUOTE] + tail)[1..] == tail && acc + s == acc;
      assert !IsNewline(QUOTE);
    } else {
      var t := QuotedBytes(s[1..]) + [QUOTE] + tail;
      QuotedStart(s[1..], tail);
      hide ReadLiteral;
      hide QuotedByte;
      Assoc(QuotedByte(s[0]), QuotedBytes(s[1..]), [QUOTE]);
      Assoc(QuotedByte(s[0]), QuotedBytes(s[1..]) + [QUOTE], tail);
      ByteBack(s[0], t, acc, line);
      LiteralBack(s[1..], acc + [s[0]], if s[0] == NEWLINE then line + 1 else line, tail);
      assert acc + [s[0]] + s[1..] == acc + s;
    }
  }

  // ----- the lexer -----

  /** The part of the lexer's state that reading a string uses. */
  class LexState {
    const z: Zio
    var current: int         // a byte, or the end of the text
    var linenumber: nat
    var buff: seq<Byte>      // the token read so far

    constructor (z: Zio, current: int, linenumber: nat)
      requires z.Valid() && -1 <= current < 256
      ensures this.z == z && this.current == current && this.linenumber == linenumber && buff == []
    {
      this.z, this.current, this.linenumber, buff := z, current, linenumber, [];
    }

    /** The stream may be read on until its end was met. */
    ghost predicate Valid()
      reads this, z
    {
      -1 <= current < 256 && (current != EOZ ==> z.Valid())
    }

    /** The text from the current character on. */
    ghost function Text(): seq<Byte>
      requires Valid()
      reads this, z
    {
      if current == EOZ then [] else [current] + z.Rest()
    }

    /** `next`. */
    method Next()
      requires Valid() && current != EOZ
      modifies `current, z
      ensures Valid() && Text() == old(Text())[1..]
    {
      current := z.GetC();
    }

    method SaveAndNext()
      requires Valid() && current != EOZ
      modifies `current, `buff, z
      ensures Valid() && Text() == old(Text())[1..] && buff == old(buff) + [old(current)]
    {
      buff := buff + [current];
      Next();
    }

    /** `inclinenumber`; false if there are too many lines. */
    method IncLineNumber() returns (ok: bool)
      requires Valid() && current != EOZ && IsNewline(current)
      modifies `current, `linenumber, z
      ensures Valid() && linenumber == old(linenumber) + 1 && ok == (linenumber < MAX_LINES)
      ensures Text() == SkipNewline(old(Text()))
    {
      var old' := current;
      Next();
      if current != EOZ && IsNewline(current) && current != old' {
        Next();
      }
      linenumber := linenumber + 1;
      ok := linenumber < MAX_LINES;
    }

    /** An escape of up to three digits. */
    method ReadDigits() returns (c: nat)
      requires Valid() && current != EOZ && IsDigit(current)
      modifies `current, z
      ensures Valid() && ScanDigits(old(Text()), 3, 0) == Scanned(c, Text())
    {
      hide Flat;
      hide ScanDigits;
      ghost var u := Text();
      var i := 0;
      c := 0;
      while i < 3 && current != EOZ && IsDigit(current)
        invariant Valid() && 0 <= i <= 3 && ScanDigits(u, 3, 0) == ScanDigits(Text(), 3 - i, c)
        decreases 3 - i
      {
        ScanCases(Text(), 3 - i, c);
        c := 10 * c + (current - 48);
        Next();
        i := i + 1;
      }
      ScanCases(Text(), 3 - i, c);
    }

    /** The part of `read_string` after a backslash. */
    method ReadEscape(ghost del: Byte) returns (e: Option<StrError>)
      requires Valid() && current == BACKSLASH && |buff| > 0 && del != BACKSLASH
      modifies `current, `linenumber, `buff, z
      ensures Valid() && |buff| > 0
      ensures var r := ReadLiteral(old(Text()), del, old(buff)[1..], old(linenumber));
              if e.Some? then r == Malformed(e.v)
              else |Text()| < |old(Text())| && r == ReadLiteral(Text(), del, buff[1..], linenumber)
    {
      hide ReadLiteral;
      hide ScanDigits;
      hide SkipNewline;
      ghost var t, b := Text(), buff;
      EscapeCases(t, del, b[1..], linenumber);
      Next();
      if current == EOZ {
        return Some(Unfinished);  // ReadChar reports the end of the text
      }
      var c := Escape(current);
      if c.Some? {
        buff := buff + [c.v];
        Next();
      } else if IsNewline(current) {
        buff := buff + [NEWLINE];
        var ok := IncLineNumber();
        if !ok {
          return Some(TooManyLines);
        }
      } else if !IsDigit(current) {
        SaveAndNext();
      } else {
        var d := ReadDigits();
        if d > 255 {
          return Some(TooLarge);
        }
        buff := buff + [d];
      }
      assert buff[1..] == b[1..] + [buff[|buff| - 1]];
      return None;
    }

    /** One turn of the loop of `read_string`. */
    method ReadChar(ghost del: Byte) returns (e: Option<StrError>)
      requires Valid() && current != del && |buff| > 0 && del != BACKSLASH && !IsNewline(del)
      modifies `current, `linenumber, `buff, z
      ensures Valid() && |buff| > 0
      ensures var r := ReadLiteral(old(Text()), del, old(buff)[1..], old(linenumber));
              if e.Some? then r == Malformed(e.v)
              else |Text()| < |old(Text())| && r == ReadLiteral(Text(), del, buff[1..], linenumber)
    {
      hide ReadLiteral;
      PlainCases(Text(), del, buff[1..], linenumber);
      if current == EOZ || IsNewline(current) {
        return Some(Unfinished);
      } else if current == BACKSLASH {
        e := ReadEscape(del);
      } else {
        ghost var b := buff;
        SaveAndNext();
        assert buff[1..] == b[1..] + [buff[|buff| - 1]];
        return None;
      }
    }

    /** `read_string`: it reads what the text says, however the reader cuts it into blocks. */
    method ReadString(del: Byte) returns (r: Token)
      requires Valid() && current == del && del != BACKSLASH && !IsNewline(del) && buff == []
      modifies `current, `linenumber, `buff, z
      ensures Valid()
      ensures match ReadLiteral(old(Text())[1..], del, [], old(linenumber))
              case Malformed(e) => r == LexError(e)
              case Literal(s, rest, line) => r == StringToken(s) && Text() == rest && linenumber == line
    {
      hide ReadLiteral;
      hide Flat;
      ghost var t, line := Text()[1..], linenumber;
      SaveAndNext();
      assert buff[1..] == [];
      while current != del
        invariant Valid() && |buff| > 0
        invariant ReadLiteral(t, del, [], line) == ReadLiteral(Text(), del, buff[1..], linenumber)
        decreases |Text()|
      {
        var e := ReadChar(del);
        if e.Some? {
          return LexError(e.v);
        }
      }
      PlainCases(Text(), del, buff[1..], linenumber);
      ghost var b := buff;
      SaveAndNext();
      assert buff[1..|buff| - 1] == b[1..];
      r := StringToken(buff[1..|buff| - 1]);
    }
  }

  /** Quote a string, and read it with the lexer from blocks of any sizes. */
  method QuoteAndRead(s: seq<Byte>, blocks: seq<seq<Byte>>, line: nat) returns (r: Token)
    requires line + Newlines(s) < MAX_LINES && [QUOTE] + Flat(blocks) == Quoted(s)
    ensures r == StringToken(s)
  {
    var q := AddQuoted(s);
    var z := new Zio(blocks);
    var ls := new LexState(z, q[0], line);
    LiteralBack(s, [], line, []);
    assert QuotedBytes(s) + [QUOTE] + [] == Quoted(s)[1..] && [] + s == s;
    r := ls.ReadString(QUOTE);
  }
}
