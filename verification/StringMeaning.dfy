/** What a string literal stands for (lua/llex.c). */
module StringMeaning {
  // Each character of the string is spelled by one to four bytes of the text: itself, a backslash and
  // a letter, a backslash and up to three decimal digits, or a backslash and the end of a line
  // (section 2.1 of the Lua 5.1 Reference Manual). The lexer reads exactly these.
  import opened Basics
  import opened Quoting
  import opened ChunkFormat

  const LETTERS := "abfnrtv"
  const CONTROLS: seq<Byte> := [7, 8, 12, 10, 13, 9, 11]

  predicate IsLetter(x: Byte) {
    exists i :: 0 <= i < 7 && LETTERS[i] as nat == x
  }

  predicate Digit(x: Byte) {
    '0' as nat <= x <= '9' as nat
  }

  function Decimal(ds: seq<Byte>): int
    requires 1 <= |ds| <= 3
  {
    var z := '0' as nat;
    if |ds| == 1 then ds[0] - z
    else if |ds| == 2 then 10 * (ds[0] - z) + (ds[1] - z)
    else 100 * (ds[0] - z) + 10 * (ds[1] - z) + (ds[2] - z)
  }

  /** The first `n` digits are all that count: there are three, or no further digit follows. */
  predicate Digits(t: seq<Byte>, n: nat) {
    && 1 <= n <= 3 && n <= |t| && (forall i :: 0 <= i < n ==> Digit(t[i]))
    && (n == 3 || n == |t| || !Digit(t[n]))
  }

  predicate LineEnd(x: Byte) {
    x == 10 || x == 13
  }

  /** After the backslash, `n` bytes are the end of a line. */
  predicate EndsLine(t: seq<Byte>, n: nat) {
    && 1 <= n <= |t| && LineEnd(t[0])
    && var two := |t| > 1 && LineEnd(t[1]) && t[1] != t[0];
       n == if two then 2 else 1
  }

  predicate Backslash(t: seq<Byte>) {
    t != [] && t[0] == '\\' as nat
  }

  /** The first `n` bytes of the text spell the character `c`. */
  predicate Spells(t: seq<Byte>, del: Byte, n: nat, c: Byte) {
    1 <= n <= |t| && t[0] != del &&
    if !Backslash(t) then n == 1 && c == t[0] && !LineEnd(c)
    else
      || (n == 2 && exists i :: 0 <= i < 7 && LETTERS[i] as nat == t[1] && CONTROLS[i] == c)
      || (n == 2 && !IsLetter(t[1]) && !LineEnd(t[1]) && !Digit(t[1]) && c == t[1])
      || (n > 1 && Digits(t[1..], n - 1) && Decimal(t[1..n]) == c)
      || (n > 1 && EndsLine(t[1..], n - 1) && c == '\n' as nat)
  }

  function Lines(t: seq<Byte>): nat {
    if Backslash(t) && |t| > 1 && LineEnd(t[1]) then 1 else 0
  }

  /** The text before `u` spells the string `s` and has `lines` ends of lines. */
  ghost predicate Reaches(t: seq<Byte>, del: Byte, s: seq<Byte>, u: seq<Byte>, lines: nat) {
    if s == [] then u == t && lines == 0
    else exists n: nat :: Spells(t, del, n, s[0]) && Lines(t) <= lines && Reaches(t[n..], del, s[1..], u, lines - Lines(t))
  }

  /** What ends the reading at `u`: the delimiter, or an error. */
  ghost predicate Ends(u: seq<Byte>, del: Byte, line: nat, e: Option<StrError>) {
    if u == [] then e == Some(Unfinished)
    else if u[0] == del then e == None
    else if LineEnd(u[0]) || u == [BACKSLASH] then e == Some(Unfinished)
    else
      && Backslash(u)
      && if LineEnd(u[1]) then line + 1 >= MAX_LINES && e == Some(TooManyLines)
         else e == Some(TooLarge) && exists n: nat :: Digits(u[1..], n) && Decimal(u[1..n + 1]) > 255
  }

  // ----- one character -----

  lemma EscapeMeans(x: Byte)
    ensures Escape(x).Some? <==> IsLetter(x)
    ensures forall i :: 0 <= i < 7 && LETTERS[i] as nat == x ==> Escape(x) == Some(CONTROLS[i])
  {
    var l := LETTERS;
    assert l[0] == 'a' && l[1] == 'b' && l[2] == 'f' && l[3] == 'n' && l[4] == 'r' && l[5] == 't' && l[6] == 'v';
  }

  lemma ScanMeans(t: seq<Byte>, n: nat)
    requires Digits(t, n)
    ensures ScanDigits(t, 3, 0) == Scanned(Decimal(t[..n]), t[n..])
  {
    ScanCases(t, 3, 0);
    var a: nat := t[0] - 48;
    ScanCases(t[1..], 2, a);
    if n > 1 {
      ScanCases(t[2..], 1, 10 * a + (t[1] - 48));
      assert t[1..][1..] == t[2..];
      if n > 2 {
        ScanCases(t[3..], 0, 100 * a + 10 * (t[1] - 48) + (t[2] - 48));
        assert t[2..][1..] == t[3..];
      }
    }
    hide ScanDigits;
  }

  lemma SomeDigits(t: seq<Byte>) returns (n: nat)
    requires t != [] && Digit(t[0])
    ensures Digits(t, n) && 0 <= Decimal(t[..n])
  {
    n := if |t| > 1 && Digit(t[1]) then (if |t| > 2 && Digit(t[2]) then 3 else 2) else 1;
  }

  lemma SameDigits(t: seq<Byte>, n: nat, m: nat)
    requires Digits(t, n) && Digits(t, m)
    ensures n == m
  {
  }

  /** Reading takes the spelling of a character. */
  lemma ReadsSpelling(t: seq<Byte>, del: Byte, n: nat, c: Byte, acc: seq<Byte>, line: nat)
    requires Spells(t, del, n, c) && del != BACKSLASH && !IsNewline(del) && (Lines(t) > 0 ==> line + 1 < MAX_LINES)
    ensures ReadLiteral(t, del, acc, line) == ReadLiteral(t[n..], del, acc + [c], line + Lines(t))
  {
    if !Backslash(t) {
      PlainCases(t, del, acc, line);
    } else {
      EscapeCases(t, del, acc, line);
      var u := t[1..];
      EscapeMeans(u[0]);
      assert t[n..] == u[n - 1..] && t[1..n] == u[..n - 1];
      if Digits(u, n - 1) {
        ScanMeans(u, n - 1);
      }
    }
    hide ReadLiteral;
    hide ScanDigits;
    hide Escape;
    hide IsLetter;
  }

  /** Reading ends where the text says. */
  lemma ReadsEnd(u: seq<Byte>, del: Byte, acc: seq<Byte>, line: nat, e: Option<StrError>)
    requires Ends(u, del, line, e) && del != BACKSLASH && !IsNewline(del)
    ensures ReadLiteral(u, del, acc, line) == match e case None => Literal(acc, u[1..], line) case Some(x) => Malformed(x)
  {
    PlainCases(u, del, acc, line);
    if Backslash(u) && |u| > 1 && u[0] != del {
      EscapeCases(u, del, acc, line);
      EscapeMeans(u[1]);
      if !LineEnd(u[1]) {
        var n: nat :| Digits(u[1..], n) && Decimal(u[1..n + 1]) > 255;
        ScanMeans(u[1..], n);
        assert u[1..][..n] == u[1..n + 1];
      }
    }
    hide ReadLiteral;
    hide ScanDigits;
    hide Escape;
    hide IsLetter;
  }

  /** Everywhere a character is spelled, or the reading ends. */
  lemma SpellsOrEnds(t: seq<Byte>, del: Byte, line: nat) returns (ends: bool, e: Option<StrError>, n: nat, c: Byte)
    requires del != BACKSLASH && !IsNewline(del)
    ensures if ends then Ends(t, del, line, e) else Spells(t, del, n, c) && (Lines(t) > 0 ==> line + 1 < MAX_LINES)
  {
    ends, e, n, c := true, Some(Unfinished), 1, 0;
    if t == [] || t == [BACKSLASH] {
    } else if t[0] == del {
      e := None;
    } else if !Backslash(t) {
      ends, c := LineEnd(t[0]), t[0];
    } else if LineEnd(t[1]) {
      ends, e, c := line + 1 >= MAX_LINES, Some(TooManyLines), 10;
      n := if |t| > 2 && LineEnd(t[2]) && t[2] != t[1] then 3 else 2;
    } else if Digit(t[1]) {
      n := SomeDigits(t[1..]);
      n := n + 1;
      assert t[1..][..n - 1] == t[1..n];
      if Decimal(t[1..n]) > 255 {
        e := Some(TooLarge);
        assert Digits(t[1..], n - 1);
      } else {
        ends, c := false, Decimal(t[1..n]);
      }
    } else if IsLetter(t[1]) {
      var i :| 0 <= i < 7 && LETTERS[i] as nat == t[1];
      ends, n, c := false, 2, CONTROLS[i];
    } else {
      ends, n, c := false, 2, t[1];
    }
  }

  // ----- the whole literal -----

  lemma {:induction false} ReadsReached(t: seq<Byte>, del: Byte, s: seq<Byte>, u: seq<Byte>, lines: nat, acc: seq<Byte>, line: nat)
    requires Reaches(t, del, s, u, lines) && del != BACKSLASH && !IsNewline(del) && (lines > 0 ==> line + lines < MAX_LINES)
    ensures ReadLiteral(t, del, acc, line) == ReadLiteral(u, del, acc + s, line + lines)
    decreases |s|
  {
    hide ReadLiteral;
    hide Spells;
    hide Reaches;
    var n := FirstSpelled(t, del, s, u, lines);
    if s == [] {
      assert acc + s == acc;
    } else {
      ReadsSpelling(t, del, n, s[0], acc, line);
      ReadsReached(t[n..], del, s[1..], u, lines - Lines(t), acc + [s[0]], line + Lines(t));
      assert acc + [s[0]] + s[1..] == acc + s;
    }
  }

  lemma FirstSpelled(t: seq<Byte>, del: Byte, s: seq<Byte>, u: seq<Byte>, lines: nat) returns (n: nat)
    requires Reaches(t, del, s, u, lines)
    ensures n <= |t|
    ensures if s == [] then u == t && lines == 0
      else Spells(t, del, n, s[0]) && Lines(t) <= lines && Reaches(t[n..], del, s[1..], u, lines - Lines(t))
  {
    n := 0;
    if s != [] {
      n :| Spells(t, del, n, s[0]) && Lines(t) <= lines && Reaches(t[n..], del, s[1..], u, lines - Lines(t));
    }
  }

  lemma {:induction false} SomeEnd(t: seq<Byte>, del: Byte, line: nat) returns (s: seq<Byte>, u: seq<Byte>, lines: nat, e: Option<StrError>)
    requires del != BACKSLASH && !IsNewline(del)
    ensures Reaches(t, del, s, u, lines) && (lines > 0 ==> line + lines < MAX_LINES) && Ends(u, del, line + lines, e)
    decreases |t|
  {
    var ends, e', n, c := SpellsOrEnds(t, del, line);
    s, u, lines, e := [], t, 0, e';
    if !ends {
      s, u, lines, e := SomeEnd(t[n..], del, line + Lines(t));
      assert ([c] + s)[1..] == s;
      s, lines := [c] + s, lines + Lines(t);
      hide Spells;
      hide Ends;
    }
  }

  /** A literal is read as `s` exactly if the text up to its delimiter spells `s`. */
  lemma LiteralMeans(t: seq<Byte>, del: Byte, line: nat, s: seq<Byte>, rest: seq<Byte>, line': nat)
    requires del != BACKSLASH && !IsNewline(del)
    ensures ReadLiteral(t, del, [], line) == Literal(s, rest, line') <==>
      line <= line' && (line < line' ==> line' < MAX_LINES) && Reaches(t, del, s, [del] + rest, line' - line)
  {
    hide ReadLiteral;
    hide Reaches;
    var s0, u, lines, e := SomeEnd(t, del, line);
    ReadsReached(t, del, s0, u, lines, [], line);
    ReadsEnd(u, del, s0, line + lines, e);
    assert [] + s0 == s0 && [] + s == s;
    if ReadLiteral(t, del, [], line) == Literal(s, rest, line') {
      assert u == [del] + rest;
    }
    if line <= line' && (line < line' ==> line' < MAX_LINES) && Reaches(t, del, s, [del] + rest, line' - line) {
      ReadsReached(t, del, s, [del] + rest, line' - line, [], line);
      ReadsEnd([del] + rest, del, s, line', None);
      assert ([del] + rest)[1..] == rest;
    }
  }

  /** A literal is malformed exactly if after some characters the reading ends with that error. */
  lemma MalformedMeans(t: seq<Byte>, del: Byte, line: nat, e: StrError)
    requires del != BACKSLASH && !IsNewline(del)
    ensures ReadLiteral(t, del, [], line) == Malformed(e) <==>
      exists s, u, lines: nat :: Reaches(t, del, s, u, lines) && (lines > 0 ==> line + lines < MAX_LINES) && Ends(u, del, line + lines, Some(e))
  {
    hide ReadLiteral;
    hide Ends;
    hide Reaches;
    var s0, u0, lines0, e0 := SomeEnd(t, del, line);
    ReadsReached(t, del, s0, u0, lines0, [], line);
    ReadsEnd(u0, del, [] + s0, line + lines0, e0);
    forall s, u, lines: nat | Reaches(t, del, s, u, lines) && (lines > 0 ==> line + lines < MAX_LINES) && Ends(u, del, line + lines, Some(e))
      ensures ReadLiteral(t, del, [], line) == Malformed(e)
    {
      ReadsReached(t, del, s, u, lines, [], line);
      ReadsEnd(u, del, [] + s, line + lines, Some(e));
    }
  }

  // ----- what is written -----

  /** Characters are quoted one by one. */
  lemma {:induction false} QuotedSplit(a: seq<Byte>, b: seq<Byte>)
    ensures QuotedBytes(a + b) == QuotedBytes(a) + QuotedBytes(b)
  {
    hide QuotedByte;
    if a == [] {
      assert a + b == b;
    } else {
      QuotedSplit(a[1..], b);
      assert (a + b)[0] == a[0] && (a + b)[1..] == a[1..] + b;
      Assoc(QuotedByte(a[0]), QuotedBytes(a[1..]), QuotedBytes(b));
    }
  }

  /** `"`, `\` and the newline get a backslash before them, the carriage return is written as `\r` and
      the zero byte as `\000`. */
  lemma QuotedMeans(a: seq<Byte>, c: Byte, b: seq<Byte>)
    ensures QuotedBytes(a + ([c] + b)) == QuotedBytes(a) + (QuotedBytes([c]) + QuotedBytes(b))
    ensures QuotedBytes([c]) ==
      if c == '"' as nat || c == '\\' as nat || c == '\n' as nat then ['\\' as nat, c]
      else if c == '\r' as nat then ['\\' as nat, 'r' as nat]
      else if c == 0 then ['\\' as nat, '0' as nat, '0' as nat, '0' as nat]
      else [c]
  {
    QuotedSplit(a, [c] + b);
    QuotedSplit([c], b);
    assert QuotedBytes([c]) == QuotedByte(c) by { assert [c][1..] == []; }
    hide QuotedBytes;
  }
}
