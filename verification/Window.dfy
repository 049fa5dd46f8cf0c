/** The line buffer of a window (rom/apis/window.lua). */
module Window {
  import opened Basics

  // ----- string.sub, counting from 1 -----

  function PosRelat(pos: int, len: nat): int {
    var p := if pos < 0 then pos + len + 1 else pos;
    if p >= 0 then p else 0
  }

  /** `string.sub`: negative positions count from the end. */
  function Sub(s: string, i: int, j: int): (r: string)
    ensures |r| == SubLength(|s|, i, j)
    ensures 1 <= i && 0 <= j ==> forall k :: 0 <= k < |r| ==> r[k] == s[i - 1 + k]
  {
    var start, end := PosRelat(i, |s|), PosRelat(j, |s|);
    var start', end' := if start < 1 then 1 else start, if end > |s| then |s| else end;
    if start' <= end' then s[start' - 1..end'] else ""
  }

  /** How long it is depends on the length of the string only. */
  function SubLength(len: nat, i: int, j: int): nat {
    var start, end := PosRelat(i, len), PosRelat(j, len);
    var start', end' := if start < 1 then 1 else start, if end > len then len else end;
    if start' <= end' then end' - start' + 1 else 0
  }

  /** `string.rep` of one character; a negative count gives the empty string. */
  function Rep(c: char, n: int): (s: string)
    ensures |s| == Max(n, 0) && forall x :: 0 <= x < |s| ==> s[x] == c
  {
    seq(if n > 0 then n else 0, _ => c)
  }

  // ----- lines -----

  datatype Line = Line(text: string, textColor: string, backgroundColor: string)

  /** All three strings of a line have exactly `w` characters. */
  predicate LineOk(l: Line, w: int) {
    |l.text| == w && |l.textColor| == w && |l.backgroundColor| == w
  }

  /** The three strings of the line are as long as each other. */
  predicate Even(l: Line) {
    LineOk(l, |l.text|)
  }

  /** The line shows spaces only, all of them in the two colours. */
  predicate IsBlank(l: Line, text: char, background: char, w: int) {
    && |l.text| == |l.textColor| == |l.backgroundColor| == Max(w, 0)
    && forall x :: 0 <= x < w ==> l.text[x] == ' ' && l.textColor[x] == text && l.backgroundColor[x] == background
  }

  /** There is only one such line. */
  function Blank(text: char, background: char, w: int): (l: Line)
    ensures IsBlank(l, text, background, w)
    ensures forall l' :: IsBlank(l', text, background, w) ==> l' == l
  {
    Line(Rep(' ', w), Rep(text, w), Rep(background, w))
  }

  /** Text of length `n` written at column `start` covers column `x`. */
  predicate Covers(start: int, n: nat, x: int) {
    start <= x <= start + n - 1
  }

  /** `r` is the old string with the new one laid over it at column `start`. */
  ghost predicate Overlaid(old': string, new': string, start: int, r: string) {
    && |r| == |old'|
    && forall x :: 0 <= x < |old'| ==> r[x] == if Covers(start, |new'|, x + 1) then new'[x + 1 - start] else old'[x]
  }

  /** Text and colours are laid over line `row` at column `start`; no other line changes. */
  ghost predicate Blitted(before: seq<Line>, start: int, row: int, text: string, textColor: string, background: string, after: seq<Line>) {
    && |after| == |before|
    && forall y :: 0 <= y < |before| ==>
         if y == row - 1 then
           && Overlaid(before[y].text, text, start, after[y].text)
           && Overlaid(before[y].textColor, textColor, start, after[y].textColor)
           && Overlaid(before[y].backgroundColor, background, start, after[y].backgroundColor)
         else after[y] == before[y]
  }

  /** The visible part of the new text. */
  function Clipped(new': string, nStart: int, nWidth: int): string {
    if nStart < 1 then Sub(new', 1 - nStart + 1, nWidth - nStart + 1)
    else if nStart + |new'| - 1 > nWidth then Sub(new', 1, nWidth - nStart + 1)
    else new'
  }

  /** One of the three strings of `internalBlit`, for text that is at least partly visible. */
  function BlitString(old': string, new': string, nStart: int, nWidth: int): string {
    var nEnd := nStart + |new'| - 1;
    if nStart == 1 && nEnd == nWidth then new'
    else
      var clipped := Clipped(new', nStart, nWidth);
      var left := if nStart > 1 then Sub(old', 1, nStart - 1) + clipped else clipped;
      if nEnd < nWidth then left + Sub(old', nEnd + 1, nWidth) else left
  }

  function Max(a: int, b: int): int {
    if a > b then a else b
  }

  function Lesser(a: int, b: int): int {
    if a < b then a else b
  }

  /** In all cases the string is put together from the old text to the left, the visible part of the
      new text, and the old text to the right. */
  lemma BlitParts(old': string, new': string, nStart: int, nWidth: nat)
    requires |old'| == nWidth && nStart <= nWidth && nStart + |new'| - 1 >= 1
    ensures var nEnd := nStart + |new'| - 1;
            BlitString(old', new', nStart, nWidth) ==
              old'[..Max(0, nStart - 1)] + new'[Max(0, 1 - nStart)..Lesser(|new'|, nWidth - nStart + 1)] + old'[Lesser(nEnd, nWidth)..]
  {
    hide Sub;
    hide SubLength;
    hide Clipped;
    var nEnd := nStart + |new'| - 1;
    var l, c, r := OldLeft(old', nStart), Clipped(new', nStart, nWidth), OldRight(old', nEnd, nWidth);
    LeftIs(old', nStart, nWidth);
    ClippedIs(new', nStart, nWidth);
    RightIs(old', nEnd, nWidth);
    hide Max;
    hide Lesser;
    assert "" + c == c && l + c + "" == l + c && c + "" == c;
    if nStart == 1 && nEnd == nWidth {
      assert c == new';
    }
  }

  function OldLeft(old': string, nStart: int): string {
    if nStart > 1 then Sub(old', 1, nStart - 1) else ""
  }

  function OldRight(old': string, nEnd: int, nWidth: int): string {
    if nEnd < nWidth then Sub(old', nEnd + 1, nWidth) else ""
  }

  lemma LeftIs(old': string, nStart: int, nWidth: nat)
    requires |old'| == nWidth && nStart <= nWidth
    ensures OldLeft(old', nStart) == old'[..Max(0, nStart - 1)]
  {
    hide Sub;
    if nStart > 1 {
      SubIs(old', 1, nStart - 1);
    }
  }

  lemma RightIs(old': string, nEnd: int, nWidth: nat)
    requires |old'| == nWidth && nEnd >= 1
    ensures OldRight(old', nEnd, nWidth) == old'[Lesser(nEnd, nWidth)..]
  {
    hide Sub;
    if nEnd < nWidth {
      SubIs(old', nEnd + 1, nWidth);
    }
  }

  lemma ClippedIs(new': string, nStart: int, nWidth: nat)
    requires nStart <= nWidth && nStart + |new'| - 1 >= 1
    ensures Clipped(new', nStart, nWidth) == new'[Max(0, 1 - nStart)..Lesser(|new'|, nWidth - nStart + 1)]
  {
    hide Sub;
    if nStart < 1 {
      SubIs(new', 2 - nStart, nWidth - nStart + 1);
    } else if nStart + |new'| - 1 > nWidth {
      SubIs(new', 1, nWidth - nStart + 1);
    } else {
      assert new'[0..|new'|] == new';
    }
  }

  lemma SubIs(s: string, i: int, j: int)
    requires 1 <= i <= |s| + 1 && i - 1 <= j
    ensures Sub(s, i, j) == s[i - 1..Lesser(j, |s|)]
  {
  }

  /** In all cases of clipping the result is the pointwise overlay. */
  lemma BlitOverlays(old': string, new': string, nStart: int, nWidth: nat)
    requires |old'| == nWidth && nStart <= nWidth && nStart + |new'| - 1 >= 1
    ensures Overlaid(old', new', nStart, BlitString(old', new', nStart, nWidth))
  {
    hide BlitString;
    BlitParts(old', new', nStart, nWidth);
  }

  /** How long the result is depends on the lengths of the two strings only. */
  lemma BlitLength(old1: string, new1: string, old2: string, new2: string, nStart: int, nWidth: int)
    requires |old1| == |old2| && |new1| == |new2|
    ensures |BlitString(old1, new1, nStart, nWidth)| == |BlitString(old2, new2, nStart, nWidth)|
  {
    hide Sub;
    hide SubLength;
  }

  /** What is not visible changes nothing. */
  lemma InvisibleOverlay(old': string, new': string, nStart: int)
    requires nStart > |old'| || nStart + |new'| - 1 < 1
    ensures Overlaid(old', new', nStart, old')
  {
  }

  class WindowBuffer {
    var nX: int
    var nY: int
    var nWidth: int
    var nHeight: int
    var nCursorX: int
    var nCursorY: int
    var textColor: char          // the hexadecimal digit of the text colour
    var backgroundColor: char
    var tLines: seq<Line>

    /** What holds whatever sizes the window is given: there is a line for each row. */
    ghost predicate Shaped()
      reads this
    {
      |tLines| == Max(nHeight, 0) && forall y :: 0 <= y < |tLines| ==> Even(tLines[y])
    }

    /** Every line has exactly `nWidth` characters of text and of both colours. */
    ghost predicate Valid()
      reads this
    {
      Shaped() && forall y :: 0 <= y < |tLines| ==> LineOk(tLines[y], nWidth)
    }

    /** The window starts blank; its lines have its width unless that is negative. */
    constructor (nX: int, nY: int, nWidth: int, nHeight: int)
      ensures Shaped() && this.nX == nX && this.nY == nY && this.nWidth == nWidth && this.nHeight == nHeight
      ensures nCursorX == 1 && nCursorY == 1 && textColor == '0' && backgroundColor == 'f'
      ensures tLines == seq(Max(nHeight, 0), _ => Blank('0', 'f', nWidth))
      ensures forall y :: 0 <= y < nHeight ==> IsBlank(tLines[y], '0', 'f', nWidth)
      ensures Valid() <==> nWidth >= 0 || nHeight <= 0
    {
      this.nX, this.nY, this.nWidth, this.nHeight := nX, nY, nWidth, nHeight;
      nCursorX, nCursorY, textColor, backgroundColor := 1, 1, '0', 'f';
      tLines := seq(Max(nHeight, 0), _ => Blank('0', 'f', nWidth));
      new;
      assert nHeight > 0 ==> tLines[0] == Blank('0', 'f', nWidth);
    }

    /** `internalBlit`: the line under the cursor gets the text laid over it, as far as it is visible;
        no other line changes, and the cursor moves behind the text. */
    method InternalBlit(sText: string, sTextColor: string, sBackgroundColor: string)
      requires Shaped() && |sTextColor| == |sText| && |sBackgroundColor| == |sText|
      modifies `tLines, `nCursorX
      ensures Shaped() && nCursorX == old(nCursorX) + |sText|
      ensures forall y :: 0 <= y < |tLines| && y != nCursorY - 1 ==> tLines[y] == old(tLines)[y]
      ensures old(Valid()) ==>
                Valid() && Blitted(old(tLines), old(nCursorX), nCursorY, sText, sTextColor, sBackgroundColor, tLines)
    {
      hide BlitString;
      hide Overlaid;
      var nStart := nCursorX;
      var nEnd := nStart + |sText| - 1;
      if 1 <= nCursorY <= nHeight {
        var tLine := tLines[nCursorY - 1];
        assert Even(tLine);
        if nStart <= nWidth && nEnd >= 1 {
          var new' := Line(BlitString(tLine.text, sText, nStart, nWidth), BlitString(tLine.textColor, sTextColor, nStart, nWidth),
                           BlitString(tLine.backgroundColor, sBackgroundColor, nStart, nWidth));
          BlitLength(tLine.text, sText, tLine.textColor, sTextColor, nStart, nWidth);
          BlitLength(tLine.text, sText, tLine.backgroundColor, sBackgroundColor, nStart, nWidth);
          if Valid() {
            BlitOverlays(tLine.text, sText, nStart, nWidth);
            BlitOverlays(tLine.textColor, sTextColor, nStart, nWidth);
            BlitOverlays(tLine.backgroundColor, sBackgroundColor, nStart, nWidth);
            OverlaidLength(tLine, new', sText, sTextColor, sBackgroundColor, nStart);
          }
          tLines := tLines[nCursorY - 1 := new'];
        } else if Valid() {
          InvisibleOverlay(tLine.text, sText, nStart);
          InvisibleOverlay(tLine.textColor, sTextColor, nStart);
          InvisibleOverlay(tLine.backgroundColor, sBackgroundColor, nStart);
        }
      }
      nCursorX := nEnd + 1;
    }

    /** `window.write`. */
    method Write(sText: string)
      requires Shaped()
      modifies `tLines, `nCursorX
      ensures Shaped() && nCursorX == old(nCursorX) + |sText|
      ensures forall y :: 0 <= y < |tLines| && y != nCursorY - 1 ==> tLines[y] == old(tLines)[y]
      ensures old(Valid()) ==>
                Valid() && Blitted(old(tLines), old(nCursorX), nCursorY, sText, Rep(textColor, |sText|), Rep(backgroundColor, |sText|), tLines)
    {
      InternalBlit(sText, Rep(textColor, |sText|), Rep(backgroundColor, |sText|));
    }

    /** `window.blit`; false if the lengths differ. */
    method Blit(sText: string, sTextColor: string, sBackgroundColor: string) returns (ok: bool)
      requires Shaped()
      modifies `tLines, `nCursorX
      ensures Shaped() && ok == (|sTextColor| == |sText| && |sBackgroundColor| == |sText|)
      ensures !ok ==> tLines == old(tLines) && nCursorX == old(nCursorX)
      ensures ok ==> nCursorX == old(nCursorX) + |sText|
      ensures forall y :: 0 <= y < |tLines| && y != nCursorY - 1 ==> tLines[y] == old(tLines)[y]
      ensures old(Valid()) ==>
                Valid() && (ok ==> Blitted(old(tLines), old(nCursorX), nCursorY, sText, sTextColor, sBackgroundColor, tLines))
    {
      if |sTextColor| != |sText| || |sBackgroundColor| != |sText| {
        return false;
      }
      InternalBlit(sText, sTextColor, sBackgroundColor);
      return true;
    }

    /** `window.clear`. It brings all lines to the width of the window unless that is negative. */
    method Clear()
      requires Shaped()
      modifies `tLines
      ensures Shaped() && forall y :: 0 <= y < nHeight ==> IsBlank(tLines[y], textColor, backgroundColor, nWidth)
      ensures Valid() <==> nWidth >= 0 || nHeight <= 0
    {
      var y := 1;
      while y <= nHeight
        invariant 1 <= y <= Max(nHeight, 0) + 1 && |tLines| == Max(nHeight, 0)
        invariant forall k :: 0 <= k < y - 1 ==> tLines[k] == Blank(textColor, backgroundColor, nWidth)
      {
        tLines := tLines[y - 1 := Blank(textColor, backgroundColor, nWidth)];
        y := y + 1;
      }
      assert nHeight > 0 ==> tLines[0] == Blank(textColor, backgroundColor, nWidth);
    }

    /** `window.clearLine`. */
    method ClearLine()
      requires Shaped()
      modifies `tLines
      ensures Shaped() && (old(Valid()) ==> Valid())
      ensures tLines == if 1 <= nCursorY <= nHeight then old(tLines)[nCursorY - 1 := Blank(textColor, backgroundColor, nWidth)] else old(tLines)
      ensures 1 <= nCursorY <= nHeight ==> IsBlank(tLines[nCursorY - 1], textColor, backgroundColor, nWidth)
    {
      if 1 <= nCursorY <= nHeight {
        assert LineOk(tLines[nCursorY - 1], nWidth) ==> nWidth >= 0;
        tLines := tLines[nCursorY - 1 := Blank(textColor, backgroundColor, nWidth)];
      }
    }

    /** `window.scroll`: line y shows what line y + n showed. */
    method Scroll(n: int)
      requires Shaped()
      modifies `tLines
      ensures Shaped() && (old(Valid()) ==> Valid())
      ensures forall y :: 0 <= y < nHeight ==>
                if 0 <= y + n < nHeight then tLines[y] == old(tLines)[y + n]
                else IsBlank(tLines[y], textColor, backgroundColor, nWidth)
    {
      if n != 0 {
        assert nHeight > 0 && LineOk(tLines[0], nWidth) ==> nWidth >= 0;
        var tNewLines: seq<Line> := [];
        var newY := 1;
        while newY <= nHeight
          invariant 1 <= newY <= Max(nHeight, 0) + 1 && |tNewLines| == newY - 1
          invariant forall y :: 0 <= y < newY - 1 ==>
                      tNewLines[y] == if 0 <= y + n < nHeight then tLines[y + n] else Blank(textColor, backgroundColor, nWidth)
          modifies {}
        {
          var y := newY + n;
          tNewLines := tNewLines + [if 1 <= y <= nHeight then tLines[y - 1] else Blank(textColor, backgroundColor, nWidth)];
          newY := newY + 1;
        }
        tLines := tNewLines;
      }
    }

    /** `window.setCursorPos`, with integers. */
    method SetCursorPos(x: int, y: int)
      modifies `nCursorX, `nCursorY
      ensures nCursorX == x && nCursorY == y
      ensures old(Shaped()) ==> Shaped()
      ensures old(Valid()) ==> Valid()
    {
      nCursorX, nCursorY := x, y;
    }

    /** `window.setTextColor`, with the digit of the colour. */
    method SetTextColor(color: char)
      modifies `textColor
      ensures textColor == color
    {
      textColor := color;
    }

    /** `window.setBackgroundColor`. */
    method SetBackgroundColor(color: char)
      modifies `backgroundColor
      ensures backgroundColor == color
    {
      backgroundColor := color;
    }

    /** `window.reposition`. With a new size what was visible stays and the rest is blank. If all lines
        had exactly the width of the window, they have exactly the new width if and only if that is not
        negative or there is no line. */
    method Reposition(nNewX: int, nNewY: int, nNewWidth: Option<int>, nNewHeight: Option<int>)
      requires Shaped()
      modifies `nX, `nY, `nWidth, `nHeight, `tLines
      ensures Shaped() && nX == nNewX && nY == nNewY
      ensures nNewWidth.None? || nNewHeight.None? ==>
                nWidth == old(nWidth) && nHeight == old(nHeight) && tLines == old(tLines)
      ensures nNewWidth.Some? && nNewHeight.Some? ==>
                && nWidth == nNewWidth.v && nHeight == nNewHeight.v
                && (forall y :: 0 <= y < nHeight ==>
                      if y < old(nHeight) then tLines[y] == Resized(old(tLines)[y], old(nWidth), nWidth, textColor, backgroundColor)
                      else IsBlank(tLines[y], textColor, backgroundColor, nWidth))
                && (old(Valid()) ==> (Valid() <==> nWidth >= 0 || nHeight <= 0))
    {
      hide Resized;
      nX, nY := nNewX, nNewY;
      if nNewWidth.None? || nNewHeight.None? {
        return;
      }
      var w, h := nNewWidth.v, nNewHeight.v;
      var tNewLines: seq<Line> := [];
      var y := 1;
      while y <= h
        invariant 1 <= y <= Max(h, 0) + 1 && |tNewLines| == y - 1
        invariant forall k :: 0 <= k < y - 1 ==>
                    tNewLines[k] == if k < nHeight then Resized(tLines[k], nWidth, w, textColor, backgroundColor)
                                    else Blank(textColor, backgroundColor, w)
        invariant forall k :: 0 <= k < y - 1 ==> Even(tNewLines[k]) && (Valid() ==> (LineOk(tNewLines[k], w) <==> w >= 0))
        modifies {}
      {
        if y > nHeight {
          tNewLines := tNewLines + [Blank(textColor, backgroundColor, w)];
        } else {
          ResizedEven(tLines[y - 1], nWidth, w, textColor, backgroundColor);
          if Valid() {
            ResizedOk(tLines[y - 1], nWidth, w, textColor, backgroundColor);
          }
          tNewLines := tNewLines + [Resized(tLines[y - 1], nWidth, w, textColor, backgroundColor)];
        }
        y := y + 1;
      }
      assert h > 0 ==> |tNewLines| > 0 && Even(tNewLines[0]);
      nWidth, nHeight, tLines := w, h, tNewLines;
    }
  }

  lemma OverlaidLength(l: Line, l': Line, a: string, b: string, c: string, start: int)
    requires Overlaid(l.text, a, start, l'.text) && Overlaid(l.textColor, b, start, l'.textColor) && Overlaid(l.backgroundColor, c, start, l'.backgroundColor)
    ensures forall w: int :: LineOk(l, w) ==> LineOk(l', w)
  {
  }

  /** A line of a window that changes its width. */
  function Resized(l: Line, w: int, nNewWidth: int, text: char, background: char): Line {
    if nNewWidth == w then l
    else if nNewWidth < w then
      Line(Sub(l.text, 1, nNewWidth), Sub(l.textColor, 1, nNewWidth), Sub(l.backgroundColor, 1, nNewWidth))
    else
      Line(l.text + Sub(Rep(' ', nNewWidth), w + 1, nNewWidth), l.textColor + Sub(Rep(text, nNewWidth), w + 1, nNewWidth),
           l.backgroundColor + Sub(Rep(background, nNewWidth), w + 1, nNewWidth))
  }

  lemma ResizedEven(l: Line, w: int, nNewWidth: int, text: char, background: char)
    requires Even(l)
    ensures Even(Resized(l, w, nNewWidth, text, background))
  {
    hide Sub;
    hide SubLength;
  }

  /** A line gets the new width exactly if that is not negative, and then what is left of it is its
      beginning and what is new is blank. With a negative width, which the argument check lets through,
      `string.sub` counts from the right: that many characters less one are cut off the end. */
  lemma ResizedOk(l: Line, w: int, nNewWidth: int, text: char, background: char)
    requires LineOk(l, w)
    ensures var r := Resized(l, w, nNewWidth, text, background);
            && (LineOk(r, nNewWidth) <==> nNewWidth >= 0)
            && (nNewWidth < 0 ==> LineOk(r, Max(0, w + nNewWidth + 1)))
            && forall x :: 0 <= x < nNewWidth ==>
                 && r.text[x] == (if x < w then l.text[x] else ' ')
                 && r.textColor[x] == (if x < w then l.textColor[x] else text)
                 && r.backgroundColor[x] == (if x < w then l.backgroundColor[x] else background)
  {
  }

  // ----- sequences of operations -----

  datatype Op =
    | WriteOp(text: string)
    | BlitOp(text: string, textColor: string, backgroundColor: string)
    | ClearOp
    | ClearLineOp
    | ScrollOp(n: int)
    | CursorOp(x: int, y: int)
    | TextColorOp(color: char)
    | BackgroundColorOp(color: char)
    | RepositionOp(x: int, y: int, width: Option<int>, height: Option<int>)

  /** The operation does not give the window a negative width while it has lines. */
  predicate Good(op: Op) {
    op.RepositionOp? && op.width.Some? && op.height.Some? ==> op.width.v >= 0 || op.height.v <= 0
  }

  method Apply(w: WindowBuffer, op: Op)
    requires w.Shaped()
    modifies w
    ensures w.Shaped() && (old(w.Valid()) ==> (w.Valid() <==> Good(op)))
  {
    match op {
      case WriteOp(text) => w.Write(text);
      case BlitOp(text, textColor, backgroundColor) =>
        var _ := w.Blit(text, textColor, backgroundColor);
      case ClearOp =>
        assert w.Valid() && w.nHeight > 0 ==> LineOk(w.tLines[0], w.nWidth);
        w.Clear();
      case ClearLineOp => w.ClearLine();
      case ScrollOp(n) => w.Scroll(n);
      case CursorOp(x, y) => w.SetCursorPos(x, y);
      case TextColorOp(color) => w.SetTextColor(color);
      case BackgroundColorOp(color) => w.SetBackgroundColor(color);
      case RepositionOp(x, y, width, height) => w.Reposition(x, y, width, height);
    }
  }

  /** In a sequence of operations all lines have exactly the width of the window, at the start and after
      every operation, if and only if neither the start nor an operation gives a negative width to a
      window with lines. */
  method Run(x: int, y: int, width: int, height: int, ops: seq<Op>) returns (w: WindowBuffer, ghost always: bool)
    ensures fresh(w) && w.Shaped() && (always ==> w.Valid())
    ensures always <==> (width >= 0 || height <= 0) && forall i :: 0 <= i < |ops| ==> Good(ops[i])
  {
    hide Good;
    hide WindowBuffer.Valid;
    hide WindowBuffer.Shaped;
    w := new WindowBuffer(x, y, width, height);
    always := w.Valid();
    for i := 0 to |ops|
      invariant fresh(w) && w.Shaped() && (always ==> w.Valid())
      invariant always <==> (width >= 0 || height <= 0) && forall j :: 0 <= j < i ==> Good(ops[j])
    {
      Apply(w, ops[i]);
      always := always && w.Valid();
    }
  }

  /** A window whose width becomes -1 keeps its line of three characters. */
  method NegativeWidth() returns (w: WindowBuffer)
    ensures fresh(w) && w.Shaped() && w.nWidth == -1 && w.nHeight == 1 && !w.Valid()
    ensures |w.tLines| == 1 && w.tLines[0] == Blank('0', 'f', 3)
    ensures w.textColor == '0' && w.backgroundColor == 'f'
  {
    hide Resized;
    hide Blank;
    w := new WindowBuffer(1, 1, 3, 1);
    assert w.tLines[0] == Blank('0', 'f', 3);
    w.Reposition(1, 1, Some(-1), Some(1));
    WholeLine('0', 'f');
  }

  lemma WholeLine(text: char, background: char)
    ensures Resized(Blank(text, background, 3), 3, -1, text, background) == Blank(text, background, 3)
  {
  }

  /** If its width then becomes 5, which is not negative, its line has eight characters. */
  method WidthAfterNegative() returns (w: WindowBuffer)
    ensures fresh(w) && w.nWidth == 5 && w.nHeight == 1 && !w.Valid()
    ensures |w.tLines| == 1 && |w.tLines[0].text| == 8
  {
    hide Resized;
    hide Blank;
    w := NegativeWidth();
    w.Reposition(1, 1, Some(5), Some(1));
    LongLine(w.textColor, w.backgroundColor);
  }

  lemma LongLine(text: char, background: char)
    ensures LineOk(Resized(Blank(text, background, 3), -1, 5, text, background), 8)
  {
  }
}
