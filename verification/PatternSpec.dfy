/** What Lua patterns mean (lua/lstrlib.c). */
module PatternSpec {
  // Section 5.4.1 of the Lua 5.1 Reference Manual.

  import opened Basics

  const L_ESC: Byte := 37        // '%'
  const MAXCAPTURES: nat := 32
  const CAP_UNFINISHED: int := -1
  const CAP_POSITION: int := -2

  datatype Capture = Capture(init: nat, len: int)

  /** The character at position `i`; strings end with a zero. */
  function At(t: seq<Byte>, i: nat): Byte {
    if i < |t| then t[i] else 0
  }

  // ----- character classes, in the C locale -----

  predicate IsLower(c: Byte) { 97 <= c <= 122 }
  predicate IsUpper(c: Byte) { 65 <= c <= 90 }
  predicate IsDigit(c: Byte) { 48 <= c <= 57 }
  predicate IsAlpha(c: Byte) { IsLower(c) || IsUpper(c) }
  predicate IsCntrl(c: Byte) { c < 32 || c == 127 }
  predicate IsSpace(c: Byte) { c == 32 || 9 <= c <= 13 }
  predicate IsPunct(c: Byte) { 33 <= c <= 126 && !IsAlpha(c) && !IsDigit(c) }
  predicate IsXDigit(c: Byte) { IsDigit(c) || 97 <= c <= 102 || 65 <= c <= 70 }

  /** `match_class`. */
  predicate MatchClass(c: Byte, cl: Byte) {
    var lower := if IsUpper(cl) then cl + 32 else cl;
    if lower !in {97, 99, 100, 108, 112, 115, 117, 119, 120, 122} then cl == c
    else
      var res :=
        if lower == 97 then IsAlpha(c)
        else if lower == 99 then IsCntrl(c)
        else if lower == 100 then IsDigit(c)
        else if lower == 108 then IsLower(c)
        else if lower == 112 then IsPunct(c)
        else if lower == 115 then IsSpace(c)
        else if lower == 117 then IsUpper(c)
        else if lower == 119 then IsAlpha(c) || IsDigit(c)
        else if lower == 120 then IsXDigit(c)
        else c == 0;
      if IsLower(cl) then res else !res
  }

  /** The loop of `matchbracketclass`: some item of the set from `p` on, before `ec`, matches. */
  predicate InSet(c: Byte, pat: seq<Byte>, p: nat, ec: nat)
    decreases ec - p
  {
    if p >= ec then false
    else if At(pat, p) == L_ESC then MatchClass(c, At(pat, p + 1)) || InSet(c, pat, p + 2, ec)
    else if At(pat, p + 1) == 45 && p + 2 < ec then
      (At(pat, p) <= c <= At(pat, p + 2)) || InSet(c, pat, p + 3, ec)
    else At(pat, p) == c || InSet(c, pat, p + 1, ec)
  }

  /** `matchbracketclass`, for the set that starts at `p` and whose `]` is at `ec`. */
  predicate MatchBracket(c: Byte, pat: seq<Byte>, p: nat, ec: nat) {
    if At(pat, p + 1) == 94 then !InSet(c, pat, p + 2, ec) else InSet(c, pat, p + 1, ec)
  }

  /** `singlematch`. */
  predicate SingleMatch(c: Byte, pat: seq<Byte>, p: nat, ep: nat) {
    if At(pat, p) == 46 then true
    else if At(pat, p) == L_ESC then MatchClass(c, At(pat, p + 1))
    else if At(pat, p) == 91 then MatchBracket(c, pat, p, if ep > 0 then ep - 1 else 0)
    else At(pat, p) == c
  }

  /** The end of a set: the loop of `classend` that looks for a `]`. */
  function SetEnd(pat: seq<Byte>, p: nat): (r: Option<nat>)
    requires p <= |pat|
    ensures r.Some? ==> p + 1 < r.v <= |pat|
    decreases |pat| - p
  {
    if p >= |pat| || pat[p] == 0 then None
    else
      var q := if pat[p] == L_ESC && At(pat, p + 1) != 0 then p + 2 else p + 1;
      if At(pat, q) == 93 then Some(q + 1) else SetEnd(pat, q)
  }

  /** `classend`: where the single character class at `p` ends. */
  function ClassEnd(pat: seq<Byte>, p: nat): (r: Option<nat>)
    requires p < |pat|
    ensures r.Some? ==> p < r.v <= |pat|
  {
    if pat[p] == L_ESC then
      if At(pat, p + 1) == 0 then None else Some(p + 2)
    else if pat[p] == 91 then
      SetEnd(pat, if At(pat, p + 1) == 94 then p + 2 else p + 1)
    else Some(p + 1)
  }

  /** The loop of `matchbalance` from `s` on, with `cont` openings to be closed. */
  function Balance(src: seq<Byte>, s: nat, b: Byte, e: Byte, cont: nat): (r: Option<nat>)
    requires cont > 0
    ensures r.Some? ==> s < r.v <= |src|
    decreases |src| - s
  {
    if s >= |src| then None
    else if src[s] == e then (if cont == 1 then Some(s + 1) else Balance(src, s + 1, b, e, cont - 1))
    else Balance(src, s + 1, b, e, if src[s] == b then cont + 1 else cont)
  }

  // ----- captures -----

  /** Captures are consistent with the position `s` that matching has reached. */
  ghost predicate CapsOk(src: seq<Byte>, caps: seq<Capture>, s: nat) {
    && |caps| <= MAXCAPTURES && s <= |src|
    && forall i :: 0 <= i < |caps| ==> CapOk(src, caps[i], s)
  }

  predicate CapOk(src: seq<Byte>, c: Capture, s: nat) {
    && c.len >= -2 && c.init <= |src|
    && (c.len == CAP_UNFINISHED ==> c.init <= s)
    && (c.len >= 0 ==> c.init + c.len <= |src|)
  }

  /** `capture_to_close`: the last unfinished capture. */
  function ToClose(caps: seq<Capture>): (r: Option<nat>)
    ensures r.Some? ==> r.v < |caps| && caps[r.v].len == CAP_UNFINISHED
    ensures r.Some? ==> forall i :: r.v < i < |caps| ==> caps[i].len != CAP_UNFINISHED
    ensures r.None? ==> forall i :: 0 <= i < |caps| ==> caps[i].len != CAP_UNFINISHED
  {
    if caps == [] then None
    else if caps[|caps| - 1].len == CAP_UNFINISHED then Some(|caps| - 1)
    else ToClose(caps[..|caps| - 1])
  }

  /** `match_capture`: `None` if the index is invalid, else where a copy of the capture at `s` ends. */
  function BackReference(src: seq<Byte>, caps: seq<Capture>, s: nat, digit: Byte): (r: Option<Option<nat>>)
    requires s <= |src|
    ensures r.Some? && r.v.Some? ==> s <= r.v.v <= |src|
  {
    var l := digit - 49;
    if l < 0 || l >= |caps| || caps[l].len == CAP_UNFINISHED then None
    else
      var c := caps[l];
      if 0 <= c.len <= |src| - s && c.init + c.len <= |src| && src[c.init..c.init + c.len] == src[s..s + c.len]
      then Some(Some(s + c.len)) else Some(None)
  }

  // ----- results in order of priority -----

  /** What an attempt to match can come to: success at `e`, or a run-time error. */
  datatype Outcome = Ok(e: nat, caps: seq<Capture>) | Error

  /** What kind of thing is at `p`. */
  datatype Token =
    | Open(position: bool, next: nat)
    | Close(next: nat)
    | Balanced(b: Byte, close: Byte, next: nat)
    | Frontier(ec: nat, next: nat)
    | Back(digit: Byte, next: nat)
    | End
    | Dollar
    | Item(ep: nat, suffix: Byte)
    | Malformed

  function TokenAt(pat: seq<Byte>, p: nat): (t: Token)
    requires p <= |pat|
    ensures match t
            case Open(_, next) => p < next <= |pat|
            case Close(next) => p < next <= |pat|
            case Balanced(_, _, next) => p < next <= |pat|
            case Frontier(_, next) => p < next <= |pat|
            case Back(_, next) => p < next <= |pat|
            case Item(ep, suffix) => p < ep <= |pat| && p < |pat| && suffix == At(pat, ep)
            case _ => true
  {
    var c := At(pat, p);
    if p >= |pat| || c == 0 then End
    else if c == 40 then (if At(pat, p + 1) == 41 then Open(true, p + 2) else Open(false, p + 1))
    else if c == 41 then Close(p + 1)
    else if c == L_ESC && At(pat, p + 1) == 98 then
      if At(pat, p + 2) == 0 || At(pat, p + 3) == 0 then Malformed else Balanced(At(pat, p + 2), At(pat, p + 3), p + 4)
    else if c == L_ESC && At(pat, p + 1) == 102 then
      if At(pat, p + 2) != 91 then Malformed
      else match ClassEnd(pat, p + 2) case None => Malformed case Some(ep) => Frontier(ep - 1, ep)
    else if c == L_ESC && IsDigit(At(pat, p + 1)) then Back(At(pat, p + 1), p + 2)
    else if c == 36 && At(pat, p + 1) == 0 then Dollar
    else match ClassEnd(pat, p) case None => Malformed case Some(ep) => Item(ep, At(pat, ep))
  }

  /** How many characters from `s` on match the item at `p`. */
  function RunLength(src: seq<Byte>, pat: seq<Byte>, s: nat, p: nat, ep: nat): (n: nat)
    ensures s <= |src| ==> s + n <= |src|
    ensures forall i :: s <= i < s + n ==> i < |src| && SingleMatch(src[i], pat, p, ep)
    ensures s + n < |src| ==> !SingleMatch(src[s + n], pat, p, ep)
    decreases |src| - s
  {
    if s < |src| && SingleMatch(src[s], pat, p, ep) then 1 + RunLength(src, pat, s + 1, p, ep) else 0
  }

  predicate HasSuffix(suffix: Byte) {
    suffix in {42, 43, 45, 63}  // * + - ?
  }

  /** Where the pattern goes on after an item. */
  function AfterItem(ep: nat, suffix: Byte): nat {
    if HasSuffix(suffix) then ep + 1 else ep
  }

  /** All results of matching `pat` from `p` on at `s`, the preferred ones first. */
  function Results(src: seq<Byte>, pat: seq<Byte>, caps: seq<Capture>, s: nat, p: nat): seq<Outcome>
    requires s <= |src| && p <= |pat|
    decreases |pat| - p, 0, 0
  {
    match TokenAt(pat, p)
    case Malformed => [Error]
    case End => [Ok(s, caps)]
    case Dollar => if s == |src| then [Ok(s, caps)] else []
    case Open(position, next) =>
      if |caps| >= MAXCAPTURES then [Error]
      else Results(src, pat, caps + [Capture(s, if position then CAP_POSITION else CAP_UNFINISHED)], s, next)
    case Close(next) => (
      match ToClose(caps)
      case None => [Error]
      case Some(l) => Results(src, pat, caps[l := Capture(caps[l].init, s - caps[l].init)], s, next))
    case Balanced(b, e, next) =>
      if At(src, s) != b then []
      else (match Balance(src, s + 1, b, e, 1) case None => [] case Some(t) => Results(src, pat, caps, t, next))
    case Frontier(ec, next) =>
      if MatchBracket(if s == 0 then 0 else At(src, s - 1), pat, p + 2, ec) || !MatchBracket(At(src, s), pat, p + 2, ec) then []
      else Results(src, pat, caps, s, next)
    case Back(digit, next) => (
      match BackReference(src, caps, s, digit)
      case None => [Error]
      case Some(None) => []
      case Some(Some(t)) => Results(src, pat, caps, t, next))
    case Item(ep, suffix) =>
      var n := RunLength(src, pat, s, p, ep);
      if suffix == 42 then Most(src, pat, caps, s, 0, n, ep + 1)
      else if suffix == 43 then (if n == 0 then [] else Most(src, pat, caps, s, 1, n, ep + 1))
      else if suffix == 45 then Fewest(src, pat, caps, s, 0, n, ep + 1)
      else if suffix == 63 then Most(src, pat, caps, s, 0, if n == 0 then 0 else 1, ep + 1)
      else if n == 0 then [] else Results(src, pat, caps, s + 1, ep)
  }

  /** Between `lo` and `hi` repetitions, the most first. */
  function Most(src: seq<Byte>, pat: seq<Byte>, caps: seq<Capture>, s: nat, lo: nat, hi: nat, q: nat): seq<Outcome>
    requires lo <= hi && s + hi <= |src| && q <= |pat|
    decreases |pat| - q, 1, hi - lo
  {
    Results(src, pat, caps, s + hi, q) + if lo < hi then Most(src, pat, caps, s, lo, hi - 1, q) else []
  }

  /** Between `lo` and `hi` repetitions, the fewest first. */
  function Fewest(src: seq<Byte>, pat: seq<Byte>, caps: seq<Capture>, s: nat, lo: nat, hi: nat, q: nat): seq<Outcome>
    requires lo <= hi && s + hi <= |src| && q <= |pat|
    decreases |pat| - q, 1, hi - lo
  {
    Results(src, pat, caps, s + lo, q) + if lo < hi then Fewest(src, pat, caps, s, lo + 1, hi, q) else []
  }
}
