/** The pattern matcher (lua/lstrlib.c). */
module Matcher {
  // Backtracking, with captures that are undone on failure.

  import opened Basics
  import opened PatternSpec

  /** What `match` comes to: null, a run-time error, or the end of the match. */
  datatype Res = NoMatch | Raised | MatchEnd(e: nat)

  /** The result is the first one. */
  predicate IsFirst(r: Res, R: seq<Outcome>, caps: seq<Capture>) {
    match r
    case NoMatch => R == []
    case Raised => R != [] && R[0] == Error
    case MatchEnd(e) => R != [] && R[0] == Ok(e, caps)
  }

  /** Counting the first repetition separately. */
  lemma {:induction false} MostShift(src: seq<Byte>, pat: seq<Byte>, caps: seq<Capture>, s: nat, n: nat, q: nat)
    requires 1 <= n && s + n <= |src| && q <= |pat|
    ensures Most(src, pat, caps, s + 1, 0, n - 1, q) == Most(src, pat, caps, s, 1, n, q)
    decreases n
  {
    hide Results;
    if n > 1 {
      MostShift(src, pat, caps, s, n - 1, q);
    }
  }

  lemma {:induction false} FewestShift(src: seq<Byte>, pat: seq<Byte>, caps: seq<Capture>, s: nat, lo: nat, hi: nat, q: nat)
    requires lo < hi && s + hi <= |src| && q <= |pat|
    ensures Fewest(src, pat, caps, s + 1, lo, hi - 1, q) == Fewest(src, pat, caps, s, lo + 1, hi, q)
    decreases hi - lo
  {
    hide Results;
    if lo + 1 < hi {
      FewestShift(src, pat, caps, s, lo + 1, hi, q);
    }
  }

  lemma FewestFirst(src: seq<Byte>, pat: seq<Byte>, caps: seq<Capture>, s: nat, n: nat, q: nat)
    requires s + n <= |src| && q <= |pat|
    ensures Fewest(src, pat, caps, s, 0, n, q) ==
              Results(src, pat, caps, s, q) + if n > 0 then Fewest(src, pat, caps, s + 1, 0, n - 1, q) else []
  {
    hide Results;
    if n > 0 {
      FewestShift(src, pat, caps, s, 0, n, q);
    }
  }

  /** The results for what is not a pattern item. */
  lemma TokenResults(src: seq<Byte>, pat: seq<Byte>, caps: seq<Capture>, s: nat, p: nat)
    requires s <= |src| && p <= |pat|
    ensures var R := Results(src, pat, caps, s, p);
            match TokenAt(pat, p)
            case Malformed => R == [Error]
            case End => R == [Ok(s, caps)]
            case Dollar => R == if s == |src| then [Ok(s, caps)] else []
            case Open(position, next) =>
              R == if |caps| >= MAXCAPTURES then [Error]
                   else Results(src, pat, caps + [Capture(s, if position then CAP_POSITION else CAP_UNFINISHED)], s, next)
            case Close(next) =>
              R == (match ToClose(caps)
                    case None => [Error]
                    case Some(l) => Results(src, pat, caps[l := Capture(caps[l].init, s - caps[l].init)], s, next))
            case Balanced(b, e, next) =>
              R == if At(src, s) != b then []
                   else (match Balance(src, s + 1, b, e, 1) case None => [] case Some(t) => Results(src, pat, caps, t, next))
            case Frontier(ec, next) =>
              R == if MatchBracket(if s == 0 then 0 else At(src, s - 1), pat, p + 2, ec) || !MatchBracket(At(src, s), pat, p + 2, ec) then []
                   else Results(src, pat, caps, s, next)
            case Back(digit, next) =>
              R == (match BackReference(src, caps, s, digit)
                    case None => [Error]
                    case Some(None) => []
                    case Some(Some(t)) => Results(src, pat, caps, t, next))
            case Item(_, _) => true
  {
  }

  /** The results for a pattern item, by its suffix. */
  lemma ItemResults(src: seq<Byte>, pat: seq<Byte>, caps: seq<Capture>, s: nat, p: nat, ep: nat, suffix: Byte)
    requires s <= |src| && p <= |pat| && TokenAt(pat, p) == Item(ep, suffix)
    ensures var R, n := Results(src, pat, caps, s, p), RunLength(src, pat, s, p, ep);
            && (suffix == 42 ==> R == Most(src, pat, caps, s, 0, n, ep + 1))
            && (suffix == 43 ==> R == if n == 0 then [] else Most(src, pat, caps, s, 1, n, ep + 1))
            && (suffix == 45 ==> R == Fewest(src, pat, caps, s, 0, n, ep + 1))
            && (suffix == 63 ==> R == (if n == 0 then [] else Results(src, pat, caps, s + 1, ep + 1)) + Results(src, pat, caps, s, ep + 1))
            && (!HasSuffix(suffix) ==> R == if n == 0 then [] else Results(src, pat, caps, s + 1, ep))
  {
    if suffix == 63 && RunLength(src, pat, s, p, ep) > 0 {
      assert Most(src, pat, caps, s, 0, 0, ep + 1) == Results(src, pat, caps, s, ep + 1);
    }
  }

  lemma RunStarts(src: seq<Byte>, pat: seq<Byte>, caps: seq<Capture>, s: nat, p: nat, ep: nat)
    requires CapsOk(src, caps, s)
    ensures s <= |src| && s + RunLength(src, pat, s, p, ep) <= |src|
    ensures RunLength(src, pat, s, p, ep) > 0 <==> s < |src| && SingleMatch(src[s], pat, p, ep)
    ensures RunLength(src, pat, s, p, ep) > 0 ==>
              RunLength(src, pat, s + 1, p, ep) == RunLength(src, pat, s, p, ep) - 1 && CapsOk(src, caps, s + 1)
  {
    if s < |src| {
      CapsLater(src, caps, s, s + 1);
    }
  }

  lemma NoneIsFirst(caps: seq<Capture>)
    ensures IsFirst(NoMatch, [], caps)
  {
  }

  class MatchState {
    const src: seq<Byte>
    const pat: seq<Byte>
    var level: nat                      // how many captures there are, open ones included
    const capture: array<Capture>

    constructor (src: seq<Byte>, pat: seq<Byte>)
      ensures this.src == src && this.pat == pat && Valid() && Caps() == [] && fresh(capture)
    {
      this.src, this.pat, level := src, pat, 0;
      capture := new Capture[MAXCAPTURES](_ => Capture(0, 0));
    }

    ghost predicate Valid()
      reads this, capture
    {
      capture.Length == MAXCAPTURES && level <= MAXCAPTURES
    }

    ghost function Caps(): seq<Capture>
      requires Valid()
      reads this, capture
    {
      capture[..level]
    }

    /** `match`: the first result in the order of priority; captures are as before if there is none. */
    method Match(s: nat, p: nat) returns (r: Res)
      requires Valid() && p <= |pat| && CapsOk(src, Caps(), s)
      modifies `level, capture
      ensures Valid() && IsFirst(r, Results(src, pat, old(Caps()), s, p), Caps())
      ensures r == NoMatch ==> Caps() == old(Caps())
      decreases |pat| - p, 3
    {
      hide Results;
      hide Balance;
      hide BackReference;
      hide ToClose;
      hide MatchBracket;
      TokenResults(src, pat, Caps(), s, p);
      hide TokenAt;
      match TokenAt(pat, p) {
        case Open(position, next) => r := StartCapture(s, next, if position then CAP_POSITION else CAP_UNFINISHED);
        case Close(next) => r := EndCapture(s, next);
        case Balanced(b, e, next) =>
          var t := MatchBalance(s, b, e);
          if t.None? {
            return NoMatch;
          }
          r := Match(t.v, next);
        case Frontier(ec, next) =>
          var previous := if s == 0 then 0 else At(src, s - 1);
          if MatchBracket(previous, pat, p + 2, ec) || !MatchBracket(At(src, s), pat, p + 2, ec) {
            return NoMatch;
          }
          r := Match(s, next);
        case Back(digit, next) =>
          var t := MatchCapture(s, digit);
          if t.None? {
            return Raised;
          } else if t.v.None? {
            return NoMatch;
          }
          r := Match(t.v.v, next);
        case End => r := MatchEnd(s);
        case Dollar => r := if s == |src| then MatchEnd(s) else NoMatch;
        case Malformed => r := Raised;
        case Item(ep, suffix) => r := MatchItem(s, p, ep, suffix);
      }
    }

    /** A pattern item, with its suffix if it has one. */
    method MatchItem(s: nat, p: nat, ep: nat, suffix: Byte) returns (r: Res)
      requires Valid() && p <= |pat| && CapsOk(src, Caps(), s) && TokenAt(pat, p) == Item(ep, suffix)
      modifies `level, capture
      ensures Valid() && IsFirst(r, Results(src, pat, old(Caps()), s, p), Caps())
      ensures r == NoMatch ==> Caps() == old(Caps())
      decreases |pat| - p, 2
    {
      hide Results;
      hide Most;
      hide Fewest;
      hide SingleMatch;
      hide CapsOk;
      hide RunLength;
      hide IsFirst;
      ghost var caps, n := Caps(), RunLength(src, pat, s, p, ep);
      RunStarts(src, pat, caps, s, p, ep);
      ItemResults(src, pat, caps, s, p, ep, suffix);
      hide TokenAt;
      var m := s < |src| && SingleMatch(src[s], pat, p, ep);
      if suffix == 63 {
        r := MatchOptional(s, ep + 1, m);
      } else if suffix == 42 {
        r := MaxExpand(s, p, ep);
      } else if suffix == 43 {
        if m {
          MostShift(src, pat, caps, s, n, ep + 1);
          r := MaxExpand(s + 1, p, ep);
        } else {
          r := NoMatch;
          NoneIsFirst(Caps());
        }
      } else if suffix == 45 {
        r := MinExpand(s, p, ep);
      } else if !m {
        r := NoMatch;
        NoneIsFirst(Caps());
      } else {
        r := Match(s + 1, ep);
      }
    }

    /** An item that may be left out. */
    method MatchOptional(s: nat, q: nat, m: bool) returns (r: Res)
      requires Valid() && q <= |pat| && CapsOk(src, Caps(), s) && (m ==> s < |src|)
      modifies `level, capture
      ensures Valid()
      ensures IsFirst(r, (if m then Results(src, pat, old(Caps()), s + 1, q) else []) + Results(src, pat, old(Caps()), s, q), Caps())
      ensures r == NoMatch ==> Caps() == old(Caps())
      decreases |pat| - q, 4
    {
      hide Results;
      ghost var caps := Caps();
      if m {
        CapsLater(src, caps, s, s + 1);
        r := Match(s + 1, q);
        if r != NoMatch {
          return;
        }
      }
      r := Match(s, q);
    }

    /** `max_expand`. */
    method MaxExpand(s: nat, p: nat, ep: nat) returns (r: Res)
      requires Valid() && p < ep < |pat| && CapsOk(src, Caps(), s)
      modifies `level, capture
      ensures Valid() && IsFirst(r, Most(src, pat, old(Caps()), s, 0, RunLength(src, pat, s, p, ep), ep + 1), Caps())
      ensures r == NoMatch ==> Caps() == old(Caps())
      decreases |pat| - p, 1
    {
      hide Results;
      hide SingleMatch;
      ghost var caps, n := Caps(), RunLength(src, pat, s, p, ep);
      var i: int := 0;
      while s + i < |src| && SingleMatch(src[s + i], pat, p, ep)
        invariant 0 <= i <= n
      {
        i := i + 1;
      }
      ghost var R := Most(src, pat, caps, s, 0, n, ep + 1);
      hide RunLength;
      // `R` is what is left of the ordered results
      while i >= 0
        invariant -1 <= i <= n && Valid() && Caps() == caps
        invariant R == if i >= 0 then Most(src, pat, caps, s, 0, i, ep + 1) else []
        decreases i
      {
        CapsLater(src, caps, s, s + i);
        r := Match(s + i, ep + 1);
        if r != NoMatch {
          return;
        }
        i := i - 1;
      }
      return NoMatch;
    }

    /** `min_expand`. */
    method MinExpand(s: nat, p: nat, ep: nat) returns (r: Res)
      requires Valid() && p < ep < |pat| && CapsOk(src, Caps(), s)
      modifies `level, capture
      ensures Valid() && IsFirst(r, Fewest(src, pat, old(Caps()), s, 0, RunLength(src, pat, s, p, ep), ep + 1), Caps())
      ensures r == NoMatch ==> Caps() == old(Caps())
      decreases |pat| - p, 1
    {
      hide Results;
      hide SingleMatch;
      hide CapsOk;
      hide RunLength;
      hide Fewest;
      RunStarts(src, pat, Caps(), s, p, ep);
      ghost var caps, R := Caps(), Fewest(src, pat, Caps(), s, 0, RunLength(src, pat, s, p, ep), ep + 1);
      var t := s;
      while true
        invariant s <= t <= |src| && Valid() && Caps() == caps
        invariant R == Fewest(src, pat, caps, t, 0, RunLength(src, pat, t, p, ep), ep + 1)
        decreases |src| - t
      {
        CapsLater(src, caps, s, t);
        RunStarts(src, pat, caps, t, p, ep);
        FewestFirst(src, pat, caps, t, RunLength(src, pat, t, p, ep), ep + 1);
        r := Match(t, ep + 1);
        if r != NoMatch {
          return;
        }
        if t < |src| && SingleMatch(src[t], pat, p, ep) {
          t := t + 1;
        } else {
          return NoMatch;
        }
      }
    }

    /** `start_capture`. */
    method StartCapture(s: nat, p: nat, what: int) returns (r: Res)
      requires Valid() && p <= |pat| && CapsOk(src, Caps(), s) && (what == CAP_POSITION || what == CAP_UNFINISHED)
      modifies `level, capture
      ensures Valid()
      ensures IsFirst(r, if |old(Caps())| >= MAXCAPTURES then [Error] else Results(src, pat, old(Caps()) + [Capture(s, what)], s, p), Caps())
      ensures r == NoMatch ==> Caps() == old(Caps())
      decreases |pat| - p, 4
    {
      if level >= MAXCAPTURES {
        return Raised;  // too many captures
      }
      ghost var caps := Caps();
      capture[level] := Capture(s, what);
      level := level + 1;
      assert Caps() == caps + [Capture(s, what)];
      r := Match(s, p);
      if r == NoMatch {
        level := level - 1;  // captures are as before
        assert Caps() == (caps + [Capture(s, what)])[..level];
      }
    }

    /** `end_capture`. */
    method EndCapture(s: nat, p: nat) returns (r: Res)
      requires Valid() && p <= |pat| && CapsOk(src, Caps(), s)
      modifies `level, capture
      ensures Valid()
      ensures IsFirst(r, match ToClose(old(Caps()))
                         case None => [Error]
                         case Some(l) => Results(src, pat, old(Caps())[l := Capture(old(Caps())[l].init, s - old(Caps())[l].init)], s, p), Caps())
      ensures r == NoMatch ==> Caps() == old(Caps())
      decreases |pat| - p, 4
    {
      hide Results;
      ghost var caps := Caps();
      var l := CaptureToClose();
      if l == -1 {
        return Raised;  // invalid pattern capture
      }
      var init := capture[l].init;
      assert CapOk(src, caps[l], s);
      ghost var caps' := caps[l := Capture(init, s - init)];
      CapsClosed(src, caps, s, l);
      capture[l] := Capture(init, s - init);
      assert Caps() == caps';
      r := Match(s, p);
      if r == NoMatch {
        assert Caps() == caps' && capture[l] == caps'[l];
        capture[l] := Capture(capture[l].init, CAP_UNFINISHED);  // captures are as before
        assert Caps() == caps'[l := Capture(init, CAP_UNFINISHED)];
        assert caps[l] == Capture(init, CAP_UNFINISHED);
      }
    }

    /** `capture_to_close`. */
    method CaptureToClose() returns (l: int)
      requires Valid()
      ensures l == match ToClose(Caps()) case None => -1 case Some(i) => i
    {
      l := level - 1;
      while l >= 0
        invariant -1 <= l < level
        invariant forall i :: l < i < level ==> capture[i].len != CAP_UNFINISHED
      {
        if capture[l].len == CAP_UNFINISHED {
          return;
        }
        l := l - 1;
      }
    }

    /** `match_capture`, with `check_capture`. */
    method MatchCapture(s: nat, digit: Byte) returns (r: Option<Option<nat>>)
      requires Valid() && CapsOk(src, Caps(), s)
      ensures r == BackReference(src, Caps(), s, digit)
    {
      var l := digit - 49;
      if l < 0 || l >= level || capture[l].len == CAP_UNFINISHED {
        return None;  // invalid capture index
      }
      assert Caps()[l] == capture[l] && CapOk(src, Caps()[l], s);
      var c := capture[l];
      if 0 <= c.len <= |src| - s && src[c.init..c.init + c.len] == src[s..s + c.len] {
        return Some(Some(s + c.len));
      }
      return Some(None);
    }

    /** `matchbalance`. */
    method MatchBalance(s: nat, b: Byte, e: Byte) returns (r: Option<nat>)
      requires s <= |src| && b != 0
      ensures r == if At(src, s) != b then None else Balance(src, s + 1, b, e, 1)
    {
      if At(src, s) != b {
        return None;
      }
      var cont, t := 1, s + 1;
      while t < |src|
        invariant cont > 0 && t <= |src| && Balance(src, s + 1, b, e, 1) == Balance(src, t, b, e, cont)
      {
        if src[t] == e {
          cont := cont - 1;
          if cont == 0 {
            return Some(t + 1);
          }
        } else if src[t] == b {
          cont := cont + 1;
        }
        t := t + 1;
      }
      return None;  // BalanceIsFirst: it never balances
    }
  }

  lemma CapsLater(src: seq<Byte>, caps: seq<Capture>, s: nat, t: nat)
    requires CapsOk(src, caps, s) && s <= t <= |src|
    ensures CapsOk(src, caps, t)
  {
    forall i | 0 <= i < |caps| ensures CapOk(src, caps[i], t) {
      assert CapOk(src, caps[i], s);
    }
  }

  lemma CapsClosed(src: seq<Byte>, caps: seq<Capture>, s: nat, l: nat)
    requires CapsOk(src, caps, s) && l < |caps| && caps[l].len == CAP_UNFINISHED
    ensures CapsOk(src, caps[l := Capture(caps[l].init, s - caps[l].init)], s)
  {
    assert CapOk(src, caps[l], s);
  }
}
