/** What patterns describe (lua/lstrlib.c). */
module PatternMeaning {
  // Section 5.4.1 of the Lua 5.1 Reference Manual, in terms of the characters of the pattern, without
  // the functions that the matcher uses; and what the matcher finds in these terms.

  import opened Basics
  import opened PatternSpec
  import opened Matcher
  import opened PatternTheory

  // ----- classes -----

  predicate IsClassLetter(letter: Byte) {
    letter in {97, 99, 100, 108, 112, 115, 117, 119, 120, 122}
  }

  /** The bytes of each class: letters, control characters, digits, lower-case letters, punctuation, space
      characters, upper-case letters, alphanumeric characters, hexadecimal digits, the zero byte. */
  predicate ClassHas(letter: Byte, c: Byte)
    requires IsClassLetter(letter)
  {
    if letter == 97 then 65 <= c <= 90 || 97 <= c <= 122
    else if letter == 99 then c <= 31 || c == 127
    else if letter == 100 then 48 <= c <= 57
    else if letter == 108 then 97 <= c <= 122
    else if letter == 112 then 33 <= c <= 47 || 58 <= c <= 64 || 91 <= c <= 96 || 123 <= c <= 126
    else if letter == 115 then 9 <= c <= 13 || c == 32
    else if letter == 117 then 65 <= c <= 90
    else if letter == 119 then 48 <= c <= 57 || 65 <= c <= 90 || 97 <= c <= 122
    else if letter == 120 then 48 <= c <= 57 || 65 <= c <= 70 || 97 <= c <= 102
    else c == 0
  }

  /** `%x`: a class, the complement of one for an upper-case letter, or the character itself. */
  predicate ClassMatches(c: Byte, x: Byte) {
    if IsClassLetter(x) then ClassHas(x, c)
    else if 65 <= x <= 90 && IsClassLetter(x + 32) then !ClassHas(x + 32, c)
    else c == x
  }

  lemma ClassMeans(c: Byte, x: Byte)
    ensures MatchClass(c, x) <==> ClassMatches(c, x)
  {
  }

  // ----- sets -----

  /** A range of characters: the item at `q` is followed by a `-` and one more character. */
  predicate IsRange(pat: seq<Byte>, q: nat, ec: nat) {
    At(pat, q) != L_ESC && At(pat, q + 1) == 45 && q + 2 < ec
  }

  function NextSetItem(pat: seq<Byte>, q: nat, ec: nat): nat {
    if At(pat, q) == L_ESC then q + 2 else if IsRange(pat, q, ec) then q + 3 else q + 1
  }

  /** An item of the set starts at `q`, when one starts at `p`. */
  predicate StartsSetItem(pat: seq<Byte>, p: nat, ec: nat, q: nat)
    decreases q - p
  {
    p == q || (p < q && StartsSetItem(pat, NextSetItem(pat, p, ec), ec, q))
  }

  predicate SetItemHas(c: Byte, pat: seq<Byte>, q: nat, ec: nat) {
    if At(pat, q) == L_ESC then ClassMatches(c, At(pat, q + 1))
    else if IsRange(pat, q, ec) then At(pat, q) <= c <= At(pat, q + 2)
    else c == At(pat, q)
  }

  /** Some item of the set, from `p` to before `ec`, has the character. */
  ghost predicate SetHas(c: Byte, pat: seq<Byte>, p: nat, ec: nat) {
    exists q: nat :: StartsSetItem(pat, p, ec, q) && q < ec && SetItemHas(c, pat, q, ec)
  }

  lemma {:induction false} SetMeans(c: Byte, pat: seq<Byte>, p: nat, ec: nat)
    ensures InSet(c, pat, p, ec) <==> SetHas(c, pat, p, ec)
    decreases ec - p
  {
    if p < ec {
      var next := NextSetItem(pat, p, ec);
      SetMeans(c, pat, next, ec);
      ClassMeans(c, At(pat, p + 1));
      hide MatchClass;
      hide ClassMatches;
      if SetItemHas(c, pat, p, ec) {
        assert StartsSetItem(pat, p, ec, p);
      }
      if SetHas(c, pat, next, ec) {
        var q: nat :| StartsSetItem(pat, next, ec, q) && q < ec && SetItemHas(c, pat, q, ec);
        assert p < q by {
          StartsLater(pat, next, ec, q);
        }
        assert StartsSetItem(pat, p, ec, q);
      }
      if SetHas(c, pat, p, ec) && !SetItemHas(c, pat, p, ec) {
        var q: nat :| StartsSetItem(pat, p, ec, q) && q < ec && SetItemHas(c, pat, q, ec);
        assert StartsSetItem(pat, next, ec, q);
      }
    }
  }

  lemma StartsLater(pat: seq<Byte>, p: nat, ec: nat, q: nat)
    requires StartsSetItem(pat, p, ec, q)
    ensures p <= q
  {
  }

  /** A set with a `^` first is the complement of the set of its items. */
  ghost predicate BracketMatches(c: Byte, pat: seq<Byte>, p: nat, ec: nat) {
    if At(pat, p + 1) == 94 then !SetHas(c, pat, p + 2, ec) else SetHas(c, pat, p + 1, ec)
  }

  lemma BracketMeans(c: Byte, pat: seq<Byte>, p: nat, ec: nat)
    ensures MatchBracket(c, pat, p, ec) <==> BracketMatches(c, pat, p, ec)
  {
    SetMeans(c, pat, p + 1, ec);
    SetMeans(c, pat, p + 2, ec);
  }

  /** For all items `[^items]` matches exactly the characters that `[items]` does not match. */
  lemma CaretComplements(c: Byte, items: seq<Byte>)
    requires items != [] && items[0] != 94
    ensures var n := |items|;
            MatchBracket(c, [91, 94] + items + [93], 0, n + 2) <==> !MatchBracket(c, [91] + items + [93], 0, n + 1)
  {
    var pat, pat' := [91] + items + [93], [91, 94] + items + [93];
    forall i: nat | i >= 1 ensures At(pat', i + 1) == At(pat, i) {
    }
    SetShifts(c, pat, pat', 1, |items| + 1);
  }

  lemma {:induction false} SetShifts(c: Byte, pat: seq<Byte>, pat': seq<Byte>, p: nat, ec: nat)
    requires forall i: nat :: i >= p ==> At(pat', i + 1) == At(pat, i)
    ensures InSet(c, pat', p + 1, ec + 1) <==> InSet(c, pat, p, ec)
    decreases ec - p
  {
    if p < ec {
      assert At(pat', p + 1) == At(pat, p) && At(pat', p + 2) == At(pat, p + 1) && At(pat', p + 3) == At(pat, p + 2);
      hide At;
      hide MatchClass;
      SetShifts(c, pat, pat', p + 1, ec);
      SetShifts(c, pat, pat', p + 2, ec);
      SetShifts(c, pat, pat', p + 3, ec);
    }
  }

  /** The single character class from `p` to `ep` has the character. */
  ghost predicate SingleHas(c: Byte, pat: seq<Byte>, p: nat, ep: nat) {
    if At(pat, p) == 46 then true
    else if At(pat, p) == L_ESC then ClassMatches(c, At(pat, p + 1))
    else if At(pat, p) == 91 then BracketMatches(c, pat, p, if ep > 0 then ep - 1 else 0)
    else c == At(pat, p)
  }

  lemma SingleMeans(c: Byte, pat: seq<Byte>, p: nat, ep: nat)
    ensures SingleMatch(c, pat, p, ep) <==> SingleHas(c, pat, p, ep)
  {
    ClassMeans(c, At(pat, p + 1));
    BracketMeans(c, pat, p, if ep > 0 then ep - 1 else 0);
    hide MatchClass;
    hide ClassMatches;
    hide MatchBracket;
    hide BracketMatches;
  }

  // ----- captures and balanced texts -----

  /** The text at `s` repeats capture number `d`, which is closed. */
  ghost predicate Repeats(src: seq<Byte>, caps: seq<Capture>, s: nat, d: nat) {
    && 1 <= d <= |caps| && caps[d - 1].len >= 0
    && caps[d - 1].init + caps[d - 1].len <= |src| && s + caps[d - 1].len <= |src|
    && src[s..s + caps[d - 1].len] == src[caps[d - 1].init..caps[d - 1].init + caps[d - 1].len]
  }

  /** A back reference is an error exactly if there is no such capture or it is still open. */
  lemma BackMeans(src: seq<Byte>, caps: seq<Capture>, s: nat, digit: Byte)
    requires s <= |src| && IsDigit(digit)
    ensures var d := digit - 48;
            && (BackReference(src, caps, s, digit).None? <==> d == 0 || d > |caps| || caps[d - 1].len == CAP_UNFINISHED)
            && (forall t :: BackReference(src, caps, s, digit) == Some(Some(t)) <==> Repeats(src, caps, s, d) && t == s + caps[d - 1].len)
  {
  }

  /** Capture `l` is the one that was opened last and is still open. */
  predicate LastOpen(caps: seq<Capture>, l: nat) {
    && l < |caps| && caps[l].len == CAP_UNFINISHED
    && forall i :: l < i < |caps| ==> caps[i].len != CAP_UNFINISHED
  }

  lemma ToCloseMeans(caps: seq<Capture>)
    ensures forall l: nat :: ToClose(caps) == Some(l) <==> LastOpen(caps, l)
  {
    var r := ToClose(caps);
    hide ToClose;
  }

  /** From an opening at `s` to where for the first time as many closings as openings were met. */
  ghost predicate Balances(src: seq<Byte>, s: nat, b: Byte, e: Byte, t: nat) {
    s < |src| && src[s] == b && ClosesAt(src, s + 1, b, e, t)
  }

  /** One opening came before `i`; it is closed right before `t`, and not before. */
  ghost predicate ClosesAt(src: seq<Byte>, i: nat, b: Byte, e: Byte, t: nat) {
    i <= t <= |src| && 1 + Depth(src, i, t, b, e) == 0 && forall j :: i <= j < t ==> 1 + Depth(src, i, j, b, e) > 0
  }

  lemma BalanceMeans(src: seq<Byte>, s: nat, b: Byte, e: Byte, t: nat)
    requires s < |src| && src[s] == b
    ensures Balance(src, s + 1, b, e, 1) == Some(t) <==> Balances(src, s, b, e, t)
  {
    var i := s + 1;
    assert Depth(src, i, i, b, e) == 0;
    BalanceIsFirst(src, i, b, e, i, 1);
    hide Depth;
    hide Balance;
  }

  // ----- tokens -----

  /** A single character class starts at `p` and ends before `ep`. */
  ghost predicate ItemEnds(pat: seq<Byte>, p: nat, ep: nat)
    requires p < |pat|
  {
    && p < ep <= |pat|
    && if pat[p] == L_ESC then ep == p + 2 && pat[p + 1] != 0
       else if pat[p] == 91 then SetEndsAt(pat, if At(pat, p + 1) == 94 then p + 2 else p + 1, ep)
       else ep == p + 1
  }

  /** The set whose first item is at `p` has its closing bracket right before `ep`. */
  ghost predicate SetEndsAt(pat: seq<Byte>, p: nat, ep: nat) {
    && p < ep - 1 && ep <= |pat| && StartsItem(pat, p, ep - 1) && At(pat, ep - 1) == 93
    && forall q :: p < q < ep - 1 && StartsItem(pat, p, q) ==> At(pat, q) != 93
  }

  ghost predicate HasItem(pat: seq<Byte>, p: nat) {
    p < |pat| && exists ep: nat :: ItemEnds(pat, p, ep)
  }

  lemma ClassEndMeans(pat: seq<Byte>, p: nat, ep: nat)
    requires p < |pat|
    ensures ClassEnd(pat, p) == Some(ep) <==> ItemEnds(pat, p, ep)
  {
    if pat[p] == 91 {
      var first := if At(pat, p + 1) == 94 then p + 2 else p + 1;
      if first <= |pat| {
        SetEndIsFirst(pat, first);
      }
    }
  }

  /** What the characters at `p` stand for. */
  ghost predicate Reads(pat: seq<Byte>, p: nat, t: Token)
    requires p <= |pat|
  {
    if p == |pat| || pat[p] == 0 then t == End
    else if pat[p] == 40 then t == (if At(pat, p + 1) == 41 then Open(true, p + 2) else Open(false, p + 1))
    else if pat[p] == 41 then t == Close(p + 1)
    else if pat[p] == L_ESC && At(pat, p + 1) == 98 then
      if p + 3 < |pat| && pat[p + 2] != 0 && pat[p + 3] != 0 then t == Balanced(pat[p + 2], pat[p + 3], p + 4) else t == Malformed
    else if pat[p] == L_ESC && At(pat, p + 1) == 102 then
      if At(pat, p + 2) == 91 && HasItem(pat, p + 2) then t.Frontier? && t.ec == t.next - 1 && ItemEnds(pat, p + 2, t.next)
      else t == Malformed
    else if pat[p] == L_ESC && IsDigit(At(pat, p + 1)) then t == Back(pat[p + 1], p + 2)
    else if pat[p] == 36 && At(pat, p + 1) == 0 then t == Dollar
    else if HasItem(pat, p) then t.Item? && ItemEnds(pat, p, t.ep) && t.suffix == At(pat, t.ep)
    else t == Malformed
  }

  lemma HasItemMeans(pat: seq<Byte>, p: nat)
    requires p < |pat|
    ensures HasItem(pat, p) <==> ClassEnd(pat, p).Some?
    ensures forall ep: nat {:trigger ItemEnds(pat, p, ep)} :: ItemEnds(pat, p, ep) <==> ClassEnd(pat, p) == Some(ep)
  {
    hide ClassEnd;
    hide ItemEnds;
    if ClassEnd(pat, p).Some? {
      ClassEndMeans(pat, p, ClassEnd(pat, p).v);
    }
    forall ep: nat ensures ItemEnds(pat, p, ep) <==> ClassEnd(pat, p) == Some(ep) {
      ClassEndMeans(pat, p, ep);
    }
  }

  lemma TokenMeans(pat: seq<Byte>, p: nat, t: Token)
    requires p <= |pat|
    ensures Reads(pat, p, t) <==> t == TokenAt(pat, p)
  {
    hide HasItem;
    hide ClassEnd;
    hide ItemEnds;
    if p < |pat| {
      HasItemMeans(pat, p);
    }
    if p + 2 < |pat| {
      HasItemMeans(pat, p + 2);
    }
  }

  // ----- what a pattern describes -----

  /** The pattern from `p` on describes `src[s..e]`, with captures that become `caps'`. There is no
      order among the possibilities here: an item stands for any allowed number of characters. */
  ghost predicate Describes(src: seq<Byte>, pat: seq<Byte>, caps: seq<Capture>, s: nat, p: nat, e: nat, caps': seq<Capture>)
    requires s <= |src| && p <= |pat|
    decreases |pat| - p, 1
  {
    exists t :: Reads(pat, p, t) && DescribesBy(t, src, pat, caps, s, p, e, caps')
  }

  /** The same, when what is at `p` stands for `t`. */
  ghost predicate DescribesBy(t: Token, src: seq<Byte>, pat: seq<Byte>, caps: seq<Capture>, s: nat, p: nat, e: nat, caps': seq<Capture>)
    requires s <= |src| && p <= |pat| && Reads(pat, p, t)
    decreases |pat| - p, 0
  {
    TokenMeans(pat, p, t);
    match t
    case Malformed => false
    case End => e == s && caps' == caps
    case Dollar => s == |src| && e == s && caps' == caps
    case Open(position, next) =>
      |caps| < MAXCAPTURES && Describes(src, pat, Opened(caps, s, position), s, next, e, caps')
    case Close(next) =>
      exists l: nat :: LastOpen(caps, l) && Describes(src, pat, Closed(caps, s, l), s, next, e, caps')
    case Balanced(b, close, next) =>
      exists u: nat :: Balances(src, s, b, close, u) && Describes(src, pat, caps, u, next, e, caps')
    case Frontier(ec, next) =>
      && !BracketMatches(if s == 0 then 0 else At(src, s - 1), pat, p + 2, ec) && BracketMatches(At(src, s), pat, p + 2, ec)
      && Describes(src, pat, caps, s, next, e, caps')
    case Back(digit, next) =>
      digit >= 48 && Repeats(src, caps, s, digit - 48) && Describes(src, pat, caps, s + caps[digit - 49].len, next, e, caps')
    case Item(ep, suffix) =>
      exists k: nat {:trigger Allowed(suffix, k)} ::
        Allowed(suffix, k) && ManyHas(src, pat, s, p, ep, k) && Describes(src, pat, caps, s + k, AfterItem(ep, suffix), e, caps')
  }

  /** The next `k` characters from `s` on are of the class. */
  ghost predicate ManyHas(src: seq<Byte>, pat: seq<Byte>, s: nat, p: nat, ep: nat, k: nat) {
    s + k <= |src| && forall i :: s <= i < s + k ==> SingleHas(src[i], pat, p, ep)
  }

  lemma ManyMeans(src: seq<Byte>, pat: seq<Byte>, s: nat, p: nat, ep: nat)
    requires s <= |src|
    ensures forall k: nat :: k <= RunLength(src, pat, s, p, ep) <==> ManyHas(src, pat, s, p, ep, k)
  {
    var n := RunLength(src, pat, s, p, ep);
    forall i | s <= i < |src| ensures SingleMatch(src[i], pat, p, ep) <==> SingleHas(src[i], pat, p, ep) {
      SingleMeans(src[i], pat, p, ep);
    }
    hide RunLength;
    hide SingleMatch;
    hide SingleHas;
  }

  /** A pattern describes exactly what the matcher's functions lead to. */
  lemma {:induction false} DescribesMeans(src: seq<Byte>, pat: seq<Byte>, caps: seq<Capture>, s: nat, p: nat, e: nat, caps': seq<Capture>)
    requires s <= |src| && p <= |pat|
    ensures Describes(src, pat, caps, s, p, e, caps') <==> Derives(src, pat, caps, s, p, e, caps')
    decreases |pat| - p, 3
  {
    var t := TokenAt(pat, p);
    forall t' ensures Reads(pat, p, t') <==> t' == t {
      TokenMeans(pat, p, t');
    }
    hide Reads;
    hide TokenAt;
    hide Derives;
    hide DescribesBy;
    ByMeans(src, pat, caps, s, p, e, caps');
  }

  lemma {:induction false} ByMeans(src: seq<Byte>, pat: seq<Byte>, caps: seq<Capture>, s: nat, p: nat, e: nat, caps': seq<Capture>)
    requires s <= |src| && p <= |pat|
    ensures Reads(pat, p, TokenAt(pat, p))
    ensures DescribesBy(TokenAt(pat, p), src, pat, caps, s, p, e, caps') <==> Derives(src, pat, caps, s, p, e, caps')
    decreases |pat| - p, 2
  {
    hide Reads;
    hide TokenAt;
    hide Derives;
    hide DescribesBy;
    match TokenAt(pat, p)
    case Close(_) => ByClose(src, pat, caps, s, p, e, caps');
    case Balanced(_, _, _) => ByBalanced(src, pat, caps, s, p, e, caps');
    case Frontier(_, _) => ByFrontier(src, pat, caps, s, p, e, caps');
    case Back(_, _) => ByBack(src, pat, caps, s, p, e, caps');
    case Item(_, _) => ByItem(src, pat, caps, s, p, e, caps');
    case _ => ByRest(src, pat, caps, s, p, e, caps');
  }

  lemma {:induction false} ByRest(src: seq<Byte>, pat: seq<Byte>, caps: seq<Capture>, s: nat, p: nat, e: nat, caps': seq<Capture>)
    requires s <= |src| && p <= |pat| && var t := TokenAt(pat, p); t.Malformed? || t.End? || t.Dollar? || t.Open?
    ensures Reads(pat, p, TokenAt(pat, p))
    ensures DescribesBy(TokenAt(pat, p), src, pat, caps, s, p, e, caps') <==> Derives(src, pat, caps, s, p, e, caps')
    decreases |pat| - p, 1
  {
    var t := TokenAt(pat, p);
    TokenMeans(pat, p, t);
    hide Describes;
    hide Reads;
    hide TokenAt;
    if t.Open? && |caps| < MAXCAPTURES {
      DescribesMeans(src, pat, Opened(caps, s, t.position), s, t.next, e, caps');
    }
  }

  lemma {:induction false} ByClose(src: seq<Byte>, pat: seq<Byte>, caps: seq<Capture>, s: nat, p: nat, e: nat, caps': seq<Capture>)
    requires s <= |src| && p <= |pat| && TokenAt(pat, p).Close?
    ensures Reads(pat, p, TokenAt(pat, p))
    ensures DescribesBy(TokenAt(pat, p), src, pat, caps, s, p, e, caps') <==> Derives(src, pat, caps, s, p, e, caps')
    decreases |pat| - p, 1
  {
    var t := TokenAt(pat, p);
    TokenMeans(pat, p, t);
    hide Describes;
    hide Reads;
    hide TokenAt;
    hide LastOpen;
    hide ToClose;
    CloseMeans(src, pat, caps, s, t.next, e, caps');
  }

  lemma {:induction false} ByBalanced(src: seq<Byte>, pat: seq<Byte>, caps: seq<Capture>, s: nat, p: nat, e: nat, caps': seq<Capture>)
    requires s <= |src| && p <= |pat| && TokenAt(pat, p).Balanced?
    ensures Reads(pat, p, TokenAt(pat, p))
    ensures DescribesBy(TokenAt(pat, p), src, pat, caps, s, p, e, caps') <==> Derives(src, pat, caps, s, p, e, caps')
    decreases |pat| - p, 1
  {
    var t := TokenAt(pat, p);
    TokenMeans(pat, p, t);
    hide Describes;
    hide Reads;
    hide TokenAt;
    hide Balance;
    hide Balances;
    BalancedMeans(src, pat, caps, s, t.b, t.close, t.next, e, caps');
  }

  lemma {:induction false} ByFrontier(src: seq<Byte>, pat: seq<Byte>, caps: seq<Capture>, s: nat, p: nat, e: nat, caps': seq<Capture>)
    requires s <= |src| && p <= |pat| && TokenAt(pat, p).Frontier?
    ensures Reads(pat, p, TokenAt(pat, p))
    ensures DescribesBy(TokenAt(pat, p), src, pat, caps, s, p, e, caps') <==> Derives(src, pat, caps, s, p, e, caps')
    decreases |pat| - p, 1
  {
    var t := TokenAt(pat, p);
    TokenMeans(pat, p, t);
    hide Describes;
    hide Reads;
    hide TokenAt;
    hide BracketMatches;
    hide MatchBracket;
    BracketMeans(if s == 0 then 0 else At(src, s - 1), pat, p + 2, t.ec);
    BracketMeans(At(src, s), pat, p + 2, t.ec);
    DescribesMeans(src, pat, caps, s, t.next, e, caps');
  }

  lemma {:induction false} ByBack(src: seq<Byte>, pat: seq<Byte>, caps: seq<Capture>, s: nat, p: nat, e: nat, caps': seq<Capture>)
    requires s <= |src| && p <= |pat| && TokenAt(pat, p).Back?
    ensures Reads(pat, p, TokenAt(pat, p))
    ensures DescribesBy(TokenAt(pat, p), src, pat, caps, s, p, e, caps') <==> Derives(src, pat, caps, s, p, e, caps')
    decreases |pat| - p, 1
  {
    var t := TokenAt(pat, p);
    TokenMeans(pat, p, t);
    hide Describes;
    hide Reads;
    hide TokenAt;
    hide BackReference;
    hide Repeats;
    IsDigitToken(pat, p);
    RepeatMeans(src, pat, caps, s, t.digit, t.next, e, caps');
  }

  lemma {:induction false} ByItem(src: seq<Byte>, pat: seq<Byte>, caps: seq<Capture>, s: nat, p: nat, e: nat, caps': seq<Capture>)
    requires s <= |src| && p <= |pat| && TokenAt(pat, p).Item?
    ensures Reads(pat, p, TokenAt(pat, p))
    ensures DescribesBy(TokenAt(pat, p), src, pat, caps, s, p, e, caps') <==> Derives(src, pat, caps, s, p, e, caps')
    decreases |pat| - p, 1
  {
    var t := TokenAt(pat, p);
    TokenMeans(pat, p, t);
    hide Describes;
    hide Reads;
    hide TokenAt;
    hide ManyHas;
    hide RunLength;
    hide AfterItem;
    ItemMeans(src, pat, caps, s, p, t.ep, t.suffix, e, caps');
  }

  lemma {:induction false} CloseMeans(src: seq<Byte>, pat: seq<Byte>, caps: seq<Capture>, s: nat, next: nat, e: nat, caps': seq<Capture>)
    requires s <= |src| && next <= |pat|
    ensures (exists l: nat :: LastOpen(caps, l) && Describes(src, pat, Closed(caps, s, l), s, next, e, caps')) <==>
              var l := ToClose(caps); l.Some? && Derives(src, pat, Closed(caps, s, l.v), s, next, e, caps')
    decreases |pat| - next, 4
  {
    hide Describes;
    hide Derives;
    hide ToClose;
    hide LastOpen;
    hide Closed;
    ToCloseMeans(caps);
    var l := ToClose(caps);
    if l.Some? {
      DescribesMeans(src, pat, Closed(caps, s, l.v), s, next, e, caps');
    }
  }

  lemma {:induction false} RepeatMeans(src: seq<Byte>, pat: seq<Byte>, caps: seq<Capture>, s: nat, digit: Byte, next: nat,
                                       e: nat, caps': seq<Capture>)
    requires s <= |src| && next <= |pat| && IsDigit(digit)
    ensures digit >= 48 && Repeats(src, caps, s, digit - 48) && Describes(src, pat, caps, s + caps[digit - 49].len, next, e, caps') <==>
              var t := BackReference(src, caps, s, digit);
              t.Some? && t.v.Some? && Derives(src, pat, caps, t.v.v, next, e, caps')
    decreases |pat| - next, 4
  {
    BackMeans(src, caps, s, digit);
    hide Describes;
    hide Derives;
    hide BackReference;
    var u := BackReference(src, caps, s, digit);
    if u.Some? && u.v.Some? {
      DescribesMeans(src, pat, caps, u.v.v, next, e, caps');
    }
  }

  lemma {:induction false} ItemMeans(src: seq<Byte>, pat: seq<Byte>, caps: seq<Capture>, s: nat, p: nat, ep: nat, suffix: Byte,
                                     e: nat, caps': seq<Capture>)
    requires s <= |src| && p < ep && AfterItem(ep, suffix) <= |pat|
    ensures (exists k: nat {:trigger Allowed(suffix, k)} ::
               Allowed(suffix, k) && ManyHas(src, pat, s, p, ep, k) && Describes(src, pat, caps, s + k, AfterItem(ep, suffix), e, caps')) <==>
            (exists k: nat {:trigger Allowed(suffix, k)} ::
               Allowed(suffix, k) && k <= RunLength(src, pat, s, p, ep) && Derives(src, pat, caps, s + k, AfterItem(ep, suffix), e, caps'))
    decreases |pat| - p, 0, 0
  {
    hide Allowed;
    hide SingleHas;
    hide SingleMatch;
    hide Describes;
    hide Derives;
    ManyMeans(src, pat, s, p, ep);
    hide RunLength;
    var q, n := AfterItem(ep, suffix), RunLength(src, pat, s, p, ep);
    hide AfterItem;
    forall k: nat | Allowed(suffix, k)
      ensures ManyHas(src, pat, s, p, ep, k) <==> k <= n
      ensures k <= n ==> s + k <= |src| && (Describes(src, pat, caps, s + k, q, e, caps') <==> Derives(src, pat, caps, s + k, q, e, caps'))
    {
      if ManyHas(src, pat, s, p, ep, k) {
        DescribesMeans(src, pat, caps, s + k, q, e, caps');
      }
    }
    hide ManyHas;
  }

  lemma {:induction false} BalancedMeans(src: seq<Byte>, pat: seq<Byte>, caps: seq<Capture>, s: nat, b: Byte, close: Byte, next: nat,
                                         e: nat, caps': seq<Capture>)
    requires s <= |src| && next <= |pat| && b != 0
    ensures (exists u: nat :: Balances(src, s, b, close, u) && Describes(src, pat, caps, u, next, e, caps')) <==>
              At(src, s) == b && var u := Balance(src, s + 1, b, close, 1); u.Some? && Derives(src, pat, caps, u.v, next, e, caps')
    decreases |pat| - next, 4
  {
    hide Describes;
    hide Derives;
    if s < |src| && src[s] == b {
      var u := Balance(src, s + 1, b, close, 1);
      forall v: nat ensures u == Some(v) <==> Balances(src, s, b, close, v) {
        BalanceMeans(src, s, b, close, v);
      }
      hide Balances;
      if u.Some? {
        DescribesMeans(src, pat, caps, u.v, next, e, caps');
      }
    }
  }

  lemma IsDigitToken(pat: seq<Byte>, p: nat)
    requires p <= |pat| && TokenAt(pat, p).Back?
    ensures IsDigit(TokenAt(pat, p).digit)
  {
  }

  // ----- what the result of the matcher says -----

  /** The pattern from `p` on describes some text that starts at `s`. */
  ghost predicate Matches(src: seq<Byte>, pat: seq<Byte>, caps: seq<Capture>, s: nat, p: nat)
    requires s <= |src| && p <= |pat|
  {
    exists e, c :: Describes(src, pat, caps, s, p, e, c)
  }

  /** The list of results holds exactly what the pattern describes. */
  lemma ResultsAreDescribed(src: seq<Byte>, pat: seq<Byte>, caps: seq<Capture>, s: nat, p: nat, e: nat, caps': seq<Capture>)
    requires s <= |src| && p <= |pat|
    ensures Ok(e, caps') in Results(src, pat, caps, s, p) <==> Describes(src, pat, caps, s, p, e, caps')
  {
    hide *;
    ResultsDescribe(src, pat, caps, s, p, e, caps');
    DescribesMeans(src, pat, caps, s, p, e, caps');
  }

  /** The matcher succeeds if and only if the pattern describes a match, and then it gives one that the
      pattern describes. */
  lemma MatchMeans(src: seq<Byte>, pat: seq<Byte>, caps: seq<Capture>, s: nat, p: nat, r: Res, caps': seq<Capture>)
    requires p <= |pat| && CapsOk(src, caps, s) && IsFirst(r, Results(src, pat, caps, s, p), caps')
    ensures r.MatchEnd? ==> Describes(src, pat, caps, s, p, r.e, caps')
    ensures r.MatchEnd? <==> Matches(src, pat, caps, s, p)
  {
    hide Results;
    hide Describes;
    hide Derives;
    forall e, c
      ensures Ok(e, c) in Results(src, pat, caps, s, p) <==> Describes(src, pat, caps, s, p, e, c)
      ensures Error in Results(src, pat, caps, s, p) ==> !Describes(src, pat, caps, s, p, e, c)
    {
      ResultsDescribe(src, pat, caps, s, p, e, c);
      DescribesMeans(src, pat, caps, s, p, e, c);
      if Error in Results(src, pat, caps, s, p) {
        ErrorBlocks(src, pat, p, caps, s, caps, s, e, c);
      }
    }
    if r.MatchEnd? {
      assert Ok(r.e, caps') in Results(src, pat, caps, s, p);
    }
  }

  // ----- searching -----

  datatype Found = NotFound | FindError | Found(start: nat, e: nat, caps: seq<Capture>)

  /** `str_find_aux` with a pattern: the leftmost match from `init` on, or only one at `init` if the
      pattern is anchored. It is found if and only if there is one; an error is raised only if the
      pattern describes nothing, wherever it starts. */
  method Find(src: seq<Byte>, pattern: seq<Byte>, init: nat) returns (r: Found)
    requires init <= |src|
    ensures var anchor := At(pattern, 0) == 94;
            var pat, last := if anchor then pattern[1..] else pattern, if anchor then init else |src|;
            match r
            case NotFound => forall s :: init <= s <= last ==> !Matches(src, pat, [], s, 0)
            case FindError =>
              && (forall s :: 0 <= s <= |src| ==> !Matches(src, pat, [], s, 0))
              && exists s :: init <= s <= last && Results(src, pat, [], s, 0) != [] && Results(src, pat, [], s, 0)[0] == Error
            case Found(start, e, caps) =>
              && init <= start <= last && Describes(src, pat, [], start, 0, e, caps)
              && Results(src, pat, [], start, 0) != [] && Results(src, pat, [], start, 0)[0] == Ok(e, caps)
              && forall s :: init <= s < start ==> !Matches(src, pat, [], s, 0)
  {
    hide Results;
    hide Describes;
    var anchor := At(pattern, 0) == 94;
    var pat := if anchor then pattern[1..] else pattern;
    var ms := new MatchState(src, pat);
    var s1 := init;
    while true
      invariant init <= s1 <= (if anchor then init else |src|) && ms.Valid() && fresh(ms) && fresh(ms.capture) && ms.src == src && ms.pat == pat
      invariant forall s :: init <= s < s1 ==> !Matches(src, pat, [], s, 0)
      decreases |src| - s1
    {
      ms.level := 0;
      var res := ms.Match(s1, 0);
      MatchMeans(src, pat, [], s1, 0, res, ms.capture[..ms.level]);
      assert res.MatchEnd? <==> Matches(src, pat, [], s1, 0);
      if res.MatchEnd? {
        return Found(s1, res.e, ms.capture[..ms.level]);
      } else if res.Raised? {
        NothingAnywhere(src, pat, s1);
        return FindError;
      }
      if s1 >= |src| || anchor {
        return NotFound;
      }
      s1 := s1 + 1;
    }
  }

  lemma NothingAnywhere(src: seq<Byte>, pat: seq<Byte>, s1: nat)
    requires s1 <= |src| && Error in Results(src, pat, [], s1, 0)
    ensures forall s :: 0 <= s <= |src| ==> !Matches(src, pat, [], s, 0)
  {
    hide Results;
    hide Describes;
    hide Derives;
    ErrorEverywhere(src, pat, s1);
    forall s, e, c | 0 <= s <= |src| ensures !Describes(src, pat, [], s, 0, e, c) {
      DescribesMeans(src, pat, [], s, 0, e, c);
    }
  }
}
