/** What the pattern matcher finds (lua/lstrlib.c). */
module PatternTheory {
  // The matcher finds what patterns describe, and prefers what they say it should prefer (section
  // 5.4.1 of the Lua 5.1 Reference Manual).

  import opened Basics
  import opened PatternSpec
  import opened Matcher

  /** How many repetitions of an item its suffix allows. */
  predicate Allowed(suffix: Byte, k: nat) {
    if suffix == 42 || suffix == 45 then true
    else if suffix == 43 then k >= 1
    else if suffix == 63 then k <= 1
    else k == 1
  }

  /** The pattern from `p` on leads from `s` to `e`, with captures that become `caps'`, by the functions
      that the matcher uses. There is no order among the possibilities here: an item stands for any
      allowed number of characters. */
  ghost predicate Derives(src: seq<Byte>, pat: seq<Byte>, caps: seq<Capture>, s: nat, p: nat, e: nat, caps': seq<Capture>)
    requires s <= |src| && p <= |pat|
    decreases |pat| - p
  {
    match TokenAt(pat, p)
    case Malformed => false
    case End => e == s && caps' == caps
    case Dollar => s == |src| && e == s && caps' == caps
    case Open(position, next) =>
      |caps| < MAXCAPTURES &&
      Derives(src, pat, caps + [Capture(s, if position then CAP_POSITION else CAP_UNFINISHED)], s, next, e, caps')
    case Close(next) =>
      var l := ToClose(caps);
      l.Some? && Derives(src, pat, caps[l.v := Capture(caps[l.v].init, s - caps[l.v].init)], s, next, e, caps')
    case Balanced(b, close, next) =>
      At(src, s) == b && var t := Balance(src, s + 1, b, close, 1); t.Some? && Derives(src, pat, caps, t.v, next, e, caps')
    case Frontier(ec, next) =>
      && !MatchBracket(if s == 0 then 0 else At(src, s - 1), pat, p + 2, ec) && MatchBracket(At(src, s), pat, p + 2, ec)
      && Derives(src, pat, caps, s, next, e, caps')
    case Back(digit, next) =>
      var t := BackReference(src, caps, s, digit);
      t.Some? && t.v.Some? && Derives(src, pat, caps, t.v.v, next, e, caps')
    case Item(ep, suffix) =>
      exists k: nat {:trigger Allowed(suffix, k)} :: Allowed(suffix, k) && k <= RunLength(src, pat, s, p, ep) &&
        Derives(src, pat, caps, s + k, AfterItem(ep, suffix), e, caps')
  }

  /** The results after `k` repetitions. */
  ghost function After(src: seq<Byte>, pat: seq<Byte>, caps: seq<Capture>, s: nat, q: nat, k: nat): seq<Outcome>
    requires s + k <= |src| && q <= |pat|
  {
    Results(src, pat, caps, s + k, q)
  }

  // ----- where a class ends -----

  /** The item of a set after the one at `p`: an escaped character counts as one item. */
  function NextItem(pat: seq<Byte>, p: nat): nat {
    if At(pat, p) == L_ESC && At(pat, p + 1) != 0 then p + 2 else p + 1
  }

  /** An item of the set starts at `q`, when one starts at `p`; the pattern does not end in between. */
  predicate StartsItem(pat: seq<Byte>, p: nat, q: nat)
    decreases q - p
  {
    p == q || (p < q && At(pat, p) != 0 && StartsItem(pat, NextItem(pat, p), q))
  }

  /** A set ends at the first `]` where an item starts, its first item not counting; it is malformed if
      there is none before the pattern ends. */
  lemma {:induction false} SetEndIsFirst(pat: seq<Byte>, p: nat)
    requires p <= |pat|
    ensures match SetEnd(pat, p)
            case Some(r) =>
              && p < r - 1 && StartsItem(pat, p, r - 1) && At(pat, r - 1) == 93
              && forall q :: p < q < r - 1 && StartsItem(pat, p, q) ==> At(pat, q) != 93
            case None => forall q :: p < q && StartsItem(pat, p, q) ==> At(pat, q) != 93
    decreases |pat| - p
  {
    if p < |pat| && pat[p] != 0 && NextItem(pat, p) <= |pat| && At(pat, NextItem(pat, p)) != 93 {
      SetEndIsFirst(pat, NextItem(pat, p));
    }
  }

  // ----- members of the lists of repetitions -----

  lemma {:induction false} MostMembers(src: seq<Byte>, pat: seq<Byte>, caps: seq<Capture>, s: nat, lo: nat, hi: nat, q: nat, o: Outcome)
    requires lo <= hi && s + hi <= |src| && q <= |pat|
    ensures o in Most(src, pat, caps, s, lo, hi, q) <==>
              exists k: nat {:trigger After(src, pat, caps, s, q, k)} :: lo <= k <= hi && o in After(src, pat, caps, s, q, k)
    decreases hi - lo
  {
    hide Results;
    assert After(src, pat, caps, s, q, hi) == Results(src, pat, caps, s + hi, q);
    hide After;
    if lo < hi {
      MostMembers(src, pat, caps, s, lo, hi - 1, q, o);
    }
  }

  lemma {:induction false} FewestMembers(src: seq<Byte>, pat: seq<Byte>, caps: seq<Capture>, s: nat, lo: nat, hi: nat, q: nat, o: Outcome)
    requires lo <= hi && s + hi <= |src| && q <= |pat|
    ensures o in Fewest(src, pat, caps, s, lo, hi, q) <==>
              exists k: nat {:trigger After(src, pat, caps, s, q, k)} :: lo <= k <= hi && o in After(src, pat, caps, s, q, k)
    decreases hi - lo
  {
    hide Results;
    assert After(src, pat, caps, s, q, lo) == Results(src, pat, caps, s + lo, q);
    hide After;
    if lo < hi {
      FewestMembers(src, pat, caps, s, lo + 1, hi, q, o);
    }
  }

  /** The results for an item come from the allowed numbers of repetitions. */
  lemma ItemMembers(src: seq<Byte>, pat: seq<Byte>, caps: seq<Capture>, s: nat, p: nat, ep: nat, suffix: Byte, o: Outcome)
    requires s <= |src| && p <= |pat| && TokenAt(pat, p) == Item(ep, suffix)
    ensures s + RunLength(src, pat, s, p, ep) <= |src| && AfterItem(ep, suffix) <= |pat|
    ensures o in Results(src, pat, caps, s, p) <==>
              exists k: nat {:trigger Allowed(suffix, k)} :: Allowed(suffix, k) && k <= RunLength(src, pat, s, p, ep) &&
                o in After(src, pat, caps, s, AfterItem(ep, suffix), k)
  {
    hide Results;
    var n, q := RunLength(src, pat, s, p, ep), AfterItem(ep, suffix);
    ItemResults(src, pat, caps, s, p, ep, suffix);
    hide TokenAt;
    hide RunLength;
    if suffix == 42 {
      MostMembers(src, pat, caps, s, 0, n, q, o);
      ByAllowed(src, pat, caps, s, 0, n, q, suffix, o);
    } else if suffix == 43 {
      if n > 0 {
        MostMembers(src, pat, caps, s, 1, n, q, o);
        ByAllowed(src, pat, caps, s, 1, n, q, suffix, o);
      }
    } else if suffix == 45 {
      FewestMembers(src, pat, caps, s, 0, n, q, o);
      ByAllowed(src, pat, caps, s, 0, n, q, suffix, o);
    } else {
      assert Allowed(suffix, 1) && (suffix == 63 ==> Allowed(suffix, 0));
      assert After(src, pat, caps, s, q, 0) == Results(src, pat, caps, s, q);
      assert n > 0 ==> After(src, pat, caps, s, q, 1) == Results(src, pat, caps, s + 1, q);
    }
  }

  lemma ByAllowed(src: seq<Byte>, pat: seq<Byte>, caps: seq<Capture>, s: nat, lo: nat, hi: nat, q: nat, suffix: Byte, o: Outcome)
    requires lo <= hi && s + hi <= |src| && q <= |pat| && forall k: nat :: Allowed(suffix, k) <==> lo <= k
    ensures (exists k: nat {:trigger After(src, pat, caps, s, q, k)} :: lo <= k <= hi && o in After(src, pat, caps, s, q, k)) <==>
            (exists k: nat {:trigger Allowed(suffix, k)} :: Allowed(suffix, k) && k <= hi && o in After(src, pat, caps, s, q, k))
  {
    hide Results;
    forall k: nat | lo <= k <= hi && o in After(src, pat, caps, s, q, k) ensures Allowed(suffix, k) {
    }
  }

  /** The list of results holds exactly what the pattern describes. */
  lemma {:induction false} ResultsDescribe(src: seq<Byte>, pat: seq<Byte>, caps: seq<Capture>, s: nat, p: nat, e: nat, caps': seq<Capture>)
    requires s <= |src| && p <= |pat|
    ensures Ok(e, caps') in Results(src, pat, caps, s, p) <==> Derives(src, pat, caps, s, p, e, caps')
    decreases |pat| - p
  {
    match TokenAt(pat, p)
    case Malformed =>
    case End =>
    case Dollar =>
    case Open(position, next) =>
      if |caps| < MAXCAPTURES {
        ResultsDescribe(src, pat, caps + [Capture(s, if position then CAP_POSITION else CAP_UNFINISHED)], s, next, e, caps');
      }
    case Close(next) =>
      var l := ToClose(caps);
      if l.Some? {
        ResultsDescribe(src, pat, caps[l.v := Capture(caps[l.v].init, s - caps[l.v].init)], s, next, e, caps');
      }
    case Balanced(b, close, next) =>
      var t := Balance(src, s + 1, b, close, 1);
      if t.Some? {
        ResultsDescribe(src, pat, caps, t.v, next, e, caps');
      }
    case Frontier(_, next) => ResultsDescribe(src, pat, caps, s, next, e, caps');
    case Back(digit, next) =>
      var t := BackReference(src, caps, s, digit);
      if t.Some? && t.v.Some? {
        ResultsDescribe(src, pat, caps, t.v.v, next, e, caps');
      }
    case Item(ep, suffix) => ItemDescribes(src, pat, caps, s, p, ep, suffix, e, caps');
  }

  lemma ItemDescribes(src: seq<Byte>, pat: seq<Byte>, caps: seq<Capture>, s: nat, p: nat, ep: nat, suffix: Byte, e: nat, caps': seq<Capture>)
    requires s <= |src| && p <= |pat| && TokenAt(pat, p) == Item(ep, suffix)
    ensures Ok(e, caps') in Results(src, pat, caps, s, p) <==> Derives(src, pat, caps, s, p, e, caps')
    decreases |pat| - p, 0
  {
    hide Results;
    var n, q := RunLength(src, pat, s, p, ep), AfterItem(ep, suffix);
    ItemMembers(src, pat, caps, s, p, ep, suffix, Ok(e, caps'));
    forall k: nat | k <= n ensures Ok(e, caps') in After(src, pat, caps, s, q, k) <==> Derives(src, pat, caps, s + k, q, e, caps') {
      assert After(src, pat, caps, s, q, k) == Results(src, pat, caps, s + k, q);
      ResultsDescribe(src, pat, caps, s + k, q, e, caps');
    }
  }

  // ----- priority -----

  /** A greedy item takes the most repetitions with which the rest of the pattern has a result. */
  lemma {:induction false} Greedy(src: seq<Byte>, pat: seq<Byte>, caps: seq<Capture>, s: nat, lo: nat, hi: nat, q: nat)
    requires lo <= hi && s + hi <= |src| && q <= |pat|
    ensures var R := Most(src, pat, caps, s, lo, hi, q);
            R != [] ==> exists k: nat {:trigger After(src, pat, caps, s, q, k)} ::
              && lo <= k <= hi && After(src, pat, caps, s, q, k) != [] && R[0] == After(src, pat, caps, s, q, k)[0]
              && forall j: nat {:trigger After(src, pat, caps, s, q, j)} :: k < j <= hi ==> After(src, pat, caps, s, q, j) == []
    decreases hi - lo
  {
    hide Results;
    var R := Most(src, pat, caps, s, lo, hi, q);
    assert After(src, pat, caps, s, q, hi) == Results(src, pat, caps, s + hi, q);
    hide After;
    if R != [] && After(src, pat, caps, s, q, hi) == [] && lo < hi {
      Greedy(src, pat, caps, s, lo, hi - 1, q);
      var k: nat :| && lo <= k <= hi - 1 && After(src, pat, caps, s, q, k) != []
                    && Most(src, pat, caps, s, lo, hi - 1, q)[0] == After(src, pat, caps, s, q, k)[0]
                    && forall j: nat {:trigger After(src, pat, caps, s, q, j)} :: k < j <= hi - 1 ==> After(src, pat, caps, s, q, j) == [];
      assert R[0] == After(src, pat, caps, s, q, k)[0];
    }
  }

  /** A lazy item takes the fewest. */
  lemma {:induction false} Lazy(src: seq<Byte>, pat: seq<Byte>, caps: seq<Capture>, s: nat, lo: nat, hi: nat, q: nat)
    requires lo <= hi && s + hi <= |src| && q <= |pat|
    ensures var R := Fewest(src, pat, caps, s, lo, hi, q);
            R != [] ==> exists k: nat {:trigger After(src, pat, caps, s, q, k)} ::
              && lo <= k <= hi && After(src, pat, caps, s, q, k) != [] && R[0] == After(src, pat, caps, s, q, k)[0]
              && forall j: nat {:trigger After(src, pat, caps, s, q, j)} :: lo <= j < k ==> After(src, pat, caps, s, q, j) == []
    decreases hi - lo
  {
    hide Results;
    var R := Fewest(src, pat, caps, s, lo, hi, q);
    assert After(src, pat, caps, s, q, lo) == Results(src, pat, caps, s + lo, q);
    hide After;
    if R != [] && After(src, pat, caps, s, q, lo) == [] && lo < hi {
      Lazy(src, pat, caps, s, lo + 1, hi, q);
      var k: nat :| && lo + 1 <= k <= hi && After(src, pat, caps, s, q, k) != []
                    && Fewest(src, pat, caps, s, lo + 1, hi, q)[0] == After(src, pat, caps, s, q, k)[0]
                    && forall j: nat {:trigger After(src, pat, caps, s, q, j)} :: lo + 1 <= j < k ==> After(src, pat, caps, s, q, j) == [];
      assert R[0] == After(src, pat, caps, s, q, k)[0];
    }
  }

  // ----- errors -----

  /** As many captures, and the same ones still open. Where captures begin and end does not matter. */
  ghost predicate SameShape(c1: seq<Capture>, c2: seq<Capture>) {
    && |c1| == |c2|
    && forall i :: 0 <= i < |c1| ==> (c1[i].len == CAP_UNFINISHED <==> c2[i].len == CAP_UNFINISHED)
  }

  lemma {:induction false} SameToClose(c1: seq<Capture>, c2: seq<Capture>)
    requires SameShape(c1, c2)
    ensures ToClose(c1) == ToClose(c2)
    decreases |c1|
  {
    if c1 != [] && c1[|c1| - 1].len != CAP_UNFINISHED {
      SameToClose(c1[..|c1| - 1], c2[..|c2| - 1]);
    }
  }

  lemma SameBack(src: seq<Byte>, c1: seq<Capture>, s1: nat, c2: seq<Capture>, s2: nat, digit: Byte)
    requires SameShape(c1, c2) && s1 <= |src| && s2 <= |src|
    ensures BackReference(src, c1, s1, digit).None? <==> BackReference(src, c2, s2, digit).None?
  {
  }

  /** The captures after a parenthesis was opened at `s`. */
  function Opened(caps: seq<Capture>, s: nat, position: bool): seq<Capture> {
    caps + [Capture(s, if position then CAP_POSITION else CAP_UNFINISHED)]
  }

  /** The captures after number `l` was closed at `s`. */
  function Closed(caps: seq<Capture>, s: nat, l: nat): seq<Capture>
    requires l < |caps|
  {
    caps[l := Capture(caps[l].init, s - caps[l].init)]
  }

  /** Whether the pattern raises an error at some point depends on the shape of the captures only, not
      on the text: if one attempt can come to an error then no attempt can succeed. */
  lemma {:induction false} ErrorBlocks(src: seq<Byte>, pat: seq<Byte>, p: nat, c1: seq<Capture>, s1: nat, c2: seq<Capture>, s2: nat,
                                       e: nat, caps': seq<Capture>)
    requires p <= |pat| && CapsOk(src, c1, s1) && CapsOk(src, c2, s2) && SameShape(c1, c2)
    requires Error in Results(src, pat, c1, s1, p)
    ensures !Derives(src, pat, c2, s2, p, e, caps')
    decreases |pat| - p, 1
  {
    hide Balance;
    hide BackReference;
    hide MatchBracket;
    hide ToClose;
    hide RunLength;
    hide Most;
    hide Fewest;
    hide ClassEnd;
    TokenResults(src, pat, c1, s1, p);
    hide Results;
    match TokenAt(pat, p)
    case Malformed =>
    case End =>
    case Dollar =>
    case Open(position, next) =>
      if |c1| < MAXCAPTURES {
        ErrorBlocks(src, pat, next, Opened(c1, s1, position), s1, Opened(c2, s2, position), s2, e, caps');
      }
    case Close(next) =>
      SameToClose(c1, c2);
      var l := ToClose(c1);
      if l.Some? {
        CapsClosed(src, c1, s1, l.v);
        CapsClosed(src, c2, s2, l.v);
        ErrorBlocks(src, pat, next, Closed(c1, s1, l.v), s1, Closed(c2, s2, l.v), s2, e, caps');
      }
    case Balanced(b, close, next) =>
      var t1, t2 := Balance(src, s1 + 1, b, close, 1), Balance(src, s2 + 1, b, close, 1);
      if t1.Some? && t2.Some? {
        LaterBlocks(src, pat, next, c1, s1, t1.v, c2, s2, t2.v, e, caps');
      }
    case Frontier(_, next) => ErrorBlocks(src, pat, next, c1, s1, c2, s2, e, caps');
    case Back(digit, next) =>
      SameBack(src, c1, s1, c2, s2, digit);
      var t1, t2 := BackReference(src, c1, s1, digit), BackReference(src, c2, s2, digit);
      if t1.Some? && t1.v.Some? && t2.Some? && t2.v.Some? {
        LaterBlocks(src, pat, next, c1, s1, t1.v.v, c2, s2, t2.v.v, e, caps');
      }
    case Item(ep, suffix) => ItemBlocks(src, pat, p, ep, suffix, c1, s1, c2, s2, e, caps');
  }

  lemma {:induction false} LaterBlocks(src: seq<Byte>, pat: seq<Byte>, p: nat, c1: seq<Capture>, s1: nat, t1: nat,
                                       c2: seq<Capture>, s2: nat, t2: nat, e: nat, caps': seq<Capture>)
    requires p <= |pat| && CapsOk(src, c1, s1) && CapsOk(src, c2, s2) && SameShape(c1, c2)
    requires s1 <= t1 <= |src| && s2 <= t2 <= |src|
    ensures Error in Results(src, pat, c1, t1, p) ==> !Derives(src, pat, c2, t2, p, e, caps')
    decreases |pat| - p, 2
  {
    if Error in Results(src, pat, c1, t1, p) {
      CapsLater(src, c1, s1, t1);
      CapsLater(src, c2, s2, t2);
      ErrorBlocks(src, pat, p, c1, t1, c2, t2, e, caps');
    }
  }

  lemma {:induction false} ItemBlocks(src: seq<Byte>, pat: seq<Byte>, p: nat, ep: nat, suffix: Byte, c1: seq<Capture>, s1: nat,
                                      c2: seq<Capture>, s2: nat, e: nat, caps': seq<Capture>)
    requires p <= |pat| && TokenAt(pat, p) == Item(ep, suffix)
    requires CapsOk(src, c1, s1) && CapsOk(src, c2, s2) && SameShape(c1, c2)
    requires Error in Results(src, pat, c1, s1, p)
    ensures !Derives(src, pat, c2, s2, p, e, caps')
    decreases |pat| - p, 0
  {
    hide Results;
    hide TokenAt;
    hide RunLength;
    hide SameShape;
    hide Balance;
    hide BackReference;
    hide MatchBracket;
    hide ToClose;
    var n1, n2, q := RunLength(src, pat, s1, p, ep), RunLength(src, pat, s2, p, ep), AfterItem(ep, suffix);
    ItemMembers(src, pat, c1, s1, p, ep, suffix, Error);
    ItemMembers(src, pat, c2, s2, p, ep, suffix, Error);
    var k1: nat :| Allowed(suffix, k1) && k1 <= n1 && Error in After(src, pat, c1, s1, q, k1);
    if Derives(src, pat, c2, s2, p, e, caps') {
      var k2: nat :| Allowed(suffix, k2) && k2 <= n2 && Derives(src, pat, c2, s2 + k2, q, e, caps');
      LaterBlocks(src, pat, q, c1, s1, s1 + k1, c2, s2, s2 + k2, e, caps');
    }
  }

  // ----- balanced strings -----

  /** Openings minus closings in `src[i..j]`. */
  function Depth(src: seq<Byte>, i: nat, j: nat, b: Byte, e: Byte): int
    requires i <= j <= |src|
    decreases j - i
  {
    if i == j then 0 else Depth(src, i, j - 1, b, e) + if src[j - 1] == e then -1 else if src[j - 1] == b then 1 else 0
  }

  /** `%b` takes the shortest text from the opening on in which openings and closings balance. */
  lemma {:induction false} BalanceIsFirst(src: seq<Byte>, s: nat, b: Byte, e: Byte, i: nat, cont: nat)
    requires i <= s <= |src| && cont > 0 && 1 + Depth(src, i, s, b, e) == cont
    requires forall j :: i <= j <= s ==> 1 + Depth(src, i, j, b, e) > 0
    ensures var r := Balance(src, s, b, e, cont);
            && (r.Some? ==> r.v <= |src| && i <= r.v && 1 + Depth(src, i, r.v, b, e) == 0 && forall j :: i <= j < r.v ==> 1 + Depth(src, i, j, b, e) > 0)
            && (r.None? ==> forall j :: i <= j <= |src| ==> 1 + Depth(src, i, j, b, e) > 0)
    decreases |src| - s
  {
    if s < |src| {
      assert Depth(src, i, s + 1, b, e) == Depth(src, i, s, b, e) + if src[s] == e then -1 else if src[s] == b then 1 else 0;
      if src[s] != e {
        BalanceIsFirst(src, s + 1, b, e, i, if src[s] == b then cont + 1 else cont);
      } else if cont > 1 {
        BalanceIsFirst(src, s + 1, b, e, i, cont - 1);
      }
    }
  }

  /** Where one start leads to an error, no start leads to a match. */
  lemma ErrorEverywhere(src: seq<Byte>, pat: seq<Byte>, s1: nat)
    requires s1 <= |src| && Error in Results(src, pat, [], s1, 0)
    ensures forall s, e, c :: 0 <= s <= |src| ==> !Derives(src, pat, [], s, 0, e, c)
  {
    hide Results;
    hide Derives;
    forall s, e, c | 0 <= s <= |src| ensures !Derives(src, pat, [], s, 0, e, c) {
      ErrorBlocks(src, pat, 0, [], s1, [], s, e, c);
    }
  }

  // ----- searching for a plain string -----

  predicate OccursAt(s1: seq<Byte>, s2: seq<Byte>, i: int) {
    0 <= i && i + |s2| <= |s1| && s1[i..i + |s2|] == s2
  }

  /** `lmemfind`: the first place where `s2` occurs. */
  method MemFind(s1: seq<Byte>, s2: seq<Byte>) returns (r: Option<nat>)
    ensures r.Some? ==> OccursAt(s1, s2, r.v) && forall i :: 0 <= i < r.v ==> !OccursAt(s1, s2, i)
    ensures r.None? ==> forall i :: !OccursAt(s1, s2, i)
  {
    if |s2| == 0 {
      return Some(0);
    } else if |s2| > |s1| {
      return None;
    }
    var at := 0;
    while at + |s2| <= |s1|
      invariant 0 <= at && forall i :: 0 <= i < at ==> !OccursAt(s1, s2, i)
    {
      var init := MemChr(s1, at, |s1| - |s2| + 1, s2[0]);
      forall i | at <= i < init ensures !OccursAt(s1, s2, i) {
        FirstDiffers(s1, s2, i);
      }
      if init > |s1| - |s2| {
        return None;
      }
      RestOccurs(s1, s2, init);
      if s1[init + 1..init + |s2|] == s2[1..] {  // RestOccurs
        return Some(init);
      }
      at := init + 1;
    }
    return None;
  }

  lemma FirstDiffers(s1: seq<Byte>, s2: seq<Byte>, i: nat)
    requires |s2| > 0 && i + |s2| <= |s1| && s1[i] != s2[0]
    ensures !OccursAt(s1, s2, i)
  {
    assert s1[i..i + |s2|][0] == s1[i];
  }

  lemma RestOccurs(s1: seq<Byte>, s2: seq<Byte>, i: nat)
    requires |s2| > 0 && i + |s2| <= |s1| && s1[i] == s2[0]
    ensures OccursAt(s1, s2, i) <==> s1[i + 1..i + |s2|] == s2[1..]
  {
    assert s1[i..i + |s2|] == [s1[i]] + s1[i + 1..i + |s2|] && s2 == [s2[0]] + s2[1..];
    assert s1[i..i + |s2|][1..] == s1[i + 1..i + |s2|];
  }

  /** `memchr` on `t[from..to]`. */
  method MemChr(t: seq<Byte>, from: nat, to: nat, c: Byte) returns (i: nat)
    requires from <= to <= |t|
    ensures from <= i <= to && (i < to ==> t[i] == c) && forall j :: from <= j < i ==> t[j] != c
  {
    i := from;
    while i < to && t[i] != c
      invariant from <= i <= to && forall j :: from <= j < i ==> t[j] != c
    {
      i := i + 1;
    }
  }
}
