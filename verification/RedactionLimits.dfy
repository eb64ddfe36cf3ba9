/**
  Exactly which variants one pass of redaction removes from every text. Cutting out a match can split an escape,
  and the part left behind then keeps its case; a variant that can match such a part may survive.
 */
module RedactionLimits {
  import opened Basics
  import opened Sequences
  import opened Redaction

  /** A needle that can split an escape with one of its ends and match what that leaves behind. */
  predicate Splitting(n: string) {
    && |n| >= 2
    && (|| (n[|n| - 1] == '%' && (Upper(n[0]) || (PlainHex(n[0]) && Upper(n[1]))))
        || (n[|n| - 2] == '%' && PlainHex(n[|n| - 1]) && Upper(n[0]))
        || (n[|n| - 2] == '%' && Upper(n[|n| - 1]) && PlainHex(n[0])))
  }

  /** Cutting out `n` can leave a digit in upper case, without its escape, that `w` matches. */
  predicate Exposes(n: string, w: string)
    requires n != "" && w != ""
  {
    || (n[|n| - 1] == '%' && (Upper(w[0]) || (|w| >= 2 && PlainHex(w[0]) && Upper(w[1]))))
    || (PlainHex(n[|n| - 1]) && (|n| >= 2 ==> n[|n| - 2] == '%') && Upper(w[0]))
    || (PlainHex(n[0]) && Upper(w[|w| - 1]) && (|w| >= 2 ==> w[|w| - 2] == '%'))
  }

  /** Splitting is what a canonical needle does to itself. */
  lemma SplitsItself(n: string)
    requires n != "" && Canonical(n)
    ensures Exposes(n, n) <==> Splitting(n)
  {
    hide LowerPercentEscapes;
    CanonicalIs(n);
    if |n| >= 2 && n[|n| - 2] == '%' { assert !Escape(n, |n| - 2); }
  }

  // ---- other needles are always removed ----

  /** A copied stretch: it starts at the beginning or after a match, and ends at a match or at the end. */
  ghost predicate Between(t: string, n: string, c: nat, e: nat) {
    var canonical := LowerPercentEscapes(t);
    && n != "" && c <= e <= |t|
    && (c == 0 || (c >= |n| && At(canonical, n, c - |n|)))
    && (e == |t| || At(canonical, n, e))
    && (forall i: nat | c <= i < e :: !At(canonical, n, i))
  }

  /** Character `x` of the stretch is a digit of an escape that the stretch does not hold whole. */
  predicate Split(t: string, c: nat, e: nat, x: nat) {
    || (x <= 1 && Escape(t, c - 1)) || (x == 0 && Escape(t, c - 2))
    || (c + x == e - 1 && Escape(t, e - 2))
  }

  predicate IsStretch(t: string, c: nat, s: string) { c + |s| <= |t| && s == t[c..c + |s|] }

  /** Where the stretch alone has another canonical form than within the text, an escape was split. */
  lemma ExposedDigit(t: string, c: nat, s: string, x: nat)
    requires IsStretch(t, c, s) && x < |s| && c + x < |t|
    requires LowerPercentEscapes(s)[x] != LowerPercentEscapes(t)[c + x]
    ensures Upper(t[c + x]) && LowerPercentEscapes(s)[x] == t[c + x] && EscapeDigit(t, c + x) && !EscapeDigit(s, x)
  {
    hide LowerPercentEscapes, EscapeDigit, Lower, Upper, IsStretch;
    LowAt(s, x);
    LowAt(t, c + x);
    LowerChanges(t[c + x]);
    StretchDigit(t, c, s, x);
  }

  lemma StretchChar(t: string, c: nat, s: string, k: nat)
    requires IsStretch(t, c, s) && k < |s|
    ensures c + k < |t| && s[k] == t[c + k]
  {
  }

  lemma StretchDigit(t: string, c: nat, s: string, x: nat)
    requires IsStretch(t, c, s) && x < |s| && c + x < |t|
    ensures s[x] == t[c + x] && (EscapeDigit(s, x) ==> EscapeDigit(t, c + x))
    ensures EscapeDigit(t, c + x) && !EscapeDigit(s, x) ==> Split(t, c, c + |s|, x)
  {
    hide Escape, IsStretch;
    StretchChar(t, c, s, x);
    StretchEscape(t, c, s, x - 1);
    StretchEscape(t, c, s, x - 2);
  }

  lemma LowerChanges(c: char)
    ensures Lower(c) == c || Upper(c)
  {
  }

  lemma StretchEscape(t: string, c: nat, s: string, i: int)
    requires IsStretch(t, c, s)
    ensures Escape(s, i) <==> 0 <= i && i + 2 < |s| && Escape(t, c + i)
  {
    assert forall k | 0 <= k < |s| :: s[k] == t[c + k];
  }

  lemma MatchedChar(t: string, n: string, p: nat, k: nat)
    requires At(t, n, p) && k < |n|
    ensures p + k < |t| && n[k] == t[p + k]
  {
    assert t[p..p + |n|][k] == t[p + k];
  }

  /** An escape that starts just before the stretch ends the match in front of it. */
  lemma SplitAtStart(t: string, n: string, c: nat, e: nat)
    requires Between(t, n, c, e) && c > 0
    ensures Escape(t, c - 1) ==> n[|n| - 1] == '%'
    ensures Escape(t, c - 2) ==> PlainHex(n[|n| - 1]) && (|n| >= 2 ==> n[|n| - 2] == '%')
  {
    hide LowerPercentEscapes, At;
    var canonical := LowerPercentEscapes(t);
    MatchedChar(canonical, n, c - |n|, |n| - 1);
    LowAt(t, c - 1);
    if |n| >= 2 {
      MatchedChar(canonical, n, c - |n|, |n| - 2);
      LowAt(t, c - 2);
    }
  }

  lemma SplitAtEnd(t: string, n: string, c: nat, e: nat)
    requires Between(t, n, c, e) && Escape(t, e - 2)
    ensures PlainHex(n[0])
  {
    hide LowerPercentEscapes, At;
    MatchedChar(LowerPercentEscapes(t), n, e, 0);
    LowAt(t, e);
  }

  /** What a stretch has in another form than the text, only an exposed needle can use. */
  lemma FoundMeansExposed(t: string, n: string, c: nat, e: nat, s: string, w: string, i: nat, x: nat)
    requires Between(t, n, c, e) && IsStretch(t, c, s) && c + |s| == e && At(LowerPercentEscapes(s), w, i) && n != ""
    requires i <= x < i + |w| && x < |s| && c + x < |t| && LowerPercentEscapes(s)[x] != LowerPercentEscapes(t)[c + x]
    ensures Exposes(n, w)
  {
    hide *;
    BetweenBounds(t, n, c, e);
    ExposedDigit(t, c, s, x);
    StretchDigit(t, c, s, x);
    MatchedChar(LowerPercentEscapes(s), w, i, x - i);
    SplitMeans(t, c, e, x);
    if c + x == e - 1 && Escape(t, e - 2) {
      FoundAtEnd(t, n, c, e, s, w, i, x - i);
    } else {
      FoundAtStart(t, n, c, e, s, w, i, x - i);
    }
  }

  lemma SplitMeans(t: string, c: nat, e: nat, x: nat)
    requires Split(t, c, e, x)
    ensures (x <= 1 && Escape(t, c - 1)) || (x == 0 && Escape(t, c - 2)) || (c + x == e - 1 && Escape(t, e - 2))
  {
  }

  lemma FoundAtEnd(t: string, n: string, c: nat, e: nat, s: string, w: string, i: nat, k: nat)
    requires && Between(t, n, c, e)
             && IsStretch(t, c, s)
             && c + |s| == e
             && n != ""
             && At(LowerPercentEscapes(s), w, i)
             && k < |w|
    requires c + i + k == e - 1 && Escape(t, e - 2) && Upper(w[k])
    ensures Exposes(n, w)
  {
    hide LowerPercentEscapes, At, Between, Escape, EscapeDigit, IsStretch;
    BetweenBounds(t, n, c, e);
    SplitAtEnd(t, n, c, e);
    MatchFits(LowerPercentEscapes(s), w, i);
    assert k == |w| - 1;
    EscapeSign(t, e - 2);
    if k > 0 {
      StretchChar(t, c, s, i + k - 1);
      MatchedChar(LowerPercentEscapes(s), w, i, k - 1);
      LowAt(s, i + k - 1);
    }
  }

  lemma FoundAtStart(t: string, n: string, c: nat, e: nat, s: string, w: string, i: nat, k: nat)
    requires && Between(t, n, c, e)
             && IsStretch(t, c, s)
             && c + |s| == e
             && s != ""
             && n != ""
             && At(LowerPercentEscapes(s), w, i)
             && k < |w|
             && Upper(w[k])
    requires (i + k <= 1 && Escape(t, c - 1)) || (i + k == 0 && Escape(t, c - 2))
    ensures Exposes(n, w)
  {
    hide LowerPercentEscapes, At, Between, Escape, EscapeDigit, IsStretch;
    BetweenBounds(t, n, c, e);
    if Escape(t, c - 1) { EscapeSign(t, c - 1); } else { EscapeSign(t, c - 2); }
    SplitAtStart(t, n, c, e);
    if k == 1 {
      StretchChar(t, c, s, 0);
      MatchedChar(LowerPercentEscapes(s), w, i, 0);
      LowAt(s, 0);
    }
  }

  lemma EscapeSign(t: string, i: int)
    requires Escape(t, i)
    ensures i >= 0 && i + 2 < |t| && t[i] == '%' && Hex(t[i + 1])
  {
  }

  lemma BetweenBounds(t: string, n: string, c: nat, e: nat)
    requires Between(t, n, c, e)
    ensures n != "" && c <= e <= |t|
  {
  }

  /** A stretch holds neither the needle nor what the text did not hold, unless the needle exposes it. */
  lemma StretchClean(t: string, n: string, c: nat, e: nat, w: string)
    requires Between(t, n, c, e) && n != "" && w != "" && !Exposes(n, w)
    requires w == n || !Contains(LowerPercentEscapes(t), w)
    ensures !Contains(LowerPercentEscapes(t[c..e]), w)
  {
    hide LowerPercentEscapes, Exposes;
    var s := t[c..e];
    assert IsStretch(t, c, s);
    var low, canonical := LowerPercentEscapes(s), LowerPercentEscapes(t);
    forall i: nat | At(low, w, i) ensures false {
      assert i + |w| <= e - c;
      forall j | i <= j < i + |w| ensures low[j] == canonical[c + j] {
        if low[j] != canonical[c + j] { FoundMeansExposed(t, n, c, e, s, w, i, j); assert false; }
      }
      MovedMatch(low, canonical, w, i, c);
    }
  }

  lemma MovedMatch(a: string, b: string, n: string, i: nat, c: nat)
    requires At(a, n, i) && c + i + |n| <= |b| && forall k | i <= k < i + |n| :: a[k] == b[c + k]
    ensures At(b, n, c + i)
  {
    assert b[c + i..c + i + |n|] == a[i..i + |n|];
  }

  /** From the beginning or the end of a match, the next copied stretch reaches to the next match taken. */
  lemma NextStretch(t: string, n: string, from: nat)
    requires n != "" && from <= |t| && (from == 0 || (from >= |n| && At(LowerPercentEscapes(t), n, from - |n|)))
    ensures var ats := Matches(LowerPercentEscapes(t), n, from);
            && Between(t, n, from, if ats == [] then |t| else ats[0])
            && (ats != [] ==> && from <= ats[0] && ats[0] + |n| <= |t| && At(LowerPercentEscapes(t), n, ats[0])
                              && ats[1..] == Matches(LowerPercentEscapes(t), n, ats[0] + |n|))
  {
    hide LowerPercentEscapes, At;
    var canonical := LowerPercentEscapes(t);
    var ats := Matches(canonical, n, from);
    FitsBound(ats, from, |n|, |t|);
    if ats != [] { assert ats == [ats[0]] + Matches(canonical, n, ats[0] + |n|); }
  }

  lemma {:induction false} StretchesClean(t: string, n: string, from: nat, w: string)
    requires && n != ""
             && w != ""
             && !Exposes(n, w)
             && (w == n || !Contains(LowerPercentEscapes(t), w))
             && from <= |t|
             && (from == 0 || (from >= |n| && At(LowerPercentEscapes(t), n, from - |n|)))
    ensures CleanPieces(t, from, Matches(LowerPercentEscapes(t), n, from), |n|, w)
    decreases |t| - from
  {
    hide LowerPercentEscapes, At, Contains, Exposes, Matches, Between, IndexOf;
    var ats := Matches(LowerPercentEscapes(t), n, from);
    NextStretch(t, n, from);
    StretchClean(t, n, from, if ats == [] then |t| else ats[0], w);
    assert t[from..|t|] == t[from..];
    if ats != [] { StretchesClean(t, n, ats[0] + |n|, w); }
  }

  // ---- needles that the mark completes ----

  /**
   The characters `i` to `j` of the needle are the mark from `o` on, and the needle goes on only where the mark ends.
   */
  predicate Cut(n: string, i: nat, j: nat, o: nat) {
    && i < j <= |n| && o + (j - i) <= |REDACTED| && n[i..j] == REDACTED[o..o + (j - i)]
    && (i > 0 ==> o == 0) && (j < |n| ==> o + (j - i) == |REDACTED|)
  }

  /** The needle, between its own beginning and its own end. */
  function Spread(n: string, i: nat, j: nat): (r: string)
    requires i <= j <= |n|
    ensures |r| == i + |n| + |n| - j
  {
    n[..i] + n + n[j..]
  }

  /** A needle that a mark completes again, in a text where the needle itself is what gets marked. */
  ghost predicate Overlapping(n: string) {
    exists i: nat, j: nat, o: nat :: Cut(n, i, j, o) && IndexOf(LowerPercentEscapes(Spread(n, i, j)), n, 0) == Some(i)
  }

  /** What lower-casing an escape digit leaves alone. */
  lemma SameClass(s: string, k: nat)
    requires k < |s|
    ensures Hex(LowerPercentEscapes(s)[k]) <==> Hex(s[k])
    ensures LowerPercentEscapes(s)[k] == '%' <==> s[k] == '%'
    ensures Lower(LowerPercentEscapes(s)[k]) == Lower(s[k])
    ensures EscapeDigit(s, k) ==> !Upper(LowerPercentEscapes(s)[k]) && LowerPercentEscapes(s)[k] == Lower(s[k])
  {
    hide LowerPercentEscapes, EscapeDigit;
    LowAt(s, k);
  }

  /**
   An occurrence that reaches over the mark put in place of the match at `e`: `i` characters lie in the stretch before
   it.
   */
  ghost predicate Straddles(t: string, n: string, c: nat, e: nat, i: nat, j: nat) {
    var canonical := LowerPercentEscapes(t);
    && Between(t, n, c, e) && At(canonical, n, e) && e + |n| <= |t|
    && c + i <= e && i < j <= |n|
    && (forall x: nat | x < i :: n[x] == LowerPercentEscapes(t[c..e])[e - c - i + x])
    && (j < |n| && Hex(n[j]) ==> e + |n| < |t| && Hex(t[e + |n|]))
  }

  lemma SpreadChar(n: string, i: nat, j: nat, x: nat)
    requires i <= j <= |n| && x < |Spread(n, i, j)|
    ensures Spread(n, i, j)[x] == if x < i then n[x] else if x < i + |n| then n[x - i] else n[x - i - |n| + j]
  {
  }

  /** The beginning of the spread needle shows what the text shows around the match. */
  lemma SpreadClass(t: string, n: string, c: nat, e: nat, i: nat, j: nat, x: nat)
    requires Straddles(t, n, c, e, i, j) && x < i + |n|
    ensures var w := Spread(n, i, j);
            && x < |w|
            && e - i + x < |t|
            && (Hex(w[x]) <==> Hex(t[e - i + x]))
            && (w[x] == '%' <==> t[e - i + x] == '%')
            && Lower(w[x]) == Lower(t[e - i + x])
  {
    hide LowerPercentEscapes, At, Between, Hex, Lower, Upper, Spread;
    SpreadChar(n, i, j, x);
    if x < i {
      var s := t[c..e];
      SameClass(s, e - c - i + x);
      assert s[e - c - i + x] == t[e - i + x];
    } else {
      MatchedChar(LowerPercentEscapes(t), n, e, x - i);
      SameClass(t, e - i + x);
    }
  }

  /** So each of its escapes that starts before the match ends is one of the text. */
  lemma SpreadEscape(t: string, n: string, c: nat, e: nat, i: nat, j: nat, x: int)
    requires Straddles(t, n, c, e, i, j) && x + 2 <= i + |n| && Escape(Spread(n, i, j), x)
    ensures Escape(t, e - i + x)
  {
    hide LowerPercentEscapes, At, Between, Lower, Hex, Spread, Straddles;
    StraddlesMeans(t, n, c, e, i, j);
    SpreadClass(t, n, c, e, i, j, x);
    SpreadClass(t, n, c, e, i, j, x + 1);
    if x + 2 < i + |n| { SpreadClass(t, n, c, e, i, j, x + 2); } else { SpreadChar(n, i, j, x + 2); }
  }

  lemma StraddlesMeans(t: string, n: string, c: nat, e: nat, i: nat, j: nat)
    requires Straddles(t, n, c, e, i, j)
    ensures && n != ""
            && i < j <= |n|
            && c + i <= e
            && e + |n| <= |t|
            && At(LowerPercentEscapes(t), n, e)
            && Between(t, n, c, e)
    ensures j < |n| && Hex(n[j]) ==> e + |n| < |t| && Hex(t[e + |n|])
    ensures forall q: nat | c <= q < e :: !At(LowerPercentEscapes(t), n, q)
  {
    hide LowerPercentEscapes, At, Hex;
  }

  lemma SpreadDigit(t: string, n: string, c: nat, e: nat, i: nat, j: nat, x: nat)
    requires Straddles(t, n, c, e, i, j) && x < i + |n| && EscapeDigit(Spread(n, i, j), x)
    ensures EscapeDigit(t, e - i + x)
  {
    hide LowerPercentEscapes, Spread, Straddles, Escape;
    StraddlesMeans(t, n, c, e, i, j);
    if Escape(Spread(n, i, j), x - 1) { SpreadEscape(t, n, c, e, i, j, x - 1); } else {
      SpreadEscape(t, n, c, e, i, j, x - 2);
    }
  }

  /** The needle is found in its own place. */
  lemma SpreadMatch(t: string, n: string, c: nat, e: nat, i: nat, j: nat)
    requires Straddles(t, n, c, e, i, j)
    ensures At(LowerPercentEscapes(Spread(n, i, j)), n, i)
    ensures forall k | 0 <= k < |n| :: i + k < |Spread(n, i, j)| && LowerPercentEscapes(Spread(n, i, j))[i + k] == n[k]
  {
    hide LowerPercentEscapes, Spread, Straddles, EscapeDigit, At, Upper, Lower;
    StraddlesMeans(t, n, c, e, i, j);
    var w := Spread(n, i, j);
    var l := LowerPercentEscapes(w);
    forall k | 0 <= k < |n| ensures i + k < |w| && l[i + k] == n[k] {
      SpreadClass(t, n, c, e, i, j, i + k);
      SpreadChar(n, i, j, i + k);
      LowAt(w, i + k);
      MatchedChar(LowerPercentEscapes(t), n, e, k);
      if EscapeDigit(w, i + k) {
        SpreadDigit(t, n, c, e, i, j, i + k);
        SameClass(t, e + k);
        LowerChanges(n[k]);
      }
    }
    AtIs(l, n, i);
  }

  lemma AtIs(l: string, n: string, i: nat)
    requires i + |n| <= |l| && forall k | 0 <= k < |n| :: l[i + k] == n[k]
    ensures At(l, n, i)
  {
    assert l[i..i + |n|] == n;
  }

  /** Where the spread needle differs from the text in front of the match, an escape was split. */
  lemma SpreadFront(t: string, n: string, c: nat, e: nat, i: nat, j: nat, x: nat)
    requires Straddles(t, n, c, e, i, j) && x < i && !Splitting(n)
    ensures x < |Spread(n, i, j)| && e - i + x < |t|
    ensures LowerPercentEscapes(Spread(n, i, j))[x] == LowerPercentEscapes(t)[e - i + x] ||
            (i == 1 && Upper(n[0]) && PlainHex(n[0]))
  {
    hide LowerPercentEscapes, Spread, EscapeDigit, At, Upper, Lower, Between, Splitting, Hex, PlainHex, Straddles,
      Split, IsStretch, Escape;
    StraddlesMeans(t, n, c, e, i, j);
    StraddlesFront(t, n, c, e, i, j, x);
    var w, s := Spread(n, i, j), t[c..e];
    SpreadClass(t, n, c, e, i, j, x);
    SpreadChar(n, i, j, x);
    LowAt(w, x);
    SameClass(t, e - i + x);
    if EscapeDigit(w, x) {
      SpreadDigit(t, n, c, e, i, j, x);
    } else if n[x] != LowerPercentEscapes(t)[e - i + x] {
      var y := e - c - i + x;
      StretchIs(t, c, e);
      ExposedDigit(t, c, s, y);
      StretchDigit(t, c, s, y);
      SplitMeans(t, c, e, y);
      StraddledSplit(t, n, c, e, i, j, x);
    }
  }

  lemma StraddlesFront(t: string, n: string, c: nat, e: nat, i: nat, j: nat, x: nat)
    requires Straddles(t, n, c, e, i, j) && x < i
    ensures c + i <= e <= |t| && n[x] == LowerPercentEscapes(t[c..e])[e - c - i + x]
  {
    hide LowerPercentEscapes, At;
  }

  lemma StretchIs(t: string, c: nat, e: nat)
    requires c <= e <= |t|
    ensures IsStretch(t, c, t[c..e])
  {
  }

  /** An escape of the text that ends with the first character of the match is one of the spread needle. */
  lemma EndEscape(t: string, n: string, c: nat, e: nat, i: nat, j: nat)
    requires Straddles(t, n, c, e, i, j) && i >= 2 && Escape(t, e - 2)
    ensures i <= j <= |n| && Escape(Spread(n, i, j), i - 2)
  {
    hide LowerPercentEscapes, Spread, At, Between;
    SpreadClass(t, n, c, e, i, j, i - 2);
    SpreadClass(t, n, c, e, i, j, i - 1);
    SpreadClass(t, n, c, e, i, j, i);
    SpreadChar(n, i, j, i);
  }

  /** An escape that the match before the stretch splits makes the needle a splitting one. */
  lemma StartSplits(t: string, n: string, c: nat, e: nat, i: nat, j: nat, x: nat)
    requires Straddles(t, n, c, e, i, j) && x < i && Upper(n[x])
    requires var y := e - c - i + x; (y <= 1 && Escape(t, c - 1)) || (y == 0 && Escape(t, c - 2))
    ensures Splitting(n)
  {
    hide LowerPercentEscapes, Spread, At, Between, Straddles;
    StraddlesMeans(t, n, c, e, i, j);
    SplitAtStart(t, n, c, e);
    if x == 1 {
      SpreadClass(t, n, c, e, i, j, 0);
      SpreadChar(n, i, j, 0);
    }
  }

  lemma StraddledSplit(t: string, n: string, c: nat, e: nat, i: nat, j: nat, x: nat)
    requires Straddles(t, n, c, e, i, j) && x < i && !Splitting(n) && Upper(n[x]) && !EscapeDigit(Spread(n, i, j), x)
    requires var y := e - c - i + x;
             (y <= 1 && Escape(t, c - 1)) || (y == 0 && Escape(t, c - 2)) || (c + y == e - 1 && Escape(t, e - 2))
    ensures i == 1 && PlainHex(n[0])
  {
    hide LowerPercentEscapes, Spread, At, Between, Straddles;
    StraddlesMeans(t, n, c, e, i, j);
    var y := e - c - i + x;
    if c + y == e - 1 && Escape(t, e - 2) {
      SplitAtEnd(t, n, c, e);
      if i >= 2 { EndEscape(t, n, c, e, i, j); }
    } else {
      StartSplits(t, n, c, e, i, j, x);
    }
  }

  /** And nowhere before: the text would have been cut there. */
  lemma SpreadFirst(t: string, n: string, c: nat, e: nat, i: nat, j: nat)
    requires Straddles(t, n, c, e, i, j) && !Splitting(n)
    ensures IndexOf(LowerPercentEscapes(Spread(n, i, j)), n, 0) == Some(i)
  {
    hide LowerPercentEscapes, Spread, At, Between, Straddles, Splitting, Upper, PlainHex;
    StraddlesMeans(t, n, c, e, i, j);
    SpreadMatch(t, n, c, e, i, j);
    var l, canonical := LowerPercentEscapes(Spread(n, i, j)), LowerPercentEscapes(t);
    forall q: nat | q < i && At(l, n, q) ensures false {
      MatchFits(l, n, q);
      forall k | 0 <= k < |n| ensures e - i + q + k < |canonical| && canonical[e - i + q + k] == n[k] {
        MatchedChar(l, n, q, k);
        if q + k < i {
          SpreadFront(t, n, c, e, i, j, q + k);
          NotBoth(n[0]);
        } else {
          MatchedChar(canonical, n, e, q + k - i);
        }
      }
      AtIs(canonical, n, e - i + q);
    }
  }

  lemma NotBoth(c: char)
    ensures !(Upper(c) && PlainHex(c))
  {
  }

  lemma CutFound(n: string, front: string, rest: string, p: nat, i: nat, j: nat, o: nat)
    requires n != "" && |front| < p + |n| && p < |front| + |REDACTED| && p + |n| <= |front| + |REDACTED| + |rest|
    requires forall k | 0 <= k < |n| :: n[k] == (front + REDACTED + rest)[p + k]
    requires i == (if p < |front| then |front| - p else 0) && o == (if p < |front| then 0 else p - |front|)
    requires j == if p + |n| >= |front| + |REDACTED| then |front| + |REDACTED| - p else |n|
    ensures Cut(n, i, j, o)
  {
    hide REDACTED;
    MarkMiddle();
    var full := front + REDACTED + rest;
    var m := REDACTED[o..o + (j - i)];
    forall k | 0 <= k < j - i ensures n[i..j][k] == m[k] {
      assert n[i + k] == full[p + (i + k)] == REDACTED[o + k];
    }
    assert n[i..j] == m;
  }

  /** An occurrence that touches a mark shows that the needle is one the mark completes. */
  lemma TouchesMark(t: string, n: string, c: nat, e: nat, rest: string, p: nat)
    requires Between(t, n, c, e) && At(LowerPercentEscapes(t), n, e) && !Splitting(n)
    requires rest != "" && Hex(rest[0]) ==> e + |n| < |t| && Hex(t[e + |n|])
    requires At(LowerPercentEscapes(t[c..e]) + REDACTED + rest, n, p) && e - c < p + |n| && p < e - c + |REDACTED|
    ensures Overlapping(n)
  {
    hide LowerPercentEscapes, At, Between, Hex, Splitting, REDACTED;
    BetweenBounds(t, n, c, e);
    MatchFits(LowerPercentEscapes(t), n, e);
    var front := LowerPercentEscapes(t[c..e]);
    var full := front + REDACTED + rest;
    var d := e - c;
    var i := if p < d then d - p else 0;
    var o := if p < d then 0 else p - d;
    var j := if p + |n| >= d + |REDACTED| then d + |REDACTED| - p else |n|;
    MatchFits(full, n, p);
    forall k | 0 <= k < |n| ensures p + k < |full| && n[k] == full[p + k] { MatchedChar(full, n, p, k); }
    CutFound(n, front, rest, p, i, j, o);
    forall x: nat | x < i ensures n[x] == front[d - i + x] { assert n[x] == full[p + x]; }
    if j < |n| { assert n[j] == full[p + j] == rest[0]; }
    assert Straddles(t, n, c, e, i, j);
    SpreadFirst(t, n, c, e, i, j);
  }

  // ---- splitting needles survive in some text ----

  /** A text from which one pass does not remove a splitting `n`. */
  function Witness(n: string): string {
    if n != "" && n[|n| - 1] == '%' && Upper(n[0]) then n + ("0" + n) else n + n
  }

  function Marked(text: string, p: nat, q: nat): string
    requires p <= q <= |text|
  {
    text[..p] + REDACTED + text[q..]
  }

  /** The one match that can be taken is at `p`. */
  ghost predicate Only(c: string, n: string, p: nat) {
    At(c, n, p) && forall i: nat | i < p || p + |n| <= i :: !At(c, n, i)
  }

  lemma OneMatch(text: string, n: string, p: nat)
    requires Canonical(n) && n != "" && Only(LowerPercentEscapes(text), n, p)
    ensures p + |n| <= |text|
    ensures Redact(text, n) == Marked(text, p, p + |n|)
  {
    hide *;
    TheOnlyMatch(LowerPercentEscapes(text), n, p);
    RebuildOne(text, p, |n|);
    RedactIs(text, n);
  }

  lemma RedactIs(text: string, n: string)
    requires Canonical(n) && n != ""
    ensures Redact(text, n) == Rebuild(text, 0, Matches(LowerPercentEscapes(text), n, 0), |n|)
  {
    hide LowerPercentEscapes, Matches, Rebuild;
  }

  lemma TheOnlyMatch(c: string, n: string, p: nat)
    requires n != "" && Only(c, n, p)
    ensures p + |n| <= |c| && Matches(c, n, 0) == [p]
  {
    hide At;
    MatchFits(c, n, p);
    assert IndexOf(c, n, p + |n|).None?;
    assert Matches(c, n, p + |n|) == [];
    assert IndexOf(c, n, 0) == Some(p);
  }

  lemma RebuildOne(text: string, p: nat, width: nat)
    requires p + width <= |text|
    ensures Fits([p], 0, width, |text|) && Rebuild(text, 0, [p], width) == Marked(text, p, p + width)
  {
    hide REDACTED;
    assert [p][1..] == [] && text[0..p] == text[..p];
    assert Fits([], p + width, width, |text|);
  }

  /** The escapes of a text in front of another one, up to those that reach over. */
  lemma LowFront(a: string, b: string, k: nat)
    requires k < |a| && Canonical(a)
    ensures !Escape(a + b, |a| - 2) && !Escape(a + b, |a| - 1) ==> LowerPercentEscapes(a + b)[k] == a[k]
    ensures k + 1 < |a| ==> LowerPercentEscapes(a + b)[k] == a[k]
    ensures k + 1 == |a| ==> LowerPercentEscapes(a + b)[k] == if Escape(a + b, k - 1) then Lower(a[k]) else a[k]
  {
    hide LowerPercentEscapes;
    var s := a + b;
    LowAt(s, k);
    LowAt(a, k);
    CanonicalMeans(a);
    assert forall j | 0 <= j < |a| :: s[j] == a[j];
  }

  /** Whatever follows the mark and holds the needle at its end holds it still. */
  lemma TailHolds(n: string, gap: string)
    requires Canonical(n) && '%' !in gap && n != ""
    ensures Contains(LowerPercentEscapes(REDACTED + (gap + n)), n)
  {
    hide LowerPercentEscapes;
    var rest := gap + n;
    LowAround("", rest);
    assert "" + REDACTED + rest == REDACTED + rest;
    var l, e := LowerPercentEscapes(rest), LowerPercentEscapes("");
    assert forall j | 0 <= j < |gap| :: rest[j] != '%';
    forall k | 0 <= k < |n| ensures l[|gap| + k] == n[k] {
      assert rest[|gap|..] == n;
      EscapeShift(rest, |gap|, |gap| + k);
      LowAt(rest, |gap| + k);
      LowAt(n, k);
      CanonicalMeans(n);
    }
    TailAt(e + REDACTED, l, n, |gap|);
  }

  lemma TailAt(front: string, l: string, n: string, g: nat)
    requires |l| == g + |n| && forall k | 0 <= k < |n| :: l[g + k] == n[k]
    ensures Contains(front + l, n)
  {
    var r := front + l;
    assert r[|front| + g..|front| + g + |n|] == n;
    assert At(r, n, |front| + g);
  }

  /** The needle's end splits an escape, the rest keeps an upper-case start. */
  lemma LeakAfter(n: string, gap: string, d: nat)
    requires Canonical(n) && |n| >= 2 && |gap| <= 1 && d < 2 && d < |gap + n|
    requires var s := n + (gap + n);
             && Upper(s[|n| + d]) && EscapeDigit(s, |n| + d)
             && (Escape(s, |n| - 2) ==> PlainHex(n[|n| - 1]))
             && (gap != "" ==> gap[0] == '0' && Upper(n[0]) && d == 1)
    ensures Contains(LowerPercentEscapes(Redact(n + (gap + n), n)), n)
  {
    hide LowerPercentEscapes, Redact, REDACTED, Contains, Escape;
    var s, rest := n + (gap + n), gap + n;
    var c := LowerPercentEscapes(s);
    forall k | 0 <= k < |n| ensures c[k] == n[k] { LowFront(n, rest, k); }
    assert c[0..|n|] == n;
    NoSecond(n, gap, d);
    OneMatch(s, n, 0);
    assert s[..0] == "" && s[|n|..] == rest;
    assert "" + REDACTED + rest == REDACTED + rest;
    TailHolds(n, gap);
  }

  lemma NoSecond(n: string, gap: string, d: nat)
    requires |n| >= 2 && |gap| <= 1 && d < 2 && d < |gap + n|
    requires var s := n + (gap + n); Upper(s[|n| + d]) && EscapeDigit(s, |n| + d)
    requires gap != "" ==> gap[0] == '0' && Upper(n[0]) && d == 1
    ensures forall i: nat | |n| <= i :: !At(LowerPercentEscapes(n + (gap + n)), n, i)
  {
    hide LowerPercentEscapes, EscapeDigit, At;
    var s := n + (gap + n);
    var c := LowerPercentEscapes(s);
    LowAt(s, |n| + d);
    assert s[|n| + d] == (gap + n)[d];
    LowAt(s, |n|);
    assert gap != "" ==> s[|n|] == '0';
    forall i: nat | |n| <= i && At(c, n, i) ensures false {
      MatchFits(c, n, i);
      if gap == "" {
        MatchedChar(c, n, i, d);
      } else {
        MatchedChar(c, n, i, 0);
      }
    }
  }

  /** The needle's start splits an escape, the text before keeps an upper-case end. */
  lemma LeakBefore(n: string)
    requires Canonical(n) && |n| >= 2 && n[|n| - 2] == '%' && Upper(n[|n| - 1]) && PlainHex(n[0])
    ensures Contains(LowerPercentEscapes(Redact(n + n, n)), n)
  {
    hide LowerPercentEscapes, Redact;
    var s, w := n + n, |n|;
    var c := LowerPercentEscapes(s);
    assert Escape(s, w - 2);
    forall k | 0 <= k < w - 1 ensures c[k] == n[k] { LowFront(n, n, k); }
    LowAt(s, w - 1);
    forall k | 0 <= k < w ensures c[w + k] == n[k] { SecondHalf(n, k); }
    assert c[w..w + w] == n;
    forall i: nat | i < w && At(c, n, i) ensures false { Rotation(n, c, i); }
    forall i: nat | w + w <= i ensures !At(c, n, i) {}
    OneMatch(s, n, w);
    assert s[..w] == n && s[w + w..] == "";
    LowAround(n, "");
    CanonicalMeans(n);
    var r := n + REDACTED + LowerPercentEscapes("");
    assert r[0..w] == n;
    assert At(r, n, 0);
  }

  lemma SecondHalf(n: string, k: nat)
    requires Canonical(n) && |n| >= 2 && k < |n| && n[|n| - 1] != '%' && PlainHex(n[0])
    ensures LowerPercentEscapes(n + n)[|n| + k] == n[k]
  {
    hide LowerPercentEscapes;
    var s, w := n + n, |n|;
    LowAt(s, w + k);
    LowAt(n, k);
    CanonicalMeans(n);
    assert s[w..] == n;
    EscapeShift(s, w, w + k);
  }

  /** A text one letter off its needle matches nowhere over that letter: every rotation has the needle's letters. */
  lemma Rotation(n: string, c: string, i: nat)
    requires |n| >= 2 && |c| == 2 * |n| && i < |n| && c[|n| - 1] != n[|n| - 1]
    requires (forall k | 0 <= k < |n| - 1 :: c[k] == n[k]) && (forall k | 0 <= k < |n| :: c[|n| + k] == n[k])
    ensures !At(c, n, i)
  {
    if At(c, n, i) {
      RotatedParts(n, c, i);
      Parted(n, i);
      Letters(n[..i], n[i..|n| - 1], c[|n| - 1], n[|n| - 1]);
      assert false;
    }
  }

  lemma RotatedParts(n: string, c: string, i: nat)
    requires |n| >= 2 && |c| == 2 * |n| && i < |n|
    requires (forall k | 0 <= k < |n| - 1 :: c[k] == n[k]) && (forall k | 0 <= k < |n| :: c[|n| + k] == n[k])
    ensures c[i..i + |n|] == n[i..|n| - 1] + ([c[|n| - 1]] + n[..i])
  {
    var w := |n|;
    var l, r := c[i..i + w], n[i..w - 1] + ([c[w - 1]] + n[..i]);
    forall k | 0 <= k < w ensures l[k] == r[k] {
      assert l[k] == c[i + k];
      if i + k >= w { assert c[i + k] == c[w + (i + k - w)] == n[i + k - w]; }
    }
  }

  lemma Parted(n: string, i: nat)
    requires i < |n|
    ensures n == n[..i] + (n[i..|n| - 1] + [n[|n| - 1]])
  {
  }

  lemma Letters(head: string, tail: string, x: char, y: char)
    requires tail + ([x] + head) == head + (tail + [y])
    ensures x == y
  {
    assert multiset(tail + ([x] + head)) == multiset(tail) + (multiset{x} + multiset(head));
    assert multiset(head + (tail + [y])) == multiset(head) + (multiset(tail) + multiset{y});
    assert (multiset(tail) + (multiset{x} + multiset(head)))[x] == multiset(tail)[x] + multiset(head)[x] + 1;
  }

  lemma WitnessLeaks(n: string)
    requires Canonical(n) && Splitting(n)
    ensures Contains(LowerPercentEscapes(Redact(Witness(n), n)), n)
  {
    hide LowerPercentEscapes, Redact, Contains, Canonical;
    var w := |n|;
    if n[w - 1] == '%' && Upper(n[0]) {
      GapSplits(n);
      LeakAfter(n, "0", 1);
    } else if n[w - 2] == '%' && Upper(n[w - 1]) && PlainHex(n[0]) {
      LeakBefore(n);
    } else {
      PairSplits(n);
      assert "" + n == n;
      LeakAfter(n, "", if Upper(n[0]) then 0 else 1);
    }
  }

  /** A zero between the two makes an escape of the needle's end. */
  lemma GapSplits(n: string)
    requires |n| >= 2 && n[|n| - 1] == '%' && Upper(n[0])
    ensures var s := n + ("0" + n);
            Upper(s[|n| + 1]) && EscapeDigit(s, |n| + 1) && !Escape(s, |n| - 2)
  {
    var s, w := n + ("0" + n), |n|;
    assert s[w] == '0' && s[w + 1] == n[0] && s[w - 1] == '%' && s[w - 2] == n[w - 2];
  }

  /** Two needles in a row, the first one's end making an escape with the second one's start. */
  lemma PairSplits(n: string)
    requires Splitting(n) && !(n[|n| - 1] == '%' && Upper(n[0]))
    requires !(n[|n| - 2] == '%' && Upper(n[|n| - 1]) && PlainHex(n[0]))
    ensures var s, d := n + ("" + n), if Upper(n[0]) then 0 else 1;
            Upper(s[|n| + d]) && EscapeDigit(s, |n| + d) && (Escape(s, |n| - 2) ==> PlainHex(n[|n| - 1]))
  {
    var s, w := n + ("" + n), |n|;
    assert forall k | 0 <= k < w :: s[k] == n[k] && s[w + k] == n[k];
    if n[w - 1] == '%' { PairEscape(s, w - 1); } else { PairEscape(s, w - 2); }
  }

  lemma PairEscape(s: string, i: nat)
    requires i + 2 < |s| && s[i] == '%' && Hex(s[i + 1]) && Hex(s[i + 2])
    ensures EscapeDigit(s, i + 1) && EscapeDigit(s, i + 2)
  {
  }

  /** The spread needle loses the needle and gets a mark that completes it again. */
  lemma SpreadLeaks(n: string, i: nat, j: nat, o: nat)
    requires Canonical(n) && Cut(n, i, j, o) && IndexOf(LowerPercentEscapes(Spread(n, i, j)), n, 0) == Some(i)
    ensures Contains(LowerPercentEscapes(Redact(Spread(n, i, j), n)), n)
  {
    hide LowerPercentEscapes, Redact, At, Canonical;
    var s, a, b := Spread(n, i, j), n[..i], n[j..];
    var c := LowerPercentEscapes(s);
    OneMatchFirst(s, n, i);
    assert s[..i] == a && s[i + |n|..] == b;
    LowAround(a, b);
    Stretch(n, 0, i, "");
    Stretch(n, j, |n|, "");
    assert n[0..i] == a && n[j..|n|] == b;
    CanonicalMeans(a);
    CanonicalMeans(b);
    MarkCompletes(n, i, j, o);
  }

  lemma OneMatchFirst(text: string, n: string, p: nat)
    requires Canonical(n) && n != "" && IndexOf(LowerPercentEscapes(text), n, 0) == Some(p) && |text| < p + |n| + |n|
    ensures p + |n| <= |text|
    ensures Redact(text, n) == text[..p] + REDACTED + text[p + |n|..]
  {
    hide LowerPercentEscapes, At, Matches, Rebuild, Fits, Redact, Canonical;
    var c := LowerPercentEscapes(text);
    MatchFits(c, n, p);
    NoRoom(c, n, p + |n|);
    assert Matches(c, n, 0) == [p] by { MatchesOne(c, n, p); }
    RebuildOne(text, p, |n|);
    RedactIs(text, n);
  }

  lemma NoRoom(c: string, n: string, from: nat)
    requires from <= |c| < from + |n|
    ensures IndexOf(c, n, from).None?
  {
    if IndexOf(c, n, from).Some? { MatchFits(c, n, IndexOf(c, n, from).value); assert false; }
  }

  lemma MatchesOne(c: string, n: string, p: nat)
    requires n != "" && IndexOf(c, n, 0) == Some(p) && p + |n| <= |c| && IndexOf(c, n, p + |n|).None?
    ensures Matches(c, n, 0) == [p]
  {
    assert Matches(c, n, p + |n|) == [];
  }

  lemma MarkCompletes(n: string, i: nat, j: nat, o: nat)
    requires Cut(n, i, j, o)
    ensures Contains(n[..i] + REDACTED + n[j..], n)
  {
    hide REDACTED;
    var r := n[..i] + REDACTED + n[j..];
    forall k | 0 <= k < |n| ensures o + k < |r| && r[o + k] == n[k] {
      if i <= k < j { assert n[k] == n[i..j][k - i] == REDACTED[o..o + (j - i)][k - i] == REDACTED[o + k - i]; }
    }
    AtIs(r, n, o);
  }

  // ---- the exact condition ----

  /** What is found after a pass, was found inside a stretch or touches a mark. */
  lemma {:induction false} NothingFound(t: string, n: string, from: nat)
    requires n != "" && !Splitting(n) && !Overlapping(n) && from <= |t|
    requires from == 0 || (from >= |n| && At(LowerPercentEscapes(t), n, from - |n|))
    requires CleanPieces(t, from, Matches(LowerPercentEscapes(t), n, from), |n|, n)
    ensures !Contains(LowerPercentEscapes(Rebuild(t, from, Matches(LowerPercentEscapes(t), n, from), |n|)), n)
    decreases |t| - from
  {
    hide LowerPercentEscapes, At, Contains, Splitting, Overlapping, Matches, Between, IndexOf, REDACTED, Hex;
    var ats := Matches(LowerPercentEscapes(t), n, from);
    NextStretch(t, n, from);
    if ats != [] {
      var e := ats[0];
      var a, b := t[from..e], Rebuild(t, e + |n|, ats[1..], |n|);
      NothingFound(t, n, e + |n|);
      LowAround(a, b);
      RestHead(t, e + |n|, ats[1..], |n|);
      if b != "" { LowAt(b, 0); }
      NothingAround(t, n, from, e, b);
    }
  }

  lemma NothingAround(t: string, n: string, c: nat, e: nat, b: string)
    requires Between(t, n, c, e) && At(LowerPercentEscapes(t), n, e) && !Splitting(n) && !Overlapping(n)
    requires b != "" && Hex(LowerPercentEscapes(b)[0]) ==> e + |n| < |t| && Hex(t[e + |n|])
    requires !Contains(LowerPercentEscapes(t[c..e]), n) && !Contains(LowerPercentEscapes(b), n)
    ensures !Contains(LowerPercentEscapes(t[c..e]) + REDACTED + LowerPercentEscapes(b), n)
  {
    hide LowerPercentEscapes, At, Splitting, Overlapping, Between, REDACTED, Hex;
    BetweenBounds(t, n, c, e);
    var l := LowerPercentEscapes(t[c..e]) + REDACTED + LowerPercentEscapes(b);
    forall p: nat ensures !At(l, n, p) {
      if At(l, n, p) { FoundSomewhere(t, n, c, e, b, p); }
    }
  }

  lemma FoundSomewhere(t: string, n: string, c: nat, e: nat, b: string, p: nat)
    requires Between(t, n, c, e) && At(LowerPercentEscapes(t), n, e) && !Splitting(n)
    requires b != "" && Hex(LowerPercentEscapes(b)[0]) ==> e + |n| < |t| && Hex(t[e + |n|])
    requires At(LowerPercentEscapes(t[c..e]) + REDACTED + LowerPercentEscapes(b), n, p)
    ensures Contains(LowerPercentEscapes(t[c..e]), n) || Contains(LowerPercentEscapes(b), n) || Overlapping(n)
  {
    hide LowerPercentEscapes, At, Splitting, Overlapping, Between, REDACTED, Hex;
    BetweenBounds(t, n, c, e);
    var front, rest := LowerPercentEscapes(t[c..e]), LowerPercentEscapes(b);
    var l := front + REDACTED + rest;
    MatchFits(l, n, p);
    if p + |n| <= |front| {
      assert l[0..|front|] == front;
      FoundWithin(l, n, p, 0, |front|);
    } else if p >= |front| + |REDACTED| {
      assert l[|front| + |REDACTED|..|l|] == rest;
      FoundWithin(l, n, p, |front| + |REDACTED|, |l|);
    } else {
      TouchesMark(t, n, c, e, rest, p);
    }
  }

  /** What follows a mark: the text itself, or another mark. */
  lemma RestHead(t: string, from: nat, ats: seq<nat>, width: nat)
    requires Fits(ats, from, width, |t|)
    ensures var b := Rebuild(t, from, ats, width);
            b != "" && Hex(b[0]) ==> from < |t| && Hex(t[from])
  {
    FitsBound(ats, from, width, |t|);
    if ats != [] {
      var stretch := t[from..ats[0]];
      var tail := Rebuild(t, ats[0] + width, ats[1..], width);
      var b := stretch + REDACTED + tail;
      assert b[0] == if stretch != "" then stretch[0] else '[';
    }
  }

  lemma OnePassRemoves(text: string, variant: string)
    requires variant != "" && !Splitting(LowerPercentEscapes(variant)) && !Overlapping(LowerPercentEscapes(variant))
    ensures !Contains(LowerPercentEscapes(Redact(text, variant)), LowerPercentEscapes(variant))
  {
    hide LowerPercentEscapes, Contains, Splitting, Overlapping, At, Matches, Rebuild, Fits;
    var n := LowerPercentEscapes(variant);
    LowIdempotent(variant);
    SplitsItself(n);
    StretchesClean(text, n, 0, n);
    NothingFound(text, n, 0);
  }

  /**
    One pass removes its variant from every text exactly when the variant's canonical form neither splits escapes nor
    is completed again by the mark.
   */
  lemma OnePassExactly(variant: string)
    requires variant != ""
    ensures (forall text :: !Contains(LowerPercentEscapes(Redact(text, variant)), LowerPercentEscapes(variant)))
       <==> !Splitting(LowerPercentEscapes(variant)) && !Overlapping(LowerPercentEscapes(variant))
  {
    hide LowerPercentEscapes, Contains, Splitting, Witness, Spread, IndexOf, Redact;
    var n := LowerPercentEscapes(variant);
    LowIdempotent(variant);
    CanonicalMeans(n);
    if Splitting(n) {
      WitnessLeaks(n);
      SameRedaction(Witness(n), variant, n);
    } else if Overlapping(n) {
      var i: nat, j: nat, o: nat :| Cut(n, i, j, o) && IndexOf(LowerPercentEscapes(Spread(n, i, j)), n, 0) == Some(i);
      SpreadLeaks(n, i, j, o);
      SameRedaction(Spread(n, i, j), variant, n);
    } else {
      forall text ensures !Contains(LowerPercentEscapes(Redact(text, variant)), n) { OnePassRemoves(text, variant); }
    }
  }

  // ---- several passes ----

  /** A pass lets no other variant appear that it does not expose. */
  lemma PassKeeps(text: string, variant: string, w: string)
    requires variant != "" && w != "" && BracketFree(w) && !InMark(w)
    requires !Exposes(LowerPercentEscapes(variant), w) && !Contains(LowerPercentEscapes(text), w)
    ensures !Contains(LowerPercentEscapes(Redact(text, variant)), w)
  {
    hide LowerPercentEscapes, Contains, Exposes, InMark, BracketFree, At, Matches, Rebuild, Fits;
    var n := LowerPercentEscapes(variant);
    StretchesClean(text, n, 0, w);
    CleanRebuild(text, 0, Matches(LowerPercentEscapes(text), n, 0), |n|, w);
  }

  lemma {:induction false} PassesKeep(text: string, variants: seq<string>, w: string)
    requires w != "" && BracketFree(w) && !InMark(w) && !Contains(LowerPercentEscapes(text), w)
    requires forall k | 0 <= k < |variants| :: variants[k] != "" && !Exposes(LowerPercentEscapes(variants[k]), w)
    ensures !Contains(LowerPercentEscapes(RedactAll(text, variants)), w)
    decreases |variants|
  {
    hide LowerPercentEscapes, Contains, Exposes, InMark, BracketFree, Redact;
    if variants != [] {
      PassKeeps(text, variants[0], w);
      PassesKeep(Redact(text, variants[0]), variants[1..], w);
    }
  }

  /** The variant is gone after its own pass, and no later pass can bring it back. */
  ghost predicate Settled(variants: seq<string>, k: nat)
    requires k < |variants| && forall j | 0 <= j < |variants| :: variants[j] != ""
  {
    var w := LowerPercentEscapes(variants[k]);
    && !Splitting(w) && !Overlapping(w)
    && (k + 1 < |variants| ==>
          && BracketFree(w) && !InMark(w)
          && forall j | k < j < |variants| :: !Exposes(LowerPercentEscapes(variants[j]), w))
  }

  /** After all passes a settled variant is gone, from every text, whatever its escapes. */
  lemma {:induction false} PassesRemove(text: string, variants: seq<string>, k: nat)
    requires (forall j | 0 <= j < |variants| :: variants[j] != "") && k < |variants| && Settled(variants, k)
    ensures !Contains(LowerPercentEscapes(RedactAll(text, variants)), LowerPercentEscapes(variants[k]))
    decreases |variants|
  {
    hide LowerPercentEscapes, Contains, Exposes, InMark, BracketFree, Redact, Splitting, Overlapping;
    var next, rest := Redact(text, variants[0]), variants[1..];
    assert forall j | 0 <= j < |rest| :: rest[j] == variants[j + 1];
    if k > 0 {
      assert Settled(rest, k - 1);
      PassesRemove(next, rest, k - 1);
    } else {
      OnePassRemoves(text, variants[0]);
      if rest != [] { PassesKeep(next, rest, LowerPercentEscapes(variants[0])); }
    }
  }

  /** So nothing sensitive is left of any text when every variant is settled. */
  lemma SettledFold(text: string, variants: seq<string>)
    requires forall k | 0 <= k < |variants| :: variants[k] != ""
    requires forall k: nat | k < |variants| :: Settled(variants, k)
    ensures !Sensitive(RedactAll(text, variants), variants)
  {
    hide LowerPercentEscapes, Contains, Settled, RedactAll;
    forall k: nat | k < |variants|
      ensures !Contains(LowerPercentEscapes(RedactAll(text, variants)), LowerPercentEscapes(variants[k]))
    {
      PassesRemove(text, variants, k);
    }
  }

  /** For a single variant that is exactly when it happens. */
  lemma OneVariantExactly(variant: string)
    requires variant != ""
    ensures (forall text :: !Sensitive(RedactAll(text, [variant]), [variant])) <==>
            !Splitting(LowerPercentEscapes(variant)) && !Overlapping(LowerPercentEscapes(variant))
  {
    hide LowerPercentEscapes, Contains, Splitting, Overlapping, Redact, RedactAll, Sensitive;
    var n := LowerPercentEscapes(variant);
    OnePassExactly(variant);
    if !Splitting(n) && !Overlapping(n) {
      forall text ensures !Sensitive(RedactAll(text, [variant]), [variant]) {
        OneVariant(text, variant);
        OnePassRemoves(text, variant);
      }
    } else {
      var text :| Contains(LowerPercentEscapes(Redact(text, variant)), n);
      OneVariant(text, variant);
      assert Sensitive(RedactAll(text, [variant]), [variant]);
    }
  }

  lemma OneVariant(text: string, variant: string)
    requires variant != ""
    ensures RedactAll(text, [variant]) == Redact(text, variant)
    ensures Sensitive(Redact(text, variant), [variant]) <==>
            Contains(LowerPercentEscapes(Redact(text, variant)), LowerPercentEscapes(variant))
  {
    hide LowerPercentEscapes, Contains, Redact;
    assert [variant][1..] == [];
    assert [variant][0] == variant;
  }

  /** Without brackets, and not within the mark's letters, a needle is never completed by the mark. */
  lemma NeverCompleted(n: string)
    requires n != "" && BracketFree(n) && !InMark(n)
    ensures !Overlapping(n)
  {
    hide LowerPercentEscapes, InMark, BracketFree, Cut;
    forall i: nat, j: nat, o: nat ensures !Cut(n, i, j, o) {
      if Cut(n, i, j, o) { CutInMark(n, i, j, o); assert false; }
    }
  }

  lemma CutInMark(n: string, i: nat, j: nat, o: nat)
    requires n != "" && BracketFree(n) && Cut(n, i, j, o)
    ensures InMark(n)
  {
    hide InMark;
    MarkMiddle();
    var m := n[i..j];
    assert m[0] == n[i] && m[0] == REDACTED[o];
    assert m[|m| - 1] == n[j - 1] && m[|m| - 1] == REDACTED[o + |m| - 1];
    assert REDACTED[0] == '[' && REDACTED[9] == ']';
    assert i == 0 && j == |n|;
    assert m == n;
    MarkHolds(n, o);
  }

  lemma MarkHolds(n: string, o: nat)
    requires 0 < o && o + |n| < 10 && |REDACTED| == 10 && n == REDACTED[o..o + |n|]
    ensures InMark(n)
  {
    MarkMiddle();
    Within(REDACTED, 1, 9, o - 1, o - 1 + |n|);
    assert At("REDACTED", n, o - 1);
  }

  /** Variants of two or more characters without a percent sign never meddle with an escape. */
  lemma PercentFreeFold(text: string, variants: seq<string>)
    requires forall k | 0 <= k < |variants| ::
               && |variants[k]| >= 2 && '%' !in variants[k]
               && BracketFree(variants[k]) && !InMark(variants[k])
    ensures !Sensitive(RedactAll(text, variants), variants)
  {
    hide LowerPercentEscapes, Exposes, BracketFree, InMark, RedactAll, Sensitive, Splitting, Overlapping;
    forall k | 0 <= k < |variants| ensures LowerPercentEscapes(variants[k]) == variants[k] {
      PercentFree(variants[k]);
      CanonicalMeans(variants[k]);
    }
    forall k: nat | k < |variants| ensures Settled(variants, k) {
      PercentFree(variants[k]);
      SplitsItself(variants[k]);
      NeverCompleted(variants[k]);
      forall j | 0 <= j < |variants| ensures !Exposes(variants[j], variants[k]) {
        NoPercentExposed(variants[j], variants[k]);
      }
    }
    SettledFold(text, variants);
  }

  lemma NoPercentExposed(n: string, w: string)
    requires |n| >= 2 && |w| >= 2 && '%' !in n && '%' !in w
    ensures !Exposes(n, w)
  {
    assert n[|n| - 1] in n && n[|n| - 2] in n && w[|w| - 2] in w;
  }

  lemma AtStart(t: string, w: string, i: nat)
    requires At(t, w, i) && w != ""
    ensures i < |t| && t[i] == w[0]
  {
    AtChar(t, w, i, i);
  }

  /** Where a later pass exposes an earlier variant, that one may be back in the end. */
  lemma ExposedExample()
    ensures RedactAll("%2Fx", ["Fx", "2"]) == "%" + REDACTED + "Fx"
    ensures Exposes("2", "Fx") && Contains(LowerPercentEscapes("%" + REDACTED + "Fx"), "Fx")
  {
    hide LowerPercentEscapes, Redact, REDACTED, Contains, Only;
    var text, a, b := "%2Fx", "Fx", "2";
    PercentFree(a);
    CanonicalMeans(a);
    PercentFree(b);
    CanonicalMeans(b);
    ExampleText();
    RedactUnchanged(text, a);
    OneMatch(text, b, 1);
    assert text[..1] == "%" && text[2..] == a;
    assert [a, b][1..] == [b] && [b][1..] == [];
    LowAround("%", a);
    FoundLast(LowerPercentEscapes("%") + REDACTED, a);
  }

  lemma FoundLast(front: string, w: string)
    ensures Contains(front + w, w)
  {
    AtIs(front + w, w, |front|);
  }

  lemma ExampleText()
    ensures !Contains(LowerPercentEscapes("%2Fx"), "Fx") && Only(LowerPercentEscapes("%2Fx"), "2", 1)
  {
    hide LowerPercentEscapes, At;
    var text := "%2Fx";
    var low := LowerPercentEscapes(text);
    forall k | 0 <= k < 4 ensures low[k] == if k == 2 then 'f' else text[k] { LowAt(text, k); }
    forall i: nat ensures !At(low, "Fx", i) && (At(low, "2", i) ==> i == 1) {
      if At(low, "Fx", i) { AtStart(low, "Fx", i); }
      if At(low, "2", i) { AtStart(low, "2", i); }
    }
    AtIs(low, "2", 1);
  }

  lemma SameRedaction(text: string, variant: string, n: string)
    requires variant != "" && n == LowerPercentEscapes(variant)
    ensures n != "" && Redact(text, variant) == Redact(text, n)
  {
    hide LowerPercentEscapes, Matches, Rebuild;
    LowIdempotent(variant);
    CanonicalMeans(n);
  }

  lemma MarkMiddle()
    ensures |REDACTED| == 10 && REDACTED[1..9] == "REDACTED"
  {
  }

  /** The smallest case: the second escape digit, cut loose from its percent sign, is an upper-case letter again. */
  lemma SplitExample()
    ensures Contains(LowerPercentEscapes(Redact("A%" + ("0" + "A%"), "A%")), "A%")
  {
    hide LowerPercentEscapes, Redact, Contains;
    var n := "A%";
    CanonicalIs(n);
    assert Splitting(n);
    assert Witness(n) == n + ("0" + n);
    WitnessLeaks(n);
  }

  /** And the smallest one with a bracket: the mark's closing bracket makes up for the one that was cut out. */
  lemma BracketExample()
    ensures Contains(LowerPercentEscapes(Redact("]AA", "]A")), "]A")
  {
    hide LowerPercentEscapes, Redact, Contains;
    var n := "]A";
    CanonicalIs(n);
    assert Spread(n, 0, 1) == "]AA" by { assert n[..0] == "" && n[1..] == "A"; }
    assert Cut(n, 0, 1, 9) by { assert n[0..1] == "]"; }
    PercentFree("]AA");
    CanonicalMeans("]AA");
    assert At("]AA", n, 0) by { assert "]AA"[0..2] == n; }
    SpreadLeaks(n, 0, 1, 9);
  }
}
