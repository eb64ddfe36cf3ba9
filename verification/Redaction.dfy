/** Removing credential variants from text, without regard to the case of percent escapes. */
module Redaction {
  import opened Basics
  import opened Sequences

  const REDACTED := "[REDACTED]"

  /** The hexadecimal digits whose case matters. */
  predicate Upper(c: char) { 'A' <= c <= 'F' }
  predicate PlainHex(c: char) { '0' <= c <= '9' || 'a' <= c <= 'f' }
  predicate Hex(c: char) { Upper(c) || PlainHex(c) }

  function Lower(c: char): char { if Upper(c) then c - 'A' + 'a' else c }

  predicate Escape(s: string, i: int) {
    0 <= i && i + 2 < |s| && s[i] == '%' && Hex(s[i + 1]) && Hex(s[i + 2])
  }

  predicate HexCode(n: int) { 0x30 <= n <= 0x39 || 0x41 <= n <= 0x46 || 0x61 <= n <= 0x66 }

  /** An escape by the codes of its three characters, and what becomes of them. */
  lemma EscapeCodes(s: string, i: int)
    ensures Escape(s, i) <==> 0 <= i && i + 2 < |s| && s[i] as int == 0x25 && HexCode(s[i + 1] as int) &&
                              HexCode(s[i + 2] as int)
    ensures Escape(s, i) ==> forall k | i < k <= i + 2 ::
                Lower(s[k]) as int == s[k] as int + if 0x41 <= s[k] as int <= 0x46 then 0x20 else 0
  {
  }

  /** Replace every escape, left to right, by its lower-case form. */
  function LowerPercentEscapes(s: string): (r: string)
    ensures |r| == |s|
  {
    if s == "" then ""
    else if Escape(s, 0) then ['%', Lower(s[1]), Lower(s[2])] + LowerPercentEscapes(s[3..])
    else [s[0]] + LowerPercentEscapes(s[1..])
  }

  /** One of the two digits of an escape. */
  predicate EscapeDigit(s: string, k: int) { Escape(s, k - 1) || Escape(s, k - 2) }

  /** Escape digits change to lower case, and nothing else changes. */
  lemma {:induction false} LowAt(s: string, k: nat)
    requires k < |s|
    ensures LowerPercentEscapes(s)[k] == if EscapeDigit(s, k) then Lower(s[k]) else s[k]
  {
    if Escape(s, 0) {
      var t := s[3..];
      if k >= 3 {
        LowAt(t, k - 3);
        EscapeShift(s, 3, k);
      }
    } else if k > 0 {
      var t := s[1..];
      LowAt(t, k - 1);
      EscapeShift(s, 1, k);
    }
  }

  lemma EscapeShift(s: string, d: nat, k: nat)
    requires d <= k < |s|
    ensures Escape(s[d..], k - 1 - d) <==> k - 1 >= d && Escape(s, k - 1)
    ensures Escape(s[d..], k - 2 - d) <==> k - 2 >= d && Escape(s, k - 2)
  {
  }

  /** A text none of whose escape digits is in upper case. */
  predicate Canonical(s: string) { LowerPercentEscapes(s) == s }

  lemma CanonicalIs(s: string)
    ensures Canonical(s) <==> forall k | 0 <= k < |s| :: EscapeDigit(s, k) ==> !Upper(s[k])
  {
    hide LowerPercentEscapes, EscapeDigit;
    forall k | 0 <= k < |s| ensures LowerPercentEscapes(s)[k] == if EscapeDigit(s, k) then Lower(s[k]) else s[k] {
      LowAt(s, k);
    }
  }

  lemma SameEscapes(s: string, i: int)
    ensures Escape(LowerPercentEscapes(s), i) <==> Escape(s, i)
  {
    hide LowerPercentEscapes;
    if 0 <= i && i + 2 < |s| {
      LowAt(s, i);
      LowAt(s, i + 1);
      LowAt(s, i + 2);
    }
  }

  /** Canonicalising twice is canonicalising once. */
  lemma LowIdempotent(s: string)
    ensures Canonical(LowerPercentEscapes(s))
  {
    hide LowerPercentEscapes;
    var c := LowerPercentEscapes(s);
    forall k | 0 <= k < |c| ensures EscapeDigit(c, k) ==> !Upper(c[k]) {
      SameEscapes(s, k - 1);
      SameEscapes(s, k - 2);
      LowAt(s, k);
    }
    hide Canonical, EscapeDigit;
    CanonicalIs(c);
  }

  // ---- searching ----

  predicate At(t: string, w: string, i: nat) { i + |w| <= |t| && t[i..i + |w|] == w }

  ghost predicate Contains(t: string, w: string) { exists i: nat :: At(t, w, i) }

  function IndexOf(t: string, w: string, from: nat): (r: Option<nat>)
    requires from <= |t|
    ensures r.Some? ==> from <= r.value && At(t, w, r.value) && forall i: nat | from <= i < r.value :: !At(t, w, i)
    ensures r.None? ==> forall i: nat | from <= i :: !At(t, w, i)
    decreases |t| - from
  {
    if At(t, w, from) then Some(from) else if from == |t| then None else IndexOf(t, w, from + 1)
  }

  /** The matches the loop takes, from left to right. */
  function Matches(t: string, w: string, from: nat): (ats: seq<nat>)
    requires from <= |t| && w != ""
    ensures Fits(ats, from, |w|, |t|)
    decreases |t| - from
  {
    match IndexOf(t, w, from)
    case None => []
    case Some(at) => [at] + Matches(t, w, at + |w|)
  }

  predicate Fits(ats: seq<nat>, from: nat, width: nat, length: nat) {
    if ats == [] then from <= length else from <= ats[0] && Fits(ats[1..], ats[0] + width, width, length)
  }

  /** Matches from `from` on, one after the other without overlap. */
  ghost predicate Apart(t: string, w: string, from: nat, ats: seq<nat>) {
    && (forall k | 0 <= k < |ats| :: from <= ats[k] && At(t, w, ats[k]))
    && (forall j, k | 0 <= j < k < |ats| :: ats[j] + |w| <= ats[k])
  }

  lemma {:induction false} MatchesApart(t: string, w: string, from: nat)
    requires from <= |t| && w != ""
    ensures Apart(t, w, from, Matches(t, w, from))
    decreases |t| - from
  {
    hide At;
    var ats := Matches(t, w, from);
    FitsBound(ats, from, |w|, |t|);
    if ats != [] {
      MatchesApart(t, w, ats[0] + |w|);
      ApartCons(t, w, from, ats[0], Matches(t, w, ats[0] + |w|));
    }
  }

  lemma ApartCons(t: string, w: string, from: nat, at: nat, rest: seq<nat>)
    requires from <= at && At(t, w, at) && Apart(t, w, at + |w|, rest)
    ensures Apart(t, w, from, [at] + rest)
  {
    hide At;
    var ats := [at] + rest;
    assert forall k | 1 <= k < |ats| :: ats[k] == rest[k - 1];
  }

  /** No match starts outside the ones taken: each is the leftmost that was left. */
  lemma {:induction false} MatchesCover(t: string, w: string, from: nat, p: nat) returns (k: nat)
    requires from <= |t| && w != "" && from <= p && At(t, w, p)
    ensures var ats := Matches(t, w, from); k < |ats| && ats[k] <= p < ats[k] + |w|
    decreases |t| - from
  {
    hide At;
    var ats := Matches(t, w, from);
    var next := ats[0] + |w|;
    if p < next {
      k := 0;
    } else {
      FitsBound(ats, from, |w|, |t|);
      k := MatchesCover(t, w, next, p);
      assert ats == [ats[0]] + Matches(t, w, next);
      k := k + 1;
    }
  }

  /** The text from `from` on with the taken matches replaced, everything else copied. */
  function Rebuild(text: string, from: nat, ats: seq<nat>, width: nat): string
    requires Fits(ats, from, width, |text|)
    decreases |ats|
  {
    FitsBound(ats, from, width, |text|);
    if ats == [] then text[from..]
    else text[from..ats[0]] + REDACTED + Rebuild(text, ats[0] + width, ats[1..], width)
  }

  lemma {:induction false} FitsBound(ats: seq<nat>, from: nat, width: nat, length: nat)
    requires Fits(ats, from, width, length)
    ensures from <= length && (ats != [] ==> ats[0] + width <= length)
    decreases |ats|
  {
    if ats != [] { FitsBound(ats[1..], ats[0] + width, width, length); }
  }

  function Redact(text: string, variant: string): string
    requires variant != ""
  {
    Rebuild(text, 0, Matches(LowerPercentEscapes(text), LowerPercentEscapes(variant), 0), |variant|)
  }

  /** The loop: replace exactly the leftmost matches of the canonical forms, copy everything else from the original. */
  method RedactPercentVariant(text: string, variant: string) returns (result: string)
    requires variant != ""
    ensures result == Redact(text, variant)
  {
    hide LowerPercentEscapes, IndexOf, Matches, Rebuild, REDACTED;
    var canonical, needle := LowerPercentEscapes(text), LowerPercentEscapes(variant);
    var cursor := 0;
    result := "";
    var at := IndexOf(canonical, needle, 0);
    Nil(Redact(text, variant));
    while at.Some?
      invariant cursor <= |text| && at == IndexOf(canonical, needle, cursor)
      invariant Redact(text, variant) == result + Rebuild(text, cursor, Matches(canonical, needle, cursor), |needle|)
      decreases |text| - cursor
    {
      ghost var rest := Matches(canonical, needle, at.value + |needle|);
      FirstMatch(canonical, needle, cursor);
      RebuildFirst(text, cursor, at.value, rest, |needle|);
      Assoc(result, text[cursor..at.value] + REDACTED, Rebuild(text, at.value + |needle|, rest, |needle|));
      result := result + (text[cursor..at.value] + REDACTED);
      cursor := at.value + |needle|;
      at := IndexOf(canonical, needle, cursor);
    }
    FirstMatch(canonical, needle, cursor);
    RebuildNothing(text, cursor, |needle|);
    result := result + text[cursor..];
  }

  lemma FirstMatch(t: string, w: string, from: nat)
    requires from <= |t| && w != ""
    ensures Matches(t, w, from) ==
            match IndexOf(t, w, from) case None => [] case Some(at) => [at] + Matches(t, w, at + |w|)
  {
    hide IndexOf, At;
  }

  lemma RebuildFirst(text: string, from: nat, at: nat, rest: seq<nat>, width: nat)
    requires from <= at && Fits(rest, at + width, width, |text|)
    ensures Fits([at] + rest, from, width, |text|) && at + width <= |text|
    ensures Rebuild(text, from, [at] + rest, width) ==
            (text[from..at] + REDACTED) + Rebuild(text, at + width, rest, width)
  {
    hide REDACTED;
    FitsBound(rest, at + width, width, |text|);
    assert ([at] + rest)[1..] == rest;
  }

  lemma RebuildNothing(text: string, from: nat, width: nat)
    requires from <= |text|
    ensures Fits([], from, width, |text|) && Rebuild(text, from, [], width) == text[from..]
  {
  }

  // ---- what is left ----

  predicate BracketFree(w: string) { forall i | 0 <= i < |w| :: w[i] != '[' && w[i] != ']' }

  ghost predicate InMark(w: string) { Contains("REDACTED", w) }

  /** Text around a mark: its canonical form, and what can be found in it. */
  lemma LowAround(a: string, b: string)
    ensures LowerPercentEscapes(a + REDACTED + b) == LowerPercentEscapes(a) + REDACTED + LowerPercentEscapes(b)
  {
    hide LowerPercentEscapes;
    var s := a + REDACTED + b;
    var l, r := LowerPercentEscapes(s), LowerPercentEscapes(a) + REDACTED + LowerPercentEscapes(b);
    assert |REDACTED| == 10;
    forall k | 0 <= k < |s| ensures l[k] == r[k] {
      LowAt(s, k);
      EscapesAround(a, b, k - 1);
      EscapesAround(a, b, k - 2);
      if k < |a| { LowAt(a, k); } else if k >= |a| + 10 { LowAt(b, k - |a| - 10); }
    }
  }

  lemma EscapesAround(a: string, b: string, i: int)
    ensures Escape(a + REDACTED + b, i) <==> Escape(a, i) || Escape(b, i - |a| - 10)
  {
    var s := a + REDACTED + b;
    assert forall k | 0 <= k < 10 :: REDACTED[k] != '%';
    assert !Hex(REDACTED[0]);
    assert forall k | 0 <= k < |s| :: s[k] == if k < |a| then a[k] else if k < |a| + 10 then REDACTED[k - |a|]
                                              else b[k - |a| - 10];
  }

  lemma ContainsAround(a: string, b: string, w: string)
    requires w != "" && BracketFree(w) && !InMark(w)
    ensures Contains(a + REDACTED + b, w) ==> Contains(a, w) || Contains(b, w)
  {
    hide BracketFree;
    var s := a + REDACTED + b;
    forall i: nat | At(s, w, i) ensures Contains(a, w) || Contains(b, w) { FoundAround(a, b, w, i); }
  }

  lemma FoundAround(a: string, b: string, w: string, i: nat)
    requires w != "" && BracketFree(w) && !InMark(w) && At(a + REDACTED + b, w, i)
    ensures Contains(a, w) || Contains(b, w)
  {
    hide BracketFree, At, InMark;
    var s := a + REDACTED + b;
    assert |REDACTED| == 10 && REDACTED[0] == '[' && REDACTED[9] == ']' && REDACTED[1..9] == "REDACTED";
    assert i + |w| <= |s| by { MatchFits(s, w, i); }
    InPart(s, w, i, |a|);
    InPart(s, w, i, |a| + 9);
    if i + |w| <= |a| {
      assert s[0..|a|] == a;
      FoundWithin(s, w, i, 0, |a|);
    } else if i >= |a| + 10 {
      assert s[|a| + 10..|s|] == b;
      FoundWithin(s, w, i, |a| + 10, |s|);
    } else {
      assert s[|a| + 1..|a| + 9] == "REDACTED";
      FoundWithin(s, w, i, |a| + 1, |a| + 9);
      MarkMeans(w);
      assert false;
    }
  }

  lemma MarkMeans(w: string)
    ensures InMark(w) <==> Contains("REDACTED", w)
  {
  }

  lemma MatchFits(t: string, w: string, i: nat)
    requires At(t, w, i)
    ensures i + |w| <= |t|
  {
  }

  /** A match that lies inside a stretch is a match of the stretch. */
  lemma FoundWithin(s: string, w: string, i: nat, a: nat, b: nat)
    requires At(s, w, i) && a <= i && i + |w| <= b <= |s|
    ensures Contains(s[a..b], w)
  {
    Within(s, a, b, i - a, i - a + |w|);
    assert At(s[a..b], w, i - a);
  }

  /** A found text does not reach over a bracket. */
  lemma InPart(s: string, w: string, i: nat, k: nat)
    requires At(s, w, i) && BracketFree(w) && k < |s| && (s[k] == '[' || s[k] == ']')
    ensures k < i || i + |w| <= k
  {
    if i <= k < i + |w| { AtChar(s, w, i, k); assert false; }
  }

  lemma AtChar(s: string, w: string, i: nat, k: nat)
    requires At(s, w, i) && i <= k < i + |w|
    ensures w[k - i] == s[k]
  {
    assert s[i..i + |w|][k - i] == s[k];
  }

  /** No copied stretch contains `w` once its own escapes are canonical. */
  ghost predicate CleanPieces(text: string, from: nat, ats: seq<nat>, width: nat, w: string)
    requires Fits(ats, from, width, |text|)
    decreases |ats|
  {
    FitsBound(ats, from, width, |text|);
    if ats == [] then !Contains(LowerPercentEscapes(text[from..]), w)
    else !Contains(LowerPercentEscapes(text[from..ats[0]]), w) && CleanPieces(text, ats[0] + width, ats[1..], width, w)
  }

  lemma {:induction false} CleanRebuild(text: string, from: nat, ats: seq<nat>, width: nat, w: string)
    requires Fits(ats, from, width, |text|) && CleanPieces(text, from, ats, width, w)
    requires w != "" && BracketFree(w) && !InMark(w)
    ensures !Contains(LowerPercentEscapes(Rebuild(text, from, ats, width)), w)
    decreases |ats|
  {
    hide LowerPercentEscapes, Contains, InMark, BracketFree, REDACTED;
    if ats != [] {
      FitsBound(ats, from, width, |text|);
      var a, b := text[from..ats[0]], Rebuild(text, ats[0] + width, ats[1..], width);
      CleanRebuild(text, ats[0] + width, ats[1..], width, w);
      LowAround(a, b);
      ContainsAround(LowerPercentEscapes(a), LowerPercentEscapes(b), w);
    }
  }

  // ---- canonical text: nothing is left ----

  /** A stretch of canonical text is canonical, and holds nothing the text does not. */
  lemma Stretch(text: string, a: nat, b: nat, w: string)
    requires a <= b <= |text| && Canonical(text)
    ensures Canonical(text[a..b])
    ensures Contains(text[a..b], w) ==> Contains(text, w)
  {
    hide LowerPercentEscapes, Canonical;
    var s := text[a..b];
    forall k | 0 <= k < |s| ensures EscapeDigit(s, k) ==> !Upper(s[k]) {
      CanonicalIs(text);
      assert EscapeDigit(s, k) ==> EscapeDigit(text, a + k);
    }
    CanonicalIs(s);
    forall i: nat | At(s, w, i) ensures Contains(text, w) {
      Within(text, a, b, i, i + |w|);
      assert At(text, w, a + i);
    }
  }

  /** Between matches there is no further one. */
  lemma NoMatchBetween(t: string, w: string, from: nat, to: nat)
    requires w != "" && from <= to <= |t| && forall i: nat | from <= i < to :: !At(t, w, i)
    ensures !Contains(t[from..to], w)
  {
    forall i: nat | At(t[from..to], w, i) ensures false {
      Within(t, from, to, i, i + |w|);
      assert At(t, w, from + i);
    }
  }

  lemma {:induction false} CanonicalPieces(text: string, needle: string, from: nat, w: string)
    requires Canonical(text) && from <= |text| && needle != "" && (w == needle || !Contains(text, w))
    ensures CleanPieces(text, from, Matches(text, needle, from), |needle|, w)
    decreases |text| - from
  {
    hide LowerPercentEscapes, Contains, At;
    var ats := Matches(text, needle, from);
    FitsBound(ats, from, |needle|, |text|);
    var to := if ats == [] then |text| else ats[0];
    Stretch(text, from, to, w);
    if w == needle { NoMatchBetween(text, w, from, to); }
    assert text[from..|text|] == text[from..];
    if ats != [] { CanonicalPieces(text, needle, to + |needle|, w); }
  }

  lemma {:induction false} CanonicalRebuild(text: string, from: nat, ats: seq<nat>, width: nat)
    requires Fits(ats, from, width, |text|) && Canonical(text)
    ensures Canonical(Rebuild(text, from, ats, width))
    decreases |ats|
  {
    hide LowerPercentEscapes, REDACTED;
    FitsBound(ats, from, width, |text|);
    Stretch(text, from, if ats == [] then |text| else ats[0], "");
    assert text[from..|text|] == text[from..];
    if ats != [] {
      CanonicalRebuild(text, ats[0] + width, ats[1..], width);
      LowAround(text[from..ats[0]], Rebuild(text, ats[0] + width, ats[1..], width));
    }
  }

  /** One pass over canonical text removes its variant and lets no other appear. */
  lemma CanonicalPass(text: string, variant: string, w: string)
    requires Canonical(text) && variant != ""
    requires w != "" && BracketFree(w) && !InMark(w)
    ensures Canonical(Redact(text, variant))
    ensures w == LowerPercentEscapes(variant) || !Contains(text, w) ==> !Contains(Redact(text, variant), w)
  {
    hide LowerPercentEscapes, Contains, InMark, BracketFree;
    var needle := LowerPercentEscapes(variant);
    CanonicalRebuild(text, 0, Matches(text, needle, 0), |needle|);
    if w == needle || !Contains(text, w) {
      CanonicalPieces(text, needle, 0, w);
      CleanRebuild(text, 0, Matches(text, needle, 0), |needle|, w);
    }
  }

  /** The scan of text for any variant. */
  ghost predicate Sensitive(text: string, variants: seq<string>) {
    exists k :: 0 <= k < |variants| && Contains(LowerPercentEscapes(text), LowerPercentEscapes(variants[k]))
  }

  method TextContainsSensitiveVariant(text: string, variants: seq<string>) returns (found: bool)
    ensures found <==> Sensitive(text, variants)
  {
    hide LowerPercentEscapes, IndexOf;
    var canonical := LowerPercentEscapes(text);
    for k := 0 to |variants|
      invariant forall j | 0 <= j < k :: !Contains(canonical, LowerPercentEscapes(variants[j]))
    {
      if IndexOf(canonical, LowerPercentEscapes(variants[k]), 0).Some? { return true; }
    }
    found := false;
  }

  /** A variant whose canonical form the redaction can get rid of at all. */
  ghost predicate Ordinary(variant: string) {
    var n := LowerPercentEscapes(variant);
    n != "" && BracketFree(n) && !InMark(n)
  }

  /** The passes, one after the other. */
  function RedactAll(text: string, variants: seq<string>): string
    requires forall k | 0 <= k < |variants| :: variants[k] != ""
    decreases |variants|
  {
    if variants == [] then text else RedactAll(Redact(text, variants[0]), variants[1..])
  }

  /** One pass per variant, in the given order; text that holds none comes back as it is. */
  method RedactSensitiveVariants(text: string, variants: seq<string>) returns (safe: string)
    requires forall k | 0 <= k < |variants| :: variants[k] != ""
    ensures safe == RedactAll(text, variants)
    ensures !Sensitive(text, variants) ==> safe == text
    ensures Canonical(text) && (forall k | 0 <= k < |variants| :: Ordinary(variants[k])) ==> !Sensitive(safe, variants)
  {
    hide Redact, Sensitive, Canonical, Ordinary;
    safe := text;
    assert variants[0..] == variants;
    for k := 0 to |variants|
      invariant RedactAll(text, variants) == RedactAll(safe, variants[k..])
    {
      assert variants[k..][1..] == variants[k + 1..];
      safe := RedactPercentVariant(safe, variants[k]);
    }
    if !Sensitive(text, variants) { NothingToRedact(text, variants); }
    if Canonical(text) && forall k | 0 <= k < |variants| :: Ordinary(variants[k]) { CanonicalFold(text, variants); }
  }

  lemma RedactUnchanged(text: string, variant: string)
    requires variant != "" && !Contains(LowerPercentEscapes(text), LowerPercentEscapes(variant))
    ensures Redact(text, variant) == text
  {
    hide LowerPercentEscapes, At;
    assert IndexOf(LowerPercentEscapes(text), LowerPercentEscapes(variant), 0).None?;
    assert text[0..] == text;
  }

  lemma {:induction false} NothingToRedact(text: string, variants: seq<string>)
    requires (forall k | 0 <= k < |variants| :: variants[k] != "") && !Sensitive(text, variants)
    ensures RedactAll(text, variants) == text
    decreases |variants|
  {
    hide LowerPercentEscapes, Contains, Redact;
    if variants != [] {
      RedactUnchanged(text, variants[0]);
      assert forall k | 0 <= k < |variants| - 1 :: variants[1..][k] == variants[k + 1];
      NothingToRedact(text, variants[1..]);
    }
  }

  /** Passes over canonical text keep it canonical and let nothing ordinary appear that was not there. */
  lemma {:induction false} CanonicalKeeps(text: string, variants: seq<string>, w: string)
    requires (forall k | 0 <= k < |variants| :: variants[k] != "") && Canonical(text)
    requires w != "" && BracketFree(w) && !InMark(w)
    ensures Canonical(RedactAll(text, variants)) && (!Contains(text, w) ==> !Contains(RedactAll(text, variants), w))
    decreases |variants|
  {
    hide Canonical, Contains, Redact, BracketFree, InMark;
    if variants != [] {
      CanonicalPass(text, variants[0], w);
      CanonicalKeeps(Redact(text, variants[0]), variants[1..], w);
    }
  }

  lemma CanonicalFold(text: string, variants: seq<string>)
    requires forall k | 0 <= k < |variants| :: variants[k] != "" && Ordinary(variants[k])
    requires Canonical(text)
    ensures !Sensitive(RedactAll(text, variants), variants)
  {
    hide LowerPercentEscapes, Canonical, Contains, Redact, BracketFree, InMark, RedactAll;
    var safe := RedactAll(text, variants);
    forall k | 0 <= k < |variants| ensures !Contains(LowerPercentEscapes(safe), LowerPercentEscapes(variants[k])) {
      CanonicalRemoves(text, variants, k);
    }
  }

  lemma {:induction false} CanonicalRemoves(text: string, variants: seq<string>, k: nat)
    requires (forall j | 0 <= j < |variants| :: variants[j] != "") && k < |variants| && Ordinary(variants[k])
    requires Canonical(text)
    ensures !Contains(LowerPercentEscapes(RedactAll(text, variants)), LowerPercentEscapes(variants[k]))
    decreases |variants|
  {
    hide LowerPercentEscapes, Canonical, Contains, Redact, BracketFree, InMark;
    var w, next := LowerPercentEscapes(variants[k]), Redact(text, variants[0]);
    CanonicalPass(text, variants[0], w);
    if k == 0 {
      CanonicalKeeps(next, variants[1..], w);
      CanonicalMeans(RedactAll(text, variants));
    } else {
      CanonicalRemoves(next, variants[1..], k - 1);
    }
  }

  lemma CanonicalMeans(s: string)
    ensures Canonical(s) ==> LowerPercentEscapes(s) == s
  {
  }

  /** Text without a percent sign is canonical. */
  lemma PercentFree(text: string)
    requires '%' !in text
    ensures Canonical(text)
  {
    hide LowerPercentEscapes, Canonical;
    CanonicalIs(text);
  }
}
