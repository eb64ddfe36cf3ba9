/** Decimal numbers as text: rendering, and what the C library's strtoul makes of a string. */
module Decimals {
  import opened Basics

  const ULONG_RANGE: nat := 0x1_0000_0000_0000_0000

  predicate Digit(c: char) { '0' <= c <= '9' }

  predicate Digits(s: string) { forall i | 0 <= i < |s| :: Digit(s[i]) }

  function Dec(s: string): nat
    requires Digits(s)
  {
    if s == "" then 0 else 10 * Dec(s[..|s| - 1]) + (s[|s| - 1] - '0') as nat
  }

  function Render(n: nat): (s: string)
    ensures Digits(s) && s != ""
  {
    var last := ['0' + (n % 10) as char];
    if n < 10 then last else Render(n / 10) + last
  }

  lemma {:induction false} DecRender(n: nat)
    ensures Dec(Render(n)) == n
  {
    var s := Render(n);
    var last := ['0' + (n % 10) as char];
    if n < 10 {
      assert s == last && s[..0] == "";
    } else {
      DecRender(n / 10);
      assert s == Render(n / 10) + last;
      assert s[..|s| - 1] == Render(n / 10) && s[|s| - 1] == last[0];
    }
  }

  lemma {:induction false} RenderHead(n: nat)
    ensures n > 0 ==> Render(n)[0] != '0'
  {
    if n >= 10 { RenderHead(n / 10); }
  }

  lemma {:induction false} DecPositive(s: string)
    requires Digits(s) && s != "" && s[0] != '0'
    ensures Dec(s) > 0
  {
    if |s| > 1 { DecPositive(s[..|s| - 1]); } else { assert Digit(s[0]); }
  }

  lemma {:induction false} RenderDec(s: string)
    requires Digits(s) && s != "" && s[0] != '0'
    ensures Render(Dec(s)) == s
  {
    assert Digit(s[|s| - 1]);
    if |s| > 1 {
      var front := s[..|s| - 1];
      RenderDec(front);
      DecPositive(front);
      assert Dec(s) / 10 == Dec(front);
      assert s == front + [s[|s| - 1]];
    } else {
      assert s[..0] == "" && s == [s[0]];
    }
  }

  lemma {:induction false} DecBound(s: string, limit: nat)
    requires Digits(s) && limit == Power10(|s|)
    ensures Dec(s) < limit
  {
    if s != "" {
      DecBound(s[..|s| - 1], Power10(|s| - 1));
      assert Digit(s[|s| - 1]);
    }
  }

  function Power10(n: nat): nat { if n == 0 then 1 else 10 * Power10(n - 1) }

  /** White space in the sense of isspace in the C locale. */
  predicate Space(c: char) { c == ' ' || '\t' <= c <= '\r' }

  function SkipSpace(s: string): (r: string)
    ensures |r| <= |s|
  {
    if s != "" && Space(s[0]) then SkipSpace(s[1..]) else s
  }

  /**
   strtoul in base 10 over a whole string: leading space, one optional sign, digits to the end, and no
   overflow. A minus sign negates modulo the range of unsigned long, without being an error.
   */
  function Strtoul(s: string): Option<nat> {
    var t := SkipSpace(s);
    var minus := t != "" && t[0] == '-';
    var d := if t != "" && (t[0] == '-' || t[0] == '+') then t[1..] else t;
    if d == "" || !Digits(d) || Dec(d) >= ULONG_RANGE then None
    else Some(if minus then (ULONG_RANGE - Dec(d)) % ULONG_RANGE else Dec(d))
  }

  /** Tab, newline, vertical tab, form feed, carriage return and space do not count in front of a number. */
  lemma {:induction false} StrtoulSkips(front: string, s: string)
    requires forall i | 0 <= i < |front| :: front[i] as int in {0x09, 0x0a, 0x0b, 0x0c, 0x0d, 0x20}
    ensures Strtoul(front + s) == Strtoul(s)
  {
    hide Dec, Digits;
    SkipsFront(front, s);
  }

  lemma {:induction false} SkipsFront(front: string, s: string)
    requires forall i | 0 <= i < |front| :: front[i] as int in {0x09, 0x0a, 0x0b, 0x0c, 0x0d, 0x20}
    ensures SkipSpace(front + s) == SkipSpace(s)
  {
    if front == "" {
      assert front + s == s;
    } else {
      assert (front + s)[0] == front[0] && (front + s)[1..] == front[1..] + s;
      SkipsFront(front[1..], s);
    }
  }

  /** Digits alone mean their decimal value. */
  lemma StrtoulDigits(s: string)
    requires s != "" && Digits(s) && Dec(s) < ULONG_RANGE
    ensures Strtoul(s) == Some(Dec(s))
  {
    assert Digit(s[0]);
    assert SkipSpace(s) == s;
  }

  /** What a minus sign makes of a number. */
  lemma StrtoulMinus(s: string)
    requires SkipSpace(s) != "" && SkipSpace(s)[0] == '-'
    ensures var d := SkipSpace(s)[1..];
            Strtoul(s) == if d == "" || !Digits(d) || Dec(d) >= ULONG_RANGE then None
            else Some(if Dec(d) == 0 then 0 else ULONG_RANGE - Dec(d))
  {
    hide SkipSpace, Dec;
  }

  /** At most eight characters with a minus sign never reach a number in 1 .. 99999999. */
  lemma ShortNegativeIsHuge(s: string)
    requires |s| <= 8 && SkipSpace(s) != "" && SkipSpace(s)[0] == '-' && Strtoul(s).Some?
    ensures Strtoul(s).value == 0 || Strtoul(s).value > 99999999
  {
    hide SkipSpace, Dec, Strtoul;
    StrtoulMinus(s);
    var d := SkipSpace(s)[1..];
    DecBound(d, Power10(|d|));
    Power10Small(|d|);
  }

  lemma Power10Small(n: nat)
    requires n <= 8
    ensures Power10(n) <= 100000000
  {
    assert Power10(0) == 1 && Power10(1) == 10 && Power10(2) == 100 && Power10(3) == 1000;
    assert Power10(4) == 10000 && Power10(5) == 100000 && Power10(6) == 1000000 && Power10(7) == 10000000;
    assert Power10(8) == 100000000;
  }

  lemma {:induction false} RenderLength(n: nat, k: nat)
    requires k >= 1 && n < Power10(k)
    ensures |Render(n)| <= k
  {
    if n >= 10 { RenderLength(n / 10, k - 1); }
  }
}
