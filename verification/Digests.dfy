/** Digests and the lower-case hexadecimal form in which job records carry them. */
module Digests {
  import opened Basics

  const DIGEST_BYTES: nat := 32

  type Digest = s: seq<Byte> | |s| == DIGEST_BYTES witness seq(DIGEST_BYTES, _ => 0)

  function HexDigit(n: nat): char
    requires n < 16
  {
    if n < 10 then '0' + n as char else 'a' + (n - 10) as char
  }

  const HEX_DIGITS := "0123456789abcdef"

  lemma HexDigitIs(n: nat)
    requires n < 16
    ensures |HEX_DIGITS| == 16 && HexDigit(n) == HEX_DIGITS[n]
  {
    assert HEX_DIGITS[10..] == "abcdef" && |HEX_DIGITS| == 16;
    if n >= 10 { assert HEX_DIGITS[n] == HEX_DIGITS[10..][n - 10]; }
  }

  function Hex(s: seq<Byte>): (h: string)
    ensures |h| == 2 * |s|
  {
    if s == [] then "" else [HexDigit(s[0] / 16), HexDigit(s[0] % 16)] + Hex(s[1..])
  }

  lemma {:induction false} HexAt(s: seq<Byte>, i: nat)
    requires i < |s|
    ensures Hex(s)[2 * i] == HexDigit(s[i] / 16) && Hex(s)[2 * i + 1] == HexDigit(s[i] % 16)
  {
    if i > 0 { HexAt(s[1..], i - 1); }
  }

  /** Two digits a byte, the high half first. */
  lemma HexForm(s: seq<Byte>, i: nat)
    requires i < |s|
    ensures Hex(s)[2 * i] == HEX_DIGITS[s[i] / 16] && Hex(s)[2 * i + 1] == HEX_DIGITS[s[i] % 16]
  {
    hide HexDigit, Hex, HEX_DIGITS;
    HexAt(s, i);
    HexDigitIs(s[i] / 16);
    HexDigitIs(s[i] % 16);
  }

  function Nibble(c: char): (n: int)
    ensures -1 <= n < 16 && (n >= 0 ==> HexDigit(n) == c) && (n < 0 ==> forall k: nat | k < 16 :: HexDigit(k) != c)
  {
    if '0' <= c <= '9' then (c - '0') as int else if 'a' <= c <= 'f' then (c - 'a') as int + 10 else -1
  }

  /** Read a digest back: exactly the hexadecimal forms of 32 bytes are accepted. */
  method ParseDigest(hex: string) returns (d: Option<Digest>)
    ensures d.Some? ==> Hex(d.value) == hex
    ensures d.None? ==> forall s: seq<Byte> | |s| == DIGEST_BYTES :: Hex(s) != hex
  {
    if |hex| != 64 { return None; }
    var output: seq<Byte> := [];
    while |output| < DIGEST_BYTES
      invariant |output| <= DIGEST_BYTES
      invariant forall i | 0 <= i < |output| ::
                  HexDigit(output[i] / 16) == hex[2 * i] && HexDigit(output[i] % 16) == hex[2 * i + 1]
    {
      var index := |output|;
      var high, low := Nibble(hex[index * 2]), Nibble(hex[index * 2 + 1]);
      if high < 0 || low < 0 {
        forall s: seq<Byte> | |s| == DIGEST_BYTES ensures Hex(s) != hex { HexAt(s, index); }
        return None;
      }
      output := output + [high * 16 + low];
      assert output[index] / 16 == high && output[index] % 16 == low;
    }
    forall k | 0 <= k < 64 ensures Hex(output)[k] == hex[k] { HexAt(output, k / 2); }
    d := Some(output);
  }

  lemma {:induction false} HexInjective(s: seq<Byte>, t: seq<Byte>)
    requires |s| == |t| && Hex(s) == Hex(t)
    ensures s == t
  {
    forall i | 0 <= i < |s| ensures s[i] == t[i] {
      HexAt(s, i);
      HexAt(t, i);
      assert s[i] == s[i] / 16 * 16 + s[i] % 16 && t[i] == t[i] / 16 * 16 + t[i] % 16;
      assert Nibble(HexDigit(s[i] / 16)) == s[i] / 16 && Nibble(HexDigit(s[i] % 16)) == s[i] % 16;
    }
  }
}
