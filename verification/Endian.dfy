/** Fixed-width integers as bytes, in both byte orders. */
module Endian {
  import opened Basics

  function Power256(k: nat): (p: nat)
    ensures p > 0
  {
    if k == 0 then 1 else 256 * Power256(k - 1)
  }

  /** Least significant byte first. */
  function Little(n: nat, k: nat): (s: seq<Byte>)
    ensures |s| == k
  {
    if k == 0 then [] else [n % 256] + Little(n / 256, k - 1)
  }

  function FromLittle(s: seq<Byte>): nat {
    if s == [] then 0 else s[0] + 256 * FromLittle(s[1..])
  }

  lemma {:induction false} LittleInverse(n: nat, k: nat)
    requires n < Power256(k)
    ensures FromLittle(Little(n, k)) == n
  {
    if k > 0 {
      LittleInverse(n / 256, k - 1);
      assert Little(n, k)[1..] == Little(n / 256, k - 1);
    }
  }

  lemma Digit256(b: Byte, n: nat)
    ensures (b + 256 * n) % 256 == b && (b + 256 * n) / 256 == n
  {
  }

  lemma {:induction false} FromLittleInverse(s: seq<Byte>)
    ensures FromLittle(s) < Power256(|s|) && Little(FromLittle(s), |s|) == s
  {
    if s != [] {
      FromLittleInverse(s[1..]);
      Digit256(s[0], FromLittle(s[1..]));
      assert s == [s[0]] + s[1..];
    }
  }

  /** A field holds `n` exactly when its bytes are those of `n`. */
  lemma FieldIs(s: seq<Byte>, n: nat)
    requires n < Power256(|s|)
    ensures FromLittle(s) == n <==> s == Little(n, |s|)
  {
    LittleInverse(n, |s|);
    FromLittleInverse(s);
  }

  /** Most significant byte first. */
  function Big(n: nat, k: nat): (s: seq<Byte>)
    ensures |s| == k
  {
    if k == 0 then [] else Big(n / 256, k - 1) + [n % 256]
  }

  function FromBig(s: seq<Byte>): nat {
    if s == [] then 0 else 256 * FromBig(s[..|s| - 1]) + s[|s| - 1]
  }

  lemma {:induction false} BigInverse(n: nat, k: nat)
    requires n < Power256(k)
    ensures FromBig(Big(n, k)) == n
  {
    if k > 0 {
      BigInverse(n / 256, k - 1);
      assert Big(n, k)[..k - 1] == Big(n / 256, k - 1);
    }
  }

  lemma {:induction false} FromBigInverse(s: seq<Byte>)
    ensures FromBig(s) < Power256(|s|) && Big(FromBig(s), |s|) == s
  {
    if s != [] {
      FromBigInverse(s[..|s| - 1]);
      Digit256(s[|s| - 1], FromBig(s[..|s| - 1]));
      assert s == s[..|s| - 1] + [s[|s| - 1]];
    }
  }

  /** The byte order of a four-byte field: the first byte weighs most. */
  lemma BigBytes(s: seq<Byte>)
    requires |s| == 4
    ensures FromBig(s) == s[0] as int * 0x100_0000 + s[1] as int * 0x1_0000 + s[2] as int * 0x100 + s[3] as int
  {
    var a, b, c := s[..3], s[..2], s[..1];
    assert a[..2] == b && b[..1] == c && c[..0] == [];
    assert FromBig(c) == s[0] && FromBig(b) == 256 * FromBig(c) + s[1];
    assert FromBig(a) == 256 * FromBig(b) + s[2];
  }

  /** Here the first byte weighs least; what follows the four counts in units of two to the power of 32. */
  lemma LittleBytes(s: seq<Byte>)
    requires |s| >= 4
    ensures FromLittle(s) ==
            s[0] as int + s[1] as int * 0x100 + s[2] as int * 0x1_0000 + s[3] as int * 0x100_0000 +
            FromLittle(s[4..]) * 0x1_0000_0000
  {
    var a, b, c := s[1..], s[2..], s[3..];
    assert a[1..] == b && b[1..] == c && c[1..] == s[4..];
    assert FromLittle(b) == s[2] + 256 * FromLittle(c);
    assert FromLittle(a) == s[1] + 256 * FromLittle(b);
  }

  lemma Widths()
    ensures Power256(4) == 0x1_0000_0000 && Power256(8) == 0x1_0000_0000_0000_0000
  {
    assert Power256(2) == 65536;
    assert Power256(4) == 65536 * 65536;
    assert Power256(6) == 65536 * 65536 * 65536;
  }
}
