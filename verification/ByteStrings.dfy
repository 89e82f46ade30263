/** Byte strings and the fixed-width integer encodings that the wire formats use. */
module ByteStrings {

  type Byte = b: int | 0 <= b < 256
  type Bytes = seq<Byte>
  type Bytes4 = s: Bytes | |s| == 4 witness [0, 0, 0, 0]
  type Bytes32 = s: Bytes | |s| == 32 witness seq(32, _ => 0)

  const U32_MAX: nat := 0xFFFF_FFFF

  function Power256(width: nat): (p: nat)
    ensures p > 0
  {
    if width == 0 then 1 else 256 * Power256(width - 1)
  }

  /** The big-endian form of `n`, reduced modulo 256^width. */
  function BigEndian(n: nat, width: nat): (s: Bytes)
    ensures |s| == width
  {
    if width == 0 then [] else BigEndian(n / 256, width - 1) + [n % 256]
  }

  function FromBigEndian(s: Bytes): nat {
    if s == [] then 0 else 256 * FromBigEndian(s[..|s| - 1]) + s[|s| - 1]
  }

  /** The little-endian form of `n`, reduced modulo 256^width. */
  function LittleEndian(n: nat, width: nat): (s: Bytes)
    ensures |s| == width
  {
    if width == 0 then [] else [n % 256] + LittleEndian(n / 256, width - 1)
  }

  lemma {:induction false} BigEndianRoundTrip(n: nat, width: nat)
    requires n < Power256(width)
    ensures FromBigEndian(BigEndian(n, width)) == n
  {
    if width == 0 {
    } else {
      BigEndianRoundTrip(n / 256, width - 1);
      var s := BigEndian(n, width);
      assert s[..|s| - 1] == BigEndian(n / 256, width - 1);
    }
  }

  lemma {:induction false} FromBigEndianRoundTrip(s: Bytes)
    ensures FromBigEndian(s) < Power256(|s|)
    ensures BigEndian(FromBigEndian(s), |s|) == s
  {
    if s == [] {
    } else {
      var front, last := s[..|s| - 1], s[|s| - 1];
      FromBigEndianRoundTrip(front);
      assert FromBigEndian(s) / 256 == FromBigEndian(front);
      assert FromBigEndian(s) % 256 == last;
      assert s == front + [last];
    }
  }

  lemma MultiplesAreFar(k: int, d: int)
    requires d > 0
    ensures k >= 1 ==> k * d >= d
    ensures k <= -1 ==> k * d <= -d
  {
    if k >= 1 {
      assert (k - 1) * d >= 0;
    } else if k <= -1 {
      assert (-1 - k) * d >= 0;
    }
  }

  lemma Quotient(n: int, d: int, q: int, r: int)
    requires n == q * d + r && 0 <= r < d
    ensures n / d == q
  {
    var m, s := n / d, n % d;
    assert m * d + s == q * d + r;
    assert (m - q) * d == m * d - q * d;
    MultiplesAreFar(m - q, d);
  }

  lemma DivideTwice(n: nat, p: nat)
    requires p > 0
    ensures n / 256 / p == n / (256 * p)
  {
    var x := n / 256;
    var y, t, s := x / p, x % p, n % 256;
    assert n == y * (256 * p) + (256 * t + s);
    Quotient(n, 256 * p, y, 256 * t + s);
  }

  /** The byte at index `i` of the little-endian form is the digit of weight 256^i. */
  lemma {:induction false} LittleEndianDigits(n: nat, width: nat, i: nat)
    requires i < width
    ensures LittleEndian(n, width)[i] == n / Power256(i) % 256
  {
    if i == 0 {
    } else {
      LittleEndianDigits(n / 256, width - 1, i - 1);
      DivideTwice(n, Power256(i - 1));
    }
  }

  /** The big-endian form is the mirror image: the last byte has weight one. */
  lemma {:induction false} BigEndianDigits(n: nat, width: nat, i: nat)
    requires i < width
    ensures BigEndian(n, width)[width - 1 - i] == n / Power256(i) % 256
  {
    if i == 0 {
    } else {
      BigEndianDigits(n / 256, width - 1, i - 1);
      DivideTwice(n, Power256(i - 1));
    }
  }

  /** In figures, for the four bytes of versions and lengths. */
  lemma FourBytes(n: nat)
    ensures LittleEndian(n, 4) == [n % 256, n / 0x100 % 256, n / 0x1_0000 % 256, n / 0x100_0000 % 256]
    ensures BigEndian(n, 4) == [n / 0x100_0000 % 256, n / 0x1_0000 % 256, n / 0x100 % 256, n % 256]
  {
    assert Power256(1) == 0x100 && Power256(2) == 0x1_0000 && Power256(3) == 0x100_0000;
    forall i: nat | i < 4
      ensures LittleEndian(n, 4)[i] == n / Power256(i) % 256 && BigEndian(n, 4)[3 - i] == n / Power256(i) % 256
    {
      LittleEndianDigits(n, 4, i);
      BigEndianDigits(n, 4, i);
    }
  }

  lemma {:induction false} LittleEndianInjective(m: nat, n: nat, width: nat)
    requires m < Power256(width) && n < Power256(width)
    requires LittleEndian(m, width) == LittleEndian(n, width)
    ensures m == n
  {
    if width == 0 {
    } else {
      var s, t := LittleEndian(m, width), LittleEndian(n, width);
      assert s[0] == m % 256 && t[0] == n % 256;
      assert s[1..] == LittleEndian(m / 256, width - 1);
      assert t[1..] == LittleEndian(n / 256, width - 1);
      LittleEndianInjective(m / 256, n / 256, width - 1);
    }
  }

  lemma Power256Of4()
    ensures Power256(4) == U32_MAX + 1
  {
    assert Power256(1) == 256;
    assert Power256(2) == 256 * 256;
    assert Power256(3) == 256 * 256 * 256;
  }
}
