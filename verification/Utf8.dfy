/** Well-formed UTF-8, which the error message of a version mismatch insists on. */
module Utf8 {
  import opened ByteStrings

  predicate Continuation(b: Byte) {
    0x80 <= b <= 0xBF
  }

  /** Well-formed UTF-8, by table 3-7 of the Unicode standard. */
  predicate IsUtf8(s: Bytes)
    decreases |s|
  {
    if s == [] then true
    else if s[0] < 0x80 then IsUtf8(s[1..])
    else if 0xC2 <= s[0] <= 0xDF then |s| >= 2 && Continuation(s[1]) && IsUtf8(s[2..])
    else if 0xE0 <= s[0] <= 0xEF then |s| >= 3 && Three(s[0], s[1], s[2]) && IsUtf8(s[3..])
    else if 0xF0 <= s[0] <= 0xF4 then |s| >= 4 && Four(s[0], s[1], s[2], s[3]) && IsUtf8(s[4..])
    else false
  }

  predicate Three(a: Byte, b: Byte, c: Byte) {
    && Continuation(b) && Continuation(c)
    && (a == 0xE0 ==> b >= 0xA0) && (a == 0xED ==> b <= 0x9F)
  }

  predicate Four(a: Byte, b: Byte, c: Byte, d: Byte) {
    && Continuation(b) && Continuation(c) && Continuation(d)
    && (a == 0xF0 ==> b >= 0x90) && (a == 0xF4 ==> b <= 0x8F)
  }

  // ----- The reference: encodings of scalar values -----

  /** A Unicode scalar value: any code point but a surrogate. */
  type Scalar = n: nat | n < 0xD800 || 0xE000 <= n <= 0x10FFFF

  /** The bytes of one scalar value, by section 3 of RFC 3629. */
  function EncodeScalar(n: Scalar): (s: Bytes)
    ensures s != []
  {
    if n < 0x80 then [n]
    else if n < 0x800 then [0xC0 + n / 64, 0x80 + n % 64]
    else if n < 0x1_0000 then [0xE0 + n / 4096, 0x80 + n / 64 % 64, 0x80 + n % 64]
    else [0xF0 + n / 262144, 0x80 + n / 4096 % 64, 0x80 + n / 64 % 64, 0x80 + n % 64]
  }

  function EncodeText(text: seq<Scalar>): Bytes {
    if text == [] then [] else EncodeScalar(text[0]) + EncodeText(text[1..])
  }

  // ----- From bytes to scalar values -----

  lemma ScalarOfTwo(a: int, b: int) returns (n: Scalar)
    requires 0xC2 <= a <= 0xDF && 0 <= b < 256 && Continuation(b)
    ensures EncodeScalar(n) == [a, b]
  {
    n := (a - 0xC0) * 64 + (b - 0x80);
  }

  lemma ScalarOfThree(a: int, b: int, c: int) returns (n: Scalar)
    requires 0xE0 <= a <= 0xEF && 0 <= b < 256 && 0 <= c < 256 && Three(a, b, c)
    ensures EncodeScalar(n) == [a, b, c]
  {
    n := (a - 0xE0) * 4096 + (b - 0x80) * 64 + (c - 0x80);
    assert n / 64 == (a - 0xE0) * 64 + (b - 0x80);
  }

  lemma ScalarOfFour(a: int, b: int, c: int, d: int) returns (n: Scalar)
    requires 0xF0 <= a <= 0xF4 && 0 <= b < 256 && 0 <= c < 256 && 0 <= d < 256 && Four(a, b, c, d)
    ensures EncodeScalar(n) == [a, b, c, d]
  {
    n := (a - 0xF0) * 262144 + (b - 0x80) * 4096 + (c - 0x80) * 64 + (d - 0x80);
    assert n / 64 == (a - 0xF0) * 4096 + (b - 0x80) * 64 + (c - 0x80);
    assert n / 4096 == (a - 0xF0) * 64 + (b - 0x80);
  }

  /** Well-formed bytes start with the encoding of a scalar value, and go on well-formed. */
  lemma FirstScalar(s: Bytes) returns (n: Scalar)
    requires s != [] && IsUtf8(s)
    ensures EncodeScalar(n) <= s && IsUtf8(s[|EncodeScalar(n)|..])
  {
    if s[0] < 0x80 {
      n := s[0];
    } else if s[0] < 0xE0 {
      n := ScalarOfTwo(s[0], s[1]);
    } else if s[0] < 0xF0 {
      n := ScalarOfThree(s[0], s[1], s[2]);
    } else {
      n := ScalarOfFour(s[0], s[1], s[2], s[3]);
    }
  }

  lemma {:induction false} Utf8IsText(s: Bytes) returns (text: seq<Scalar>)
    requires IsUtf8(s)
    ensures EncodeText(text) == s
    decreases |s|
  {
    if s == [] {
      text := [];
    } else {
      var n := FirstScalar(s);
      var rest := Utf8IsText(s[|EncodeScalar(n)|..]);
      text := [n] + rest;
      assert text[1..] == rest;
    }
  }

  // ----- And back -----

  lemma TwoBytes(n: Scalar)
    requires 0x80 <= n < 0x800
    ensures 0xC2 <= 0xC0 + n / 64 <= 0xDF
  {
  }

  lemma ThreeBytes(n: Scalar)
    requires 0x800 <= n < 0x1_0000
    ensures 0xE0 <= 0xE0 + n / 4096 <= 0xEF
    ensures Three(0xE0 + n / 4096, 0x80 + n / 64 % 64, 0x80 + n % 64)
  {
    assert n / 64 / 64 == n / 4096;
  }

  lemma FourBytesOf(n: Scalar)
    requires 0x1_0000 <= n
    ensures 0xF0 <= 0xF0 + n / 262144 <= 0xF4
    ensures Four(0xF0 + n / 262144, 0x80 + n / 4096 % 64, 0x80 + n / 64 % 64, 0x80 + n % 64)
  {
    assert n / 4096 / 64 == n / 262144;
  }

  lemma ScalarIsUtf8(n: Scalar, rest: Bytes)
    requires IsUtf8(rest)
    ensures IsUtf8(EncodeScalar(n) + rest)
  {
    var s := EncodeScalar(n) + rest;
    assert s[|EncodeScalar(n)|..] == rest;
    if n < 0x80 {
    } else if n < 0x800 {
      TwoBytes(n);
    } else if n < 0x1_0000 {
      ThreeBytes(n);
    } else {
      FourBytesOf(n);
    }
  }

  lemma {:induction false} TextIsUtf8(text: seq<Scalar>)
    ensures IsUtf8(EncodeText(text))
    decreases |text|
  {
    if text == [] {
    } else {
      TextIsUtf8(text[1..]);
      ScalarIsUtf8(text[0], EncodeText(text[1..]));
    }
  }

  /** The well-formed byte strings are exactly the encodings of sequences of Unicode scalar values. */
  lemma Utf8Iff(s: Bytes)
    ensures IsUtf8(s) <==> exists text :: EncodeText(text) == s
  {
    if IsUtf8(s) {
      var text := Utf8IsText(s);
    }
    if text :| EncodeText(text) == s {
      TextIsUtf8(text);
    }
  }

  lemma {:induction false} SmallVersionIsUtf8(n: nat, width: nat)
    requires n < 128
    ensures IsUtf8(LittleEndian(n, width))
  {
    if width == 0 {
    } else {
      SmallVersionIsUtf8(n / 256, width - 1);
      assert LittleEndian(n, width)[1..] == LittleEndian(n / 256, width - 1);
    }
  }
}
