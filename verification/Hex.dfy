/** Hexadecimal text, and the two ways in which a PCR0 argument is compared with an attested PCR0. */
module HexText {
  import opened ByteStrings
  import opened CryptoModel

  function LowerDigit(n: nat): (c: char)
    requires n < 16
  {
    if n < 10 then ('0' as int + n) as char else ('a' as int + n - 10) as char
  }

  function DigitValue(c: char): Option<nat> {
    if '0' <= c <= '9' then Some(c as int - '0' as int)
    else if 'a' <= c <= 'f' then Some(c as int - 'a' as int + 10)
    else if 'A' <= c <= 'F' then Some(c as int - 'A' as int + 10)
    else None
  }

  function PairValue(high: char, low: char): Option<Byte> {
    match (DigitValue(high), DigitValue(low))
    case (Some(h), Some(l)) => Some(16 * h + l)
    case _ => None
  }

  /** Lower case, as in section 8 of RFC 4648 up to case. */
  function Encode(bytes: Bytes): string {
    if bytes == [] then "" else [LowerDigit(bytes[0] / 16), LowerDigit(bytes[0] % 16)] + Encode(bytes[1..])
  }

  /** Either case is accepted; an odd length, a prefix or any other character is an error. */
  function Decode(text: string): Option<Bytes> {
    if text == "" then Some([])
    else if |text| == 1 then None
    else
      match (PairValue(text[0], text[1]), Decode(text[2..]))
      case (Some(byte), Some(rest)) => Some([byte] + rest)
      case _ => None
  }

  /** Every occurrence of "0x", left to right, is dropped. */
  function WithoutPrefixes(text: string): string {
    if |text| < 2 then text
    else if text[0] == '0' && text[1] == 'x' then WithoutPrefixes(text[2..])
    else [text[0]] + WithoutPrefixes(text[1..])
  }

  predicate IsLowerDigit(c: char) {
    DigitValue(c).Some? && !('A' <= c <= 'F')
  }

  predicate IsHex(text: string) {
    |text| % 2 == 0 && forall i | 0 <= i < |text| :: DigitValue(text[i]).Some?
  }

  predicate IsLowerHex(text: string) {
    |text| % 2 == 0 && forall i | 0 <= i < |text| :: IsLowerDigit(text[i])
  }

  lemma PairOfByte(b: Byte)
    ensures PairValue(LowerDigit(b / 16), LowerDigit(b % 16)) == Some(b)
    ensures IsLowerDigit(LowerDigit(b / 16)) && IsLowerDigit(LowerDigit(b % 16))
  {
  }

  lemma ByteOfPair(high: char, low: char)
    requires PairValue(high, low).Some?
    ensures var b := PairValue(high, low).value;
            [LowerDigit(b / 16), LowerDigit(b % 16)] == [high, low] <==> IsLowerDigit(high) && IsLowerDigit(low)
  {
    var b := PairValue(high, low).value;
    assert b / 16 == DigitValue(high).value && b % 16 == DigitValue(low).value;
    assert [LowerDigit(b / 16), LowerDigit(b % 16)] == [high, low]
      <==> LowerDigit(b / 16) == high && LowerDigit(b % 16) == low;
  }

  /** Both predicates taken apart two characters at a time, as the codec does. */
  lemma HexByPairs(text: string)
    requires |text| >= 2
    ensures IsHex(text) <==> PairValue(text[0], text[1]).Some? && IsHex(text[2..])
    ensures IsLowerHex(text) <==> IsLowerDigit(text[0]) && IsLowerDigit(text[1]) && IsLowerHex(text[2..])
  {
    var rest := text[2..];
    assert forall i | 2 <= i < |text| :: text[i] == rest[i - 2];
    assert forall i | 0 <= i < |rest| :: rest[i] == text[i + 2];
  }

  lemma {:induction false} DecodeOfEncoded(bytes: Bytes)
    ensures Decode(Encode(bytes)) == Some(bytes)
    ensures IsLowerHex(Encode(bytes))
  {
    if bytes == [] {
    } else {
      DecodeOfEncoded(bytes[1..]);
      PairOfByte(bytes[0]);
      var text := Encode(bytes);
      assert text[2..] == Encode(bytes[1..]);
      HexByPairs(text);
      assert bytes == [bytes[0]] + bytes[1..];
    }
  }

  /** The text of some bytes, digit by digit: the high half of each byte first, in the lower-case alphabet. */
  lemma {:induction false} EncodedDigits(bytes: Bytes, i: nat)
    requires i < |bytes|
    ensures |Encode(bytes)| == 2 * |bytes|
    ensures Encode(bytes)[2 * i] == "0123456789abcdef"[bytes[i] / 16]
    ensures Encode(bytes)[2 * i + 1] == "0123456789abcdef"[bytes[i] % 16]
    decreases |bytes|
  {
    DigitAlphabet(bytes[0] / 16);
    DigitAlphabet(bytes[0] % 16);
    if |bytes| == 1 {
      assert Encode(bytes[1..]) == "";
    } else {
      EncodedDigits(bytes[1..], if i == 0 then 0 else i - 1);
    }
  }

  lemma DigitAlphabet(n: nat)
    requires n < 16
    ensures LowerDigit(n) == "0123456789abcdef"[n]
  {
  }

  /** The lower-case form of a digit. */
  function Lowered(c: char): char {
    if c == 'A' then 'a' else if c == 'B' then 'b' else if c == 'C' then 'c'
    else if c == 'D' then 'd' else if c == 'E' then 'e' else if c == 'F' then 'f' else c
  }

  /** Decoding ignores case: encoding what was decoded gives the text with each upper-case digit lowered. */
  lemma {:induction false} DecodingIgnoresCase(text: string)
    requires IsHex(text)
    ensures Decode(text).Some? && |Encode(Decode(text).value)| == |text|
    ensures forall i | 0 <= i < |text| :: Encode(Decode(text).value)[i] == Lowered(text[i])
    decreases |text|
  {
    if |text| < 2 {
    } else {
      HexByPairs(text);
      DecodingIgnoresCase(text[2..]);
      PairLowered(text[0], text[1]);
      var bytes := Decode(text).value;
      assert bytes[1..] == Decode(text[2..]).value;
      assert forall i | 2 <= i < |text| :: text[i] == text[2..][i - 2];
    }
  }

  lemma PairLowered(high: char, low: char)
    requires PairValue(high, low).Some?
    ensures var b := PairValue(high, low).value;
            LowerDigit(b / 16) == Lowered(high) && LowerDigit(b % 16) == Lowered(low)
  {
    var b := PairValue(high, low).value;
    assert b / 16 == DigitValue(high).value && b % 16 == DigitValue(low).value;
  }

  /** Every "0x" goes, wherever it stands. */
  lemma {:induction false} PrefixesGoAnywhere(before: string, after: string)
    ensures WithoutPrefixes(before + "0x" + after) == WithoutPrefixes(before) + WithoutPrefixes(after)
    decreases |before|
  {
    var text := before + "0x" + after;
    if before == "" {
      assert text[2..] == after;
    } else if |before| == 1 {
      assert text[1..] == "" + "0x" + after;
      PrefixesGoAnywhere("", after);
    } else if before[0] == '0' && before[1] == 'x' {
      assert text[2..] == before[2..] + "0x" + after;
      PrefixesGoAnywhere(before[2..], after);
    } else {
      assert text[1..] == before[1..] + "0x" + after;
      PrefixesGoAnywhere(before[1..], after);
    }
  }

  /** Nothing else goes. */
  lemma {:induction false} OtherTextStays(text: string)
    requires forall i, j | 0 <= i < j < |text| && j == i + 1 :: !(text[i] == '0' && text[j] == 'x')
    ensures WithoutPrefixes(text) == text
    decreases |text|
  {
    if |text| < 2 {
    } else {
      var rest := text[1..];
      assert forall i | 0 <= i < |rest| :: rest[i] == text[i + 1];
      OtherTextStays(rest);
      assert text == [text[0]] + rest;
    }
  }

  lemma {:induction false} DecodesIffHex(text: string)
    ensures Decode(text).Some? <==> IsHex(text)
    ensures IsHex(text) ==> (Encode(Decode(text).value) == text <==> IsLowerHex(text))
    decreases |text|
  {
    if |text| < 2 {
    } else {
      var rest := text[2..];
      DecodesIffHex(rest);
      HexByPairs(text);
      if IsHex(text) {
        ByteOfPair(text[0], text[1]);
        var bytes := Decode(text).value;
        assert bytes[1..] == Decode(rest).value;
        var head := [LowerDigit(bytes[0] / 16), LowerDigit(bytes[0] % 16)];
        var again := head + Encode(bytes[1..]);
        assert again[..2] == head && again[2..] == Encode(bytes[1..]);
        assert text[..2] == [text[0], text[1]] && text == text[..2] + rest;
      }
    }
  }

  lemma {:induction false} HexHasNoPrefixes(text: string)
    requires 'x' !in text
    ensures WithoutPrefixes(text) == text
    decreases |text|
  {
    if |text| < 2 {
    } else {
      assert text[1] in text;
      HexHasNoPrefixes(text[1..]);
      assert text == [text[0]] + text[1..];
    }
  }

  // ----- The two checks -----

  /** Registration decodes the argument and compares bytes. */
  predicate SetupAccepts(argument: string, pcr0: Bytes) {
    Decode(argument) == Some(pcr0)
  }

  /** Validation encodes the attested bytes and compares text. */
  predicate ValidatorAccepts(argument: string, pcr0: Bytes) {
    Encode(pcr0) == WithoutPrefixes(argument)
  }

  /**
   * The two checks accept the same documents for an argument exactly when that argument is plain lower-case
   * hexadecimal, or is hexadecimal for neither of them.
   */
  lemma ChecksAgreeIff(argument: string)
    ensures (forall pcr0: Bytes :: SetupAccepts(argument, pcr0) <==> ValidatorAccepts(argument, pcr0))
       <==> (IsLowerHex(argument) || (!IsHex(argument) && !IsLowerHex(WithoutPrefixes(argument))))
  {
    var stripped := WithoutPrefixes(argument);
    DecodesIffHex(argument);
    DecodesIffHex(stripped);
    forall pcr0: Bytes ensures Decode(Encode(pcr0)) == Some(pcr0) && IsLowerHex(Encode(pcr0)) {
      DecodeOfEncoded(pcr0);
    }
    if IsHex(argument) {
      forall i | 0 <= i < |argument| ensures argument[i] != 'x' {
        assert DigitValue(argument[i]).Some?;
      }
      HexHasNoPrefixes(argument);
      assert SetupAccepts(argument, Decode(argument).value);
    } else if IsLowerHex(stripped) {
      assert ValidatorAccepts(argument, Decode(stripped).value);
    }
  }

  /** The usual prefix makes only registration fail, and an upper-case digit only validation. */
  lemma ChecksDisagree(argument: string)
    requires IsHex(argument)
    ensures Decode(argument).Some?
    ensures IsLowerHex(argument) ==>
              && ValidatorAccepts("0x" + argument, Decode(argument).value)
              && Decode("0x" + argument).None?
    ensures !IsLowerHex(argument) ==>
              && SetupAccepts(argument, Decode(argument).value)
              && !ValidatorAccepts(argument, Decode(argument).value)
  {
    DecodesIffHex(argument);
    forall i | 0 <= i < |argument| ensures argument[i] != 'x' {
      assert DigitValue(argument[i]).Some?;
    }
    HexHasNoPrefixes(argument);
    var prefixed := "0x" + argument;
    assert prefixed[0] == '0' && prefixed[1] == 'x' && prefixed[2..] == argument;
  }
}
