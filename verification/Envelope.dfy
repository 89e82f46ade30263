/** The envelope around an inner proof: selector | v | r | s | version length | version | inner proof. */
module Envelopes {
  import opened ByteStrings
  import opened Addresses
  import opened CryptoModel

  datatype Layer = Layer(v: Byte, r: Bytes32, s: Bytes32, version: Bytes)

  datatype Error =
    | ProofBytesTooShort(receivedLength: nat, expectedLength: nat)
    | WrongVerifierSelector(receivedSelector: Bytes4, expectedSelector: Bytes4)
    | ArithmeticPanic
    | SliceOutOfBounds
    | InvalidRecoveryId(v: Byte)
    | InvalidSignature(signer: Address)
    | RouteNotFound
    | RejectedByBaseVerifier

  datatype Parsed = Parsed(layer: Layer, inner: Bytes) | Failed(error: Error)

  const HEADER: nat := 70
  const UINT8_MAX: nat := 255
  /** The longest version that the checked `uint8` addition lets through. */
  const MAX_VERSION_LENGTH: nat := 185

  /** The printer; the explicit conversion of the length to `uint8` truncates. */
  function SignedProofBytes(selector: Bytes4, layer: Layer, inner: Bytes): Bytes {
    selector + [layer.v] + layer.r + layer.s + [|layer.version| % 256] + layer.version + inner
  }

  /** `70 + version_len` in checked `uint8` arithmetic; `None` is the overflow panic. */
  function VersionEnd(versionLen: Byte): Option<Byte> {
    if HEADER + versionLen <= UINT8_MAX then Some(HEADER + versionLen) else None
  }

  /** The decoding steps of the verifier, in its order. */
  function Parse(expectedSelector: Bytes4, proofBytes: Bytes): (p: Parsed)
    ensures p.Parsed? ==> |proofBytes| == HEADER + |p.layer.version| + |p.inner|
  {
    if |proofBytes| < HEADER then Failed(ProofBytesTooShort(|proofBytes|, HEADER))
    else
      var receivedSelector: Bytes4 := proofBytes[..4];
      if receivedSelector != expectedSelector then Failed(WrongVerifierSelector(receivedSelector, expectedSelector))
      else
        var v := proofBytes[4];
        var r: Bytes32 := proofBytes[5..37];
        var s: Bytes32 := proofBytes[37..69];
        var versionLen := proofBytes[69];
        match VersionEnd(versionLen)
        case None => Failed(ArithmeticPanic)
        case Some(end) =>
          if |proofBytes| < end then Failed(SliceOutOfBounds)
          else Parsed(Layer(v, r, s, proofBytes[HEADER..end]), proofBytes[end..])
  }

  /** Where each field of a printed envelope lies. */
  lemma PrintedFields(selector: Bytes4, layer: Layer, inner: Bytes)
    ensures var b := SignedProofBytes(selector, layer, inner);
            && |b| == HEADER + |layer.version| + |inner|
            && b[..4] == selector && b[4] == layer.v && b[5..37] == layer.r && b[37..69] == layer.s
            && b[69] == |layer.version| % 256
            && b[HEADER..HEADER + |layer.version|] == layer.version
            && b[HEADER + |layer.version|..] == inner
  {
    var b := SignedProofBytes(selector, layer, inner);
    var head := selector + [layer.v] + layer.r + layer.s + [|layer.version| % 256];
    assert b == head + layer.version + inner;
    assert head[..4] == selector && head[5..37] == layer.r && head[37..69] == layer.s;
    assert b[..4] == head[..4] && b[5..37] == head[5..37] && b[37..69] == head[37..69];
  }

  /** Parsing undoes printing exactly up to the bound that the checked addition imposes. */
  lemma ParseOfPrintedIff(selector: Bytes4, layer: Layer, inner: Bytes)
    ensures Parse(selector, SignedProofBytes(selector, layer, inner)) == Parsed(layer, inner)
       <==> |layer.version| <= MAX_VERSION_LENGTH
  {
    PrintedFields(selector, layer, inner);
  }

  /** Printing undoes every successful parse, so an accepted byte string decomposes in one way only. */
  lemma PrintOfParsed(selector: Bytes4, proofBytes: Bytes)
    requires Parse(selector, proofBytes).Parsed?
    ensures var p := Parse(selector, proofBytes);
            && |p.layer.version| <= MAX_VERSION_LENGTH
            && SignedProofBytes(selector, p.layer, p.inner) == proofBytes
  {
    var p := Parse(selector, proofBytes);
    PrintedFields(selector, p.layer, p.inner);
    var b := SignedProofBytes(selector, p.layer, p.inner);
    var end := HEADER + |p.layer.version|;
    assert b == b[..4] + [b[4]] + b[5..37] + b[37..69] + [b[69]] + b[HEADER..end] + b[end..];
    assert proofBytes == proofBytes[..4] + [proofBytes[4]] + proofBytes[5..37] + proofBytes[37..69]
                       + [proofBytes[69]] + proofBytes[HEADER..end] + proofBytes[end..];
  }

  /** The byte strings that parse are exactly the printed envelopes with a version of at most 185 bytes. */
  lemma ParsesIffPrinted(selector: Bytes4, proofBytes: Bytes, layer: Layer, inner: Bytes)
    ensures Parse(selector, proofBytes) == Parsed(layer, inner)
       <==> |layer.version| <= MAX_VERSION_LENGTH && proofBytes == SignedProofBytes(selector, layer, inner)
  {
    ParseOfPrintedIff(selector, layer, inner);
    if Parse(selector, proofBytes) == Parsed(layer, inner) {
      PrintOfParsed(selector, proofBytes);
    }
  }

  /** The outcome of decoding, read off the raw bytes: a right selector and 70 bytes are not enough. */
  lemma ParsesIff(selector: Bytes4, b: Bytes)
    ensures Parse(selector, b).Parsed? <==>
              |b| >= 70 && b[..4] == selector && b[69] <= 185 && 70 + b[69] <= |b|
    ensures |b| < 70 <==> Parse(selector, b) == Failed(ProofBytesTooShort(|b|, 70))
    ensures |b| >= 70 && b[..4] != selector <==>
              |b| >= 4 && Parse(selector, b) == Failed(WrongVerifierSelector(b[..4], selector))
    ensures |b| >= 70 && b[..4] == selector && b[69] > 185 <==> Parse(selector, b) == Failed(ArithmeticPanic)
  {
  }
}
