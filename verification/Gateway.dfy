/** Verification through the gateway, which may route an inner proof back into the TEE verifier. */
module Gateways {
  import opened ByteStrings
  import opened Addresses
  import opened CryptoModel
  import opened Envelopes

  datatype Route = Base(accepts: (Bytes32, Bytes, Bytes) -> bool) | Tee

  /** What one verification call reads: the primitives, the gateway's routes and the registered signers. */
  datatype Context = Context(crypto: Crypto, routes: map<Bytes4, Route>, signers: set<Address>)

  datatype Verdict = Accepted | Rejected(error: Error)

  // "SP1TeeVerifier" in ASCII
  const VERIFIER_NAME: Bytes := [83, 80, 49, 84, 101, 101, 86, 101, 114, 105, 102, 105, 101, 114]

  function VerifierHash(keccak: Bytes -> Bytes32): Bytes32 {
    keccak(VERIFIER_NAME)
  }

  function TeeSelector(keccak: Bytes -> Bytes32): Bytes4 {
    VerifierHash(keccak)[..4]
  }

  function VerifyProof(x: Context, programVKey: Bytes32, publicValues: Bytes, proofBytes: Bytes): Verdict
    decreases |proofBytes|, 0
  {
    match Parse(TeeSelector(x.crypto.keccak), proofBytes)
    case Failed(error) => Rejected(error)
    case Parsed(layer, inner) =>
      var messageHash := MessageHash(x.crypto.keccak, layer.version, programVKey, publicValues);
      if layer.v != 27 && layer.v != 28 then Rejected(InvalidRecoveryId(layer.v))
      else
        var signer := x.crypto.ecrecover(messageHash, layer.v, layer.r, layer.s);
        if signer == ZERO then Rejected(InvalidSignature(signer))
        else if signer !in x.signers then Rejected(InvalidSignature(signer))
        else VerifyAtGateway(x, programVKey, publicValues, inner)
  }

  function VerifyAtGateway(x: Context, programVKey: Bytes32, publicValues: Bytes, proofBytes: Bytes): Verdict
    decreases |proofBytes|, 1
  {
    if |proofBytes| < 4 then Rejected(SliceOutOfBounds)
    else if proofBytes[..4] !in x.routes then Rejected(RouteNotFound)
    else
      match x.routes[proofBytes[..4]]
      case Base(accepts) =>
        if accepts(programVKey, publicValues, proofBytes) then Accepted else Rejected(RejectedByBaseVerifier)
      case Tee => VerifyProof(x, programVKey, publicValues, proofBytes)
  }

  /** What the gateway makes of a proof that it does not route to the TEE verifier. */
  lemma GatewayVerdicts(x: Context, vkey: Bytes32, publicValues: Bytes, proof: Bytes)
    ensures var verdict := VerifyAtGateway(x, vkey, publicValues, proof);
            && (|proof| < 4 ==> verdict == Rejected(SliceOutOfBounds))
            && (|proof| >= 4 && proof[..4] !in x.routes ==> verdict == Rejected(RouteNotFound))
            && (|proof| >= 4 && proof[..4] in x.routes && x.routes[proof[..4]].Base? ==>
                  && (verdict == Accepted <==> x.routes[proof[..4]].accepts(vkey, publicValues, proof))
                  && (verdict.Rejected? ==> verdict == Rejected(RejectedByBaseVerifier)))
  {
  }

  // ----- Layers -----

  /** The layer carries a registered signer's signature over this very key and these public values. */
  ghost predicate SignedLayer(x: Context, vkey: Bytes32, publicValues: Bytes, layer: Layer) {
    && |layer.version| <= MAX_VERSION_LENGTH
    && (layer.v == 27 || layer.v == 28)
    && var signer := x.crypto.ecrecover(
                       MessageHash(x.crypto.keccak, layer.version, vkey, publicValues), layer.v, layer.r, layer.s);
       signer != ZERO && signer in x.signers
  }

  ghost predicate BaseProof(x: Context, vkey: Bytes32, publicValues: Bytes, base: Bytes) {
    && |base| >= 4 && base[..4] in x.routes
    && x.routes[base[..4]].Base? && x.routes[base[..4]].accepts(vkey, publicValues, base)
  }

  ghost predicate RoutesToTee(x: Context) {
    var selector := TeeSelector(x.crypto.keccak);
    selector in x.routes && x.routes[selector].Tee?
  }

  /** A base proof inside any number of envelopes, outermost first. */
  function Wrapped(selector: Bytes4, layers: seq<Layer>, base: Bytes): Bytes {
    if layers == [] then base else SignedProofBytes(selector, layers[0], Wrapped(selector, layers[1..], base))
  }

  ghost predicate WellLayered(x: Context, vkey: Bytes32, publicValues: Bytes, layers: seq<Layer>, base: Bytes) {
    && (forall i | 0 <= i < |layers| :: SignedLayer(x, vkey, publicValues, layers[i]))
    && BaseProof(x, vkey, publicValues, base)
    && (layers != [] ==> RoutesToTee(x))
  }

  ghost predicate IsLayering(x: Context, vkey: Bytes32, publicValues: Bytes, proof: Bytes,
                             layers: seq<Layer>, base: Bytes)
  {
    && WellLayered(x, vkey, publicValues, layers, base)
    && proof == Wrapped(TeeSelector(x.crypto.keccak), layers, base)
  }

  /** One call of the TEE verifier accepts exactly a signed layer around what the gateway accepts. */
  lemma VerifyProofIff(x: Context, vkey: Bytes32, publicValues: Bytes, proof: Bytes)
    ensures VerifyProof(x, vkey, publicValues, proof).Accepted? <==>
              var sel := x.crypto.keccak([83, 80, 49, 84, 101, 101, 86, 101, 114, 105, 102, 105, 101, 114])[..4];
              exists layer, inner ::
                && proof == SignedProofBytes(sel, layer, inner)
                && SignedLayer(x, vkey, publicValues, layer)
                && VerifyAtGateway(x, vkey, publicValues, inner).Accepted?
  {
    var selector := TeeSelector(x.crypto.keccak);
    if VerifyProof(x, vkey, publicValues, proof).Accepted? {
      var p := Parse(selector, proof);
      ParsesIffPrinted(selector, proof, p.layer, p.inner);
    }
    if layer, inner :|
      && proof == SignedProofBytes(selector, layer, inner)
      && SignedLayer(x, vkey, publicValues, layer)
      && VerifyAtGateway(x, vkey, publicValues, inner).Accepted?
    {
      ParsesIffPrinted(selector, proof, layer, inner);
    }
  }

  /** Decoding, on the raw bytes and from the raw hash: which error is reported, and in which order. */
  lemma DecodingErrors(x: Context, vkey: Bytes32, publicValues: Bytes, proof: Bytes)
    ensures var verdict := VerifyProof(x, vkey, publicValues, proof);
            // the first four bytes of the hash of "SP1TeeVerifier"
            var sel := x.crypto.keccak([83, 80, 49, 84, 101, 101, 86, 101, 114, 105, 102, 105, 101, 114])[..4];
            && (|proof| < 70 ==> verdict == Rejected(ProofBytesTooShort(|proof|, 70)))
            && (|proof| >= 70 && proof[..4] != sel ==> verdict == Rejected(WrongVerifierSelector(proof[..4], sel)))
            && (|proof| >= 70 && proof[..4] == sel && proof[69] > 185 ==> verdict == Rejected(ArithmeticPanic))
            && (|proof| >= 70 && proof[..4] == sel && proof[69] <= 185 && |proof| < 70 + proof[69] ==>
                  verdict == Rejected(SliceOutOfBounds))
  {
  }

  /** The bytes decode: 70 of them, the selector, and a version that ends within them and within a `uint8`. */
  ghost predicate Decodes(x: Context, proof: Bytes) {
    && |proof| >= 70
    && proof[..4] == x.crypto.keccak([83, 80, 49, 84, 101, 101, 86, 101, 114, 105, 102, 105, 101, 114])[..4]
    && proof[69] <= 185 && 70 + proof[69] <= |proof|
  }

  /**
   * Verification of bytes that decode, on these bytes: `v`, `r`, `s`, the length of the version, the version, and
   * the inner proof stand in this order, and the signer is recovered from the hash of three hashes and keys.
   */
  lemma VerifiesDecoded(x: Context, vkey: Bytes32, publicValues: Bytes, proof: Bytes)
    requires Decodes(x, proof)
    ensures var verdict := VerifyProof(x, vkey, publicValues, proof);
            var version, inner := proof[70..70 + proof[69]], proof[70 + proof[69]..];
            var digest := x.crypto.keccak(x.crypto.keccak(version) + vkey + x.crypto.keccak(publicValues));
            var signer := x.crypto.ecrecover(digest, proof[4], proof[5..37], proof[37..69]);
            && (proof[4] != 27 && proof[4] != 28 ==> verdict == Rejected(InvalidRecoveryId(proof[4])))
            && ((proof[4] == 27 || proof[4] == 28) && (signer == 0 || signer !in x.signers) ==>
                  verdict == Rejected(InvalidSignature(signer)))
            && ((proof[4] == 27 || proof[4] == 28) && signer != 0 && signer in x.signers ==>
                  verdict == VerifyAtGateway(x, vkey, publicValues, inner))
  {
  }

  /** Which error a well-formed envelope gets: the recovery id is checked before the signer, which is reported. */
  lemma RejectionReasons(x: Context, vkey: Bytes32, publicValues: Bytes, layer: Layer, inner: Bytes)
    requires |layer.version| <= MAX_VERSION_LENGTH
    ensures var verdict := VerifyProof(x, vkey, publicValues,
                                       SignedProofBytes(TeeSelector(x.crypto.keccak), layer, inner));
            var signer := x.crypto.ecrecover(
                            MessageHash(x.crypto.keccak, layer.version, vkey, publicValues), layer.v, layer.r, layer.s);
            && (layer.v !in {27, 28} ==> verdict == Rejected(InvalidRecoveryId(layer.v)))
            && (layer.v in {27, 28} && signer !in x.signers - {ZERO} ==> verdict == Rejected(InvalidSignature(signer)))
            && (SignedLayer(x, vkey, publicValues, layer) ==>
                  verdict == VerifyAtGateway(x, vkey, publicValues, inner))
  {
    ParseOfPrintedIff(TeeSelector(x.crypto.keccak), layer, inner);
  }

  /** An accepted proof, taken apart. */
  lemma {:induction false} AcceptedIsLayered(x: Context, vkey: Bytes32, publicValues: Bytes, proof: Bytes)
    returns (layers: seq<Layer>, base: Bytes)
    requires VerifyAtGateway(x, vkey, publicValues, proof).Accepted?
    ensures IsLayering(x, vkey, publicValues, proof, layers, base)
    decreases |proof|
  {
    if x.routes[proof[..4]].Base? {
      layers, base := [], proof;
    } else {
      var selector := TeeSelector(x.crypto.keccak);
      var p := Parse(selector, proof);
      ParsesIffPrinted(selector, proof, p.layer, p.inner);
      var rest;
      rest, base := AcceptedIsLayered(x, vkey, publicValues, p.inner);
      layers := [p.layer] + rest;
      assert layers[1..] == rest;
    }
  }

  lemma {:induction false} LayeredIsAccepted(x: Context, vkey: Bytes32, publicValues: Bytes,
                                             layers: seq<Layer>, base: Bytes)
    requires WellLayered(x, vkey, publicValues, layers, base)
    ensures VerifyAtGateway(x, vkey, publicValues, Wrapped(TeeSelector(x.crypto.keccak), layers, base)).Accepted?
    decreases |layers|
  {
    if layers == [] {
    } else {
      var selector := TeeSelector(x.crypto.keccak);
      var inner := Wrapped(selector, layers[1..], base);
      LayeredIsAccepted(x, vkey, publicValues, layers[1..], base);
      ParsesIffPrinted(selector, SignedProofBytes(selector, layers[0], inner), layers[0], inner);
      PrintedFields(selector, layers[0], inner);
    }
  }

  /**
   * Main result on verification: through any recursion of the gateway, a proof is accepted exactly when it is
   * some base proof, accepted by its verifier, inside envelopes that are all signed by registered signers over
   * the same verifying key and public values.
   */
  lemma AcceptedIffLayered(x: Context, vkey: Bytes32, publicValues: Bytes, proof: Bytes)
    ensures VerifyAtGateway(x, vkey, publicValues, proof).Accepted? <==>
              exists layers, base :: IsLayering(x, vkey, publicValues, proof, layers, base)
  {
    if VerifyAtGateway(x, vkey, publicValues, proof).Accepted? {
      var layers, base := AcceptedIsLayered(x, vkey, publicValues, proof);
    }
    if layers, base :| IsLayering(x, vkey, publicValues, proof, layers, base) {
      LayeredIsAccepted(x, vkey, publicValues, layers, base);
    }
  }

  /** The layers of an accepted proof are unique, and each takes at least 70 bytes. */
  lemma {:induction false} LayeringIsUnique(x: Context, vkey: Bytes32, publicValues: Bytes, proof: Bytes,
                                            layers: seq<Layer>, base: Bytes, layers': seq<Layer>, base': Bytes)
    requires IsLayering(x, vkey, publicValues, proof, layers, base)
    requires IsLayering(x, vkey, publicValues, proof, layers', base')
    ensures layers == layers' && base == base'
    ensures HEADER * |layers| + 4 <= |proof|
    decreases |layers|
  {
    var selector := TeeSelector(x.crypto.keccak);
    if layers != [] {
      PrintedFields(selector, layers[0], Wrapped(selector, layers[1..], base));
    }
    if layers' != [] {
      PrintedFields(selector, layers'[0], Wrapped(selector, layers'[1..], base'));
    }
    if layers != [] && layers' != [] {
      var inner, inner' := Wrapped(selector, layers[1..], base), Wrapped(selector, layers'[1..], base');
      ParsesIffPrinted(selector, proof, layers[0], inner);
      ParsesIffPrinted(selector, proof, layers'[0], inner');
      LayeringIsUnique(x, vkey, publicValues, inner, layers[1..], base, layers'[1..], base');
      assert layers == [layers[0]] + layers[1..] && layers' == [layers'[0]] + layers'[1..];
    }
  }
}
