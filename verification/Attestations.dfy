/** Checking attestation documents: for one signer, for all signers of a contract, and for the signer listing. */
module Attestations {
  import opened ByteStrings
  import opened Addresses
  import opened CryptoModel
  import opened HexText
  import opened Utf8

  /** The parts of a Nitro attestation document that the protocol uses. */
  datatype Document = Document(pcrs: map<nat, Bytes>, userData: Option<Bytes>, publicKey: Option<Bytes>)

  datatype RawAttestation = RawAttestation(address: Address, attestation: Bytes)

  /** `validate` is the check of the document's certificates and signature against the root of trust. */
  datatype Trust = Trust(keccak: Bytes -> Bytes32, validate: Bytes -> Option<Document>)

  datatype VerificationError =
    | GetAttestationError
    | AttestationInvalid
    | Pcr0VerificationError(expectedPcr0: string, actualPcr0: string)
    | MissingRequiredField(field: string)
    | VersionMismatch(expectedVersion: nat, actualVersion: Bytes)
    | AddressMismatch(expectedAddress: Address, derivedAddress: Address)

  datatype Check = Valid | Invalid(error: VerificationError) | Panic

  // ----- One signer -----

  function VerifyForSigner(t: Trust, bucket: map<Address, Bytes>, signer: Address, version: nat, pcr0: string): Check {
    if signer !in bucket then Invalid(GetAttestationError)
    else
      match t.validate(bucket[signer])
      case None => Invalid(AttestationInvalid)
      case Some(doc) =>
        if 0 !in doc.pcrs then Panic
        else
          var docPcr0 := Encode(doc.pcrs[0]);
          if docPcr0 != WithoutPrefixes(pcr0) then Invalid(Pcr0VerificationError(pcr0, docPcr0))
          else
            match doc.userData
            case None => Invalid(MissingRequiredField("user_data"))
            case Some(userData) =>
              if userData != LittleEndian(version, 4) then
                if IsUtf8(userData) then Invalid(VersionMismatch(version, userData)) else Panic
              else
                var derived := if doc.publicKey.Some? then AddressFromSec1(t.keccak, doc.publicKey.value) else None;
                match derived
                case None => Invalid(MissingRequiredField("public_key"))
                case Some(address) =>
                  if address != signer then Invalid(AddressMismatch(signer, address)) else Valid
  }

  /** A trusted document that binds the signer's address to this PCR0 and this version. */
  ghost predicate Binds(t: Trust, attestation: Bytes, signer: Address, version: nat, pcr0: Bytes) {
    var parsed := t.validate(attestation);
    && parsed.Some?
    && 0 in parsed.value.pcrs && parsed.value.pcrs[0] == pcr0
    && parsed.value.userData == Some(LittleEndian(version, 4))
    && parsed.value.publicKey.Some?
    && AddressFromSec1(t.keccak, parsed.value.publicKey.value) == Some(signer)
  }

  /** A signer validates exactly when the stored document binds it to the PCR0 that the argument spells. */
  lemma ValidIff(t: Trust, bucket: map<Address, Bytes>, signer: Address, version: nat, argument: string, pcr0: Bytes)
    requires IsLowerHex(WithoutPrefixes(argument)) && Decode(WithoutPrefixes(argument)) == Some(pcr0)
    ensures VerifyForSigner(t, bucket, signer, version, argument).Valid? <==>
              signer in bucket && Binds(t, bucket[signer], signer, version, pcr0)
  {
    var text := WithoutPrefixes(argument);
    DecodesIffHex(text);
    HexOfLower(text);
    if signer in bucket && t.validate(bucket[signer]).Some? && 0 in t.validate(bucket[signer]).value.pcrs {
      DecodeOfEncoded(t.validate(bucket[signer]).value.pcrs[0]);
    }
  }

  lemma HexOfLower(text: string)
    requires IsLowerHex(text)
    ensures IsHex(text)
  {
    forall i | 0 <= i < |text| ensures DigitValue(text[i]).Some? {
      assert IsLowerDigit(text[i]);
    }
  }

  /** No argument that spells anything but lower-case hexadecimal validates any signer. */
  lemma NeverValidOtherwise(t: Trust, bucket: map<Address, Bytes>, signer: Address, version: nat, argument: string)
    requires !IsLowerHex(WithoutPrefixes(argument))
    ensures !VerifyForSigner(t, bucket, signer, version, argument).Valid?
  {
    if signer in bucket && t.validate(bucket[signer]).Some? && 0 in t.validate(bucket[signer]).value.pcrs {
      DecodeOfEncoded(t.validate(bucket[signer]).value.pcrs[0]);
    }
  }

  /** The checks before the version: a trusted document with the PCR0 that the argument spells. */
  ghost predicate Measured(t: Trust, attestation: Bytes, pcr0: string) {
    var parsed := t.validate(attestation);
    parsed.Some? && 0 in parsed.value.pcrs && Encode(parsed.value.pcrs[0]) == WithoutPrefixes(pcr0)
  }

  /** Measured, but with a version other than the expected one. */
  ghost predicate Mismatched(t: Trust, attestation: Bytes, version: nat, pcr0: string, userData: Bytes) {
    && Measured(t, attestation, pcr0)
    && t.validate(attestation).value.userData == Some(userData)
    && userData != LittleEndian(version, 4)
  }

  /** The check of a stored document panics in two cases: without a PCR0, and on a version that is not text. */
  lemma PanicIff(t: Trust, bucket: map<Address, Bytes>, signer: Address, version: nat, pcr0: string)
    ensures VerifyForSigner(t, bucket, signer, version, pcr0).Panic? <==>
              && signer in bucket && t.validate(bucket[signer]).Some?
              && (|| 0 !in t.validate(bucket[signer]).value.pcrs
                  || exists userData :: Mismatched(t, bucket[signer], version, pcr0, userData) && !IsUtf8(userData))
  {
    if signer in bucket && t.validate(bucket[signer]).Some? && t.validate(bucket[signer]).value.userData.Some? {
      var userData := t.validate(bucket[signer]).value.userData.value;
      assert Mismatched(t, bucket[signer], version, pcr0, userData) <==>
               Measured(t, bucket[signer], pcr0) && userData != LittleEndian(version, 4);
    }
  }

  /** The document has the PCR0 and the version, but no key with an address. */
  ghost predicate Keyless(t: Trust, attestation: Bytes, version: nat, pcr0: string) {
    && Measured(t, attestation, pcr0)
    && t.validate(attestation).value.userData == Some(LittleEndian(version, 4))
    && forall a :: !Binds(t, attestation, a, version, t.validate(attestation).value.pcrs[0])
  }

  /** What each error says about the stored document, for all inputs: together with `ValidIff` and `PanicIff`, all. */
  lemma ErrorsIff(t: Trust, bucket: map<Address, Bytes>, signer: Address, version: nat, pcr0: string, other: Address,
                  userData: Bytes, actual: string)
    ensures var check := VerifyForSigner(t, bucket, signer, version, pcr0);
            && (check == Invalid(GetAttestationError) <==> signer !in bucket)
            && (check == Invalid(AttestationInvalid) <==> signer in bucket && t.validate(bucket[signer]).None?)
            && (check == Invalid(Pcr0VerificationError(pcr0, actual)) <==>
                  && signer in bucket && t.validate(bucket[signer]).Some? && !Measured(t, bucket[signer], pcr0)
                  && 0 in t.validate(bucket[signer]).value.pcrs
                  && actual == Encode(t.validate(bucket[signer]).value.pcrs[0]))
            && (check == Invalid(MissingRequiredField("user_data")) <==>
                  && signer in bucket && Measured(t, bucket[signer], pcr0)
                  && t.validate(bucket[signer]).value.userData.None?)
            && (check == Invalid(VersionMismatch(version, userData)) <==>
                  signer in bucket && Mismatched(t, bucket[signer], version, pcr0, userData) && IsUtf8(userData))
            && (check == Invalid(MissingRequiredField("public_key")) <==>
                  signer in bucket && Keyless(t, bucket[signer], version, pcr0))
            && (check == Invalid(AddressMismatch(signer, other)) <==>
                  && signer in bucket && other != signer && Measured(t, bucket[signer], pcr0)
                  && Binds(t, bucket[signer], other, version, t.validate(bucket[signer]).value.pcrs[0]))
  {
    assert "user_data"[0] != "public_key"[0];
    if signer in bucket && t.validate(bucket[signer]).Some? && 0 in t.validate(bucket[signer]).value.pcrs {
      var doc := t.validate(bucket[signer]).value;
      if doc.publicKey.Some? && AddressFromSec1(t.keccak, doc.publicKey.value).Some? {
        var derived := AddressFromSec1(t.keccak, doc.publicKey.value).value;
        assert Binds(t, bucket[signer], derived, version, doc.pcrs[0]) <==>
                 doc.userData == Some(LittleEndian(version, 4));
      }
    }
  }

  // ----- All signers of a contract -----

  datatype Validation = Validated(valid: seq<Address>, skipped: seq<Address>) | ValidationPanic(at: nat)

  predicate Tolerated(c: Check) {
    c.Valid? || (c.Invalid? && c.error.VersionMismatch?)
  }

  /** The signers that validation goes on after: bound to this PCR0, by this version or by another that is text. */
  lemma ToleratedIff(t: Trust, bucket: map<Address, Bytes>, signer: Address, version: nat, argument: string,
                     pcr0: Bytes)
    requires IsLowerHex(WithoutPrefixes(argument)) && Decode(WithoutPrefixes(argument)) == Some(pcr0)
    ensures Tolerated(VerifyForSigner(t, bucket, signer, version, argument)) <==>
              && signer in bucket
              && (|| Binds(t, bucket[signer], signer, version, pcr0)
                  || exists userData ::
                       Mismatched(t, bucket[signer], version, argument, userData) && IsUtf8(userData))
  {
    ValidIff(t, bucket, signer, version, argument, pcr0);
    if signer in bucket && t.validate(bucket[signer]).Some? && t.validate(bucket[signer]).value.userData.Some? {
      var userData := t.validate(bucket[signer]).value.userData.value;
      assert Mismatched(t, bucket[signer], version, argument, userData) <==>
               Measured(t, bucket[signer], argument) && userData != LittleEndian(version, 4);
    }
  }

  /** The walk over the signers, given the check of each: skip another version, panic on anything else. */
  method WalkSigners(check: Address -> Check, signers: seq<Address>) returns (v: Validation)
    ensures v.Validated? <==> forall i | 0 <= i < |signers| :: Tolerated(check(signers[i]))
    ensures v.Validated? ==>
              && multiset(v.valid) + multiset(v.skipped) == multiset(signers)
              && (forall a | a in v.valid :: check(a).Valid?)
              && (forall a | a in v.skipped :: check(a).Invalid?)
    ensures v.ValidationPanic? ==>
              && v.at < |signers| && !Tolerated(check(signers[v.at]))
              && forall i | 0 <= i < v.at :: Tolerated(check(signers[i]))
  {
    var valid, skipped: seq<Address> := [], [];
    for i := 0 to |signers|
      invariant forall j | 0 <= j < i :: Tolerated(check(signers[j]))
      invariant multiset(valid) + multiset(skipped) == multiset(signers[..i])
      invariant forall a | a in valid :: check(a).Valid?
      invariant forall a | a in skipped :: check(a).Invalid?
    {
      var signer := signers[i];
      assert signers[..i + 1] == signers[..i] + [signer];
      match check(signer)
      case Valid =>
        valid := valid + [signer];
      case Invalid(VersionMismatch(_, _)) =>
        skipped := skipped + [signer];
      case _ =>
        return ValidationPanic(i);
    }
    assert signers[..|signers|] == signers;
    return Validated(valid, skipped);
  }

  /** Validates all signers: it ends without a panic exactly when each is valid or of another version. */
  method ValidateContract(t: Trust, bucket: map<Address, Bytes>, signers: seq<Address>, version: nat, pcr0: string)
    returns (v: Validation)
    ensures v.Validated? <==>
              forall a | a in signers :: Tolerated(VerifyForSigner(t, bucket, a, version, pcr0))
    ensures v.Validated? ==>
              forall a | a in signers :: a in v.valid <==> VerifyForSigner(t, bucket, a, version, pcr0).Valid?
  {
    var check := (a: Address) => VerifyForSigner(t, bucket, a, version, pcr0);
    v := WalkSigners(check, signers);
    assert forall i | 0 <= i < |signers| :: signers[i] in signers;
    if v.Validated? {
      forall a | a in signers ensures a in v.valid || a in v.skipped {
        assert a in multiset(signers);
      }
    }
  }

  /** A document of another version, otherwise in order, as an enclave of that version produces. */
  ghost predicate OfOtherVersion(t: Trust, attestation: Bytes, pcr0: string, version: nat, other: nat) {
    && version < Power256(4) && other < Power256(4) && other != version
    && Measured(t, attestation, pcr0)
    && t.validate(attestation).value.userData == Some(LittleEndian(other, 4))
  }

  /**
   * A signer of another version is meant to be skipped. That holds exactly when the four version bytes
   * happen to be UTF-8, since building the error converts them to text: it does for versions below 128,
   * and version 128 itself makes the whole validation panic.
   */
  lemma OtherVersionSkippedIff(t: Trust, bucket: map<Address, Bytes>, signer: Address,
                               version: nat, other: nat, pcr0: string)
    requires signer in bucket && OfOtherVersion(t, bucket[signer], pcr0, version, other)
    ensures Tolerated(VerifyForSigner(t, bucket, signer, version, pcr0)) <==> IsUtf8(LittleEndian(other, 4))
    ensures other < 128 ==> Tolerated(VerifyForSigner(t, bucket, signer, version, pcr0))
    ensures other == 128 ==> VerifyForSigner(t, bucket, signer, version, pcr0).Panic?
  {
    if LittleEndian(other, 4) == LittleEndian(version, 4) {
      LittleEndianInjective(other, version, 4);
    }
    if other < 128 {
      SmallVersionIsUtf8(other, 4);
    }
  }

  // ----- The host's listing -----

  datatype Listing = Listing(signers: seq<Address>) | FailedToConvertPublicKey | ListingPanic

  /** Trusted documents of the host's version, as addresses; the first failing item decides. */
  function GetSigners(t: Trust, version: nat, attestations: seq<RawAttestation>): Listing {
    if attestations == [] then Listing([])
    else
      match t.validate(attestations[0].attestation)
      case None => GetSigners(t, version, attestations[1..])
      case Some(doc) =>
        if doc.userData.None? then ListingPanic
        else if doc.userData.value != LittleEndian(version, 4) then GetSigners(t, version, attestations[1..])
        else if doc.publicKey.None? then ListingPanic
        else
          match AddressFromSec1(t.keccak, doc.publicKey.value)
          case None => FailedToConvertPublicKey
          case Some(address) =>
            match GetSigners(t, version, attestations[1..])
            case Listing(rest) => Listing([address] + rest)
            case failure => failure
  }

  ghost predicate ListedBy(t: Trust, version: nat, raw: RawAttestation, address: Address) {
    var parsed := t.validate(raw.attestation);
    && parsed.Some?
    && parsed.value.userData == Some(LittleEndian(version, 4))
    && parsed.value.publicKey.Some?
    && AddressFromSec1(t.keccak, parsed.value.publicKey.value) == Some(address)
  }

  /** A listing holds exactly the addresses of the trusted documents of that version. */
  lemma {:induction false} ListingIsExact(t: Trust, version: nat, attestations: seq<RawAttestation>, address: Address)
    requires GetSigners(t, version, attestations).Listing?
    ensures address in GetSigners(t, version, attestations).signers <==>
              exists i :: 0 <= i < |attestations| && ListedBy(t, version, attestations[i], address)
    decreases |attestations|
  {
    if attestations == [] {
    } else {
      var rest := attestations[1..];
      ListingIsExact(t, version, rest, address);
      if i :| 0 <= i < |rest| && ListedBy(t, version, rest[i], address) {
        assert attestations[i + 1] == rest[i];
      }
      if i :| 0 <= i < |attestations| && ListedBy(t, version, attestations[i], address) {
        assert i > 0 ==> attestations[i] == rest[i - 1];
      }
    }
  }

  /** The listing keeps the order, and the first attestation that fails decides: it goes through list parts in turn. */
  lemma {:induction false} ListingOfParts(t: Trust, version: nat, first: seq<RawAttestation>,
                                          second: seq<RawAttestation>)
    ensures GetSigners(t, version, first + second)
         == match GetSigners(t, version, first)
            case Listing(xs) =>
              (match GetSigners(t, version, second)
               case Listing(ys) => Listing(xs + ys)
               case failure => failure)
            case failure => failure
    decreases |first|
  {
    if first == [] {
      assert first + second == second;
    } else {
      ListingOfParts(t, version, first[1..], second);
      assert (first + second)[1..] == first[1..] + second;
    }
  }

  /** One attestation is listed, left out, or makes the listing fail. */
  lemma ListingOfOne(t: Trust, version: nat, raw: RawAttestation)
    ensures var parsed, listing := t.validate(raw.attestation), GetSigners(t, version, [raw]);
            && (forall a :: listing == Listing([a]) <==> ListedBy(t, version, raw, a))
            && (listing == Listing([]) <==>
                  parsed.Some? ==>
                    parsed.value.userData.Some? && parsed.value.userData.value != LittleEndian(version, 4))
            && (listing == ListingPanic <==>
                  && parsed.Some?
                  && (|| parsed.value.userData.None?
                      || (parsed.value.userData == Some(LittleEndian(version, 4)) && parsed.value.publicKey.None?)))
  {
    assert [raw][1..] == [];
    assert GetSigners(t, version, []) == Listing([]);
    forall a: Address ensures GetSigners(t, version, [raw]) == Listing([a]) <==> ListedBy(t, version, raw, a) {
      assert [a] + [] == [a];
      if GetSigners(t, version, [raw]) == Listing([a]) {
        assert GetSigners(t, version, [raw]).signers[0] == a;
      }
    }
  }

  /** The document has what the listing insists on. */
  ghost predicate Listable(t: Trust, version: nat, raw: RawAttestation) {
    var parsed := t.validate(raw.attestation);
    parsed.Some? ==>
      && parsed.value.userData.Some?
      && (parsed.value.userData == Some(LittleEndian(version, 4)) ==>
            parsed.value.publicKey.Some? && AddressFromSec1(t.keccak, parsed.value.publicKey.value).Some?)
  }

  /** A single trusted document without the expected fields makes the whole listing fail; nothing else does. */
  lemma {:induction false} ListingSucceedsIff(t: Trust, version: nat, attestations: seq<RawAttestation>)
    ensures GetSigners(t, version, attestations).Listing? <==>
              forall i | 0 <= i < |attestations| :: Listable(t, version, attestations[i])
    decreases |attestations|
  {
    if attestations == [] {
    } else {
      var rest := attestations[1..];
      ListingSucceedsIff(t, version, rest);
      assert forall i | 0 <= i < |rest| :: rest[i] == attestations[i + 1];
      assert forall i | 0 < i < |attestations| :: attestations[i] == rest[i - 1];
    }
  }
}
