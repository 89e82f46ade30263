/** The cryptographic primitives as parameters, the signed message, and key-to-address derivation. */
module CryptoModel {
  import opened ByteStrings
  import opened Addresses

  datatype Option<+T> = None | Some(value: T)

  datatype Signature = Signature(r: Bytes32, s: Bytes32, recoveryId: Byte)

  /**
   * `sign` is keyed by the SEC1 public key that identifies the signing key.
   * `ecrecover` answers the zero address when nothing can be recovered.
   */
  datatype Crypto = Crypto(
    keccak: Bytes -> Bytes32,
    ecrecover: (Bytes32, Byte, Bytes32, Bytes32) -> Address,
    sign: (Bytes, Bytes32) -> Option<Signature>)

  /** No injectivity is assumed of the hash anywhere: results name the colliding pair instead. */
  ghost predicate Collides(keccak: Bytes -> Bytes32, x: Bytes, y: Bytes) {
    x != y && keccak(x) == keccak(y)
  }

  // ----- The signed message -----

  /** The packed preimage on chain. */
  function Preimage(keccak: Bytes -> Bytes32, version: Bytes, vkey: Bytes32, publicValues: Bytes): Bytes {
    keccak(version) + vkey + keccak(publicValues)
  }

  function MessageHash(keccak: Bytes -> Bytes32, version: Bytes, vkey: Bytes32, publicValues: Bytes): Bytes32 {
    keccak(Preimage(keccak, version, vkey, publicValues))
  }

  function Concat(parts: seq<Bytes>): Bytes {
    if parts == [] then [] else parts[0] + Concat(parts[1..])
  }

  /** The concatenation that the enclave hashes and signs, for its numeric version. */
  function ToSign(keccak: Bytes -> Bytes32, version: nat, vkey: Bytes32, publicValues: Bytes): Bytes {
    var publicValuesHash := keccak(publicValues);
    var versionBytes := LittleEndian(version, 4);
    var versionBytesHash := keccak(versionBytes);
    Concat([versionBytesHash, vkey, publicValuesHash])
  }

  /** Enclave and contract hash the same 96 bytes. */
  lemma SameMessage(keccak: Bytes -> Bytes32, version: nat, vkey: Bytes32, publicValues: Bytes)
    ensures ToSign(keccak, version, vkey, publicValues)
         == Preimage(keccak, LittleEndian(version, 4), vkey, publicValues)
    ensures |ToSign(keccak, version, vkey, publicValues)| == 96
  {
    var a: Bytes, b: Bytes, c: Bytes := keccak(LittleEndian(version, 4)), vkey, keccak(publicValues);
    assert [a, b, c][1..] == [b, c] && [b, c][1..] == [c] && [c][1..] == [];
    assert Concat([c]) == c;
    assert Concat([b, c]) == b + c;
    assert Concat([a, b, c]) == a + (b + c);
  }

  /** What is hashed for any version, of whatever length: three times 32 bytes in this order. */
  lemma MessageLayout(keccak: Bytes -> Bytes32, version: Bytes, vkey: Bytes32, publicValues: Bytes)
    ensures exists message: Bytes ::
              && |message| == 96 && MessageHash(keccak, version, vkey, publicValues) == keccak(message)
              && message[..32] == keccak(version) && message[32..64] == vkey && message[64..] == keccak(publicValues)
  {
    var message := Preimage(keccak, version, vkey, publicValues);
    assert message[..32] == keccak(version) && message[32..64] == vkey && message[64..] == keccak(publicValues);
  }

  /** One of the three hash calls collides between the two messages. */
  ghost predicate MessagesCollide(keccak: Bytes -> Bytes32,
                                  version: Bytes, vkey: Bytes32, publicValues: Bytes,
                                  version': Bytes, vkey': Bytes32, publicValues': Bytes)
  {
    || Collides(keccak, version, version')
    || Collides(keccak, publicValues, publicValues')
    || Collides(keccak, Preimage(keccak, version, vkey, publicValues), Preimage(keccak, version', vkey', publicValues'))
  }

  /** The digest binds all three components although two of them have variable length. */
  lemma DigestBinds(keccak: Bytes -> Bytes32,
                    version: Bytes, vkey: Bytes32, publicValues: Bytes,
                    version': Bytes, vkey': Bytes32, publicValues': Bytes)
    requires MessageHash(keccak, version, vkey, publicValues) == MessageHash(keccak, version', vkey', publicValues')
    ensures
      || (version, vkey, publicValues) == (version', vkey', publicValues')
      || MessagesCollide(keccak, version, vkey, publicValues, version', vkey', publicValues')
  {
    var p := Preimage(keccak, version, vkey, publicValues);
    var p' := Preimage(keccak, version', vkey', publicValues');
    if p == p' {
      assert p[..32] == keccak(version) && p'[..32] == keccak(version');
      assert p[32..64] == vkey && p'[32..64] == vkey';
      assert p[64..] == keccak(publicValues) && p'[64..] == keccak(publicValues');
    }
  }

  // ----- Keys and addresses -----

  function FromRawPublicKey(keccak: Bytes -> Bytes32, xy: Bytes): Address
  {
    var tail: Bytes := keccak(xy)[12..];
    AddressOfBytes(tail)
  }

  function AddressOfBytes(b: Bytes): Address
    requires |b| == 20
  {
    FromBigEndianRoundTrip(b);
    Power256Of20();
    FromBigEndian(b)
  }

  lemma Power256Of20()
    ensures Power256(20) == ADDRESS_SPACE
  {
    Power256Of4();
    var p := Power256(4);
    assert Power256(8) == p * p;
    assert Power256(12) == p * p * p;
    assert Power256(16) == p * p * p * p;
    assert Power256(20) == p * p * p * p * p;
  }

  /** Only a 65-byte key starting with 4 has an address. */
  function AddressFromSec1(keccak: Bytes -> Bytes32, publicKey: Bytes): Option<Address> {
    if |publicKey| != 65 then None
    else if publicKey[0] != 4 then None
    else Some(FromRawPublicKey(keccak, publicKey[1..]))
  }

  /** The address of a key: the last 20 bytes of the hash of its 64 bytes after the tag 4, read as a number. */
  lemma AddressIff(keccak: Bytes -> Bytes32, publicKey: Bytes, a: Address)
    ensures AddressFromSec1(keccak, publicKey) == Some(a) <==>
              |publicKey| == 65 && publicKey[0] == 4 && keccak(publicKey[1..])[12..] == BigEndian(a, 20)
    ensures AddressFromSec1(keccak, publicKey).None? <==> |publicKey| != 65 || publicKey[0] != 4
  {
    Power256Of20();
    BigEndianRoundTrip(a, 20);
    if |publicKey| == 65 && publicKey[0] == 4 {
      FromBigEndianRoundTrip(keccak(publicKey[1..])[12..]);
    }
  }

  /** A SEC1 point (section 2.3.3 of SEC 1 v2.0, with the compact tag 5): the tag determines the length. */
  ghost predicate EncodedPoint(b: Bytes) {
    && b != []
    && match b[0]
       case 0 => |b| == 1
       case 2 => |b| == 33
       case 3 => |b| == 33
       case 5 => |b| == 33
       case 4 => |b| == 65
       case _ => false
  }

  function AddressFromEncodedPoint(keccak: Bytes -> Bytes32, point: Bytes): Option<Address>
    requires point != []
  {
    var isIdentity, isCompact, isCompressed := point[0] == 0, point[0] == 5, point[0] == 2 || point[0] == 3;
    if isIdentity || isCompact || isCompressed then None else AddressFromSec1(keccak, point)
  }

  /** On points both derivations agree, and exactly the uncompressed ones have an address. */
  lemma DerivationsAgree(keccak: Bytes -> Bytes32, point: Bytes)
    requires EncodedPoint(point)
    ensures AddressFromEncodedPoint(keccak, point) == AddressFromSec1(keccak, point)
    ensures AddressFromEncodedPoint(keccak, point).Some? <==> point[0] == 4
  {
  }
}
