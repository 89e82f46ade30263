/** The registration loop: stored attestations become registered signers, one transaction at a time. */
module Setup {
  import opened ByteStrings
  import opened Addresses
  import opened SignersMaps
  import opened TeeVerifiers
  import opened CryptoModel
  import opened HexText
  import opened Attestations

  /** `--pcr0`, `--register-signers`, and the account that sends the transactions. */
  datatype Config = Config(pcr0: Option<string>, registerSigners: bool, sender: Address)

  datatype Reason =
    | BadPcr0Argument
    | MissingPcr0
    | Pcr0Mismatch
    | MissingPublicKey
    | BadPublicKey
    | DerivedAddressMismatch
    | TransactionFailed(reason: string)

  datatype Registration = Completed | Panicked(at: nat, reason: Reason)

  datatype ItemCheck = Skip | Candidate | Bad(reason: Reason)

  /** The part of one iteration that looks at the document only. */
  function CheckItem(t: Trust, cfg: Config, raw: RawAttestation): ItemCheck {
    match t.validate(raw.attestation)
    case None => Skip
    case Some(doc) =>
      if cfg.pcr0.Some? && Decode(cfg.pcr0.value).None? then Bad(BadPcr0Argument)
      else if cfg.pcr0.Some? && 0 !in doc.pcrs then Bad(MissingPcr0)
      else if cfg.pcr0.Some? && doc.pcrs[0] != Decode(cfg.pcr0.value).value then Bad(Pcr0Mismatch)
      else if doc.publicKey.None? then Bad(MissingPublicKey)
      else
        match AddressFromSec1(t.keccak, doc.publicKey.value)
        case None => Bad(BadPublicKey)
        case Some(derived) => if derived != raw.address then Bad(DerivedAddressMismatch) else Candidate
  }

  /** One iteration of the loop; a reverting transaction already fails when it is sent. */
  function Iteration(t: Trust, cfg: Config, c: Contract, raw: RawAttestation): (Contract, Option<Reason>) {
    match CheckItem(t, cfg, raw)
    case Skip => (c, None)
    case Bad(reason) => (c, Some(reason))
    case Candidate =>
      if raw.address in c.signers then (c, None)
      else if cfg.registerSigners then
        var (after, outcome) := Transact(c, Transaction(cfg.sender, Call.AddSigner(raw.address)));
        match outcome
        case Success => (after, None)
        case Revert(reason) => (after, Some(TransactionFailed(reason)))
      else (c, None)
  }

  /** The state and the result after the first `n` items. */
  function SetupRun(t: Trust, cfg: Config, c: Contract, raws: seq<RawAttestation>, n: nat): (Contract, Registration)
    requires n <= |raws|
  {
    if n == 0 then (c, Completed)
    else
      var (before, registration) := SetupRun(t, cfg, c, raws, n - 1);
      if registration.Panicked? then (before, registration)
      else
        var (after, reason) := Iteration(t, cfg, before, raws[n - 1]);
        if reason.Some? then (after, Panicked(n - 1, reason.value)) else (after, Completed)
  }

  method RegisterSigners(t: Trust, cfg: Config, attestations: seq<RawAttestation>, verifier: TeeVerifier)
    returns (registration: Registration)
    requires verifier.Valid()
    modifies verifier, verifier.signersMap
    ensures verifier.Valid()
    ensures (verifier.State(), registration)
         == SetupRun(t, cfg, old(verifier.State()), attestations, |attestations|)
  {
    ghost var initial := verifier.State();
    for i := 0 to |attestations|
      invariant verifier.Valid()
      invariant (verifier.State(), Completed) == SetupRun(t, cfg, initial, attestations, i)
    {
      var raw := attestations[i];
      var address := raw.address;
      PanicSticks(t, cfg, initial, attestations, i + 1);

      var parsed := t.validate(raw.attestation);
      if parsed.None? {
        continue;
      }
      var doc := parsed.value;
      if cfg.pcr0.Some? {
        var pcr0Bytes := Decode(cfg.pcr0.value);
        if pcr0Bytes.None? {
          return Panicked(i, BadPcr0Argument);
        }
        if 0 !in doc.pcrs {
          return Panicked(i, MissingPcr0);
        }
        if doc.pcrs[0] != pcr0Bytes.value {
          return Panicked(i, Pcr0Mismatch);
        }
      }
      if doc.publicKey.None? {
        return Panicked(i, MissingPublicKey);
      }
      var derivedAddress := AddressFromSec1(t.keccak, doc.publicKey.value);
      if derivedAddress.None? {
        return Panicked(i, BadPublicKey);
      }
      if derivedAddress.value != address {
        return Panicked(i, DerivedAddressMismatch);
      }
      var registered := verifier.signersMap.IsSigner(address);
      if registered {
        continue;
      }
      if cfg.registerSigners {
        var outcome := verifier.AddSigner(cfg.sender, address);
        if outcome.Revert? {
          return Panicked(i, TransactionFailed(outcome.reason));
        }
      }
    }
    return Completed;
  }

  lemma {:induction false} PanicSticks(t: Trust, cfg: Config, c: Contract, raws: seq<RawAttestation>, n: nat)
    requires n <= |raws|
    ensures SetupRun(t, cfg, c, raws, n).1.Panicked? ==>
              SetupRun(t, cfg, c, raws, |raws|) == SetupRun(t, cfg, c, raws, n)
    decreases |raws| - n
  {
    if n == |raws| {
    } else {
      PanicSticks(t, cfg, c, raws, n + 1);
    }
  }

  // ----- What a run means -----

  /** The document is trusted, has the demanded PCR0 and a key that derives to the address it is stored under. */
  ghost predicate Verifies(t: Trust, cfg: Config, raw: RawAttestation) {
    var parsed := t.validate(raw.attestation);
    && parsed.Some?
    && (cfg.pcr0.Some? ==> 0 in parsed.value.pcrs && Decode(cfg.pcr0.value) == Some(parsed.value.pcrs[0]))
    && parsed.value.publicKey.Some?
    && AddressFromSec1(t.keccak, parsed.value.publicKey.value) == Some(raw.address)
  }

  ghost predicate Untrusted(t: Trust, raw: RawAttestation) {
    t.validate(raw.attestation).None?
  }

  /** Nothing stands in the way of registering this address: it is registered, or may be by this sender. */
  ghost predicate Registrable(cfg: Config, c: Contract, address: Address) {
    || address in c.signers
    || !cfg.registerSigners
    || (cfg.sender == c.owner && address != ZERO)
  }

  ghost predicate Passes(t: Trust, cfg: Config, c: Contract, raw: RawAttestation) {
    Untrusted(t, raw) || (Verifies(t, cfg, raw) && Registrable(cfg, c, raw.address))
  }

  ghost predicate VerifiedAmong(t: Trust, cfg: Config, raws: seq<RawAttestation>, n: nat, a: Address)
    requires n <= |raws|
  {
    exists i :: 0 <= i < n && Verifies(t, cfg, raws[i]) && raws[i].address == a
  }

  lemma IterationMeaning(t: Trust, cfg: Config, c: Contract, raw: RawAttestation)
    requires Consistent(c)
    ensures var (after, reason) := Iteration(t, cfg, c, raw);
            && Consistent(after) && after.owner == c.owner
            && (reason.None? <==> Passes(t, cfg, c, raw))
            && (reason.Some? ==> after == c && reason.value != TransactionFailed(ALREADY_EXISTS))
            && (after.signers ==
                  if reason.None? && Verifies(t, cfg, raw) && cfg.registerSigners && raw.address !in c.signers
                  then c.signers + [raw.address] else c.signers)
            && (after.signers == c.signers ==> after == c)
  {
    var tx := Transaction(cfg.sender, Call.AddSigner(raw.address));
    TransactionKeepsConsistency(c, tx);
    TransactionSucceedsIff(c, tx);
    if CheckItem(t, cfg, raw).Candidate? {
      assert Verifies(t, cfg, raw);
    }
  }

  /** What each panic of an iteration says about the document, in the order in which it is looked at. */
  lemma PanicReasons(t: Trust, cfg: Config, c: Contract, raw: RawAttestation)
    requires t.validate(raw.attestation).Some?
    ensures var reason, doc := Iteration(t, cfg, c, raw).1, t.validate(raw.attestation).value;
            var decoded := if cfg.pcr0.Some? then Decode(cfg.pcr0.value) else None;
            var measured := cfg.pcr0.Some? ==> decoded.Some? && 0 in doc.pcrs && doc.pcrs[0] == decoded.value;
            var derived := if doc.publicKey.Some? then AddressFromSec1(t.keccak, doc.publicKey.value) else None;
            && (reason == Some(BadPcr0Argument) <==> cfg.pcr0.Some? && decoded.None?)
            && (reason == Some(MissingPcr0) <==> decoded.Some? && 0 !in doc.pcrs)
            && (reason == Some(Pcr0Mismatch) <==> decoded.Some? && 0 in doc.pcrs && doc.pcrs[0] != decoded.value)
            && (reason == Some(MissingPublicKey) <==> measured && doc.publicKey.None?)
            && (reason == Some(BadPublicKey) <==> measured && doc.publicKey.Some? && derived.None?)
            && (reason == Some(DerivedAddressMismatch) <==>
                  measured && derived.Some? && derived.value != raw.address)
  {
  }

  /** `after` is `c` with the verified addresses among the first `n` items registered, if registration is on. */
  ghost predicate Registered(t: Trust, cfg: Config, c: Contract, raws: seq<RawAttestation>, n: nat, after: Contract)
    requires n <= |raws|
  {
    && Consistent(after) && after.owner == c.owner
    && c.signers <= after.signers && (after.signers == c.signers ==> after == c)
    && (forall i | 0 <= i < n :: Passes(t, cfg, c, raws[i]))
    && forall a: Address ::
         a in ToSet(after.signers) <==>
           a in ToSet(c.signers) || (cfg.registerSigners && VerifiedAmong(t, cfg, raws, n, a))
  }

  lemma OneMoreItem(t: Trust, cfg: Config, c: Contract, raws: seq<RawAttestation>, n: nat, before: Contract)
    requires n < |raws| && Registered(t, cfg, c, raws, n, before)
    ensures Passes(t, cfg, before, raws[n]) <==> Passes(t, cfg, c, raws[n])
    ensures forall a: Address ::
              VerifiedAmong(t, cfg, raws, n + 1, a) <==>
                VerifiedAmong(t, cfg, raws, n, a) || (Verifies(t, cfg, raws[n]) && raws[n].address == a)
  {
    var a := raws[n].address;
    assert a in ToSet(before.signers) <==> a in before.signers;
    assert a in ToSet(c.signers) <==> a in c.signers;
    if a in before.signers && a !in c.signers {
      var i :| 0 <= i < n && Verifies(t, cfg, raws[i]) && raws[i].address == a;
      assert Passes(t, cfg, c, raws[i]);
    }
    forall a: Address
      ensures VerifiedAmong(t, cfg, raws, n + 1, a) <==>
                VerifiedAmong(t, cfg, raws, n, a) || (Verifies(t, cfg, raws[n]) && raws[n].address == a)
    {
      if i :| 0 <= i < n + 1 && Verifies(t, cfg, raws[i]) && raws[i].address == a {
        assert i == n || VerifiedAmong(t, cfg, raws, n, a);
      }
    }
  }

  /** What an iteration that does not panic makes of the signers. */
  lemma SignersAfterOneMore(t: Trust, cfg: Config, c: Contract, raws: seq<RawAttestation>, n: nat,
                            before: Contract, after: Contract)
    requires n < |raws| && Registered(t, cfg, c, raws, n, before)
    requires after.signers == if Verifies(t, cfg, raws[n]) && cfg.registerSigners && raws[n].address !in before.signers
                              then before.signers + [raws[n].address] else before.signers
    ensures forall a: Address ::
              a in ToSet(after.signers) <==>
                a in ToSet(c.signers) || (cfg.registerSigners && VerifiedAmong(t, cfg, raws, n + 1, a))
  {
    OneMoreItem(t, cfg, c, raws, n, before);
    forall a: Address
      ensures a in ToSet(after.signers) <==>
                a in ToSet(c.signers) || (cfg.registerSigners && VerifiedAmong(t, cfg, raws, n + 1, a))
    {
      assert a in ToSet(after.signers) <==> a in after.signers;
      assert a in ToSet(before.signers) <==> a in before.signers;
    }
  }

  lemma RegisteredWithOneMore(t: Trust, cfg: Config, c: Contract, raws: seq<RawAttestation>, n: nat,
                              before: Contract, after: Contract)
    requires n < |raws| && Registered(t, cfg, c, raws, n, before) && Passes(t, cfg, c, raws[n])
    requires Consistent(after) && after.owner == before.owner && (after.signers == before.signers ==> after == before)
    requires after.signers == if Verifies(t, cfg, raws[n]) && cfg.registerSigners && raws[n].address !in before.signers
                              then before.signers + [raws[n].address] else before.signers
    ensures Registered(t, cfg, c, raws, n + 1, after)
  {
    SignersAfterOneMore(t, cfg, c, raws, n, before, after);
  }

  lemma RegisterOneMore(t: Trust, cfg: Config, c: Contract, raws: seq<RawAttestation>, n: nat, before: Contract)
    requires n < |raws| && Registered(t, cfg, c, raws, n, before)
    ensures var (after, reason) := Iteration(t, cfg, before, raws[n]);
            && (reason.None? ==> Registered(t, cfg, c, raws, n + 1, after))
            && (reason.Some? ==>
                  && after == before && !Passes(t, cfg, c, raws[n])
                  && reason.value != TransactionFailed(ALREADY_EXISTS))
  {
    var (after, reason) := Iteration(t, cfg, before, raws[n]);
    assert Passes(t, cfg, before, raws[n]) <==> Passes(t, cfg, c, raws[n]) by {
      OneMoreItem(t, cfg, c, raws, n, before);
    }
    IterationMeaning(t, cfg, before, raws[n]);
    if reason.None? {
      RegisteredWithOneMore(t, cfg, c, raws, n, before, after);
    }
  }

  /**
   * What a run over the first `n` items leaves and answers: the signers are the old ones plus the addresses of the
   * verifying attestations before the first item that does not pass, and the run has completed exactly when there is
   * no such item.
   */
  ghost predicate RunMeans(t: Trust, cfg: Config, c: Contract, raws: seq<RawAttestation>, n: nat,
                           after: Contract, r: Registration)
    requires n <= |raws|
  {
    match r
    case Completed => Registered(t, cfg, c, raws, n, after)
    case Panicked(at, reason) =>
      && at < n && Registered(t, cfg, c, raws, at, after)
      && !Passes(t, cfg, c, raws[at]) && reason != TransactionFailed(ALREADY_EXISTS)
  }

  lemma RunMeansOneMore(t: Trust, cfg: Config, c: Contract, raws: seq<RawAttestation>, n: nat)
    requires n < |raws|
    requires RunMeans(t, cfg, c, raws, n, SetupRun(t, cfg, c, raws, n).0, SetupRun(t, cfg, c, raws, n).1)
    ensures RunMeans(t, cfg, c, raws, n + 1, SetupRun(t, cfg, c, raws, n + 1).0, SetupRun(t, cfg, c, raws, n + 1).1)
  {
    var (before, r) := SetupRun(t, cfg, c, raws, n);
    if r.Completed? {
      RegisterOneMore(t, cfg, c, raws, n, before);
    }
  }

  /**
   * Main result on registration, with nobody else transacting: every run means just that; "Signer already exists"
   * never happens, repeated addresses included.
   */
  lemma {:induction false} SetupMeaning(t: Trust, cfg: Config, c: Contract, raws: seq<RawAttestation>, n: nat)
    requires Consistent(c) && n <= |raws|
    ensures RunMeans(t, cfg, c, raws, n, SetupRun(t, cfg, c, raws, n).0, SetupRun(t, cfg, c, raws, n).1)
  {
    if n == 0 {
    } else {
      SetupMeaning(t, cfg, c, raws, n - 1);
      RunMeansOneMore(t, cfg, c, raws, n - 1);
    }
  }

  /** A second run over the same attestations completes and changes nothing, not even the log. */
  lemma SetupIsIdempotent(t: Trust, cfg: Config, c: Contract, raws: seq<RawAttestation>)
    requires Consistent(c)
    requires SetupRun(t, cfg, c, raws, |raws|).1.Completed?
    ensures SetupRun(t, cfg, SetupRun(t, cfg, c, raws, |raws|).0, raws, |raws|)
         == SetupRun(t, cfg, c, raws, |raws|)
  {
    var n := |raws|;
    SetupMeaning(t, cfg, c, raws, n);
    var after := SetupRun(t, cfg, c, raws, n).0;
    SetupMeaning(t, cfg, after, raws, n);
    var (again, r) := SetupRun(t, cfg, after, raws, n);
    assert ToSet(again.signers) == ToSet(after.signers);
    CardinalityOfList(again.signers);
    CardinalityOfList(after.signers);
  }

  /** Every verifying address among the attestations is registered after a completed run. */
  lemma VerifiedGetsRegistered(t: Trust, cfg: Config, c: Contract, raws: seq<RawAttestation>, raw: RawAttestation)
    requires Consistent(c) && cfg.registerSigners && raw in raws && Verifies(t, cfg, raw)
    requires SetupRun(t, cfg, c, raws, |raws|).1.Completed?
    ensures raw.address in SetupRun(t, cfg, c, raws, |raws|).0.signers
  {
    SetupMeaning(t, cfg, c, raws, |raws|);
    var i :| 0 <= i < |raws| && raws[i] == raw;
    assert VerifiedAmong(t, cfg, raws, |raws|, raw.address);
    assert raw.address in ToSet(SetupRun(t, cfg, c, raws, |raws|).0.signers);
  }

  /** Whatever the host lists as a signer of its version is registered after a completed run. */
  lemma ListedSignersGetRegistered(t: Trust, cfg: Config, c: Contract, raws: seq<RawAttestation>,
                                   version: nat, address: Address)
    requires Consistent(c) && cfg.registerSigners
    requires SetupRun(t, cfg, c, raws, |raws|).1.Completed?
    requires GetSigners(t, version, raws).Listing? && address in GetSigners(t, version, raws).signers
    ensures address in SetupRun(t, cfg, c, raws, |raws|).0.signers
  {
    SetupMeaning(t, cfg, c, raws, |raws|);
    ListingIsExact(t, version, raws, address);
    var i :| 0 <= i < |raws| && ListedBy(t, version, raws[i], address);
    assert Passes(t, cfg, c, raws[i]);
    VerifiedGetsRegistered(t, cfg, c, raws, raws[i]);
  }

  /** The validator confirms what setup accepts under the same PCR0, provided the version is the expected one. */
  lemma ValidatorConfirmsSetup(t: Trust, cfg: Config, bucket: map<Address, Bytes>, raw: RawAttestation, version: nat)
    requires cfg.pcr0.Some? && IsLowerHex(cfg.pcr0.value)
    requires raw.address in bucket && bucket[raw.address] == raw.attestation
    ensures VerifyForSigner(t, bucket, raw.address, version, cfg.pcr0.value).Valid? <==>
              && Verifies(t, cfg, raw)
              && t.validate(raw.attestation).value.userData == Some(LittleEndian(version, 4))
  {
    var argument := cfg.pcr0.value;
    HexOfLower(argument);
    forall i | 0 <= i < |argument| ensures argument[i] != 'x' {
      assert IsLowerDigit(argument[i]);
    }
    HexHasNoPrefixes(argument);
    DecodesIffHex(argument);
    ValidIff(t, bucket, raw.address, version, argument, Decode(argument).value);
  }
}
