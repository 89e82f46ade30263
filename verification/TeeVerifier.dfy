/** The owner-controlled state of the verifier contract: owner, signer list and event log. */
module TeeVerifiers {
  import opened Addresses
  import opened SignersMaps

  datatype Event =
    | OwnershipTransferred(previousOwner: Address, newOwner: Address)
    | OwnershipRenounced(previousOwner: Address)
    | SignerAdded(signer: Address)
    | SignerRemoved(signer: Address)

  datatype Call =
    | AddSigner(signer: Address)
    | RemoveSigner(signer: Address)
    | TransferOwnership(newOwner: Address)
    | RenounceOwnership

  datatype Transaction = Transaction(sender: Address, call: Call)

  const ONLY_OWNER := "Only the owner can call this function"
  const ZERO_SIGNER := "Signer cannot be the zero address"
  const ZERO_OWNER := "Owner cannot be the zero address"
  const ZERO_NEW_OWNER := "New owner cannot be the zero address"

  /** The contract's state as a value. */
  datatype Contract = Contract(owner: Address, signers: seq<Address>, log: seq<Event>)

  function Deployed(owner: Address): Contract {
    Contract(owner, [], [OwnershipTransferred(ZERO, owner)])
  }

  /** One transaction: a revert leaves the state as it was. */
  function Transact(c: Contract, tx: Transaction): (Contract, Outcome) {
    if tx.sender != c.owner then (c, Revert(ONLY_OWNER))
    else
      match tx.call
      case AddSigner(signer) =>
        if signer == ZERO then (c, Revert(ZERO_SIGNER)) else Logged(c, Added(c.signers, signer), SignerAdded(signer))
      case RemoveSigner(signer) =>
        Logged(c, Removed(c.signers, signer), SignerRemoved(signer))
      case TransferOwnership(newOwner) =>
        if newOwner == ZERO then (c, Revert(ZERO_NEW_OWNER))
        else (c.(owner := newOwner, log := c.log + [OwnershipTransferred(c.owner, newOwner)]), Success)
      case RenounceOwnership =>
        (c.(owner := ZERO, log := c.log + [OwnershipRenounced(c.owner)]), Success)
  }

  function Logged(c: Contract, change: (seq<Address>, Outcome), event: Event): (Contract, Outcome) {
    if change.1.Success? then (c.(signers := change.0, log := c.log + [event]), Success) else (c, change.1)
  }

  class TeeVerifier {
    var owner: Address
    const signersMap: SignersMap
    var log: seq<Event>

    ghost predicate Valid()
      reads this, signersMap
    {
      signersMap.Valid()
    }

    ghost function State(): Contract
      reads this, signersMap
    {
      Contract(owner, signersMap.signers, log)
    }

    constructor (initialOwner: Address)
      ensures Valid() && fresh(signersMap)
      ensures State() == Deployed(initialOwner)
    {
      owner := initialOwner;
      log := [OwnershipTransferred(ZERO, initialOwner)];
      var signers := new SignersMap();
      signersMap := signers;
    }

    /** Deployment reverts, creating nothing, when the owner is the zero address. */
    static method Deploy(initialOwner: Address) returns (verifier: TeeVerifier?, outcome: Outcome)
      ensures initialOwner == 0 ==> verifier == null && outcome == Revert("Owner cannot be the zero address")
      ensures initialOwner != 0 ==>
                && outcome == Success && verifier != null && fresh(verifier) && fresh(verifier.signersMap)
                && verifier.Valid() && verifier.State() == Deployed(initialOwner)
                && verifier.owner == initialOwner && verifier.signersMap.signers == []
                && verifier.log == [OwnershipTransferred(0, initialOwner)]
    {
      if initialOwner == ZERO {
        return null, Revert(ZERO_OWNER);
      }
      verifier := new TeeVerifier(initialOwner);
      outcome := Success;
    }

    method AddSigner(sender: Address, signer: Address) returns (outcome: Outcome)
      requires Valid()
      modifies this, signersMap
      ensures Valid()
      ensures (State(), outcome) == Transact(old(State()), Transaction(sender, Call.AddSigner(signer)))
    {
      if sender != owner {
        return Revert(ONLY_OWNER);
      }
      if signer == ZERO {
        return Revert(ZERO_SIGNER);
      }
      outcome := signersMap.AddSigner(signer);
      if outcome.Success? {
        log := log + [SignerAdded(signer)];
      }
    }

    method RemoveSigner(sender: Address, signer: Address) returns (outcome: Outcome)
      requires Valid()
      modifies this, signersMap
      ensures Valid()
      ensures (State(), outcome) == Transact(old(State()), Transaction(sender, Call.RemoveSigner(signer)))
    {
      if sender != owner {
        return Revert(ONLY_OWNER);
      }
      outcome := signersMap.RemoveSigner(signer);
      if outcome.Success? {
        log := log + [SignerRemoved(signer)];
      }
    }

    method TransferOwnership(sender: Address, newOwner: Address) returns (outcome: Outcome)
      requires Valid()
      modifies this
      ensures Valid()
      ensures (State(), outcome) == Transact(old(State()), Transaction(sender, Call.TransferOwnership(newOwner)))
    {
      if sender != owner {
        return Revert(ONLY_OWNER);
      }
      if newOwner == ZERO {
        return Revert(ZERO_NEW_OWNER);
      }
      var previousOwner := owner;
      owner := newOwner;
      log := log + [OwnershipTransferred(previousOwner, newOwner)];
      return Success;
    }

    method RenounceOwnership(sender: Address) returns (outcome: Outcome)
      requires Valid()
      modifies this
      ensures Valid()
      ensures (State(), outcome) == Transact(old(State()), Transaction(sender, Call.RenounceOwnership))
    {
      if sender != owner {
        return Revert(ONLY_OWNER);
      }
      var previousOwner := owner;
      owner := ZERO;
      log := log + [OwnershipRenounced(previousOwner)];
      return Success;
    }
  }

  // ----- What the log says -----

  /** The signer set that an observer of the events computes. */
  function ReplayedSigners(log: seq<Event>): set<Address> {
    if log == [] then {}
    else
      var before := ReplayedSigners(log[..|log| - 1]);
      match log[|log| - 1]
      case SignerAdded(signer) => before + {signer}
      case SignerRemoved(signer) => before - {signer}
      case _ => before
  }

  /** The owner that an observer of the events computes. */
  function ReplayedOwner(log: seq<Event>): Address {
    if log == [] then ZERO
    else
      match log[|log| - 1]
      case OwnershipTransferred(_, newOwner) => newOwner
      case OwnershipRenounced(_) => ZERO
      case _ => ReplayedOwner(log[..|log| - 1])
  }

  /** The additions (true) and removals (false) of one address, in order. */
  function History(log: seq<Event>, a: Address): seq<bool> {
    if log == [] then []
    else
      var before := History(log[..|log| - 1], a);
      match log[|log| - 1]
      case SignerAdded(signer) => if signer == a then before + [true] else before
      case SignerRemoved(signer) => if signer == a then before + [false] else before
      case _ => before
  }

  /** Additions and removals alternate, starting with an addition. */
  ghost predicate Alternates(history: seq<bool>) {
    forall i | 0 <= i < |history| :: history[i] <==> i % 2 == 0
  }

  /** What every reachable contract state satisfies. */
  ghost predicate Consistent(c: Contract) {
    && NoDuplicates(c.signers)
    && ZERO !in c.signers
    && ReplayedSigners(c.log) == ToSet(c.signers)
    && ReplayedOwner(c.log) == c.owner
    && forall a: Address ::
         && Alternates(History(c.log, a))
         && (a in ToSet(c.signers) <==> |History(c.log, a)| % 2 == 1)
  }

  /** The exact conditions under which a transaction goes through; nobody but the owner changes anything. */
  lemma TransactionSucceedsIff(c: Contract, tx: Transaction)
    ensures Transact(c, tx).1.Success? <==>
              && tx.sender == c.owner
              && (tx.call.AddSigner? ==> tx.call.signer != ZERO && tx.call.signer !in ToSet(c.signers))
              && (tx.call.RemoveSigner? ==> tx.call.signer in ToSet(c.signers))
              && (tx.call.TransferOwnership? ==> tx.call.newOwner != ZERO)
    ensures Transact(c, tx).1.Revert? <==> Transact(c, tx).0 == c
  {
    var after := Transact(c, tx).0;
    if Transact(c, tx).1.Success? {
      assert |after.log| == |c.log| + 1;
    }
  }

  /** The list without the signer at index `i`, whose place the last one takes. */
  ghost predicate SwappedOut(s: seq<Address>, i: nat, after: seq<Address>) {
    && i < |s|
    && after == if i == |s| - 1 then s[..i] else s[..i] + [s[|s| - 1]] + s[i + 1..|s| - 1]
  }

  /** What a successful transaction does to owner, signers and log. */
  lemma TransactionEffect(c: Contract, tx: Transaction)
    requires Transact(c, tx).1.Success?
    ensures var after := Transact(c, tx).0;
            match tx.call
            case AddSigner(signer) =>
              && after.owner == c.owner && after.signers == c.signers + [signer]
              && after.log == c.log + [SignerAdded(signer)]
            case RemoveSigner(signer) =>
              && after.owner == c.owner && after.log == c.log + [SignerRemoved(signer)]
              && exists i :: 0 <= i < |c.signers| && c.signers[i] == signer && SwappedOut(c.signers, i, after.signers)
            case TransferOwnership(newOwner) =>
              && after.owner == newOwner && after.signers == c.signers
              && after.log == c.log + [OwnershipTransferred(c.owner, newOwner)]
            case RenounceOwnership =>
              && after.owner == 0 && after.signers == c.signers && after.log == c.log + [OwnershipRenounced(c.owner)]
  {
    if tx.call.RemoveSigner? {
      assert SwappedOut(c.signers, IndexOf(c.signers, tx.call.signer), Transact(c, tx).0.signers);
    }
  }

  /** Why a transaction reverts: not being sent by the owner comes first. */
  lemma RevertReasons(c: Contract, tx: Transaction)
    ensures var outcome := Transact(c, tx).1;
            && (outcome == Revert("Only the owner can call this function") <==> tx.sender != c.owner)
            && (outcome == Revert("Signer cannot be the zero address") <==>
                  tx.sender == c.owner && tx.call.AddSigner? && tx.call.signer == 0)
            && (outcome == Revert("Signer already exists") <==>
                  tx.sender == c.owner && tx.call.AddSigner? && tx.call.signer != 0 && tx.call.signer in c.signers)
            && (outcome == Revert("Signer does not exist") <==>
                  tx.sender == c.owner && tx.call.RemoveSigner? && tx.call.signer !in c.signers)
            && (outcome == Revert("New owner cannot be the zero address") <==>
                  tx.sender == c.owner && tx.call.TransferOwnership? && tx.call.newOwner == 0)
  {
    assert |ONLY_OWNER| == 37 && |ZERO_SIGNER| == 33 && |ALREADY_EXISTS| == 21 && |ZERO_NEW_OWNER| == 36;
    assert ALREADY_EXISTS[7] == 'a' && DOES_NOT_EXIST[7] == 'd';
  }

  lemma TransactionKeepsConsistency(c: Contract, tx: Transaction)
    requires Consistent(c)
    ensures Consistent(Transact(c, tx).0)
  {
    var (after, outcome) := Transact(c, tx);
    if outcome.Success? {
      var last := |after.log| - 1;
      assert after.log[..last] == c.log;
      if tx.call.AddSigner? {
        RefinesSet(c.signers, tx.call.signer);
      } else if tx.call.RemoveSigner? {
        RefinesSet(c.signers, tx.call.signer);
      }
      forall a: Address
        ensures Alternates(History(after.log, a))
        ensures a in ToSet(after.signers) <==> |History(after.log, a)| % 2 == 1
      {
        assert Alternates(History(c.log, a));
      }
    }
  }

  function Run(c: Contract, txs: seq<Transaction>): Contract
    decreases |txs|
  {
    if txs == [] then c else Run(Transact(c, txs[0]).0, txs[1..])
  }

  lemma {:induction false} RunKeepsConsistency(c: Contract, txs: seq<Transaction>)
    requires Consistent(c)
    ensures Consistent(Run(c, txs))
    decreases |txs|
  {
    if txs == [] {
    } else {
      TransactionKeepsConsistency(c, txs[0]);
      RunKeepsConsistency(Transact(c, txs[0]).0, txs[1..]);
    }
  }

  /** Main result on the registry: every run from deployment, reverts included, stays consistent with its log. */
  lemma EveryRunIsConsistent(owner: Address, txs: seq<Transaction>)
    ensures Consistent(Run(Deployed(owner), txs))
    ensures |Run(Deployed(owner), txs).signers| <= ADDRESS_SPACE
  {
    var c := Deployed(owner);
    assert c.log[..0] == [];
    assert ReplayedOwner(c.log) == owner;
    assert forall a: Address :: History(c.log, a) == [];
    RunKeepsConsistency(c, txs);
    DistinctAddressesFit(Run(c, txs).signers);
  }

  /** Ownership, once renounced, is gone: no account (none has address zero) can change the contract again. */
  lemma {:induction false} RenouncedIsFinal(c: Contract, txs: seq<Transaction>)
    requires c.owner == ZERO
    requires forall tx | tx in txs :: tx.sender != ZERO
    ensures Run(c, txs) == c
    decreases |txs|
  {
    if txs == [] {
    } else {
      assert txs[0] in txs;
      RenouncedIsFinal(c, txs[1..]);
    }
  }

  /**
   * Renouncing is final: the owner who does it gives up ownership, leaves the signers as they are, and from then on
   * no sequence of transactions changes anything.
   */
  lemma RenouncingIsFinal(c: Contract, txs: seq<Transaction>)
    requires forall tx | tx in txs :: tx.sender != 0
    ensures Run(c, [Transaction(c.owner, RenounceOwnership)] + txs)
         == Contract(0, c.signers, c.log + [OwnershipRenounced(c.owner)])
  {
    var renounce := Transaction(c.owner, RenounceOwnership);
    assert ([renounce] + txs)[1..] == txs;
    RenouncedIsFinal(Transact(c, renounce).0, txs);
  }
}
