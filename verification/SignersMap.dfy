/** The iterable signer map: three storage fields kept in step by swap-and-pop removal. */
module SignersMaps {
  import opened Addresses

  datatype Outcome = Success | Revert(reason: string)

  const ALREADY_EXISTS := "Signer already exists"
  const DOES_NOT_EXIST := "Signer does not exist"

  /** A Solidity mapping read: absent keys hold the default value. */
  function Lookup<V>(m: map<Address, V>, key: Address, default: V): V {
    if key in m then m[key] else default
  }

  /** The list after the last element has moved into slot `i`. */
  function SwapRemove(s: seq<Address>, i: nat): (r: seq<Address>)
    requires i < |s|
    ensures |r| == |s| - 1
  {
    var last := |s| - 1;
    if i == last then s[..last] else s[..last][i := s[last]]
  }

  /** What the list of signers becomes under an addition; `None` of the three fields changes on a revert. */
  function Added(s: seq<Address>, signer: Address): (seq<Address>, Outcome) {
    if signer in s then (s, Revert(ALREADY_EXISTS)) else (s + [signer], Success)
  }

  function Removed(s: seq<Address>, signer: Address): (seq<Address>, Outcome) {
    if signer in s then (SwapRemove(s, IndexOf(s, signer)), Success) else (s, Revert(DOES_NOT_EXIST))
  }

  /** The list determines the membership map. */
  ghost predicate MembersInStep(member: map<Address, bool>, signers: seq<Address>) {
    forall a: Address :: Lookup(member, a, false) <==> a in signers
  }

  /** The list determines the index map; absent keys have index 0, like the first signer. */
  ghost predicate IndicesInStep(signers: seq<Address>, signerIndex: map<Address, Uint256>) {
    && (forall i | 0 <= i < |signers| :: Lookup(signerIndex, signers[i], 0) == i)
    && (forall a: Address | a !in signers :: Lookup(signerIndex, a, 0) == 0)
  }

  class SignersMap {
    var member: map<Address, bool>
    var signers: seq<Address>
    var signerIndex: map<Address, Uint256>

    ghost predicate Valid()
      reads this
    {
      NoDuplicates(signers) && MembersInStep(member, signers) && IndicesInStep(signers, signerIndex)
    }

    constructor ()
      ensures Valid() && signers == []
    {
      member, signers, signerIndex := map[], [], map[];
    }

    method AddSigner(signer: Address) returns (outcome: Outcome)
      requires Valid()
      modifies this
      ensures Valid()
      ensures (signers, outcome) == Added(old(signers), signer)
    {
      if Lookup(member, signer, false) {
        return Revert(ALREADY_EXISTS);
      }
      member := member[signer := true];
      signers := signers + [signer];
      DistinctAddressesFit(signers);
      var length: Uint256 := |signers|;
      signerIndex := signerIndex[signer := length - 1];
      return Success;
    }

    method RemoveSigner(signer: Address) returns (outcome: Outcome)
      requires Valid()
      modifies this
      ensures Valid()
      ensures (signers, outcome) == Removed(old(signers), signer)
    {
      if !Lookup(member, signer, false) {
        return Revert(DOES_NOT_EXIST);
      }
      DistinctAddressesFit(signers);
      MembersStayInStep(member, signers, signer);
      IndicesStayInStep(signers, signerIndex, IndexOf(signers, signer));
      member := member[signer := false];
      var indexToRemove := Lookup(signerIndex, signer, 0);
      signerIndex := signerIndex - {signer};
      var length: Uint256 := |signers|;
      var last: Uint256 := length - 1;
      if indexToRemove == last {
        signers := signers[..last];
        return Success;
      }
      var lastSigner := signers[last];
      signers := signers[indexToRemove := lastSigner];
      signerIndex := signerIndex[lastSigner := indexToRemove];
      signers := signers[..last];
      assert signers == SwapRemove(old(signers), indexToRemove);
      return Success;
    }

    method IsSigner(signer: Address) returns (found: bool)
      requires Valid()
      ensures found <==> signer in ToSet(signers)
    {
      found := Lookup(member, signer, false);
    }

    method GetSigners() returns (list: seq<Address>)
      requires Valid()
      ensures list == signers && NoDuplicates(list)
    {
      list := signers;
    }
  }

  /** Removal takes exactly one signer away, keeps the rest distinct and moves at most one of them. */
  lemma SwapRemoveEffect(s: seq<Address>, i: nat)
    requires NoDuplicates(s) && i < |s|
    ensures NoDuplicates(SwapRemove(s, i))
    ensures ToSet(SwapRemove(s, i)) == ToSet(s) - {s[i]}
    ensures forall j | 0 <= j < |s| - 1 && j != i :: SwapRemove(s, i)[j] == s[j]
    ensures i < |s| - 1 ==> SwapRemove(s, i)[i] == s[|s| - 1]
  {
    var r := SwapRemove(s, i);
    forall a | a in ToSet(s) - {s[i]} ensures a in r {
      var j :| 0 <= j < |s| && s[j] == a;
      if j < |s| - 1 {
        assert r[j] == a;
      } else {
        assert r[i] == a;
      }
    }
    forall a | a in r ensures a in ToSet(s) - {s[i]} {
      var j :| 0 <= j < |r| && r[j] == a;
      assert a == if j == i then s[|s| - 1] else s[j];
    }
  }

  lemma MembersStayInStep(member: map<Address, bool>, signers: seq<Address>, signer: Address)
    requires NoDuplicates(signers) && MembersInStep(member, signers) && signer in signers
    ensures NoDuplicates(SwapRemove(signers, IndexOf(signers, signer)))
    ensures MembersInStep(member[signer := false], SwapRemove(signers, IndexOf(signers, signer)))
  {
    var i := IndexOf(signers, signer);
    SwapRemoveEffect(signers, i);
    var after := SwapRemove(signers, i);
    forall a: Address ensures a in after <==> a in signers && a != signer {
      assert a in after <==> a in ToSet(after);
      assert a in signers <==> a in ToSet(signers);
    }
  }

  /** What one removal makes of the indices: the removed signer's entry is reset, and the moved one's updated. */
  function IndicesAfter(signers: seq<Address>, signerIndex: map<Address, Uint256>, i: nat): map<Address, Uint256>
    requires i < |signers| <= UINT256_MAX
  {
    var last, without := |signers| - 1, signerIndex - {signers[i]};
    if i == last then without else without[signers[last] := i]
  }

  lemma IndicesStayInStep(signers: seq<Address>, signerIndex: map<Address, Uint256>, i: nat)
    requires NoDuplicates(signers) && IndicesInStep(signers, signerIndex) && i < |signers| <= UINT256_MAX
    ensures IndicesInStep(SwapRemove(signers, i), IndicesAfter(signers, signerIndex, i))
  {
    SwapRemoveEffect(signers, i);
    var last, after, index := |signers| - 1, SwapRemove(signers, i), IndicesAfter(signers, signerIndex, i);
    forall k | 0 <= k < |after| ensures Lookup(index, after[k], 0) == k {
      assert k != i ==> after[k] == signers[k] && signers[k] != signers[i] && signers[k] != signers[last];
      assert Lookup(signerIndex, signers[k], 0) == k;
    }
    forall a: Address | a !in after ensures Lookup(index, a, 0) == 0 {
      if a in signers {
        assert a in ToSet(signers) && a !in ToSet(after);
      }
    }
  }

  /** The structure refines a finite set: both operations succeed exactly when they should and change it by one. */
  lemma RefinesSet(s: seq<Address>, a: Address)
    requires NoDuplicates(s)
    ensures Added(s, a).1.Success? <==> a !in ToSet(s)
    ensures Removed(s, a).1.Success? <==> a in ToSet(s)
    ensures NoDuplicates(Added(s, a).0) && NoDuplicates(Removed(s, a).0)
    ensures ToSet(Added(s, a).0) == ToSet(s) + {a}
    ensures ToSet(Removed(s, a).0) == ToSet(s) - {a}
  {
    if a in s {
      SwapRemoveEffect(s, IndexOf(s, a));
    }
  }

  /** Removing a signer just added restores the exact list. */
  lemma RemoveUndoesAdd(s: seq<Address>, a: Address)
    requires a !in s
    ensures Removed(Added(s, a).0, a) == (s, Success)
  {
    var t := s + [a];
    var i := IndexOf(t, a);
    assert t[i] == a && i == |s|;
  }

  /** Adding back a signer just removed restores the exact list only if it was the last one. */
  lemma AddUndoesRemoveOnlyAtTheEnd(s: seq<Address>, a: Address)
    requires NoDuplicates(s) && a in s
    ensures Added(Removed(s, a).0, a).0 == s <==> s[|s| - 1] == a
  {
    var i := IndexOf(s, a);
    SwapRemoveEffect(s, i);
    var r := Removed(s, a).0;
    assert a !in ToSet(r);
    if s[|s| - 1] == a {
      assert i == |s| - 1;
      assert r + [a] == s;
    } else {
      assert (r + [a])[|s| - 1] == a;
    }
  }

  /** Removes the given signers one after another, stopping at the first revert. */
  function RemovedAll(s: seq<Address>, order: seq<Address>): (seq<Address>, Outcome)
    decreases |order|
  {
    if order == [] then (s, Success)
    else
      var (rest, outcome) := Removed(s, order[0]);
      if outcome.Revert? then (rest, outcome) else RemovedAll(rest, order[1..])
  }

  /** Removing distinct signers in any order succeeds exactly when all are present, leaving the others. */
  lemma {:induction false} RemovalInAnyOrder(s: seq<Address>, order: seq<Address>)
    requires NoDuplicates(s) && NoDuplicates(order)
    ensures RemovedAll(s, order).1.Success? <==> ToSet(order) <= ToSet(s)
    ensures RemovedAll(s, order).1.Success? ==>
              && ToSet(RemovedAll(s, order).0) == ToSet(s) - ToSet(order)
              && |RemovedAll(s, order).0| == |s| - |order|
    decreases |order|
  {
    if order == [] {
      assert ToSet(order) == {};
    } else {
      var a, rest := order[0], order[1..];
      assert ToSet(order) == {a} + ToSet(rest) && a !in ToSet(rest);
      RefinesSet(s, a);
      if a in s {
        RemovalInAnyOrder(Removed(s, a).0, rest);
      }
    }
  }

  /** In particular a snapshot of the signers can be removed in any permuted order, ending empty. */
  lemma DrainAnyPermutation(s: seq<Address>, order: seq<Address>)
    requires NoDuplicates(s) && multiset(order) == multiset(s)
    ensures RemovedAll(s, order) == ([], Success)
  {
    DistinctByMultiplicity(s);
    DistinctByMultiplicity(order);
    forall a ensures a in order <==> a in s {
      assert a in multiset(order) <==> a in multiset(s);
    }
    RemovalInAnyOrder(s, order);
    assert |order| == |multiset(order)| == |multiset(s)| == |s|;
  }

  lemma {:induction false} DistinctByMultiplicity<T>(s: seq<T>)
    ensures NoDuplicates(s) <==> forall x | x in s :: multiset(s)[x] == 1
  {
    if s == [] {
    } else {
      var rest := s[1..];
      assert s == [s[0]] + rest;
      assert multiset(s) == multiset{s[0]} + multiset(rest);
      DistinctByMultiplicity(rest);
      if NoDuplicates(s) {
        assert s[0] !in rest;
      } else if forall x | x in s :: multiset(s)[x] == 1 {
        assert multiset(s)[s[0]] == 1;
        assert s[0] !in multiset(rest);
        forall x | x in rest ensures multiset(rest)[x] == 1 {
          assert x in s;
        }
      }
    }
  }
}
