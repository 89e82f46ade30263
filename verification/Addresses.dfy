/** Ethereum addresses, and lists of addresses without repetition. */
module Addresses {

  // 2^160
  const ADDRESS_SPACE: nat := 0x1_0000000000_0000000000_0000000000_0000000000
  const UINT256_MAX: nat := 0xFFFFFFFFFFFFFFFF_FFFFFFFFFFFFFFFF_FFFFFFFFFFFFFFFF_FFFFFFFFFFFFFFFF

  type Address = a: nat | a < ADDRESS_SPACE
  type Uint256 = n: nat | n <= UINT256_MAX

  const ZERO: Address := 0

  function ToSet<T>(s: seq<T>): set<T> {
    set x | x in s
  }

  ghost predicate NoDuplicates<T>(s: seq<T>) {
    forall i, j | 0 <= i < j < |s| :: s[i] != s[j]
  }

  function IndexOf<T(==)>(s: seq<T>, x: T): (i: nat)
    requires x in s
    ensures i < |s| && s[i] == x && x !in s[..i]
  {
    if s[0] == x then 0 else 1 + IndexOf(s[1..], x)
  }

  lemma {:induction false} CardinalityOfList<T>(s: seq<T>)
    requires NoDuplicates(s)
    ensures |ToSet(s)| == |s|
  {
    if s == [] {
    } else {
      CardinalityOfList(s[1..]);
      assert ToSet(s) == ToSet(s[1..]) + {s[0]};
    }
  }

  lemma {:induction false} CardinalityBelow(xs: set<int>, bound: nat)
    requires forall x | x in xs :: 0 <= x < bound
    ensures |xs| <= bound
    decreases bound
  {
    if bound > 0 {
      CardinalityBelow(xs - {bound - 1}, bound - 1);
      assert |xs| <= |xs - {bound - 1}| + 1;
    } else {
      forall x ensures x !in xs {}
      assert xs <= {};
    }
  }

  /** Pigeonhole: a list of distinct addresses cannot outgrow the address space, far below `uint256`. */
  lemma DistinctAddressesFit(s: seq<Address>)
    requires NoDuplicates(s)
    ensures |s| <= ADDRESS_SPACE < UINT256_MAX
  {
    CardinalityOfList(s);
    var xs: set<int> := ToSet(s);
    CardinalityBelow(xs, ADDRESS_SPACE);
  }
}
