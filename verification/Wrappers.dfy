/** Types, arithmetic and a few facts of collections shared by the whole project. */
module Wrappers {
  datatype Option<+T> = None | Some(value: T)

  /** One minted identity: an aggregate and the client writing it. */
  datatype Member = Member(aggregateId: nat, clientId: nat)

  const U64_MAX: nat := 0xFFFF_FFFF_FFFF_FFFF

  function Min(a: nat, b: nat): nat { if a < b then a else b }
  function Max(a: nat, b: nat): nat { if a < b then b else a }

  /** Appending to a list is appending to its tail. */
  lemma HeadFirst<T>(a: seq<T>, b: seq<T>)
    requires a != []
    ensures a + b == [a[0]] + (a[1..] + b)
  {
  }

  lemma SubsetSize<T>(a: set<T>, b: set<T>)
    requires a <= b
    ensures |a| + |b - a| == |b|
  {
    assert b == a + (b - a);
  }

  lemma SizeDifference<T>(a: set<T>, b: set<T>)
    ensures |a| - |b| == |a - b| - |b - a|
  {
    SubsetSize(a * b, a);
    SubsetSize(a * b, b);
    assert a - a * b == a - b;
    assert b - a * b == b - a;
  }
}
