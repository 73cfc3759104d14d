/** What the ledger's sample of keys is: Algorithm R over the distinct keys, while no key
    returns once more distinct keys were acked than fit. */
module AckSampling {
  import opened Wrappers
  import opened Reservoir
  import opened Uniformity
  import opened AckHistory

  /** The ledger after a stream of acked keys, one draw for each. */
  function Replay(cap: nat, acked: seq<Member>, rands: seq<nat>): (r: (seq<Member>, nat))
    requires |rands| == |acked|
    ensures |r.0| <= cap
  {
    if acked == [] then ([], 0)
    else
      var n := |acked| - 1;
      var (keys, offers) := Replay(cap, acked[..n], rands[..n]);
      Step(cap, keys, offers, acked[n], rands[n])
  }

  /** The distinct keys of a stream, in the order they first came. */
  function Firsts(acked: seq<Member>): seq<Member> {
    if acked == [] then []
    else
      var n := |acked| - 1;
      if acked[n] in acked[..n] then Firsts(acked[..n]) else Firsts(acked[..n]) + [acked[n]]
  }

  lemma {:induction false} FirstsMeaning(acked: seq<Member>)
    ensures Distinct(Firsts(acked)) && |Firsts(acked)| <= |acked|
    ensures forall x :: x in Firsts(acked) <==> x in acked
  {
    if acked == [] {
    } else {
      var n := |acked| - 1;
      FirstsMeaning(acked[..n]);
      assert forall x :: x in acked <==> x in acked[..n] || x == acked[n];
    }
  }

  /** The `n`-th ack is of a new key, or comes while all keys still fit. */
  predicate FitsAt(cap: nat, acked: seq<Member>, n: nat)
    requires n < |acked|
  {
    acked[n] in acked[..n] ==> |Firsts(acked[..n])| <= cap
  }

  /** No key returns once more than `cap` distinct keys have been acked. */
  ghost predicate ReturnsFit(cap: nat, acked: seq<Member>) {
    forall n :: 0 <= n < |acked| ==> FitsAt(cap, acked, n)
  }

  lemma PrefixFits(cap: nat, acked: seq<Member>, n: nat)
    requires n <= |acked| && ReturnsFit(cap, acked)
    ensures ReturnsFit(cap, acked[..n])
  {
    forall i | 0 <= i < n
      ensures FitsAt(cap, acked[..n], i)
    {
      assert acked[..n][..i] == acked[..i];
      assert FitsAt(cap, acked, i);
    }
  }

  /** The draws that decide: those of new keys that no longer fit. */
  function Used(cap: nat, acked: seq<Member>, rands: seq<nat>): seq<nat>
    requires |rands| == |acked|
  {
    if acked == [] then []
    else
      var n := |acked| - 1;
      var d := |Firsts(acked[..n])|;
      Used(cap, acked[..n], rands[..n]) + if acked[n] in acked[..n] || d < cap then [] else [rands[n] % (d + 1)]
  }

  lemma {:induction false} UsedIsLegal(cap: nat, acked: seq<Member>, rands: seq<nat>)
    requires |rands| == |acked|
    ensures Legal(cap, Surplus(cap, acked), Used(cap, acked, rands))
  {
    if acked == [] {
    } else {
      UsedIsLegal(cap, acked[..|acked| - 1], rands[..|acked| - 1]);
    }
  }

  /** How many distinct keys do not fit. */
  function Surplus(cap: nat, acked: seq<Member>): nat {
    if |Firsts(acked)| < cap then 0 else |Firsts(acked)| - cap
  }

  /** The keys are those at the positions the draws keep. */
  ghost predicate KeptOf(cap: nat, keys: seq<Member>, xs: seq<Member>, u: seq<nat>) {
    && |keys| == Min(cap, |xs|)
    && (|xs| <= cap ==> keys == xs)
    && (cap <= |xs| ==> forall j :: 0 <= j < cap ==> Kept(cap, u)[j] < |xs| && keys[j] == xs[Kept(cap, u)[j]])
  }

  /** A new key is offered. */
  lemma KeptStep(cap: nat, keys: seq<Member>, xs: seq<Member>, u: seq<nat>, x: Member, draw: nat)
    requires KeptOf(cap, keys, xs, u) && |u| == if |xs| < cap then 0 else |xs| - cap
    ensures KeptOf(cap, Offer(cap, keys, x, draw), xs + [x], if |xs| < cap then u else u + [draw])
  {
    var keys', xs' := Offer(cap, keys, x, draw), xs + [x];
    if |xs| < cap {
      assert u == [];
      forall j | 0 <= j < cap <= |xs'|
        ensures Kept(cap, u)[j] < |xs'| && keys'[j] == xs'[Kept(cap, u)[j]]
      {
        assert Kept(cap, u)[j] == j;
      }
    } else {
      assert (u + [draw])[..|u|] == u;
      var kept, kept' := Kept(cap, u), Kept(cap, u + [draw]);
      assert kept' == if draw < cap then kept[draw := |xs|] else kept;
      forall j | 0 <= j < cap
        ensures kept'[j] < |xs'| && keys'[j] == xs'[kept'[j]]
      {
        assert kept[j] < |xs| && keys[j] == xs[kept[j]];
      }
    }
  }

  /** One more ack. */
  lemma SampledStep(cap: nat, front: seq<Member>, x: Member, keys: seq<Member>, u: seq<nat>, rand: nat)
    requires KeptOf(cap, keys, Firsts(front), u) && |u| == Surplus(cap, front)
    requires x in front ==> |Firsts(front)| <= cap
    ensures var d := |Firsts(front)|;
      var (keys', offers) := Step(cap, keys, d, x, rand);
      && KeptOf(cap, keys', Firsts(front + [x]), u + if x in front || d < cap then [] else [rand % (d + 1)])
      && offers == |Firsts(front + [x])|
  {
    var xs := Firsts(front);
    FirstsMeaning(front);
    assert (front + [x])[..|front|] == front;
    assert forall k :: k in keys ==> k in xs;
    assert u + [] == u;
    if x !in front {
      KeptStep(cap, keys, xs, u, x, rand % (|xs| + 1));
    }
  }

  /** While returning keys fit, the ledger is Algorithm R over the distinct keys. */
  lemma {:induction false} KeysAreSampled(cap: nat, acked: seq<Member>, rands: seq<nat>)
    requires |rands| == |acked| && ReturnsFit(cap, acked)
    ensures KeptOf(cap, Replay(cap, acked, rands).0, Firsts(acked), Used(cap, acked, rands))
    ensures Replay(cap, acked, rands).1 == |Firsts(acked)|
  {
    if acked == [] {
    } else {
      var n := |acked| - 1;
      var front, rfront := acked[..n], rands[..n];
      PrefixFits(cap, acked, n);
      KeysAreSampled(cap, front, rfront);
      UsedIsLegal(cap, front, rfront);
      assert FitsAt(cap, acked, n);
      var (keys, d) := (Replay(cap, front, rfront).0, |Firsts(front)|);
      assert Replay(cap, acked, rands) == Step(cap, keys, d, acked[n], rands[n]);
      assert front + [acked[n]] == acked;
      SampledStep(cap, front, acked[n], keys, Used(cap, front, rfront), rands[n]);
    }
  }

  lemma ReplayThree(cap: nat, a: Member, b: Member, c: Member, x: nat, y: nat, z: nat)
    ensures var (k1, n1) := Step(cap, [], 0, a, x);
      var (k2, n2) := Step(cap, k1, n1, b, y);
      Replay(cap, [a, b, c], [x, y, z]) == Step(cap, k2, n2, c, z)
  {
    assert [a, b, c][..2] == [a, b] && [a, b][..1] == [a] && [a][..0] == [];
    assert [x, y, z][..2] == [x, y] && [x, y][..1] == [x] && [x][..0] == [];
    assert Replay(cap, [a], [x]) == Step(cap, [], 0, a, x);
  }

  /** The draws for acks of A, B and A again that keep `want`. */
  ghost function Keeping(a: Member, b: Member, want: Member): set<(int, int)> {
    set y, z | 0 <= y < 2 && 0 <= z < 3 && Replay(1, [a, b, a], [0, y, z]).0 == [want] :: (y, z)
  }

  lemma AfterReturn(a: Member, b: Member, y: nat, z: nat)
    requires a != b && y < 2 && z < 3
    ensures Replay(1, [a, b, a], [0, y, z]).0 == if y == 1 || z == 0 then [a] else [b]
  {
    ReplayThree(1, a, b, a, 0, y, z);
    assert [] + [a] == [a] && [a][0 := b] == [b] && [b][0 := a] == [a];
    assert Step(1, [], 0, a, 0) == ([a], 1);
    assert Step(1, [a], 1, b, y) == (if y == 0 then [b] else [a], 2);
  }

  /** A returning key is favoured: of the six equally likely draws, four keep A. */
  lemma ReturningKeyIsFavoured(a: Member, b: Member)
    requires a != b
    ensures |Keeping(a, b, a)| == 4 && |Keeping(a, b, b)| == 2
  {
    forall y: nat, z: nat | y < 2 && z < 3
      ensures (y, z) in Keeping(a, b, a) <==> y == 1 || z == 0
      ensures (y, z) in Keeping(a, b, b) <==> y == 0 && z != 0
    {
      AfterReturn(a, b, y, z);
      assert [a][0] != [b][0];
    }
    assert Keeping(a, b, a) == {(0, 0), (1, 0), (1, 1), (1, 2)};
    assert Keeping(a, b, b) == {(0, 1), (0, 2)};
  }
}
