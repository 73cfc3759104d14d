/** Algorithm R, and the latency digest built on it. */
module Reservoir {

  /** One offer: fill up to `k`, then let draw `j` overwrite slot `j` if it names one. */
  function Offer<T>(k: nat, kept: seq<T>, x: T, j: nat): (r: seq<T>)
    requires |kept| <= k
    ensures |r| == if |kept| < k then |kept| + 1 else k
  {
    if |kept| < k then kept + [x]
    else if j < k then kept[j := x]
    else kept
  }

  /** The draw for the (n+1)-th offer is taken below n + 1, and only when full. */
  ghost predicate LegalDraws(k: nat, n: nat, draws: seq<nat>) {
    |draws| == n && forall i :: k <= i < n ==> draws[i] <= i
  }

  /** The reservoir after a whole stream. */
  function Sample<T>(k: nat, xs: seq<T>, draws: seq<nat>): (r: seq<T>)
    requires |draws| == |xs|
    ensures |r| == if |xs| < k then |xs| else k
  {
    if xs == [] then []
    else
      var n := |xs| - 1;
      Offer(k, Sample(k, xs[..n], draws[..n]), xs[n], draws[n])
  }

  /** Everything kept was offered. */
  lemma {:induction false} SampleIsDrawnFrom<T>(k: nat, xs: seq<T>, draws: seq<nat>)
    requires |draws| == |xs|
    ensures forall i :: 0 <= i < |Sample(k, xs, draws)| ==> Sample(k, xs, draws)[i] in xs
  {
    if xs == [] {
    } else {
      var n := |xs| - 1;
      SampleIsDrawnFrom(k, xs[..n], draws[..n]);
      assert forall x :: x in xs[..n] ==> x in xs;
    }
  }

  ghost predicate Distinct<T>(s: seq<T>) {
    forall i, j :: 0 <= i < j < |s| ==> s[i] != s[j]
  }

  /** Distinct offers stay distinct. */
  lemma {:induction false} SampleStaysDistinct<T>(k: nat, xs: seq<T>, draws: seq<nat>)
    requires |draws| == |xs| && Distinct(xs)
    ensures Distinct(Sample(k, xs, draws))
  {
    if xs == [] {
    } else {
      var n := |xs| - 1;
      SampleStaysDistinct(k, xs[..n], draws[..n]);
      SampleIsDrawnFrom(k, xs[..n], draws[..n]);
      var kept := Sample(k, xs[..n], draws[..n]);
      forall i | 0 <= i < |kept|
        ensures kept[i] != xs[n]
      {
        var j :| 0 <= j < n && xs[..n][j] == kept[i];
      }
      assert Distinct(Offer(k, kept, xs[n], draws[n]));
    }
  }

  /** `LatencyDigest`, and `LatencyReservoir`, which is the same code. The random
      draw is the caller's. */
  class LatencyDigest {
    const cap: nat
    var samples: seq<nat>
    var count: nat
    ghost var recorded: seq<nat>
    ghost var draws: seq<nat>

    ghost predicate Valid()
      reads this
    {
      && 0 < cap
      && count == |recorded|
      && LegalDraws(cap, count, draws)
      && samples == Sample(cap, recorded, draws)
    }

    constructor (cap: nat)
      ensures Valid() && recorded == [] && this.cap == if cap == 0 then 1 else cap
    {
      this.cap := if cap == 0 then 1 else cap;
      samples, count, recorded, draws := [], 0, [], [];
    }

    method Record(micros: nat, draw: nat)
      requires Valid()
      requires draw <= count
      modifies this
      ensures Valid()
      ensures recorded == old(recorded) + [micros]
      ensures draws == old(draws) + [draw]
    {
      count := count + 1;
      recorded := recorded + [micros];
      draws := draws + [draw];
      assert recorded[..count - 1] == old(recorded) && draws[..count - 1] == old(draws);
      if |samples| < cap {
        samples := samples + [micros];
      } else if draw < cap {
        samples := samples[draw := micros];
      }
    }
  }
}
