/** When the ledger's sample of keys is uniform, by counting random numbers. */
module AckUniform {
  import opened Wrappers
  import opened Reservoir
  import opened Uniformity
  import opened AckHistory
  import opened AckSampling
  import Words

  /** All sequences of `n` random numbers below `bound`. */
  function Rands(bound: nat, n: nat): set<seq<nat>> {
    if n == 0 then {[]}
    else set d, j {:trigger d + [j]} | d in Rands(bound, n - 1) && j in Range(bound) :: d + [j]
  }

  lemma {:induction false} RandsMeaning(bound: nat, n: nat, r: seq<nat>)
    ensures r in Rands(bound, n) <==> |r| == n && forall i :: 0 <= i < n ==> r[i] < bound
  {
    if n == 0 {
    } else if r != [] {
      var front, last := r[..|r| - 1], r[|r| - 1];
      RandsMeaning(bound, n - 1, front);
      assert r == front + [last];
      if r in Rands(bound, n) {
        var d, j :| d in Rands(bound, n - 1) && j in Range(bound) && r == d + [j];
        AppendInjective(d, j, front, last);
      }
    }
  }

  /** Every number the draws of `n` acks may be reduced by divides the bound, so that the
      reduced draws are unbiased. */
  ghost predicate Fine(bound: nat, n: nat) {
    0 < bound && forall m {:trigger bound % m} :: 1 <= m <= n ==> bound % m == 0
  }

  lemma {:induction false} FactorialDivides(n: nat, m: nat)
    requires 1 <= m <= n
    ensures Factorial(n) % m == 0
    decreases n
  {
    var rest := Factorial(n - 1);
    assert Factorial(n) == n * rest;
    if m < n {
      FactorialDivides(n - 1, m);
      Multiple(rest, m, n);
    } else {
      Multiple(n, n, rest);
      Commutes(n, rest);
    }
  }

  lemma Commutes(a: nat, b: nat)
    ensures a * b == b * a
  {
  }

  /** Such bounds exist. */
  lemma FactorialIsFine(n: nat)
    ensures Fine(Factorial(n), n)
  {
    FactorialPositive(n);
    forall m | 1 <= m <= n
      ensures Factorial(n) % m == 0
    {
      FactorialDivides(n, m);
    }
  }

  lemma {:induction false} FactorialPositive(m: nat)
    ensures 0 < Factorial(m)
  {
    if m == 0 {
    } else {
      FactorialPositive(m - 1);
      Positive(m, Factorial(m - 1));
    }
  }

  lemma Positive(a: nat, b: nat)
    requires 0 < a && 0 < b
    ensures 0 < a * b
  {
  }

  lemma Multiple(a: nat, m: nat, k: nat)
    requires 0 < m && a % m == 0
    ensures (k * a) % m == 0
  {
    assert a == (a / m) * m;
    assert k * a == (k * (a / m)) * m + 0;
    Words.QuotientAndRemainder(k * (a / m), 0, m);
  }

  // Residues.

  function Residues(b: nat, q: nat, j: nat): set<nat>
    requires 0 < q
  {
    set x | x in Range(b) && x % q == j
  }

  lemma Block(n: nat, q: nat, low: nat, x: nat)
    requires low == Rows(n, q) && low <= x < low + q
    ensures x % q == x - low
  {
    RowsAreProduct(n, q);
    Words.QuotientAndRemainder(n, x - low, q);
  }

  lemma ResiduesStep(n: nat, q: nat, low: nat, high: nat, j: nat)
    requires j < q && low == Rows(n, q) && high == low + q
    ensures |Residues(high, q, j)| == |Residues(low, q, j)| + 1
  {
    forall x: nat | low <= x < high
      ensures x % q == x - low
    {
      Block(n, q, low, x);
    }
    assert Residues(high, q, j) == Residues(low, q, j) + {low + j};
  }

  lemma {:induction false} ResiduesSize(n: nat, q: nat, total: nat, j: nat)
    requires j < q && total == Rows(n, q)
    ensures |Residues(total, q, j)| == n
    decreases n
  {
    if n == 0 {
      assert Residues(0, q, j) == {};
    } else {
      ResiduesSize(n - 1, q, total - q, j);
      ResiduesStep(n - 1, q, total - q, total, j);
    }
  }

  /** Each residue of a divisor is equally common below the bound. */
  lemma DrawSize(bound: nat, q: nat, j: nat)
    requires j < q && bound % q == 0
    ensures |Residues(bound, q, j)| == bound / q
  {
    assert bound == (bound / q) * q;
    RowsAreProduct(bound / q, q);
    ResiduesSize(bound / q, q, bound, j);
  }

  // Rows.

  lemma {:induction false} RowsPositive(n: nat, c: nat)
    requires 0 < n && 0 < c
    ensures 0 < Rows(n, c)
  {
    if n == 1 {
    } else {
      RowsPositive(n - 1, c);
    }
  }

  lemma {:induction false} RowsMonotone(n: nat, a: nat, b: nat)
    requires a <= b
    ensures Rows(n, a) <= Rows(n, b)
    ensures 0 < n && a < b ==> Rows(n, a) < Rows(n, b)
  {
    if n == 0 {
    } else {
      RowsMonotone(n - 1, a, b);
    }
  }

  // Random numbers by the draws they reduce to.

  /** Sequences extended by the same continuations. */
  lemma AppendsSize(w: set<seq<nat>>, ds: set<seq<nat>>, js: set<nat>)
    requires forall e :: e in w <==> e != [] && Front(e) in ds && Last(e) in js
    ensures |w| == Rows(|ds|, |js|)
  {
    var f := (_: seq<nat>) => js;
    forall d, j | d in ds && j in js
      ensures d + [j] in w
    {
      assert Front(d + [j]) == d && Last(d + [j]) == j;
    }
    ExtendsRows(w, ds, f, |js|);
  }

  ghost function Fibre(cap: nat, bound: nat, acked: seq<Member>, u: seq<nat>): set<seq<nat>> {
    set r | r in Rands(bound, |acked|) && |r| == |acked| && Used(cap, acked, r) == u
  }

  /** How many random numbers make one draw. */
  function Share(cap: nat, bound: nat, front: seq<Member>, x: Member): nat {
    if x in front || |Firsts(front)| < cap then bound else bound / (|Firsts(front)| + 1)
  }

  /** How many sequences of random numbers reduce to one choice of draws. */
  function FibreSize(cap: nat, bound: nat, acked: seq<Member>): nat {
    if acked == [] then 1
    else
      var n := |acked| - 1;
      Rows(FibreSize(cap, bound, acked[..n]), Share(cap, bound, acked[..n], acked[n]))
  }

  lemma RandsStep(bound: nat, n: nat, r: seq<nat>)
    requires 0 < n
    ensures r in Rands(bound, n) <==> r != [] && Front(r) in Rands(bound, n - 1) && Last(r) in Range(bound)
    ensures r in Rands(bound, n) ==> |r| == n && |Front(r)| == n - 1
  {
    RandsMeaning(bound, n, r);
    if r != [] {
      RandsMeaning(bound, n - 1, Front(r));
    }
  }

  /** The last ack uses no draw. */
  lemma FibreKeeps(cap: nat, bound: nat, acked: seq<Member>, u: seq<nat>)
    requires acked != []
    requires var n := |acked| - 1; acked[n] in acked[..n] || |Firsts(acked[..n])| < cap
    ensures |Fibre(cap, bound, acked, u)| == Rows(|Fibre(cap, bound, acked[..|acked| - 1], u)|, bound)
  {
    var n := |acked| - 1;
    forall r
      ensures r in Fibre(cap, bound, acked, u) <==>
                r != [] && Front(r) in Fibre(cap, bound, acked[..n], u) && Last(r) in Range(bound)
    {
      RandsStep(bound, |acked|, r);
    }
    AppendsSize(Fibre(cap, bound, acked, u), Fibre(cap, bound, acked[..n], u), Range(bound));
  }

  lemma FibreSplit(cap: nat, bound: nat, acked: seq<Member>, u: seq<nat>, q: nat, r: seq<nat>)
    requires acked != [] && u != [] && q == |Firsts(acked[..|acked| - 1])| + 1
    requires acked[|acked| - 1] !in acked[..|acked| - 1] && cap < q
    ensures r in Fibre(cap, bound, acked, u) <==>
              && r != [] && Front(r) in Fibre(cap, bound, acked[..|acked| - 1], Front(u))
              && Last(r) in Residues(bound, q, Last(u))
  {
    RandsStep(bound, |acked|, r);
    assert u == Front(u) + [Last(u)];
    if r in Fibre(cap, bound, acked, u) {
      AppendInjective(Used(cap, acked[..|acked| - 1], Front(r)), Last(r) % q, Front(u), Last(u));
    }
  }

  /** The last ack uses the last draw. */
  lemma FibreSplits(cap: nat, bound: nat, acked: seq<Member>, u: seq<nat>, q: nat)
    requires acked != [] && u != [] && q == |Firsts(acked[..|acked| - 1])| + 1
    requires acked[|acked| - 1] !in acked[..|acked| - 1] && cap < q
    ensures |Fibre(cap, bound, acked, u)|
         == Rows(|Fibre(cap, bound, acked[..|acked| - 1], Front(u))|, |Residues(bound, q, Last(u))|)
  {
    var after, before := Fibre(cap, bound, acked, u), Fibre(cap, bound, acked[..|acked| - 1], Front(u));
    forall r
      ensures r in after <==> r != [] && Front(r) in before && Last(r) in Residues(bound, q, Last(u))
    {
      FibreSplit(cap, bound, acked, u, q, r);
    }
    AppendsSize(after, before, Residues(bound, q, Last(u)));
  }

  /** A quotient of the bound is positive. */
  lemma DividesOut(bound: nat, q: nat)
    requires 0 < bound && 0 < q && bound % q == 0
    ensures 0 < bound / q
  {
    assert bound == (bound / q) * q;
  }

  /** Every choice of draws comes from the same number of random numbers. */
  lemma {:induction false} FibreCount(cap: nat, bound: nat, acked: seq<Member>, u: seq<nat>)
    requires Fine(bound, |acked|) && Legal(cap, Surplus(cap, acked), u)
    ensures |Fibre(cap, bound, acked, u)| == FibreSize(cap, bound, acked) && 0 < FibreSize(cap, bound, acked)
    decreases |acked|
  {
    if acked == [] {
      assert Fibre(cap, bound, acked, u) == {[]};
    } else {
      var front := acked[..|acked| - 1];
      var d := |Firsts(front)|;
      FirstsMeaning(front);
      if acked[|front|] in front || d < cap {
        FibreCount(cap, bound, front, u);
        FibreKeeps(cap, bound, acked, u);
        RowsPositive(FibreSize(cap, bound, front), bound);
      } else {
        LegalSplit(cap, Surplus(cap, acked), u);
        FibreCount(cap, bound, front, Front(u));
        assert bound % (d + 1) == 0;
        FibreSplits(cap, bound, acked, u, d + 1);
        DrawSize(bound, d + 1, Last(u));
        DividesOut(bound, d + 1);
        RowsPositive(FibreSize(cap, bound, front), bound / (d + 1));
      }
    }
  }

  // Samples of keys.

  function KeySet(xs: seq<Member>): set<Member> {
    set x | x in xs
  }

  /** The random numbers that leave exactly these keys in the ledger. */
  ghost function Outcomes(cap: nat, bound: nat, acked: seq<Member>, s: set<Member>): set<seq<nat>> {
    set r | r in Rands(bound, |acked|) && |r| == |acked| && KeySet(Replay(cap, acked, r).0) == s
  }

  /** A sample as large as the ledger allows. */
  ghost predicate SampleOf(cap: nat, acked: seq<Member>, s: set<Member>) {
    s <= KeySet(acked) && |s| == Min(cap, |KeySet(acked)|)
  }

  /** All such samples are equally likely. */
  ghost predicate Uniform(cap: nat, bound: nat, acked: seq<Member>) {
    forall s, t :: SampleOf(cap, acked, s) && SampleOf(cap, acked, t) ==>
      |Outcomes(cap, bound, acked, s)| == |Outcomes(cap, bound, acked, t)|
  }

  lemma {:induction false} KeySetSize(xs: seq<Member>)
    requires Distinct(xs)
    ensures |KeySet(xs)| == |xs|
  {
    if xs == [] {
    } else {
      var n := |xs| - 1;
      KeySetSize(xs[..n]);
      assert KeySet(xs) == KeySet(xs[..n]) + {xs[n]};
    }
  }

  lemma FirstsAreKeys(acked: seq<Member>)
    ensures KeySet(Firsts(acked)) == KeySet(acked) && |KeySet(acked)| == |Firsts(acked)|
  {
    FirstsMeaning(acked);
    KeySetSize(Firsts(acked));
  }

  /** The positions of a set of keys. */
  ghost function Positions(xs: seq<Member>, s: set<Member>): set<nat> {
    set i | 0 <= i < |xs| && xs[i] in s
  }

  lemma PositionsStep(xs: seq<Member>, n: nat, s: set<Member>)
    requires Distinct(xs) && |xs| == n + 1
    ensures Positions(xs, s) == Positions(xs[..n], s - {xs[n]}) + if xs[n] in s then {n} else {}
  {
    forall i: nat
      ensures i in Positions(xs, s) <==> i in Positions(xs[..n], s - {xs[n]}) || (i == n && xs[n] in s)
    {
      assert i < n ==> xs[i] != xs[n];
    }
  }

  lemma {:induction false} PositionsSize(xs: seq<Member>, s: set<Member>)
    requires Distinct(xs) && s <= KeySet(xs)
    ensures |Positions(xs, s)| == |s|
  {
    if xs == [] {
    } else {
      var n := |xs| - 1;
      var last := xs[n];
      PositionsSize(xs[..n], s - {last});
      PositionsStep(xs, n, s);
      assert n !in Positions(xs[..n], s - {last});
    }
  }

  /** The ledger holds a set of keys exactly when the draws keep their positions. */
  lemma HoldsIffKept(cap: nat, keys: seq<Member>, xs: seq<Member>, u: seq<nat>, s: set<Member>)
    requires Distinct(xs) && cap <= |xs| && KeptOf(cap, keys, xs, u) && s <= KeySet(xs)
    ensures KeySet(keys) == s <==> Elems(Kept(cap, u)) == Positions(xs, s)
  {
    var kept := Kept(cap, u);
    assert forall j :: 0 <= j < cap ==> kept[j] in kept && keys[j] in keys;
    if KeySet(keys) == s {
      forall i
        ensures i in Elems(kept) <==> i in Positions(xs, s)
      {
        if i in Positions(xs, s) {
          var j :| 0 <= j < |keys| && keys[j] == xs[i];
          assert xs[kept[j]] == xs[i];
        }
      }
    }
    if Elems(kept) == Positions(xs, s) {
      forall k
        ensures k in KeySet(keys) <==> k in s
      {
        if k in KeySet(keys) {
          var j :| 0 <= j < |keys| && keys[j] == k;
          assert kept[j] in Elems(kept);
        }
        if k in s {
          var i :| 0 <= i < |xs| && xs[i] == k;
          assert i in Elems(kept);
          var j :| 0 <= j < |kept| && kept[j] == i;
        }
      }
    }
  }

  /** The random numbers whose draws are among the given ones. */
  ghost function Over(cap: nat, bound: nat, acked: seq<Member>, us: set<seq<nat>>): set<seq<nat>> {
    set r | r in Rands(bound, |acked|) && |r| == |acked| && Used(cap, acked, r) in us
  }

  lemma OverSplits(cap: nat, bound: nat, acked: seq<Member>, rest: set<seq<nat>>, u: seq<nat>)
    requires u !in rest
    ensures |Over(cap, bound, acked, rest + {u})| == |Over(cap, bound, acked, rest)| + |Fibre(cap, bound, acked, u)|
  {
    var a, b := Over(cap, bound, acked, rest), Fibre(cap, bound, acked, u);
    assert Over(cap, bound, acked, rest + {u}) == a + b;
    assert a !! b;
  }

  lemma {:induction false} OverSize(cap: nat, bound: nat, acked: seq<Member>, us: set<seq<nat>>, c: nat)
    requires forall u :: u in us ==> |Fibre(cap, bound, acked, u)| == c
    ensures |Over(cap, bound, acked, us)| == Rows(|us|, c)
    decreases us
  {
    if us == {} {
      assert Over(cap, bound, acked, us) == {};
    } else {
      var u :| u in us;
      var rest := us - {u};
      OverSize(cap, bound, acked, rest, c);
      OverSplits(cap, bound, acked, rest, u);
      assert us == rest + {u} && |us| == |rest| + 1;
    }
  }

  lemma OutcomesAreOver(cap: nat, bound: nat, acked: seq<Member>, s: set<Member>)
    requires ReturnsFit(cap, acked) && cap <= |Firsts(acked)| && s <= KeySet(acked)
    ensures Outcomes(cap, bound, acked, s) ==
            Over(cap, bound, acked, Yielding(Draws(cap, Surplus(cap, acked)), cap, Positions(Firsts(acked), s)))
  {
    var xs := Firsts(acked);
    FirstsMeaning(acked);
    FirstsAreKeys(acked);
    forall r | r in Rands(bound, |acked|) && |r| == |acked|
      ensures KeySet(Replay(cap, acked, r).0) == s <==>
                Used(cap, acked, r) in Yielding(Draws(cap, Surplus(cap, acked)), cap, Positions(xs, s))
    {
      KeysAreSampled(cap, acked, r);
      UsedIsLegal(cap, acked, r);
      DrawsMeaning(cap, Surplus(cap, acked), Used(cap, acked, r));
      HoldsIffKept(cap, Replay(cap, acked, r).0, xs, Used(cap, acked, r), s);
    }
  }

  /** While returning keys fit, every sample is left by the same number of random
      numbers: the factorial of the surplus times those behind one choice of draws. */
  lemma SampleCount(cap: nat, bound: nat, acked: seq<Member>, s: set<Member>)
    requires Fine(bound, |acked|) && ReturnsFit(cap, acked) && cap <= |Firsts(acked)| && SampleOf(cap, acked, s)
    ensures |Outcomes(cap, bound, acked, s)| == Rows(Factorial(Surplus(cap, acked)), FibreSize(cap, bound, acked))
    ensures 0 < |Outcomes(cap, bound, acked, s)|
  {
    var m, xs := Surplus(cap, acked), Firsts(acked);
    FirstsMeaning(acked);
    FirstsAreKeys(acked);
    PositionsSize(xs, s);
    EverySubsetEquallyLikely(cap, m, Positions(xs, s));
    var us := Yielding(Draws(cap, m), cap, Positions(xs, s));
    forall u | u in us
      ensures |Fibre(cap, bound, acked, u)| == FibreSize(cap, bound, acked)
    {
      DrawsMeaning(cap, m, u);
      FibreCount(cap, bound, acked, u);
    }
    OutcomesAreOver(cap, bound, acked, s);
    OverSize(cap, bound, acked, us, FibreSize(cap, bound, acked));
    FactorialPositive(m);
    LegalExists(cap, m);
    FibreCount(cap, bound, acked, seq(m, _ => 0));
    RowsPositive(Factorial(m), FibreSize(cap, bound, acked));
  }

  lemma LegalExists(cap: nat, m: nat)
    ensures Legal(cap, m, seq(m, _ => 0))
  {
  }

  lemma SamplesAlike(cap: nat, bound: nat, acked: seq<Member>, s: set<Member>, t: set<Member>)
    requires Fine(bound, |acked|) && ReturnsFit(cap, acked) && cap <= |Firsts(acked)|
    requires SampleOf(cap, acked, s) && SampleOf(cap, acked, t)
    ensures 0 < |Outcomes(cap, bound, acked, s)| == |Outcomes(cap, bound, acked, t)|
  {
    SampleCount(cap, bound, acked, s);
    SampleCount(cap, bound, acked, t);
  }

  lemma FittingIsUniform(cap: nat, bound: nat, acked: seq<Member>)
    requires Fine(bound, |acked|) && ReturnsFit(cap, acked)
    ensures Uniform(cap, bound, acked)
  {
    FirstsAreKeys(acked);
    forall s, t | SampleOf(cap, acked, s) && SampleOf(cap, acked, t)
      ensures |Outcomes(cap, bound, acked, s)| == |Outcomes(cap, bound, acked, t)|
    {
      if cap <= |Firsts(acked)| {
        SamplesAlike(cap, bound, acked, s, t);
      } else {
        WholeSet(KeySet(acked), s);
        WholeSet(KeySet(acked), t);
      }
    }
  }

  lemma WholeSet(all: set<Member>, s: set<Member>)
    requires s <= all && |s| == |all|
    ensures s == all
  {
    assert all == s + (all - s);
  }

  // The first key that returns too late.

  lemma {:induction false} PickSubset(all: set<Member>, n: nat) returns (s: set<Member>)
    requires n <= |all|
    ensures s <= all && |s| == n
    decreases n
  {
    if n == 0 {
      s := {};
    } else {
      var x :| x in all;
      var rest := PickSubset(all - {x}, n - 1);
      s := rest + {x};
    }
  }

  /** The key at the end has come before, and is resident or offered once more. */
  lemma ReturnStep(cap: nat, front: seq<Member>, x: Member, r: seq<nat>)
    requires |r| == |front| + 1 && ReturnsFit(cap, front)
    ensures Replay(cap, front + [x], r) ==
            Step(cap, Replay(cap, front, Front(r)).0, |Firsts(front)|, x, Last(r))
  {
    assert (front + [x])[..|front|] == front;
    KeysAreSampled(cap, front, Front(r));
  }

  /** The draws that leave a full ledger alone. */
  function Passing(cap: nat, bound: nat, q: nat): set<nat>
    requires 0 < q
  {
    set j | j in Range(bound) && cap <= j % q
  }

  lemma PassingSize(cap: nat, bound: nat, q: nat)
    requires 0 < cap && 0 < q && 0 < bound
    ensures |Passing(cap, bound, q)| <= bound - 1
  {
    assert 0 % q == 0;
    SubsetSize(Passing(cap, bound, q), Range(bound) - {0});
  }

  /** The random numbers that leave a sample without the returning key: those that left
      it before, with a draw past the ledger. */
  lemma WithoutReturned(cap: nat, bound: nat, front: seq<Member>, x: Member, t: set<Member>)
    requires 0 < cap < |Firsts(front)| && 0 < bound && ReturnsFit(cap, front) && x !in t
    ensures |Outcomes(cap, bound, front + [x], t)| <= Rows(|Outcomes(cap, bound, front, t)|, bound - 1)
  {
    var q := |Firsts(front)| + 1;
    var before, after := Outcomes(cap, bound, front, t), Outcomes(cap, bound, front + [x], t);
    forall r
      ensures r in after <==> r != [] && Front(r) in before && Last(r) in Passing(cap, bound, q)
    {
      WithoutReturnedIff(cap, bound, front, x, t, r);
    }
    AppendsSize(after, before, Passing(cap, bound, q));
    PassingSize(cap, bound, q);
    RowsMonotone(|before|, |Passing(cap, bound, q)|, bound - 1);
  }

  lemma WithoutReturnedIff(cap: nat, bound: nat, front: seq<Member>, x: Member, t: set<Member>, r: seq<nat>)
    requires 0 < cap < |Firsts(front)| && ReturnsFit(cap, front) && x !in t
    ensures r in Outcomes(cap, bound, front + [x], t) <==>
              && r != [] && Front(r) in Outcomes(cap, bound, front, t)
              && Last(r) in Passing(cap, bound, |Firsts(front)| + 1)
  {
    RandsStep(bound, |front + [x]|, r);
    if r in Rands(bound, |front| + 1) {
      WithoutReturnedStep(cap, front, x, t, r);
    }
  }

  lemma WithoutReturnedStep(cap: nat, front: seq<Member>, x: Member, t: set<Member>, r: seq<nat>)
    requires |r| == |front| + 1 && 0 < cap < |Firsts(front)| && ReturnsFit(cap, front) && x !in t
    ensures KeySet(Replay(cap, front + [x], r).0) == t <==>
              KeySet(Replay(cap, front, Front(r)).0) == t && cap <= Last(r) % (|Firsts(front)| + 1)
  {
    ReturnStep(cap, front, x, r);
    KeysAreSampled(cap, front, Front(r));
    var keys, j := Replay(cap, front, Front(r)).0, Last(r) % (|Firsts(front)| + 1);
    if x in keys {
      assert x in KeySet(keys);
    } else if j < cap {
      assert keys[j := x][j] == x;
      assert x in KeySet(keys[j := x]);
    }
  }

  lemma WithReturnedStep(cap: nat, bound: nat, front: seq<Member>, x: Member, s: set<Member>, r: seq<nat>)
    requires ReturnsFit(cap, front) && x in s
    requires r != [] && Front(r) in Outcomes(cap, bound, front, s) && Last(r) in Range(bound)
    ensures r in Outcomes(cap, bound, front + [x], s)
  {
    RandsStep(bound, |front + [x]|, r);
    ReturnStep(cap, front, x, r);
    assert x in KeySet(Replay(cap, front, Front(r)).0);
  }

  /** A sample with the returning key is kept by every draw. */
  lemma WithReturned(cap: nat, bound: nat, front: seq<Member>, x: Member, s: set<Member>)
    requires ReturnsFit(cap, front) && x in s
    ensures Rows(|Outcomes(cap, bound, front, s)|, bound) <= |Outcomes(cap, bound, front + [x], s)|
  {
    var before, all := Outcomes(cap, bound, front, s), Outcomes(cap, bound, front + [x], s);
    var w := set r | r in all && r != [] && Front(r) in before;
    forall r
      ensures r in w <==> r != [] && Front(r) in before && Last(r) in Range(bound)
    {
      RandsStep(bound, |front + [x]|, r);
      if r != [] && Front(r) in before && Last(r) in Range(bound) {
        WithReturnedStep(cap, bound, front, x, s, r);
      }
    }
    AppendsSize(w, before, Range(bound));
    SubsetSize(w, all);
  }

  lemma FewerRows(n: nat, bound: nat, lo: nat, hi: nat)
    requires 0 < n && 0 < bound && lo <= Rows(n, bound - 1) && Rows(n, bound) <= hi
    ensures lo < hi
  {
    RowsMonotone(n, bound - 1, bound);
  }

  lemma FineBelow(bound: nat, n: nat)
    requires Fine(bound, n + 1)
    ensures Fine(bound, n)
  {
  }

  /** A key that returns once more distinct keys have come than fit is favoured: samples
      with it become strictly likelier than samples without it. */
  lemma LateReturnIsFavoured(cap: nat, bound: nat, front: seq<Member>, x: Member, s: set<Member>, t: set<Member>)
    requires 0 < cap < |Firsts(front)| && Fine(bound, |front| + 1) && ReturnsFit(cap, front)
    requires SampleOf(cap, front, s) && SampleOf(cap, front, t) && x in s && x !in t
    ensures |Outcomes(cap, bound, front + [x], t)| < |Outcomes(cap, bound, front + [x], s)|
  {
    var n := |Outcomes(cap, bound, front, s)|;
    FineBelow(bound, |front|);
    SamplesAlike(cap, bound, front, s, t);
    WithReturned(cap, bound, front, x, s);
    WithoutReturned(cap, bound, front, x, t);
    FewerRows(n, bound, |Outcomes(cap, bound, front + [x], t)|, |Outcomes(cap, bound, front + [x], s)|);
  }

  lemma LateReturnIsNotUniform(cap: nat, bound: nat, acked: seq<Member>, n: nat)
    requires n < |acked| && 0 < cap && Fine(bound, |acked|)
    requires ReturnsFit(cap, acked[..n]) && !FitsAt(cap, acked, n)
    ensures !Uniform(cap, bound, acked[..n + 1])
  {
    var front, x := acked[..n], acked[n];
    var all := KeySet(front);
    assert acked[..n + 1] == front + [x];
    FirstsAreKeys(front);
    var t := PickSubset(all - {x}, cap);
    var rest := PickSubset(all - {x}, cap - 1);
    var s := rest + {x};
    assert KeySet(front + [x]) == all;
    LateReturnIsFavoured(cap, bound, front, x, s, t);
    assert SampleOf(cap, front + [x], s) && SampleOf(cap, front + [x], t);
  }

  lemma {:induction false} FirstMisfit(cap: nat, acked: seq<Member>) returns (n: nat)
    requires !ReturnsFit(cap, acked)
    ensures n < |acked| && ReturnsFit(cap, acked[..n]) && !FitsAt(cap, acked, n)
    decreases |acked|
  {
    var m := |acked| - 1;
    if ReturnsFit(cap, acked[..m]) {
      n := m;
      forall i | 0 <= i < m
        ensures FitsAt(cap, acked, i)
      {
        assert acked[..m][..i] == acked[..i];
        assert FitsAt(cap, acked[..m], i);
      }
    } else {
      n := FirstMisfit(cap, acked[..m]);
      assert acked[..m][..n] == acked[..n];
    }
  }

  /** Exactly when the ledger is a uniform sample all along: there is no room at all, or
      no key returns once more than `cap` distinct keys have been acked. */
  lemma UniformIffReturnsFit(cap: nat, bound: nat, acked: seq<Member>)
    requires Fine(bound, |acked|)
    ensures (forall n :: 0 <= n <= |acked| ==> Uniform(cap, bound, acked[..n])) <==> cap == 0 || ReturnsFit(cap, acked)
  {
    if cap == 0 || ReturnsFit(cap, acked) {
      forall n | 0 <= n <= |acked|
        ensures Uniform(cap, bound, acked[..n])
      {
        if cap != 0 {
          PrefixFits(cap, acked, n);
          FittingIsUniform(cap, bound, acked[..n]);
        }
      }
    } else {
      var n := FirstMisfit(cap, acked);
      LateReturnIsNotUniform(cap, bound, acked, n);
    }
  }
}
