/** Algorithm R is exactly uniform, by counting draw sequences. */
module Uniformity {
  import opened Reservoir

  function Range(b: nat): (r: set<nat>)
    ensures |r| == b
    ensures forall j :: j in r <==> 0 <= j < b
  {
    if b == 0 then {} else Range(b - 1) + {b - 1}
  }

  /** Draws of the `m` offers past the `k`-th: offer `k + i` draws below `k + i + 1`. */
  ghost predicate Legal(k: nat, m: nat, d: seq<nat>) {
    |d| == m && forall i :: 0 <= i < m ==> d[i] < k + i + 1
  }

  /** Every legal draw sequence. */
  function Draws(k: nat, m: nat): set<seq<nat>> {
    if m == 0 then {[]}
    else set d, j {:trigger d + [j]} | d in Draws(k, m - 1) && j in Range(k + m) :: d + [j]
  }

  /** The offers retained, by position in the stream, after draws `d`. */
  function Kept(k: nat, d: seq<nat>): (r: seq<nat>)
    ensures |r| == k
  {
    if d == [] then seq(k, i => i)
    else
      var m := |d| - 1;
      var before := Kept(k, d[..m]);
      if d[m] < k then before[d[m] := k + m] else before
  }

  function Elems(s: seq<nat>): set<nat> {
    set x | x in s
  }

  function IndexOf(s: seq<nat>, x: nat): (i: nat)
    requires x in s
    ensures i < |s| && s[i] == x
  {
    if s[0] == x then 0 else 1 + IndexOf(s[1..], x)
  }

  // Counting extensions of draw sequences.

  lemma AppendInjective(d: seq<nat>, i: nat, e: seq<nat>, j: nat)
    requires d + [i] == e + [j]
    ensures d == e && i == j
  {
    assert (d + [i])[..|d|] == d && (e + [j])[..|e|] == e;
    assert (d + [i])[|d|] == i && (e + [j])[|e|] == j;
  }

  function Row(d: seq<nat>, js: set<nat>): set<seq<nat>> {
    set j | j in js :: d + [j]
  }

  lemma {:induction false} RowSize(d: seq<nat>, js: set<nat>)
    ensures |Row(d, js)| == |js|
  {
    if js == {} {
    } else {
      var x :| x in js;
      RowSize(d, js - {x});
      assert Row(d, js) == Row(d, js - {x}) + {d + [x]};
      if d + [x] in Row(d, js - {x}) {
        var j :| j in js - {x} && d + [j] == d + [x];
        AppendInjective(d, j, d, x);
      }
    }
  }

  function Front(e: seq<nat>): seq<nat>
    requires e != []
  {
    e[..|e| - 1]
  }

  function Last(e: seq<nat>): nat
    requires e != []
  {
    e[|e| - 1]
  }

  /** `w` is `ds` with each sequence extended by each of its own continuations. */
  ghost predicate Extends(w: set<seq<nat>>, ds: set<seq<nat>>, f: seq<nat> -> set<nat>) {
    && (forall d, j {:trigger d + [j]} :: d in ds && j in f(d) ==> d + [j] in w)
    && (forall e {:trigger e in w} :: e in w ==> e != [] && Front(e) in ds && Last(e) in f(Front(e)))
  }

  lemma ExtendsLess(w: set<seq<nat>>, ds: set<seq<nat>>, f: seq<nat> -> set<nat>, d: seq<nat>)
    requires Extends(w, ds, f) && d in ds
    ensures Row(d, f(d)) <= w
    ensures Extends(w - Row(d, f(d)), ds - {d}, f)
  {
    var w' := w - Row(d, f(d));
    forall d2, j | d2 in ds - {d} && j in f(d2)
      ensures d2 + [j] in w'
    {
      if d2 + [j] in Row(d, f(d)) {
        var j2 :| j2 in f(d) && d + [j2] == d2 + [j];
        AppendInjective(d, j2, d2, j);
      }
    }
    forall e | e in w'
      ensures e != [] && Front(e) in ds - {d} && Last(e) in f(Front(e))
    {
      assert e == Front(e) + [Last(e)];
    }
  }

  /** `n` rows of `c` each. */
  function Rows(n: nat, c: nat): nat {
    if n == 0 then 0 else Rows(n - 1, c) + c
  }

  lemma {:induction false} RowsAreProduct(n: nat, c: nat)
    ensures Rows(n, c) == n * c
  {
    if n == 0 {
    } else {
      RowsAreProduct(n - 1, c);
    }
  }

  lemma {:induction false} ExtendsRows(w: set<seq<nat>>, ds: set<seq<nat>>, f: seq<nat> -> set<nat>, c: nat)
    requires Extends(w, ds, f)
    requires forall d :: d in ds ==> |f(d)| == c
    ensures |w| == Rows(|ds|, c)
    decreases ds
  {
    if ds == {} {
      assert w == {};
    } else {
      var d :| d in ds;
      var row := Row(d, f(d));
      ExtendsLess(w, ds, f, d);
      ExtendsRows(w - row, ds - {d}, f, c);
      RowSize(d, f(d));
      assert w == (w - row) + row;
      assert |ds - {d}| == |ds| - 1;
    }
  }

  /** If every sequence has `c` continuations, there are `|ds| * c` extensions. */
  lemma ExtendsSize(w: set<seq<nat>>, ds: set<seq<nat>>, f: seq<nat> -> set<nat>, c: nat)
    requires Extends(w, ds, f)
    requires forall d :: d in ds ==> |f(d)| == c
    ensures |w| == |ds| * c
  {
    ExtendsRows(w, ds, f, c);
    RowsAreProduct(|ds|, c);
  }

  lemma LegalSplit(k: nat, m: nat, d: seq<nat>)
    requires m > 0
    ensures Legal(k, m, d) <==> d != [] && Legal(k, m - 1, Front(d)) && Last(d) < k + m
  {
    if d != [] {
      assert forall i :: 0 <= i < |d| - 1 ==> Front(d)[i] == d[i];
    }
  }

  /** `Draws` is exactly the legal draw sequences. */
  lemma {:induction false} DrawsMeaning(k: nat, m: nat, d: seq<nat>)
    ensures d in Draws(k, m) <==> Legal(k, m, d)
  {
    if m == 0 {
    } else {
      LegalSplit(k, m, d);
      if d != [] {
        DrawsMeaning(k, m - 1, Front(d));
        assert d == Front(d) + [Last(d)];
      }
      if d in Draws(k, m) {
        var e, j :| e in Draws(k, m - 1) && j in Range(k + m) && d == e + [j];
        AppendInjective(Front(d), Last(d), e, j);
      }
    }
  }

  lemma DrawsSize(k: nat, m: nat)
    requires m > 0
    ensures |Draws(k, m)| == |Draws(k, m - 1)| * (k + m)
  {
    var f: seq<nat> -> set<nat> := _ => Range(k + m);
    forall e | e in Draws(k, m)
      ensures e != [] && Front(e) in Draws(k, m - 1) && Last(e) in f(Front(e))
    {
      DrawsMeaning(k, m, e);
      LegalSplit(k, m, e);
      DrawsMeaning(k, m - 1, Front(e));
    }
    ExtendsSize(Draws(k, m), Draws(k, m - 1), f, k + m);
  }

  lemma {:induction false} KeptFacts(k: nat, d: seq<nat>)
    ensures Distinct(Kept(k, d))
    ensures forall i :: 0 <= i < k ==> Kept(k, d)[i] < k + |d|
  {
    if d == [] {
    } else {
      KeptFacts(k, d[..|d| - 1]);
    }
  }

  /** `all` is the set of legal draw sequences of length `m`. */
  ghost predicate AllDraws(all: set<seq<nat>>, k: nat, m: nat) {
    forall d :: d in all <==> Legal(k, m, d)
  }

  /** A condition on a draw sequence that depends on its front and its last draw
      cuts out an extension of the fronts. */
  lemma CutExtends(k: nat, m: nat, w: set<seq<nat>>, ds: set<seq<nat>>, f: seq<nat> -> set<nat>)
    requires m > 0
    requires forall d :: d in ds ==> Legal(k, m - 1, d) && (forall j :: j in f(d) ==> j < k + m)
    requires forall e :: e in w ==> Legal(k, m, e)
    requires forall e {:trigger Legal(k, m, e)} :: Legal(k, m, e) ==>
               (e in w <==> Front(e) in ds && Last(e) in f(Front(e)))
    ensures Extends(w, ds, f)
  {
    forall d, j | d in ds && j in f(d)
      ensures d + [j] in w
    {
      var e := d + [j];
      assert Front(e) == d && Last(e) == j;
      LegalSplit(k, m, e);
    }
  }

  lemma KeptStep(k: nat, m: nat, e: seq<nat>)
    requires m > 0 && Legal(k, m, e)
    ensures Legal(k, m - 1, Front(e)) && Last(e) < k + m
    ensures Kept(k, e) == if Last(e) < k then Kept(k, Front(e))[Last(e) := k + m - 1] else Kept(k, Front(e))
    ensures Distinct(Kept(k, Front(e)))
    ensures forall i :: 0 <= i < k ==> Kept(k, Front(e))[i] < k + m - 1
  {
    LegalSplit(k, m, e);
    KeptFacts(k, Front(e));
  }

  // Each offer is retained in exactly k/n of the draw sequences.

  /** The draw sequences after which offer `i` is kept. */
  function Retaining(all: set<seq<nat>>, k: nat, i: nat): set<seq<nat>> {
    set d | d in all && i in Kept(k, d)
  }

  lemma NewestRetained(k: nat, m: nat, all: set<seq<nat>>, fronts: set<seq<nat>>)
    requires m > 0 && AllDraws(all, k, m) && AllDraws(fronts, k, m - 1)
    ensures |Retaining(all, k, k + m - 1)| == |fronts| * k
  {
    var f: seq<nat> -> set<nat> := _ => Range(k);
    var w := Retaining(all, k, k + m - 1);
    forall e | Legal(k, m, e)
      ensures e in w <==> Front(e) in fronts && Last(e) in f(Front(e))
    {
      KeptStep(k, m, e);
      if Last(e) < k {
        assert Kept(k, e)[Last(e)] == k + m - 1;
      }
    }
    CutExtends(k, m, w, fronts, f);
    ExtendsSize(w, fronts, f, k);
  }

  /** The continuations that do not evict offer `i`. */
  function Sparing(kept: seq<nat>, n: nat, i: nat): set<nat> {
    set j | j in Range(n) && (|kept| <= j || kept[j] != i)
  }

  lemma OlderStep(before: seq<nat>, after: seq<nat>, j: nat, n: nat, i: nat)
    requires Distinct(before) && j < n && |before| <= n && i != n - 1
    requires after == if j < |before| then before[j := n - 1] else before
    ensures i in after <==> i in before && j in Sparing(before, n, i)
  {
    if i in before {
      var p := IndexOf(before, i);
      if j != p {
        assert after[p] == i;
      } else {
        assert forall q :: 0 <= q < |after| ==> after[q] != i;
      }
    } else {
      assert forall q :: 0 <= q < |after| ==> after[q] != i;
    }
  }

  lemma SparingCut(k: nat, m: nat, i: nat, all: set<seq<nat>>, fronts: set<seq<nat>>, f: seq<nat> -> set<nat>)
    requires m > 0 && i < k + m - 1 && AllDraws(all, k, m) && AllDraws(fronts, k, m - 1)
    requires forall d :: f(d) == Sparing(Kept(k, d), k + m, i)
    ensures Extends(Retaining(all, k, i), Retaining(fronts, k, i), f)
  {
    var w, ds := Retaining(all, k, i), Retaining(fronts, k, i);
    forall e | Legal(k, m, e)
      ensures e in w <==> Front(e) in ds && Last(e) in f(Front(e))
    {
      KeptStep(k, m, e);
      OlderStep(Kept(k, Front(e)), Kept(k, e), Last(e), k + m, i);
    }
    CutExtends(k, m, w, ds, f);
  }

  lemma SparingSize(kept: seq<nat>, n: nat, i: nat)
    requires i in kept && |kept| <= n && Distinct(kept)
    ensures |Sparing(kept, n, i)| + 1 == n
  {
    var p := IndexOf(kept, i);
    assert Range(n) == Sparing(kept, n, i) + {p};
  }

  lemma SparingAll(k: nat, m: nat, i: nat, ds: set<seq<nat>>, f: seq<nat> -> set<nat>)
    requires m > 0
    requires forall d :: f(d) == Sparing(Kept(k, d), k + m, i)
    requires forall d :: d in ds ==> i in Kept(k, d)
    ensures forall d :: d in ds ==> |f(d)| == k + m - 1
  {
    forall d | d in ds
      ensures |f(d)| == k + m - 1
    {
      KeptFacts(k, d);
      SparingSize(Kept(k, d), k + m, i);
    }
  }

  lemma OlderRetained(k: nat, m: nat, i: nat, all: set<seq<nat>>, fronts: set<seq<nat>>)
    requires m > 0 && i < k + m - 1 && AllDraws(all, k, m) && AllDraws(fronts, k, m - 1)
    ensures |Retaining(all, k, i)| == Rows(|Retaining(fronts, k, i)|, k + m - 1)
  {
    var f: seq<nat> -> set<nat> := d => Sparing(Kept(k, d), k + m, i);
    var w, ds := Retaining(all, k, i), Retaining(fronts, k, i);
    SparingCut(k, m, i, all, fronts, f);
    SparingAll(k, m, i, ds, f);
    ExtendsRows(w, ds, f, k + m - 1);
  }

  lemma DrawsAreAll(k: nat, m: nat)
    ensures AllDraws(Draws(k, m), k, m)
  {
    forall d
      ensures d in Draws(k, m) <==> Legal(k, m, d)
    {
      DrawsMeaning(k, m, d);
    }
  }

  /** How many draw sequences there are, and how many of them keep offer `i`. */
  function Total(k: nat, m: nat): nat { |Draws(k, m)| }
  function Hits(k: nat, m: nat, i: nat): nat { |Retaining(Draws(k, m), k, i)| }

  lemma TotalStep(k: nat, m: nat)
    requires m > 0
    ensures Total(k, m) == Total(k, m - 1) * (k + m)
  {
    DrawsSize(k, m);
  }

  lemma NewestHits(k: nat, m: nat)
    requires m > 0
    ensures Hits(k, m, k + m - 1) == Total(k, m - 1) * k
  {
    DrawsAreAll(k, m);
    DrawsAreAll(k, m - 1);
    NewestRetained(k, m, Draws(k, m), Draws(k, m - 1));
  }

  lemma OlderHits(k: nat, m: nat, i: nat)
    requires m > 0 && i < k + m - 1
    ensures Hits(k, m, i) == Rows(Hits(k, m - 1, i), k + m - 1)
  {
    DrawsAreAll(k, m);
    DrawsAreAll(k, m - 1);
    OlderRetained(k, m, i, Draws(k, m), Draws(k, m - 1));
  }

  lemma FirstHits(k: nat, i: nat)
    requires i < k
    ensures Hits(k, 0, i) == 1 && Total(k, 0) == 1
  {
    assert Kept(k, [])[i] == i;
    assert Retaining(Draws(k, 0), k, i) == {[]};
  }

  /** Offer `i` is kept in exactly k/n of the draw sequences. */
  ghost predicate FairTo(k: nat, m: nat, i: nat) {
    Hits(k, m, i) * (k + m) == k * Total(k, m)
  }

  lemma FairToNewest(k: nat, m: nat)
    requires m > 0
    ensures FairTo(k, m, k + m - 1)
  {
    TotalStep(k, m);
    NewestHits(k, m);
    Fresh(Hits(k, m, k + m - 1), Total(k, m - 1), Total(k, m), k, k + m);
  }

  lemma FairToOlder(k: nat, m: nat, i: nat)
    requires m > 0 && i < k + m - 1 && FairTo(k, m - 1, i)
    ensures FairTo(k, m, i)
  {
    TotalStep(k, m);
    OlderHits(k, m, i);
    RowsAreProduct(Hits(k, m - 1, i), k + m - 1);
    Scale(Hits(k, m, i), Total(k, m - 1), Total(k, m), k, k + m);
  }

  /** Counted over all draw sequences, each of the first `n = k + m` offers is
      retained in exactly k/n of them. */
  lemma {:induction false} EveryOfferEquallyLikely(k: nat, m: nat, i: nat)
    requires i < k + m
    ensures FairTo(k, m, i)
  {
    if m == 0 {
      FirstHits(k, i);
    } else if i == k + m - 1 {
      FairToNewest(k, m);
    } else {
      EveryOfferEquallyLikely(k, m - 1, i);
      FairToOlder(k, m, i);
    }
  }

  lemma Fresh(r: nat, t1: nat, t: nat, k: nat, n: nat)
    requires r == t1 * k && t == t1 * n
    ensures r * n == k * t
  {
    assert (t1 * k) * n == k * (t1 * n);
  }

  lemma Scale(r: nat, t1: nat, t: nat, k: nat, n: nat)
    requires r == k * t1 && t == t1 * n
    ensures r * n == k * t
  {
    assert (k * t1) * n == k * (t1 * n);
  }

  // Every k-subset of the offers is equally likely to be the sample.

  function Factorial(m: nat): nat {
    if m == 0 then 1 else m * Factorial(m - 1)
  }

  /** The draw sequences whose sample is exactly `s`. */
  function Yielding(all: set<seq<nat>>, k: nat, s: set<nat>): set<seq<nat>> {
    set d | d in all && Elems(Kept(k, d)) == s
  }

  lemma {:induction false} ElemsSize(s: seq<nat>)
    requires Distinct(s)
    ensures |Elems(s)| == |s|
  {
    if s == [] {
    } else {
      ElemsSize(Front(s));
      assert s == Front(s) + [Last(s)];
      assert Elems(s) == Elems(Front(s)) + {Last(s)};
    }
  }

  lemma ElemsUpdate(s: seq<nat>, p: nat, x: nat)
    requires Distinct(s) && p < |s| && x !in s
    ensures Elems(s[p := x]) == Elems(s) - {s[p]} + {x}
  {
    var t := s[p := x];
    forall y
      ensures y in t <==> (y in s && y != s[p]) || y == x
    {
      if y in s && y != s[p] {
        var i :| 0 <= i < |s| && s[i] == y;
        assert t[i] == y;
      }
      if y == x {
        assert t[p] == y;
      }
      if y in t && y != x {
        var i :| 0 <= i < |t| && t[i] == y;
        assert s[i] == y;
      }
    }
  }

  /** A sample without the newest offer: the draw missed every slot. */
  lemma WithoutNewest(k: nat, m: nat, s: set<nat>, all: set<seq<nat>>, fronts: set<seq<nat>>)
    requires m > 0 && k + m - 1 !in s && AllDraws(all, k, m) && AllDraws(fronts, k, m - 1)
    ensures |Yielding(all, k, s)| == |Yielding(fronts, k, s)| * m
  {
    var miss := Range(k + m) - Range(k);
    assert Range(k + m) == miss + Range(k);
    var f: seq<nat> -> set<nat> := _ => miss;
    var w, ds := Yielding(all, k, s), Yielding(fronts, k, s);
    forall e | Legal(k, m, e)
      ensures e in w <==> Front(e) in ds && Last(e) in f(Front(e))
    {
      KeptStep(k, m, e);
      if Last(e) < k {
        assert Kept(k, e)[Last(e)] == k + m - 1;
        assert k + m - 1 in Elems(Kept(k, e));
      }
    }
    CutExtends(k, m, w, ds, f);
    ExtendsSize(w, ds, f, m);
  }

  /** The first slot holding an offer outside `rest`, if there is one. */
  function OddSlot(kept: seq<nat>, rest: set<nat>): (p: nat)
    ensures p <= |kept|
    ensures p < |kept| ==> kept[p] !in rest
    ensures forall q :: 0 <= q < p ==> kept[q] in rest
  {
    if kept == [] || kept[0] !in rest then 0 else 1 + OddSlot(kept[1..], rest)
  }

  /** The sample is `rest` and one more offer. */
  predicate OneOff(kept: seq<nat>, rest: set<nat>) {
    var p := OddSlot(kept, rest);
    p < |kept| && Elems(kept) == rest + {kept[p]}
  }

  function OddOne(kept: seq<nat>, rest: set<nat>): nat {
    var p := OddSlot(kept, rest);
    if p < |kept| then kept[p] else 0
  }

  lemma OddIs(s: seq<nat>, rest: set<nat>, j: nat)
    requires Distinct(s) && j < |s| && Elems(s) == rest + {s[j]} && s[j] !in rest
    ensures OddSlot(s, rest) == j
  {
    var p := OddSlot(s, rest);
    if p < |s| {
      assert s[p] in Elems(s);
    }
  }

  /** Replacing slot `j` of `s` by the newest offer leaves `rest` and the newest
      exactly when `s` is `rest` and the one more in slot `j`. */
  lemma ReplaceStep(s: seq<nat>, j: nat, newest: nat, rest: set<nat>)
    requires Distinct(s) && j < |s| && newest !in s && newest !in rest
    ensures Elems(s[j := newest]) == rest + {newest} <==> OneOff(s, rest) && j == OddSlot(s, rest)
  {
    ElemsUpdate(s, j, newest);
    var x := s[j];
    assert x in Elems(s) && newest !in Elems(s);
    if Elems(s) - {x} + {newest} == rest + {newest} {
      assert forall y :: y in rest ==> y in rest + {newest} && y in Elems(s) - {x} + {newest};
      assert forall y :: y in Elems(s) - {x} ==> y in rest + {newest};
      assert Elems(s) - {x} == rest;
      assert Elems(s) == rest + {x};
      OddIs(s, rest, j);
    }
    if OneOff(s, rest) && j == OddSlot(s, rest) {
      assert Elems(s) - {x} == rest;
    }
  }

  lemma NewestStep(k: nat, m: nat, rest: set<nat>, e: seq<nat>)
    requires m > 0 && Legal(k, m, e) && k + m - 1 !in rest
    ensures Elems(Kept(k, e)) == rest + {k + m - 1} <==>
              OneOff(Kept(k, Front(e)), rest) && Last(e) == OddSlot(Kept(k, Front(e)), rest)
  {
    KeptStep(k, m, e);
    var newest, s := k + m - 1, Kept(k, Front(e));
    if Last(e) < k {
      ReplaceStep(s, Last(e), newest, rest);
    } else {
      assert newest !in Elems(s) && newest in rest + {newest};
    }
  }

  /** Sequences sorted into classes of equal size. */
  lemma {:induction false} ClassesSize(ds: set<seq<nat>>, xs: set<nat>, g: seq<nat> -> nat, c: nat)
    requires forall d :: d in ds ==> g(d) in xs
    requires forall x :: x in xs ==> |Class(ds, g, x)| == c
    ensures |ds| == Rows(|xs|, c)
    decreases xs
  {
    if xs == {} {
      assert ds == {};
    } else {
      var x :| x in xs;
      var others := ds - Class(ds, g, x);
      forall y | y in xs - {x}
        ensures |Class(others, g, y)| == c
      {
        assert Class(others, g, y) == Class(ds, g, y);
      }
      ClassesSize(others, xs - {x}, g, c);
      assert ds == others + Class(ds, g, x);
      assert |xs - {x}| == |xs| - 1;
    }
  }

  function Class(ds: set<seq<nat>>, g: seq<nat> -> nat, x: nat): set<seq<nat>> {
    set d | d in ds && g(d) == x
  }

  /** The draw sequences whose sample is `rest` and one more offer. */
  function NearMisses(all: set<seq<nat>>, k: nat, rest: set<nat>): set<seq<nat>> {
    set d | d in all && OneOff(Kept(k, d), rest)
  }

  lemma NearMissesSize(k: nat, n: nat, rest: set<nat>, c: nat, all: set<seq<nat>>)
    requires forall d :: d in all ==> Distinct(Kept(k, d)) && (forall i :: 0 <= i < k ==> Kept(k, d)[i] < n)
    requires forall x :: x in Range(n) - rest ==> |Yielding(all, k, rest + {x})| == c
    ensures |NearMisses(all, k, rest)| == Rows(|Range(n) - rest|, c)
  {
    var ds, xs := NearMisses(all, k, rest), Range(n) - rest;
    var g: seq<nat> -> nat := d => OddOne(Kept(k, d), rest);
    forall x | x in xs
      ensures |Class(ds, g, x)| == c
    {
      forall d | d in all
        ensures d in ds && g(d) == x <==> d in Yielding(all, k, rest + {x})
      {
        var s := Kept(k, d);
        if Elems(s) == rest + {x} {
          assert x in Elems(s);
          OddIs(s, rest, IndexOf(s, x));
        }
      }
      assert Class(ds, g, x) == Yielding(all, k, rest + {x});
    }
    ClassesSize(ds, xs, g, c);
  }

  /** The one draw that swaps the newest offer in for the odd one. */
  function SwapIn(kept: seq<nat>, rest: set<nat>): set<nat> {
    if OneOff(kept, rest) then {OddSlot(kept, rest)} else {}
  }

  lemma SwapStep(k: nat, m: nat, rest: set<nat>, e: seq<nat>)
    requires m > 0 && Legal(k, m, e) && k + m - 1 !in rest
    ensures Legal(k, m - 1, Front(e))
    ensures Elems(Kept(k, e)) == rest + {k + m - 1} <==>
              OneOff(Kept(k, Front(e)), rest) && Last(e) in SwapIn(Kept(k, Front(e)), rest)
  {
    NewestStep(k, m, rest, e);
    LegalSplit(k, m, e);
  }

  lemma SwapCut(k: nat, m: nat, rest: set<nat>, all: set<seq<nat>>, fronts: set<seq<nat>>, f: seq<nat> -> set<nat>)
    requires m > 0 && k + m - 1 !in rest && AllDraws(all, k, m) && AllDraws(fronts, k, m - 1)
    requires forall d :: f(d) == SwapIn(Kept(k, d), rest)
    ensures Extends(Yielding(all, k, rest + {k + m - 1}), NearMisses(fronts, k, rest), f)
  {
    var w, ds := Yielding(all, k, rest + {k + m - 1}), NearMisses(fronts, k, rest);
    forall e | Legal(k, m, e)
      ensures e in w <==> Front(e) in ds && Last(e) in f(Front(e))
    {
      SwapStep(k, m, rest, e);
      assert f(Front(e)) == SwapIn(Kept(k, Front(e)), rest);
      assert e in w <==> Elems(Kept(k, e)) == rest + {k + m - 1};
      assert Front(e) in ds <==> OneOff(Kept(k, Front(e)), rest);
    }
    CutExtends(k, m, w, ds, f);
  }

  lemma WithNewest(k: nat, m: nat, rest: set<nat>, all: set<seq<nat>>, fronts: set<seq<nat>>)
    requires m > 0 && k + m - 1 !in rest && AllDraws(all, k, m) && AllDraws(fronts, k, m - 1)
    ensures |Yielding(all, k, rest + {k + m - 1})| == |NearMisses(fronts, k, rest)|
  {
    var f: seq<nat> -> set<nat> := d => SwapIn(Kept(k, d), rest);
    SwapCut(k, m, rest, all, fronts, f);
    ExtendsSize(Yielding(all, k, rest + {k + m - 1}), NearMisses(fronts, k, rest), f, 1);
  }

  /** How many draw sequences yield exactly the sample `s`. */
  function Yields(k: nat, m: nat, s: set<nat>): nat { |Yielding(Draws(k, m), k, s)| }

  lemma YieldsWithout(k: nat, m: nat, s: set<nat>)
    requires m > 0 && k + m - 1 !in s
    ensures Yields(k, m, s) == Yields(k, m - 1, s) * m
  {
    DrawsAreAll(k, m);
    DrawsAreAll(k, m - 1);
    WithoutNewest(k, m, s, Draws(k, m), Draws(k, m - 1));
  }

  function NearMissTotal(k: nat, m: nat, rest: set<nat>): nat { |NearMisses(Draws(k, m), k, rest)| }

  lemma KeptOfAll(k: nat, m: nat)
    ensures forall d :: d in Draws(k, m) ==>
              Distinct(Kept(k, d)) && (forall i :: 0 <= i < k ==> Kept(k, d)[i] < k + m)
  {
    forall d | d in Draws(k, m)
      ensures Distinct(Kept(k, d)) && (forall i :: 0 <= i < k ==> Kept(k, d)[i] < k + m)
    {
      DrawsMeaning(k, m, d);
      KeptFacts(k, d);
    }
  }

  lemma NearMissClasses(k: nat, m: nat, rest: set<nat>, c: nat)
    requires forall x :: x in Range(k + m) - rest ==> Yields(k, m, rest + {x}) == c
    ensures NearMissTotal(k, m, rest) == Rows(|Range(k + m) - rest|, c)
  {
    var all := Draws(k, m);
    KeptOfAll(k, m);
    forall x | x in Range(k + m) - rest
      ensures |Yielding(all, k, rest + {x})| == c
    {
      assert Yields(k, m, rest + {x}) == c;
    }
    NearMissesSize(k, k + m, rest, c, all);
  }

  lemma YieldsWith(k: nat, m: nat, rest: set<nat>)
    requires m > 0 && k + m - 1 !in rest
    ensures Yields(k, m, rest + {k + m - 1}) == NearMissTotal(k, m - 1, rest)
  {
    DrawsAreAll(k, m);
    DrawsAreAll(k, m - 1);
    WithNewest(k, m, rest, Draws(k, m), Draws(k, m - 1));
  }

  lemma OutsideSize(n: nat, rest: set<nat>)
    requires forall x :: x in rest ==> x < n
    ensures |Range(n) - rest| == n - |rest|
  {
    assert Range(n) == (Range(n) - rest) + rest;
  }

  lemma SubsetWithoutNewest(k: nat, m: nat, s: set<nat>)
    requires m > 0 && k + m - 1 !in s && Yields(k, m - 1, s) == Factorial(m - 1)
    ensures Yields(k, m, s) == Factorial(m)
  {
    YieldsWithout(k, m, s);
  }

  lemma SubsetWithNewest(k: nat, m: nat, rest: set<nat>, c: nat)
    requires m > 0 && |rest| + 1 == k && (forall x :: x in rest ==> x < k + m - 1)
    requires forall x :: x in Range(k + m - 1) - rest ==> Yields(k, m - 1, rest + {x}) == c
    ensures Yields(k, m, rest + {k + m - 1}) == Rows(m, c)
  {
    NearMissClasses(k, m - 1, rest, c);
    YieldsWith(k, m, rest);
    OutsideSize(k + m - 1, rest);
  }

  /** Every `k`-subset of the first `k + m` offers is the sample of exactly `m!`
      draw sequences, so all subsets are equally likely. */
  lemma {:induction false} EverySubsetEquallyLikely(k: nat, m: nat, s: set<nat>)
    requires |s| == k && forall x :: x in s ==> x < k + m
    ensures Yields(k, m, s) == Factorial(m)
    decreases m
  {
    if m == 0 {
      FirstSample(k, s);
    } else if k + m - 1 !in s {
      EverySubsetEquallyLikely(k, m - 1, s);
      SubsetWithoutNewest(k, m, s);
    } else {
      var newest, rest := k + m - 1, s - {k + m - 1};
      assert s == rest + {newest};
      forall x | x in Range(newest) - rest
        ensures Yields(k, m - 1, rest + {x}) == Factorial(m - 1)
      {
        EverySubsetEquallyLikely(k, m - 1, rest + {x});
      }
      SubsetWithNewest(k, m, rest, Factorial(m - 1));
      RowsAreProduct(m, Factorial(m - 1));
    }
  }

  lemma FirstSample(k: nat, s: set<nat>)
    requires |s| == k && forall x :: x in s ==> x < k
    ensures Yields(k, 0, s) == 1
  {
    var missing := Range(k) - s;
    assert Range(k) == s + missing;
    assert s == Range(k);
    var first := Kept(k, []);
    forall x
      ensures x in first <==> x in Range(k)
    {
      if x in Range(k) {
        assert first[x] == x;
      }
    }
    assert Elems(first) == Range(k);
    assert Yielding(Draws(k, 0), k, s) == {[]};
  }

  // The theorems speak of the samplers: what a reservoir holds after a stream is
  // the offers at the kept positions, and its draws are one of the counted ones.

  lemma SampleIsKept<T>(k: nat, xs: seq<T>, draws: seq<nat>)
    requires k <= |xs| && LegalDraws(k, |xs|, draws)
    ensures draws[k..] in Draws(k, |xs| - k)
    ensures forall j :: 0 <= j < k ==> Kept(k, draws[k..])[j] < |xs|
    ensures forall j :: 0 <= j < k ==> Sample(k, xs, draws)[j] == xs[Kept(k, draws[k..])[j]]
  {
    var d := draws[k..];
    assert forall i :: 0 <= i < |d| ==> d[i] == draws[k + i];
    DrawsMeaning(k, |xs| - k, d);
    KeptFacts(k, d);
    SampleAtKept(k, xs, draws, |xs|);
    assert xs[..|xs|] == xs && draws[..|xs|] == draws && draws[k..|xs|] == d;
  }

  lemma {:induction false} FillsInOrder<T>(k: nat, xs: seq<T>, draws: seq<nat>, n: nat)
    requires |draws| == |xs| && n <= k && n <= |xs|
    ensures Sample(k, xs[..n], draws[..n]) == xs[..n]
  {
    if n == 0 {
    } else {
      FillsInOrder(k, xs, draws, n - 1);
      assert xs[..n][..n - 1] == xs[..n - 1] && draws[..n][..n - 1] == draws[..n - 1];
    }
  }

  lemma {:induction false} SampleAtKept<T>(k: nat, xs: seq<T>, draws: seq<nat>, n: nat)
    requires k <= n <= |xs| && |draws| == |xs|
    ensures forall j :: 0 <= j < k ==> Kept(k, draws[k..n])[j] < n
    ensures forall j :: 0 <= j < k ==> Sample(k, xs[..n], draws[..n])[j] == xs[Kept(k, draws[k..n])[j]]
    decreases n
  {
    KeptFacts(k, draws[k..n]);
    if n == k {
      FillsInOrder(k, xs, draws, n);
      assert draws[k..n] == [];
    } else {
      SampleAtKept(k, xs, draws, n - 1);
      KeptFacts(k, draws[k..n - 1]);
      assert xs[..n][..n - 1] == xs[..n - 1] && draws[..n][..n - 1] == draws[..n - 1];
      assert draws[k..n][..n - 1 - k] == draws[k..n - 1];
      assert draws[k..n][n - 1 - k] == draws[n - 1];
    }
  }
}
