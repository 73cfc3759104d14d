/** Lease epochs along the log, as one node's window or two nodes' merged. */
module EpochChains {
  import opened Wrappers

  datatype Block = Block(walSeq: nat, epoch: nat)

  /** An ordered map from log sequence to epoch, as its entries in order. */
  type Chain = seq<Block>

  ghost predicate Ascending(c: Chain) {
    forall i, j :: 0 <= i < j < |c| ==> c[i].walSeq < c[j].walSeq
  }

  ghost predicate NonDecreasing(c: Chain) {
    forall i, j :: 0 <= i < j < |c| ==> c[i].epoch <= c[j].epoch
  }

  /** Adjacent decreases. */
  function Drops(c: Chain): nat {
    if |c| < 2 then 0
    else Drops(c[..|c| - 1]) + if c[|c| - 1].epoch < c[|c| - 2].epoch then 1 else 0
  }

  /** The adjacent scan sees exactly the pairwise property. */
  lemma {:induction false} DropsMeaning(c: Chain)
    ensures Drops(c) == 0 <==> NonDecreasing(c)
  {
    if |c| < 2 {
    } else {
      var n := |c| - 1;
      DropsMeaning(c[..n]);
      if Drops(c) == 0 {
        forall i, j | 0 <= i < j < |c|
          ensures c[i].epoch <= c[j].epoch
        {
          if j == n {
            assert c[..n][i].epoch <= c[..n][n - 1].epoch || i == n - 1;
          } else {
            assert c[..n][i].epoch <= c[..n][j].epoch;
          }
        }
      }
      if NonDecreasing(c) {
        assert forall i, j :: 0 <= i < j < n ==> c[..n][i] == c[i] && c[..n][j] == c[j];
      }
    }
  }

  function Find(c: Chain, s: nat): Option<nat> {
    if c == [] then None
    else if c[|c| - 1].walSeq == s then Some(c[|c| - 1].epoch)
    else Find(c[..|c| - 1], s)
  }

  lemma {:induction false} FindMeaning(c: Chain, s: nat)
    requires Ascending(c)
    ensures Find(c, s).None? <==> forall b :: b in c ==> b.walSeq != s
    ensures forall b :: b in c && b.walSeq == s ==> Find(c, s) == Some(b.epoch)
    ensures Find(c, s).Some? ==> Block(s, Find(c, s).value) in c
  {
    if c == [] {
    } else {
      var n := |c| - 1;
      FindMeaning(c[..n], s);
      assert c == c[..n] + [c[n]];
      assert forall i :: 0 <= i < n ==> c[i].walSeq < c[n].walSeq;
    }
  }

  /** Sequences both nodes hold under different epochs. */
  function Clashes(l: Chain, f: Chain): nat {
    if l == [] then 0
    else
      var b := l[|l| - 1];
      Clashes(l[..|l| - 1], f) + if Find(f, b.walSeq).Some? && Find(f, b.walSeq).value != b.epoch then 1 else 0
  }

  ghost predicate Agree(l: Chain, f: Chain) {
    forall b, c :: b in l && c in f && b.walSeq == c.walSeq ==> b.epoch == c.epoch
  }

  lemma {:induction false} ClashesMeaning(l: Chain, f: Chain)
    requires Ascending(f)
    ensures Clashes(l, f) == 0 <==> Agree(l, f)
  {
    if l == [] {
    } else {
      var n := |l| - 1;
      ClashesMeaning(l[..n], f);
      FindMeaning(f, l[n].walSeq);
      assert l == l[..n] + [l[n]];
    }
  }

  // The merged chain.

  ghost predicate Has(c: Chain, s: nat) {
    exists i :: 0 <= i < |c| && c[i].walSeq == s
  }

  /** Neighbours in the merged order of two windows. */
  ghost predicate Neighbours(l: Chain, f: Chain, s: nat, t: nat) {
    && s < t && (Has(l, s) || Has(f, s)) && (Has(l, t) || Has(f, t))
    && forall u: nat :: s < u < t ==> !Has(l, u) && !Has(f, u)
  }

  /** Every two neighbours of the merged order lie together in one window. */
  ghost predicate Linked(l: Chain, f: Chain) {
    forall s: nat, t: nat :: Neighbours(l, f, s, t) ==> (Has(l, s) && Has(l, t)) || (Has(f, s) && Has(f, t))
  }

  /** The two local checks. */
  ghost predicate Passes(l: Chain, f: Chain) {
    NonDecreasing(l) && NonDecreasing(f) && Agree(l, f)
  }

  ghost predicate In(l: Chain, f: Chain, b: Block) { b in l || b in f }

  /** The union of both windows maps each sequence to one epoch, never decreasing. */
  ghost predicate GlobalChain(l: Chain, f: Chain) {
    forall b, c :: In(l, f, b) && In(l, f, c) ==>
      (b.walSeq == c.walSeq ==> b.epoch == c.epoch) && (b.walSeq < c.walSeq ==> b.epoch <= c.epoch)
  }

  /** Within one window blocks are in order, and a sequence appears once. */
  lemma OneWindow(c: Chain, a: Block, b: Block)
    requires Ascending(c) && NonDecreasing(c) && a in c && b in c && a.walSeq <= b.walSeq
    ensures a.epoch <= b.epoch && (a.walSeq == b.walSeq ==> a == b)
  {
    var i :| 0 <= i < |c| && c[i] == a;
    var j :| 0 <= j < |c| && c[j] == b;
    if j < i {
      assert c[j].walSeq < c[i].walSeq;
    }
  }

  lemma SameSeq(l: Chain, f: Chain, b: Block, c: Block)
    requires Ascending(l) && Ascending(f) && Passes(l, f)
    requires In(l, f, b) && In(l, f, c) && b.walSeq == c.walSeq
    ensures b.epoch == c.epoch
  {
    if b in l && c in l {
      OneWindow(l, b, c);
    } else if b in f && c in f {
      OneWindow(f, b, c);
    }
  }

  lemma HasBlock(c: Chain, s: nat) returns (b: Block)
    requires Has(c, s)
    ensures b in c && b.walSeq == s
  {
    var i :| 0 <= i < |c| && c[i].walSeq == s;
    b := c[i];
  }

  /** Some block lies strictly between. */
  ghost predicate Between(l: Chain, f: Chain, b: Block, d: Block, e: Block) {
    In(l, f, e) && b.walSeq < e.walSeq < d.walSeq
  }

  /** The next sequence of the merged order after `b`, no later than `c`. */
  lemma Successor(l: Chain, f: Chain, b: Block, c: Block) returns (d: Block)
    requires In(l, f, b) && In(l, f, c) && b.walSeq < c.walSeq
    ensures In(l, f, d) && b.walSeq < d.walSeq <= c.walSeq && Neighbours(l, f, b.walSeq, d.walSeq)
  {
    d := c;
    while exists e :: Between(l, f, b, d, e)
      invariant In(l, f, d) && b.walSeq < d.walSeq <= c.walSeq
      decreases d.walSeq
    {
      var e :| Between(l, f, b, d, e);
      d := e;
    }
    forall u: nat | b.walSeq < u < d.walSeq
      ensures !Has(l, u) && !Has(f, u)
    {
      if Has(l, u) {
        var e := HasBlock(l, u);
        assert Between(l, f, b, d, e);
      }
      if Has(f, u) {
        var e := HasBlock(f, u);
        assert Between(l, f, b, d, e);
      }
    }
  }

  /** One link of the merged chain. */
  lemma LinkOrdered(l: Chain, f: Chain, w: Chain, b: Block, d: Block)
    requires Ascending(l) && Ascending(f) && Passes(l, f) && (w == l || w == f)
    requires In(l, f, b) && In(l, f, d) && b.walSeq < d.walSeq && Has(w, b.walSeq) && Has(w, d.walSeq)
    ensures b.epoch <= d.epoch
  {
    var b' := HasBlock(w, b.walSeq);
    var d' := HasBlock(w, d.walSeq);
    SameSeq(l, f, b, b');
    SameSeq(l, f, d, d');
    OneWindow(w, b', d');
  }

  lemma {:induction false} LinksReach(l: Chain, f: Chain, b: Block, c: Block)
    requires Ascending(l) && Ascending(f) && Passes(l, f) && Linked(l, f)
    requires In(l, f, b) && In(l, f, c) && b.walSeq <= c.walSeq
    ensures b.epoch <= c.epoch
    decreases c.walSeq - b.walSeq
  {
    if b.walSeq == c.walSeq {
      SameSeq(l, f, b, c);
    } else {
      var d := Successor(l, f, b, c);
      LinkOrdered(l, f, if Has(l, b.walSeq) && Has(l, d.walSeq) then l else f, b, d);
      LinksReach(l, f, d, c);
    }
  }

  lemma LinkedIsGlobal(l: Chain, f: Chain)
    requires Ascending(l) && Ascending(f) && Passes(l, f) && Linked(l, f)
    ensures GlobalChain(l, f)
  {
    forall b, c | In(l, f, b) && In(l, f, c)
      ensures b.walSeq == c.walSeq ==> b.epoch == c.epoch
      ensures b.walSeq < c.walSeq ==> b.epoch <= c.epoch
    {
      if b.walSeq <= c.walSeq {
        LinksReach(l, f, b, c);
      }
      if b.walSeq == c.walSeq {
        LinksReach(l, f, c, b);
      }
    }
  }

  // Unlinked windows can hide a decrease.

  ghost predicate SameSeqs(c: Chain, d: Chain) {
    |c| == |d| && forall i :: 0 <= i < |c| ==> c[i].walSeq == d[i].walSeq
  }

  /** The same sequences, with epoch 0 below `s` and 1 from it on. */
  ghost function StepAt(c: Chain, s: nat): (r: Chain)
    ensures SameSeqs(r, c)
    ensures forall i :: 0 <= i < |c| ==> r[i].epoch == if c[i].walSeq < s then 0 else 1
  {
    seq(|c|, i requires 0 <= i < |c| => Block(c[i].walSeq, if c[i].walSeq < s then 0 else 1))
  }

  /** A broken link, from a window that ends there to the one that goes on. */
  ghost predicate Broken(from: Chain, to: Chain, s: nat, t: nat) {
    && s < t && Has(from, s) && !Has(from, t) && Has(to, t) && !Has(to, s)
    && forall u: nat :: s < u < t ==> !Has(from, u) && !Has(to, u)
  }

  lemma StepInOrder(c: Chain, s: nat)
    requires Ascending(c)
    ensures Ascending(StepAt(c, s)) && NonDecreasing(StepAt(c, s))
  {
  }

  lemma StepsAgree(from: Chain, to: Chain, s: nat, t: nat, x: Block, y: Block)
    requires Broken(from, to, s, t)
    requires x in StepAt(from, s) && y in StepAt(to, t + 1) && x.walSeq == y.walSeq
    ensures x.epoch == y.epoch
  {
    var i :| 0 <= i < |from| && StepAt(from, s)[i] == x;
    var j :| 0 <= j < |to| && StepAt(to, t + 1)[j] == y;
    assert Has(from, x.walSeq) && Has(to, x.walSeq);
  }

  lemma Decreases(l: Chain, f: Chain, b: Block, c: Block)
    requires In(l, f, b) && In(l, f, c) && b.walSeq < c.walSeq && c.epoch < b.epoch
    ensures !GlobalChain(l, f)
  {
  }

  lemma StepDecreases(from: Chain, to: Chain, s: nat, t: nat) returns (x: Block, y: Block)
    requires Broken(from, to, s, t)
    ensures x in StepAt(from, s) && y in StepAt(to, t + 1) && x.walSeq < y.walSeq && y.epoch < x.epoch
  {
    var i :| 0 <= i < |from| && from[i].walSeq == s;
    var j :| 0 <= j < |to| && to[j].walSeq == t;
    x, y := StepAt(from, s)[i], StepAt(to, t + 1)[j];
  }

  lemma BreakHides(from: Chain, to: Chain, s: nat, t: nat)
    requires Ascending(from) && Ascending(to) && Broken(from, to, s, t)
    ensures var a, b := StepAt(from, s), StepAt(to, t + 1);
      Passes(a, b) && Passes(b, a) && !GlobalChain(a, b) && !GlobalChain(b, a)
  {
    var a, b := StepAt(from, s), StepAt(to, t + 1);
    StepInOrder(from, s);
    StepInOrder(to, t + 1);
    forall x, y | x in a && y in b && x.walSeq == y.walSeq
      ensures x.epoch == y.epoch
    {
      StepsAgree(from, to, s, t, x, y);
    }
    var x, y := StepDecreases(from, to, s, t);
    Decreases(a, b, x, y);
    Decreases(b, a, x, y);
  }

  lemma LinkBreaks(l: Chain, f: Chain, s: nat, t: nat)
    requires Neighbours(l, f, s, t) && !(Has(l, s) && Has(l, t)) && !(Has(f, s) && Has(f, t))
    ensures Broken(l, f, s, t) || Broken(f, l, s, t)
  {
  }

  /** Windows that are not linked admit epochs that pass both checks and decrease. */
  lemma UnlinkedHidesADecrease(l: Chain, f: Chain) returns (l': Chain, f': Chain)
    requires Ascending(l) && Ascending(f) && !Linked(l, f)
    ensures SameSeqs(l', l) && SameSeqs(f', f) && Ascending(l') && Ascending(f')
    ensures Passes(l', f') && !GlobalChain(l', f')
  {
    var s: nat, t: nat :| Neighbours(l, f, s, t) && !(Has(l, s) && Has(l, t)) && !(Has(f, s) && Has(f, t));
    LinkBreaks(l, f, s, t);
    if Broken(l, f, s, t) {
      l', f' := StepAt(l, s), StepAt(f, t + 1);
      StepInOrder(l, s);
      StepInOrder(f, t + 1);
      BreakHides(l, f, s, t);
    } else {
      l', f' := StepAt(l, t + 1), StepAt(f, s);
      StepInOrder(l, t + 1);
      StepInOrder(f, s);
      BreakHides(f, l, s, t);
    }
  }

  lemma HasAlike(c: Chain, d: Chain, s: nat)
    requires SameSeqs(c, d)
    ensures Has(c, s) <==> Has(d, s)
  {
    if Has(c, s) {
      var i :| 0 <= i < |c| && c[i].walSeq == s;
      assert d[i].walSeq == s;
    }
    if Has(d, s) {
      var i :| 0 <= i < |d| && d[i].walSeq == s;
      assert c[i].walSeq == s;
    }
  }

  lemma LinkedIsAboutSeqs(l: Chain, f: Chain, l': Chain, f': Chain)
    requires SameSeqs(l', l) && SameSeqs(f', f) && Linked(l, f)
    ensures Linked(l', f')
  {
    forall s: nat
      ensures (Has(l', s) <==> Has(l, s)) && (Has(f', s) <==> Has(f, s))
    {
      HasAlike(l', l, s);
      HasAlike(f', f, s);
    }
    forall s: nat, t: nat | Neighbours(l', f', s, t)
      ensures (Has(l', s) && Has(l', t)) || (Has(f', s) && Has(f', t))
    {
      assert Neighbours(l, f, s, t);
    }
  }

  /** Whatever the epochs, two passes over these sequences make a global chain. */
  ghost predicate Attests(l: Chain, f: Chain) {
    forall l': Chain, f': Chain ::
      SameSeqs(l', l) && SameSeqs(f', f) && Ascending(l') && Ascending(f') && Passes(l', f') ==> GlobalChain(l', f')
  }

  /** The local checks attest a global chain exactly when the windows are linked. */
  lemma AttestsIffLinked(l: Chain, f: Chain)
    requires Ascending(l) && Ascending(f)
    ensures Attests(l, f) <==> Linked(l, f)
  {
    if Linked(l, f) {
      forall l': Chain, f': Chain
        | SameSeqs(l', l) && SameSeqs(f', f) && Ascending(l') && Ascending(f') && Passes(l', f')
        ensures GlobalChain(l', f')
      {
        LinkedIsAboutSeqs(l, f, l', f');
        LinkedIsGlobal(l', f');
      }
    } else {
      var l', f' := UnlinkedHidesADecrease(l, f);
    }
  }

  lemma GlobalIsLocal(l: Chain, f: Chain)
    requires Ascending(l) && Ascending(f) && GlobalChain(l, f)
    ensures Passes(l, f)
  {
    forall i, j | 0 <= i < j < |l|
      ensures l[i].epoch <= l[j].epoch
    {
      assert In(l, f, l[i]) && In(l, f, l[j]);
    }
    forall i, j | 0 <= i < j < |f|
      ensures f[i].epoch <= f[j].epoch
    {
      assert In(l, f, f[i]) && In(l, f, f[j]);
    }
    forall b, c | b in l && c in f && b.walSeq == c.walSeq
      ensures b.epoch == c.epoch
    {
      assert In(l, f, b) && In(l, f, c);
    }
  }

  /** For linked windows the two checks are together exactly a global chain. */
  lemma LocalChecksGiveGlobalChain(l: Chain, f: Chain)
    requires Ascending(l) && Ascending(f) && Linked(l, f)
    ensures Passes(l, f) <==> GlobalChain(l, f)
  {
    if Passes(l, f) {
      LinkedIsGlobal(l, f);
    }
    if GlobalChain(l, f) {
      GlobalIsLocal(l, f);
    }
  }

  // Windows that are linked.

  ghost predicate GapFree(c: Chain) {
    c != [] && forall i :: 0 <= i < |c| ==> c[i].walSeq == c[0].walSeq + i
  }

  ghost predicate Overlap(l: Chain, f: Chain) {
    exists s: nat :: Has(l, s) && Has(f, s)
  }

  lemma GapFreeHas(c: Chain, s: nat)
    requires GapFree(c)
    ensures Has(c, s) <==> c[0].walSeq <= s <= c[|c| - 1].walSeq
  {
    if c[0].walSeq <= s <= c[|c| - 1].walSeq {
      assert c[s - c[0].walSeq].walSeq == s;
    }
  }

  lemma GapFreeNeighbours(l: Chain, f: Chain, s: nat, t: nat, o: nat)
    requires GapFree(l) && GapFree(f) && Neighbours(l, f, s, t) && Has(l, o) && Has(f, o)
    ensures (Has(l, s) && Has(l, t)) || (Has(f, s) && Has(f, t))
  {
    GapFreeHas(l, o);
    GapFreeHas(f, o);
    GapFreeHas(l, s);
    GapFreeHas(f, s);
    GapFreeHas(l, t);
    GapFreeHas(f, t);
    GapFreeHas(l, s + 1);
    GapFreeHas(f, s + 1);
  }

  /** Gap-free windows that overlap are linked. */
  lemma GapFreeIsLinked(l: Chain, f: Chain)
    requires GapFree(l) && GapFree(f) && Overlap(l, f)
    ensures Ascending(l) && Ascending(f) && Linked(l, f)
  {
    var o: nat :| Has(l, o) && Has(f, o);
    forall s: nat, t: nat | Neighbours(l, f, s, t)
      ensures (Has(l, s) && Has(l, t)) || (Has(f, s) && Has(f, t))
    {
      GapFreeNeighbours(l, f, s, t, o);
    }
  }

  /** Holes of one window that the other covers do no harm. */
  lemma CoveredHolesAreLinked(l: Chain, f: Chain)
    requires forall s: nat :: Has(l, s) ==> Has(f, s)
    ensures Linked(l, f)
  {
  }

  lemma PairInOrder(a: Block, b: Block)
    requires a.walSeq < b.walSeq && a.epoch <= b.epoch
    ensures Ascending([a, b]) && NonDecreasing([a, b]) && (b.walSeq == a.walSeq + 1 ==> GapFree([a, b]))
  {
  }

  lemma SharedFirst(a: Block, b: Block, c: Block)
    requires a.walSeq < c.walSeq < b.walSeq
    ensures Overlap([a, b], [a, c]) && Agree([a, b], [a, c])
  {
    assert [a, b][0] == a && [a, c][0] == a;
    assert Has([a, b], a.walSeq) && Has([a, c], a.walSeq);
  }

  // Shards.

  /** What the oracle could read of a shard: nothing, or both nodes' tail windows. */
  datatype Observation = NoTip | Windows(leader: Chain, follower: Chain)

  predicate Checked(o: Observation) {
    o.Windows? && (o.leader != [] || o.follower != [])
  }

  ghost predicate Readable(o: Observation) {
    o.Windows? ==> Ascending(o.leader) && Ascending(o.follower)
  }

  ghost predicate Monotone(o: Observation) {
    Checked(o) ==> NonDecreasing(o.leader) && NonDecreasing(o.follower)
  }

  ghost predicate Unique(o: Observation) {
    Checked(o) ==> Agree(o.leader, o.follower)
  }

  // Over the shards read so far.

  ghost predicate AnyChecked(obs: seq<Observation>) {
    obs != [] && (AnyChecked(obs[..|obs| - 1]) || Checked(obs[|obs| - 1]))
  }

  ghost predicate AllMonotone(obs: seq<Observation>) {
    obs == [] || (AllMonotone(obs[..|obs| - 1]) && Monotone(obs[|obs| - 1]))
  }

  ghost predicate AllUnique(obs: seq<Observation>) {
    obs == [] || (AllUnique(obs[..|obs| - 1]) && Unique(obs[|obs| - 1]))
  }

  // The verdicts shard by shard: a shard with nothing in its windows counts as neither
  // checked nor violated.

  lemma {:induction false} AllMonotoneMeaning(obs: seq<Observation>)
    ensures AllMonotone(obs) <==>
      forall i :: 0 <= i < |obs| && obs[i].Windows? ==> NonDecreasing(obs[i].leader) && NonDecreasing(obs[i].follower)
  {
    if obs == [] {
    } else {
      var n := |obs| - 1;
      AllMonotoneMeaning(obs[..n]);
      assert forall i :: 0 <= i < n ==> obs[..n][i] == obs[i];
    }
  }

  lemma {:induction false} AllUniqueMeaning(obs: seq<Observation>)
    ensures AllUnique(obs) <==>
      forall i :: 0 <= i < |obs| && obs[i].Windows? ==> Agree(obs[i].leader, obs[i].follower)
  {
    if obs == [] {
    } else {
      var n := |obs| - 1;
      AllUniqueMeaning(obs[..n]);
      assert forall i :: 0 <= i < n ==> obs[..n][i] == obs[i];
    }
  }

  ghost predicate ShowsBlock(o: Observation) {
    o.Windows? && exists b :: In(o.leader, o.follower, b)
  }

  lemma {:induction false} AnyCheckedMeaning(obs: seq<Observation>)
    ensures AnyChecked(obs) <==> exists i :: 0 <= i < |obs| && ShowsBlock(obs[i])
  {
    if obs == [] {
    } else {
      var n := |obs| - 1;
      AnyCheckedMeaning(obs[..n]);
      assert forall i :: 0 <= i < n ==> obs[..n][i] == obs[i];
      CheckedShows(obs[n]);
      if AnyChecked(obs[..n]) {
        var i :| 0 <= i < n && ShowsBlock(obs[..n][i]);
        assert ShowsBlock(obs[i]);
      }
    }
  }

  lemma CheckedShows(o: Observation)
    ensures Checked(o) <==> ShowsBlock(o)
  {
    if Checked(o) {
      assert In(o.leader, o.follower, if o.leader != [] then o.leader[0] else o.follower[0]);
    }
  }
}
