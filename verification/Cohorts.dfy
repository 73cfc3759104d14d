/** Birth-time cohorts: age windows, expiry and the members they retain. */
module Cohorts {
  import opened Wrappers
  import opened Identities

  datatype AgeBucket = FiveMin | ThirtyMin | TwoHour | FourHour {
    /** Half-open age range in milliseconds, capped to 64 bits. */
    function RangeMs(): (r: (nat, nat))
      ensures r.0 < r.1 <= U64_MAX
    {
      match this
      case FiveMin => (5 * 60_000, 30 * 60_000)
      case ThirtyMin => (30 * 60_000, 120 * 60_000)
      case TwoHour => (120 * 60_000, 240 * 60_000)
      case FourHour => (240 * 60_000, U64_MAX)
    }
  }

  /** Every age of five minutes or more, short of the 64-bit cap, has a bucket. */
  lemma BucketsCover(age: nat) returns (b: AgeBucket)
    requires 5 * 60_000 <= age < U64_MAX
    ensures b.RangeMs().0 <= age < b.RangeMs().1
  {
    b := if age < 30 * 60_000 then FiveMin
         else if age < 120 * 60_000 then ThirtyMin
         else if age < 240 * 60_000 then TwoHour
         else FourHour;
  }

  /** An age belongs to at most one bucket. */
  lemma BucketsDisjoint(a: AgeBucket, b: AgeBucket, age: nat)
    requires a.RangeMs().0 <= age < a.RangeMs().1 && b.RangeMs().0 <= age < b.RangeMs().1
    ensures a == b
  {
  }

  datatype Cohort = Cohort(slice: nat, seen: nat, members: seq<Member>)

  /** One birth: the task's ordinal, what it minted and when. */
  datatype Birth = Born(ordinal: nat, member: Member, atMs: nat)

  function Members(births: seq<Birth>): (ms: seq<Member>)
    ensures |ms| == |births| && forall i :: 0 <= i < |ms| ==> ms[i] == births[i].member
  {
    seq(|births|, i requires 0 <= i < |births| => births[i].member)
  }

  function Saturating(x: nat): nat { Min(x, U64_MAX) }
  function Minus(a: nat, b: nat): nat { if a < b then 0 else a - b }

  /** Every member is at least `lo` old and the oldest is under `hi`. The newest edge is
      an unchecked 64-bit sum. */
  predicate CohortInBucket(slice: nat, sliceMs: nat, nowMs: nat, lo: nat, hi: nat) {
    var newest := (Saturating(slice * sliceMs) + Minus(sliceMs, 1)) % TWO_64;
    var oldest := Saturating(slice * sliceMs);
    newest <= nowMs && lo <= Minus(nowMs, newest) && Minus(nowMs, oldest) < hi
  }

  // Sequences of cohorts.

  predicate Before(a: Cohort, b: Cohort) { a.slice < b.slice }

  ghost predicate Ascending(cs: seq<Cohort>) {
    forall i, j {:trigger Before(cs[i], cs[j])} :: 0 <= i < j < |cs| ==> Before(cs[i], cs[j])
  }

  lemma AscendingAt(cs: seq<Cohort>, m: nat)
    requires Ascending(cs) && m < |cs|
    ensures forall i :: 0 <= i < m ==> cs[i].slice < cs[m].slice
    ensures forall i :: m < i < |cs| ==> cs[m].slice < cs[i].slice
  {
    assert forall i :: 0 <= i < m ==> Before(cs[i], cs[m]);
    assert forall i :: m < i < |cs| ==> Before(cs[m], cs[i]);
  }

  function Retained(cs: seq<Cohort>): nat {
    if cs == [] then 0 else Retained(cs[..|cs| - 1]) + |cs[|cs| - 1].members|
  }

  function SeenTotal(cs: seq<Cohort>): nat {
    if cs == [] then 0 else SeenTotal(cs[..|cs| - 1]) + cs[|cs| - 1].seen
  }

  function KeepFrom(cs: seq<Cohort>, from: nat): seq<Cohort> {
    if cs == [] then []
    else
      var last := cs[|cs| - 1];
      var front := KeepFrom(cs[..|cs| - 1], from);
      if from <= last.slice then front + [last] else front
  }

  /** The retained members of the eligible cohorts, in order. */
  function Eligible(cs: seq<Cohort>, sliceMs: nat, nowMs: nat, lo: nat, hi: nat): seq<Member> {
    if cs == [] then []
    else
      var last := cs[|cs| - 1];
      Eligible(cs[..|cs| - 1], sliceMs, nowMs, lo, hi)
      + if CohortInBucket(last.slice, sliceMs, nowMs, lo, hi) then last.members else []
  }

  lemma {:induction false} KeepFromSplit(cs: seq<Cohort>, from: nat, p: nat)
    requires p <= |cs|
    requires forall i :: 0 <= i < p ==> cs[i].slice < from
    requires forall i :: p <= i < |cs| ==> from <= cs[i].slice
    ensures KeepFrom(cs, from) == cs[p..]
  {
    if cs == [] {
    } else {
      var n := |cs| - 1;
      if p == |cs| {
        KeepFromSplit(cs[..n], from, n);
        assert cs[..n][n..] == [] && cs[p..] == [];
      } else {
        KeepFromSplit(cs[..n], from, p);
        assert cs[..n][p..] + [cs[n]] == cs[p..];
      }
    }
  }

  /** The member a draw picks: candidate `rand` modulo their number, if there is any. */
  ghost function Draw(cs: seq<Cohort>, sliceMs: nat, nowMs: nat, bucket: AgeBucket, rand: nat): Option<Member> {
    var all := Eligible(cs, sliceMs, nowMs, bucket.RangeMs().0, bucket.RangeMs().1);
    if all == [] then None else Some(all[rand % |all|])
  }

  /** In a sorted ledger, expiry drops a prefix. */
  lemma KeepFromIsSuffix(cs: seq<Cohort>, from: nat) returns (p: nat)
    requires Ascending(cs)
    ensures p <= |cs| && KeepFrom(cs, from) == cs[p..]
    ensures forall i :: 0 <= i < p ==> cs[i].slice < from
    ensures forall i :: p <= i < |cs| ==> from <= cs[i].slice
  {
    p := 0;
    while p < |cs| && cs[p].slice < from
      invariant p <= |cs| && forall i :: 0 <= i < p ==> cs[i].slice < from
    {
      p := p + 1;
    }
    if p < |cs| {
      AscendingAt(cs, p);
    }
    KeepFromSplit(cs, from, p);
  }

  lemma {:induction false} SeenSplits(cs: seq<Cohort>, p: nat)
    requires p <= |cs|
    ensures SeenTotal(cs) == SeenTotal(cs[..p]) + SeenTotal(cs[p..])
    decreases |cs| - p
  {
    if p == |cs| {
      assert cs[..p] == cs && cs[p..] == [];
    } else {
      var n := |cs| - 1;
      SeenSplits(cs[..n], p);
      assert cs[..n][..p] == cs[..p] && cs[..n][p..] == cs[p..n];
      assert cs[p..][..n - p] == cs[p..n];
    }
  }

  lemma SeenReplaced(cs: seq<Cohort>, i: nat, c: Cohort)
    requires i < |cs|
    ensures SeenTotal(cs[i := c]) == SeenTotal(cs) - cs[i].seen + c.seen
  {
    SeenSplits(cs, i);
    SeenSplits(cs[i := c], i);
    SeenSplits(cs[i..], 1);
    SeenSplits(cs[i := c][i..], 1);
    assert cs[i := c][..i] == cs[..i];
    assert cs[i := c][i..][1..] == cs[i..][1..];
    assert cs[i..][..1] == [cs[i]] && cs[i := c][i..][..1] == [c];
    assert [cs[i]][..0] == [] && [c][..0] == [];
  }

  lemma SeenInserted(cs: seq<Cohort>, i: nat, c: Cohort)
    requires i <= |cs|
    ensures SeenTotal(cs[..i] + [c] + cs[i..]) == SeenTotal(cs) + c.seen
  {
    var cs' := cs[..i] + [c] + cs[i..];
    SeenSplits(cs, i);
    SeenSplits(cs', i);
    SeenSplits(cs'[i..], 1);
    assert cs'[..i] == cs[..i] && cs'[i..][1..] == cs[i..] && cs'[i..][..1] == [c];
    assert [c][..0] == [];
  }

  lemma {:induction false} RetainedBound(cs: seq<Cohort>, k: nat)
    requires forall i :: 0 <= i < |cs| ==> |cs[i].members| <= k
    ensures Retained(cs) <= |cs| * k
  {
    if cs == [] {
    } else {
      RetainedBound(cs[..|cs| - 1], k);
      assert (|cs| - 1) * k + k == |cs| * k;
    }
  }

  lemma {:induction false} AscendingSpan(cs: seq<Cohort>, lo: nat, hi: nat)
    requires Ascending(cs) && forall i :: 0 <= i < |cs| ==> lo <= cs[i].slice <= hi
    ensures |cs| <= if lo <= hi then hi - lo + 1 else 0
  {
    if cs != [] {
      AscendingGap(cs, |cs| - 1);
    }
  }

  lemma {:induction false} AscendingGap(cs: seq<Cohort>, i: nat)
    requires Ascending(cs) && i < |cs|
    ensures cs[0].slice + i <= cs[i].slice
  {
    if i == 0 {
    } else {
      AscendingGap(cs, i - 1);
      assert Before(cs[i - 1], cs[i]);
    }
  }

  lemma {:induction false} EligiblePrefix(cs: seq<Cohort>, i: nat, sliceMs: nat, nowMs: nat, lo: nat, hi: nat)
    requires i <= |cs|
    ensures Eligible(cs[..i], sliceMs, nowMs, lo, hi) <= Eligible(cs, sliceMs, nowMs, lo, hi)
    decreases |cs| - i
  {
    if i == |cs| {
      assert cs[..i] == cs;
    } else {
      EligiblePrefix(cs[..|cs| - 1], i, sliceMs, nowMs, lo, hi);
      assert cs[..|cs| - 1][..i] == cs[..i];
    }
  }

  /** Where an eligible member comes from. */
  lemma {:induction false} EligibleFrom(cs: seq<Cohort>, sliceMs: nat, nowMs: nat, lo: nat, hi: nat, p: nat)
    returns (i: nat, j: nat)
    requires p < |Eligible(cs, sliceMs, nowMs, lo, hi)|
    ensures i < |cs| && j < |cs[i].members|
    ensures CohortInBucket(cs[i].slice, sliceMs, nowMs, lo, hi)
    ensures cs[i].members[j] == Eligible(cs, sliceMs, nowMs, lo, hi)[p]
  {
    var n := |cs| - 1;
    var front := Eligible(cs[..n], sliceMs, nowMs, lo, hi);
    if p < |front| {
      i, j := EligibleFrom(cs[..n], sliceMs, nowMs, lo, hi, p);
    } else {
      i, j := n, p - |front|;
    }
  }

  // The two passes of a draw.

  lemma EligibleStep(cs: seq<Cohort>, i: nat, sliceMs: nat, nowMs: nat, lo: nat, hi: nat)
    requires i < |cs|
    ensures var front := Eligible(cs[..i], sliceMs, nowMs, lo, hi);
            var part := if CohortInBucket(cs[i].slice, sliceMs, nowMs, lo, hi) then cs[i].members else [];
            && Eligible(cs[..i + 1], sliceMs, nowMs, lo, hi) == front + part
            && front + part <= Eligible(cs, sliceMs, nowMs, lo, hi)
  {
    assert cs[..i + 1][..i] == cs[..i];
    EligiblePrefix(cs, i + 1, sliceMs, nowMs, lo, hi);
  }

  /** A draw's candidates are the members of the eligible cohorts, no more and no fewer. */
  lemma {:induction false} EligibleMembers(cs: seq<Cohort>, sliceMs: nat, nowMs: nat, lo: nat, hi: nat, m: Member)
    ensures m in Eligible(cs, sliceMs, nowMs, lo, hi) <==>
            exists i :: 0 <= i < |cs| && CohortInBucket(cs[i].slice, sliceMs, nowMs, lo, hi) && m in cs[i].members
  {
    if cs == [] {
    } else {
      var n := |cs| - 1;
      EligibleMembers(cs[..n], sliceMs, nowMs, lo, hi, m);
      assert forall i :: 0 <= i < n ==> cs[..n][i] == cs[i];
    }
  }

  method CountEligible(cs: seq<Cohort>, sliceMs: nat, nowMs: nat, lo: nat, hi: nat) returns (total: nat)
    ensures total == |Eligible(cs, sliceMs, nowMs, lo, hi)|
  {
    total := 0;
    for i := 0 to |cs|
      invariant total == |Eligible(cs[..i], sliceMs, nowMs, lo, hi)|
    {
      EligibleStep(cs, i, sliceMs, nowMs, lo, hi);
      if CohortInBucket(cs[i].slice, sliceMs, nowMs, lo, hi) {
        total := total + |cs[i].members|;
      }
    }
    assert cs[..|cs|] == cs;
  }

  method WalkTo(cs: seq<Cohort>, sliceMs: nat, nowMs: nat, lo: nat, hi: nat, target: nat) returns (r: Option<Member>)
    ensures var all := Eligible(cs, sliceMs, nowMs, lo, hi);
            r == if target < |all| then Some(all[target]) else None
  {
    var pick: nat := target;
    for i := 0 to |cs|
      invariant pick + |Eligible(cs[..i], sliceMs, nowMs, lo, hi)| == target
    {
      EligibleStep(cs, i, sliceMs, nowMs, lo, hi);
      if CohortInBucket(cs[i].slice, sliceMs, nowMs, lo, hi) {
        if pick < |cs[i].members| {
          return Some(cs[i].members[pick]);
        }
        pick := pick - |cs[i].members|;
      }
    }
    assert cs[..|cs|] == cs;
    return None;
  }
}
