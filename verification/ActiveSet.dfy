/** The hot set of a fill task: one entry per aggregate, bounded, and only
    aggregates the task minted. */
module ActiveSet {
  import opened Wrappers
  import opened Identities
  import opened FillClient
  import opened Cohorts
  import opened BirthLedger

  predicate Differ(a: Active, b: Active) { a.member.aggregateId != b.member.aggregateId }

  ghost predicate SingleWriter(active: seq<Active>) {
    forall i, j {:trigger Differ(active[i], active[j])} :: 0 <= i < j < |active| ==> Differ(active[i], active[j])
  }

  predicate Hot(active: seq<Active>, agg: nat) {
    exists i :: 0 <= i < |active| && active[i].member.aggregateId == agg
  }

  /** The aggregate is one of the task's first `total` births. */
  ghost predicate MintedId(cfg: Config, total: nat, agg: nat)
    requires cfg.Mints()
  {
    exists n: nat :: n < total && agg == AggregateId(cfg.taskId, n, cfg.shards)
  }

  ghost predicate Own(cfg: Config, total: nat, active: seq<Active>)
    requires cfg.Mints()
  {
    forall i {:trigger MintedId(cfg, total, active[i].member.aggregateId)} ::
      0 <= i < |active| ==> MintedId(cfg, total, active[i].member.aggregateId)
  }

  ghost predicate ActiveOk(cfg: Config, total: nat, active: seq<Active>) {
    cfg.Mints() && total < TWO_64 && |active| <= ACTIVE_CAP && SingleWriter(active) && Own(cfg, total, active)
  }

  // Membership in the ledger means minted.

  lemma BornId(cfg: Config, total: nat, births: set<Birth>, b: Birth)
    requires cfg.Mints() && total < TWO_64 && Provenance(cfg, total, births) && b in births
    ensures b.ordinal < total && b.member.aggregateId == AggregateId(cfg.taskId, b.ordinal, cfg.shards)
    ensures MintedId(cfg, total, b.member.aggregateId)
  {
    BirthAggregate(cfg, total, births, b);
  }

  lemma NextIdIsNew(cfg: Config, total: nat, agg: nat)
    requires cfg.Mints() && total < TWO_64 && MintedId(cfg, total, agg)
    ensures agg != AggregateId(cfg.taskId, total, cfg.shards)
  {
    var n: nat :| n < total && agg == AggregateId(cfg.taskId, n, cfg.shards);
    if agg == AggregateId(cfg.taskId, total, cfg.shards) {
      MintedIdsDistinct(cfg.taskId, n, cfg.taskId, total, cfg.shards);
    }
  }

  // `Vec::swap_remove`.

  function SwapRemove(s: seq<Active>, i: nat): (r: seq<Active>)
    requires i < |s|
    ensures |r| == |s| - 1
    ensures forall k :: 0 <= k < |r| ==> r[k] == if k == i then s[|s| - 1] else s[k]
  {
    s[i := s[|s| - 1]][..|s| - 1]
  }

  /** What leaves is exactly entry `i`. */
  lemma SwapRemoveMeaning(s: seq<Active>, i: nat)
    requires i < |s|
    ensures multiset(SwapRemove(s, i)) == multiset(s) - multiset{s[i]}
  {
    var n := |s| - 1;
    var r := SwapRemove(s, i);
    assert s == s[..n] + [s[n]];
    if i < n {
      assert s[..n] == s[..i] + [s[i]] + s[i + 1..n];
      assert r == s[..i] + [s[n]] + s[i + 1..n];
    } else {
      assert r == s[..n];
    }
  }

  lemma SwapRemoveOk(cfg: Config, total: nat, active: seq<Active>, i: nat)
    requires ActiveOk(cfg, total, active) && i < |active|
    ensures ActiveOk(cfg, total, SwapRemove(active, i))
    ensures forall agg :: Hot(SwapRemove(active, i), agg) ==> Hot(active, agg)
  {
    var r := SwapRemove(active, i);
    forall j, k | 0 <= j < k < |r|
      ensures Differ(r[j], r[k])
    {
      var j', k' := if j == i then |active| - 1 else j, if k == i then |active| - 1 else k;
      assert r[j] == active[j'] && r[k] == active[k'];
      assert if j' < k' then Differ(active[j'], active[k']) else Differ(active[k'], active[j']);
    }
    forall k | 0 <= k < |r|
      ensures MintedId(cfg, total, r[k].member.aggregateId)
    {
      assert MintedId(cfg, total, active[if k == i then |active| - 1 else k].member.aggregateId);
    }
  }

  lemma PushOk(cfg: Config, total: nat, active: seq<Active>, a: Active)
    requires ActiveOk(cfg, total, active) && |active| < ACTIVE_CAP
    requires !Hot(active, a.member.aggregateId) && MintedId(cfg, total, a.member.aggregateId)
    ensures ActiveOk(cfg, total, active + [a])
  {
    var s := active + [a];
    forall i, j | 0 <= i < j < |s|
      ensures Differ(s[i], s[j])
    {
      assert j < |active| ==> Differ(active[i], active[j]);
    }
    forall k | 0 <= k < |s|
      ensures MintedId(cfg, total, s[k].member.aggregateId)
    {
      assert k < |active| ==> MintedId(cfg, total, active[k].member.aggregateId);
    }
  }

  lemma ReplaceOk(cfg: Config, total: nat, active: seq<Active>, i: nat, a: Active)
    requires ActiveOk(cfg, total, active) && i < |active| && a.member == active[i].member
    ensures ActiveOk(cfg, total, active[i := a])
  {
    var s := active[i := a];
    forall j, k | 0 <= j < k < |s|
      ensures Differ(s[j], s[k])
    {
      assert Differ(active[j], active[k]);
    }
    forall k | 0 <= k < |s|
      ensures MintedId(cfg, total, s[k].member.aggregateId)
    {
      assert MintedId(cfg, total, active[k].member.aggregateId);
    }
  }

  lemma GrowOk(cfg: Config, total: nat, active: seq<Active>)
    requires ActiveOk(cfg, total, active) && total + 1 < TWO_64
    ensures ActiveOk(cfg, total + 1, active)
  {
    forall i | 0 <= i < |active|
      ensures MintedId(cfg, total + 1, active[i].member.aggregateId)
    {
      assert MintedId(cfg, total, active[i].member.aggregateId);
    }
  }

  lemma NewbornNotHot(cfg: Config, total: nat, active: seq<Active>)
    requires ActiveOk(cfg, total, active)
    ensures !Hot(active, AggregateId(cfg.taskId, total, cfg.shards))
  {
    forall i | 0 <= i < |active|
      ensures active[i].member.aggregateId != AggregateId(cfg.taskId, total, cfg.shards)
    {
      assert MintedId(cfg, total, active[i].member.aggregateId);
      NextIdIsNew(cfg, total, active[i].member.aggregateId);
    }
  }

  /** A newborn is a new aggregate of the task. */
  lemma NewbornJoins(cfg: Config, n: nat, total: nat, active: seq<Active>, births: set<Birth>, b: Birth)
    requires ActiveOk(cfg, n, active) && total == n + 1 < TWO_64
    requires Provenance(cfg, total, births) && b in births && b.ordinal == n
    ensures ActiveOk(cfg, total, active)
    ensures !Hot(active, b.member.aggregateId) && MintedId(cfg, total, b.member.aggregateId)
  {
    NewbornNotHot(cfg, n, active);
    GrowOk(cfg, n, active);
    BornId(cfg, total, births, b);
  }

  /** Two tasks of one deployment never hold the same aggregate. */
  lemma TasksNeverShare(c1: Config, n1: nat, a1: seq<Active>, c2: Config, n2: nat, a2: seq<Active>, agg: nat)
    requires ActiveOk(c1, n1, a1) && ActiveOk(c2, n2, a2)
    requires c1.shards == c2.shards && c1.taskId != c2.taskId
    ensures !(Hot(a1, agg) && Hot(a2, agg))
  {
    if Hot(a1, agg) && Hot(a2, agg) {
      var i :| 0 <= i < |a1| && a1[i].member.aggregateId == agg;
      var j :| 0 <= j < |a2| && a2[j].member.aggregateId == agg;
      assert MintedId(c1, n1, a1[i].member.aggregateId) && MintedId(c2, n2, a2[j].member.aggregateId);
      var m: nat :| m < n1 && agg == AggregateId(c1.taskId, m, c1.shards);
      var n: nat :| n < n2 && agg == AggregateId(c2.taskId, n, c2.shards);
      MintedIdsDistinct(c1.taskId, m, c2.taskId, n, c1.shards);
    }
  }

  // The two scans.

  /** `max_by_key`: the last of the entries due latest. */
  method MostDecayed(active: seq<Active>) returns (i: nat)
    requires active != []
    ensures i < |active|
    ensures forall k :: 0 <= k < |active| ==> active[k].nextWriteMs <= active[i].nextWriteMs
    ensures forall k :: i < k < |active| ==> active[k].nextWriteMs < active[i].nextWriteMs
  {
    i := 0;
    for n := 1 to |active|
      invariant i < n
      invariant forall k :: 0 <= k < n ==> active[k].nextWriteMs <= active[i].nextWriteMs
      invariant forall k :: i < k < n ==> active[k].nextWriteMs < active[i].nextWriteMs
    {
      if active[i].nextWriteMs <= active[n].nextWriteMs {
        i := n;
      }
    }
  }

  /** `filter` and `min_by_key`: the first of the earliest entries already due. */
  method Due(active: seq<Active>, nowMs: nat) returns (r: Option<nat>)
    ensures r.None? <==> forall k :: 0 <= k < |active| ==> nowMs < active[k].nextWriteMs
    ensures r.Some? ==>
      && r.value < |active| && active[r.value].nextWriteMs <= nowMs
      && (forall k :: 0 <= k < |active| ==> active[r.value].nextWriteMs <= active[k].nextWriteMs)
      && (forall k :: 0 <= k < r.value ==> active[r.value].nextWriteMs < active[k].nextWriteMs)
  {
    r := None;
    for n := 0 to |active|
      invariant r.None? <==> forall k :: 0 <= k < n ==> nowMs < active[k].nextWriteMs
      invariant r.Some? ==>
        && r.value < n && active[r.value].nextWriteMs <= nowMs
        && (forall k :: 0 <= k < n ==> active[r.value].nextWriteMs <= active[k].nextWriteMs)
        && (forall k :: 0 <= k < r.value ==> active[r.value].nextWriteMs < active[k].nextWriteMs)
    {
      if active[n].nextWriteMs <= nowMs && (r.None? || active[n].nextWriteMs < active[r.value].nextWriteMs) {
        r := Some(n);
      }
    }
  }
}
