/** `EpochMonotonicPerChain` and `EpochUniquePerWalSeq` over all data shards. */
module EpochOracle {
  import opened Wrappers
  import opened History
  import opened EpochChains

  const ISSUE_CAP: nat := 10

  /** Count decreases into the shared, capped issue list. */
  method CheckMonotonicity(epochs: Chain, issues: nat) returns (after: nat)
    requires issues <= ISSUE_CAP
    ensures after == Min(issues + Drops(epochs), ISSUE_CAP)
  {
    after := issues;
    if after >= ISSUE_CAP {
      return;
    }
    for i := 0 to |epochs|
      invariant after == issues + Drops(epochs[..i]) < ISSUE_CAP
    {
      assert epochs[..i + 1][..i] == epochs[..i];
      if 0 < i && epochs[i].epoch < epochs[i - 1].epoch {
        after := after + 1;
        if after >= ISSUE_CAP {
          DropsGrow(epochs, i + 1);
          return;
        }
      }
    }
    assert epochs[..|epochs|] == epochs;
  }

  lemma {:induction false} DropsGrow(c: Chain, n: nat)
    requires n <= |c|
    ensures Drops(c[..n]) <= Drops(c)
    decreases |c| - n
  {
    if n == |c| {
      assert c[..n] == c;
    } else {
      DropsGrow(c, n + 1);
      assert c[..n + 1][..n] == c[..n];
    }
  }

  method CheckCrossNode(leader: Chain, follower: Chain, issues: nat) returns (after: nat)
    requires issues <= ISSUE_CAP
    ensures after == Min(issues + Clashes(leader, follower), ISSUE_CAP)
  {
    after := issues;
    for i := 0 to |leader|
      invariant after == Min(issues + Clashes(leader[..i], follower), ISSUE_CAP)
    {
      if after >= ISSUE_CAP {
        ClashesGrow(leader, i, follower);
        return;
      }
      assert leader[..i + 1][..i] == leader[..i];
      var other := Find(follower, leader[i].walSeq);
      if other.Some? && leader[i].epoch != other.value {
        after := after + 1;
      }
    }
    assert leader[..|leader|] == leader;
  }

  lemma {:induction false} ClashesGrow(l: Chain, n: nat, f: Chain)
    requires n <= |l|
    ensures Clashes(l[..n], f) <= Clashes(l, f)
    decreases |l| - n
  {
    if n == |l| {
      assert l[..n] == l;
    } else {
      ClashesGrow(l, n + 1, f);
      assert l[..n + 1][..n] == l[..n];
    }
  }

  /** Nothing checked is never a pass. */
  function Verdict(shardsChecked: nat, issues: nat): (r: CheckResult)
    ensures r.Pass? <==> 0 < shardsChecked && issues == 0
  {
    if shardsChecked == 0 then Fails(0)
    else if issues == 0 then Pass
    else Fails(issues)
  }

  method CheckShard(o: Observation, drops: nat, clashes: nat) returns (drops': nat, clashes': nat)
    requires Checked(o) && Readable(o) && drops <= ISSUE_CAP && clashes <= ISSUE_CAP
    ensures drops' <= ISSUE_CAP && (drops' == 0 <==> drops == 0 && Monotone(o))
    ensures clashes' <= ISSUE_CAP && (clashes' == 0 <==> clashes == 0 && Unique(o))
  {
    DropsMeaning(o.leader);
    DropsMeaning(o.follower);
    ClashesMeaning(o.leader, o.follower);
    drops' := CheckMonotonicity(o.leader, drops);
    drops' := CheckMonotonicity(o.follower, drops');
    clashes' := CheckCrossNode(o.leader, o.follower, clashes);
  }

  /** Despite the caps shared by all shards, the verdicts are exact; with nothing
      checked neither passes. */
  method RunOracle(obs: seq<Observation>) returns (monotonic: CheckResult, unique: CheckResult)
    requires forall i :: 0 <= i < |obs| ==> Readable(obs[i])
    ensures monotonic.Pass? <==> AnyChecked(obs) && AllMonotone(obs)
    ensures unique.Pass? <==> AnyChecked(obs) && AllUnique(obs)
  {
    var drops: nat, clashes: nat, checked: nat := 0, 0, 0;
    for n := 0 to |obs|
      invariant drops <= ISSUE_CAP && clashes <= ISSUE_CAP
      invariant 0 < checked <==> AnyChecked(obs[..n])
      invariant drops == 0 <==> AllMonotone(obs[..n])
      invariant clashes == 0 <==> AllUnique(obs[..n])
    {
      assert obs[..n + 1][..n] == obs[..n];
      if Checked(obs[n]) {
        checked := checked + 1;
        drops, clashes := CheckShard(obs[n], drops, clashes);
      }
    }
    assert obs[..|obs|] == obs;
    monotonic, unique := Verdict(checked, drops), Verdict(checked, clashes);
  }

  /** Two passing verdicts make every shard whose windows are linked one global chain. */
  lemma PassesGiveGlobalChains(obs: seq<Observation>, i: nat)
    requires AllMonotone(obs) && AllUnique(obs) && i < |obs| && Checked(obs[i]) && Readable(obs[i])
    requires Linked(obs[i].leader, obs[i].follower)
    ensures GlobalChain(obs[i].leader, obs[i].follower)
  {
    AllMonotoneMeaning(obs);
    AllUniqueMeaning(obs);
    LocalChecksGiveGlobalChain(obs[i].leader, obs[i].follower);
  }

  /** In particular where the windows are gap-free and overlap. */
  lemma GapFreeShardsAreGlobal(obs: seq<Observation>, i: nat)
    requires AllMonotone(obs) && AllUnique(obs) && i < |obs| && Checked(obs[i])
    requires GapFree(obs[i].leader) && GapFree(obs[i].follower) && Overlap(obs[i].leader, obs[i].follower)
    ensures GlobalChain(obs[i].leader, obs[i].follower)
  {
    GapFreeIsLinked(obs[i].leader, obs[i].follower);
    PassesGiveGlobalChains(obs, i);
  }

  /** And nowhere else: where a shard's windows are not linked, the same sequences can
      pass both verdicts while an epoch decreases. */
  lemma UnlinkedShardPassesWrongly(o: Observation) returns (bad: Observation)
    requires Checked(o) && Readable(o) && !Linked(o.leader, o.follower)
    ensures Checked(bad) && Readable(bad) && SameSeqs(bad.leader, o.leader) && SameSeqs(bad.follower, o.follower)
    ensures AnyChecked([bad]) && AllMonotone([bad]) && AllUnique([bad]) && !GlobalChain(bad.leader, bad.follower)
  {
    var l, f := UnlinkedHidesADecrease(o.leader, o.follower);
    bad := Windows(l, f);
    assert [bad][..0] == [];
    assert [bad][0] == bad;
  }

  /** Windows without a shared sequence hide a decrease. */
  lemma DisjointWindowsHideADecrease() returns (l: Chain, f: Chain)
    ensures GapFree(l) && GapFree(f) && !Overlap(l, f) && Passes(l, f) && !GlobalChain(l, f)
  {
    l, f := [Block(10, 5)], [Block(11, 3)];
    assert l[0] in l && f[0] in f;
    Decreases(l, f, l[0], f[0]);
  }

  /** A hole the other window does not cover hides a decrease even where they overlap. */
  lemma GapsHideADecrease() returns (l: Chain, f: Chain)
    ensures Ascending(l) && GapFree(f) && Overlap(l, f) && Passes(l, f) && !GlobalChain(l, f)
  {
    var a, b, c := Block(1, 1), Block(3, 5), Block(2, 9);
    l, f := [a, b], [a, c];
    PairInOrder(a, b);
    PairInOrder(a, c);
    SharedFirst(a, b, c);
    assert f[1] == c && l[1] == b;
    Decreases(l, f, c, b);
  }
}
