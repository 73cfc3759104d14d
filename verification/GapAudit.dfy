/** The acked-versus-version audit, fed from a ledger. */
module GapAudit {
  import opened Wrappers
  import opened WriteLog
  import opened AckHistory

  datatype Summary = Summary(key: Member, maxAcked: nat)

  datatype Report = Report(
    audited: nat,
    gaps: nat,
    missing: nat,
    unreadable: nat,
    failing: seq<Summary>,
    samples: seq<Summary>)

  /** Acked seqs summed per aggregate, across its clients. */
  function AckedSum(acks: seq<Summary>, agg: nat): nat {
    if acks == [] then 0
    else
      var a := acks[|acks| - 1];
      AckedSum(acks[..|acks| - 1], agg) + if a.key.aggregateId == agg then a.maxAcked else 0
  }

  predicate Flagged(acks: seq<Summary>, versions: seq<Option<nat>>, i: nat)
    requires i < |acks| == |versions|
  {
    acks[i].maxAcked != 0 && versions[i].Some? && versions[i].value < AckedSum(acks, acks[i].key.aggregateId)
  }

  /** The flagged summaries among the first `n`, in order. */
  ghost function FlaggedUpTo(acks: seq<Summary>, versions: seq<Option<nat>>, n: nat): seq<Summary>
    requires n <= |acks| == |versions|
  {
    if n == 0 then []
    else FlaggedUpTo(acks, versions, n - 1) + if Flagged(acks, versions, n - 1) then [acks[n - 1]] else []
  }

  ghost function Shortfall(acks: seq<Summary>, versions: seq<Option<nat>>, n: nat): nat
    requires n <= |acks| == |versions|
  {
    if n == 0 then 0
    else Shortfall(acks, versions, n - 1)
         + if Flagged(acks, versions, n - 1)
           then AckedSum(acks, acks[n - 1].key.aggregateId) - versions[n - 1].value else 0
  }

  ghost function AuditedUpTo(acks: seq<Summary>, n: nat): nat
    requires n <= |acks|
  {
    if n == 0 then 0 else AuditedUpTo(acks, n - 1) + if acks[n - 1].maxAcked != 0 then 1 else 0
  }

  ghost function UnreadableUpTo(acks: seq<Summary>, versions: seq<Option<nat>>, n: nat): nat
    requires n <= |acks| == |versions|
  {
    if n == 0 then 0
    else UnreadableUpTo(acks, versions, n - 1) + if acks[n - 1].maxAcked != 0 && versions[n - 1].None? then 1 else 0
  }

  /** The per-aggregate sums as the audit's map holds them. */
  method SumByAggregate(acks: seq<Summary>) returns (sums: map<nat, nat>)
    ensures forall agg :: agg in sums <==> exists i :: 0 <= i < |acks| && acks[i].key.aggregateId == agg
    ensures forall agg :: agg in sums ==> sums[agg] == AckedSum(acks, agg)
  {
    sums := map[];
    for n := 0 to |acks|
      invariant forall agg :: agg in sums <==> exists i :: 0 <= i < n && acks[i].key.aggregateId == agg
      invariant forall agg :: (if agg in sums then sums[agg] else 0) == AckedSum(acks[..n], agg)
    {
      assert acks[..n + 1][..n] == acks[..n];
      var k := acks[n].key.aggregateId;
      sums := sums[k := (if k in sums then sums[k] else 0) + acks[n].maxAcked];
    }
    assert acks[..|acks|] == acks;
  }

  /** One read per summary with something acked; `versions[i]` is its outcome. */
  method Audit(acks: seq<Summary>, versions: seq<Option<nat>>, sampleCap: nat) returns (r: Report)
    requires |versions| == |acks|
    ensures r.failing == FlaggedUpTo(acks, versions, |acks|)
    ensures r.gaps == |r.failing|
    ensures r.samples == if |r.failing| <= sampleCap then r.failing else r.failing[..sampleCap]
    ensures r.missing == Min(Shortfall(acks, versions, |acks|), U64_MAX)
    ensures r.audited == AuditedUpTo(acks, |acks|) && r.unreadable == UnreadableUpTo(acks, versions, |acks|)
  {
    var sums := SumByAggregate(acks);
    r := Report(0, 0, 0, 0, [], []);
    for i := 0 to |acks|
      invariant r.failing == FlaggedUpTo(acks, versions, i)
      invariant r.gaps == |r.failing|
      invariant r.samples == if |r.failing| <= sampleCap then r.failing else r.failing[..sampleCap]
      invariant r.missing == Min(Shortfall(acks, versions, i), U64_MAX)
      invariant r.audited == AuditedUpTo(acks, i) && r.unreadable == UnreadableUpTo(acks, versions, i)
    {
      var ack := acks[i];
      if ack.maxAcked != 0 {
        r := r.(audited := r.audited + 1);
        var expected := if ack.key.aggregateId in sums then sums[ack.key.aggregateId] else ack.maxAcked;
        match versions[i]
        case None => r := r.(unreadable := r.unreadable + 1);
        case Some(version) =>
          if version < expected {
            var short := expected - version;
            r := r.(gaps := r.gaps + 1,
                    missing := Min(r.missing + short, U64_MAX),
                    failing := r.failing + [ack],
                    samples := if |r.samples| < sampleCap then r.samples + [ack] else r.samples);
          }
      }
    }
  }

  // The report's totals as sizes: one per audited, unreadable or flagged summary,
  // and one per version a flagged summary is short of.

  ghost function AuditedAt(acks: seq<Summary>, n: nat): set<nat>
    requires n <= |acks|
  {
    set i: nat | i < n && acks[i].maxAcked != 0
  }

  ghost function UnreadableAt(acks: seq<Summary>, versions: seq<Option<nat>>, n: nat): set<nat>
    requires n <= |acks| == |versions|
  {
    set i: nat | i < n && acks[i].maxAcked != 0 && versions[i].None?
  }

  ghost function FlaggedAt(acks: seq<Summary>, versions: seq<Option<nat>>, n: nat): set<nat>
    requires n <= |acks| == |versions|
  {
    set i: nat | i < n && Flagged(acks, versions, i)
  }

  lemma {:induction false} AuditedMeaning(acks: seq<Summary>, n: nat)
    requires n <= |acks|
    ensures AuditedUpTo(acks, n) == |AuditedAt(acks, n)|
  {
    if n == 0 {
      assert AuditedAt(acks, n) == {};
    } else {
      AuditedMeaning(acks, n - 1);
      assert AuditedAt(acks, n) == AuditedAt(acks, n - 1) + if acks[n - 1].maxAcked != 0 then {n - 1} else {};
    }
  }

  lemma {:induction false} UnreadableMeaning(acks: seq<Summary>, versions: seq<Option<nat>>, n: nat)
    requires n <= |acks| == |versions|
    ensures UnreadableUpTo(acks, versions, n) == |UnreadableAt(acks, versions, n)|
  {
    if n == 0 {
      assert UnreadableAt(acks, versions, n) == {};
    } else {
      var m := n - 1;
      UnreadableMeaning(acks, versions, m);
      assert UnreadableAt(acks, versions, n)
          == UnreadableAt(acks, versions, m) + if acks[m].maxAcked != 0 && versions[m].None? then {m} else {};
    }
  }

  lemma {:induction false} FlaggedMeaning(acks: seq<Summary>, versions: seq<Option<nat>>, n: nat)
    requires n <= |acks| == |versions|
    ensures |FlaggedUpTo(acks, versions, n)| == |FlaggedAt(acks, versions, n)|
    ensures forall a :: a in FlaggedUpTo(acks, versions, n) <==>
              exists i :: i in FlaggedAt(acks, versions, n) && a == acks[i]
  {
    if n == 0 {
      assert FlaggedAt(acks, versions, n) == {};
    } else {
      var m := n - 1;
      FlaggedMeaning(acks, versions, m);
      assert FlaggedAt(acks, versions, n)
          == FlaggedAt(acks, versions, m) + if Flagged(acks, versions, m) then {m} else {};
    }
  }

  /** The versions the first `n` summaries are short of. */
  ghost function ShortVersions(acks: seq<Summary>, versions: seq<Option<nat>>, n: nat): set<(nat, nat)>
    requires n <= |acks| == |versions|
  {
    set i: nat, v: nat | i < n && Flagged(acks, versions, i)
                         && versions[i].value < v <= AckedSum(acks, acks[i].key.aggregateId) :: (i, v)
  }

  ghost function VersionsBetween(i: nat, lo: nat, hi: nat): set<(nat, nat)> {
    set v: nat | lo < v <= hi :: (i, v)
  }

  lemma {:induction false} VersionsBetweenSize(i: nat, lo: nat, hi: nat)
    requires lo <= hi
    ensures |VersionsBetween(i, lo, hi)| == hi - lo
  {
    if lo == hi {
      assert VersionsBetween(i, lo, hi) == {};
    } else {
      VersionsBetweenSize(i, lo, hi - 1);
      assert VersionsBetween(i, lo, hi) == VersionsBetween(i, lo, hi - 1) + {(i, hi)};
    }
  }

  lemma ShortVersionsStep(acks: seq<Summary>, versions: seq<Option<nat>>, m: nat)
    requires m < |acks| == |versions|
    ensures ShortVersions(acks, versions, m + 1)
         == ShortVersions(acks, versions, m)
            + if Flagged(acks, versions, m)
              then VersionsBetween(m, versions[m].value, AckedSum(acks, acks[m].key.aggregateId)) else {}
  {
  }

  lemma ShortVersionsSize(acks: seq<Summary>, versions: seq<Option<nat>>, m: nat)
    requires m < |acks| == |versions|
    ensures |ShortVersions(acks, versions, m + 1)|
         == |ShortVersions(acks, versions, m)|
            + if Flagged(acks, versions, m)
              then AckedSum(acks, acks[m].key.aggregateId) - versions[m].value else 0
  {
    ShortVersionsStep(acks, versions, m);
    if Flagged(acks, versions, m) {
      var own := VersionsBetween(m, versions[m].value, AckedSum(acks, acks[m].key.aggregateId));
      VersionsBetweenSize(m, versions[m].value, AckedSum(acks, acks[m].key.aggregateId));
      assert ShortVersions(acks, versions, m) !! own;
    }
  }

  lemma {:induction false} ShortfallMeaning(acks: seq<Summary>, versions: seq<Option<nat>>, n: nat)
    requires n <= |acks| == |versions|
    ensures Shortfall(acks, versions, n) == |ShortVersions(acks, versions, n)|
  {
    if n == 0 {
      assert ShortVersions(acks, versions, n) == {};
    } else {
      ShortfallMeaning(acks, versions, n - 1);
      ShortVersionsSize(acks, versions, n - 1);
    }
  }

  // Soundness.

  ghost predicate DistinctKeys(acks: seq<Summary>) {
    forall i, j :: 0 <= i < j < |acks| ==> acks[i].key != acks[j].key
  }

  /** The log holds every seq up to the summary's maximum. */
  ghost predicate Kept(log: Log, a: Summary) {
    forall n: nat {:trigger Entry(a.key.clientId, n)} :: 1 <= n <= a.maxAcked ==> Entry(a.key.clientId, n) in log
  }

  /** The batches an aggregate's summaries vouch for: every client's seqs up to its maximum. */
  ghost function Promised(acks: seq<Summary>, agg: nat): set<Entry> {
    set i: nat, n: nat | i < |acks| && acks[i].key.aggregateId == agg && 1 <= n <= acks[i].maxAcked
      :: Entry(acks[i].key.clientId, n)
  }

  ghost function SeqsUpTo(c: nat, m: nat): set<Entry> {
    set n: nat | 1 <= n <= m :: Entry(c, n)
  }

  lemma {:induction false} SeqsUpToSize(c: nat, m: nat)
    ensures |SeqsUpTo(c, m)| == m
  {
    if m == 0 {
      assert SeqsUpTo(c, m) == {};
    } else {
      SeqsUpToSize(c, m - 1);
      assert SeqsUpTo(c, m) == SeqsUpTo(c, m - 1) + {Entry(c, m)};
    }
  }

  lemma PromisedStep(acks: seq<Summary>, agg: nat)
    requires acks != []
    ensures var a := acks[|acks| - 1];
      Promised(acks, agg) == Promised(acks[..|acks| - 1], agg)
                             + if a.key.aggregateId == agg then SeqsUpTo(a.key.clientId, a.maxAcked) else {}
  {
    var last := |acks| - 1;
    var front := acks[..last];
    forall e | e in Promised(acks, agg)
      ensures e in Promised(front, agg)
              || (acks[last].key.aggregateId == agg && e in SeqsUpTo(acks[last].key.clientId, acks[last].maxAcked))
    {
      var i: nat, n: nat :| i < |acks| && acks[i].key.aggregateId == agg && 1 <= n <= acks[i].maxAcked
                            && e == Entry(acks[i].key.clientId, n);
      if i < last {
        assert front[i] == acks[i];
      }
    }
    forall e | e in Promised(front, agg)
      ensures e in Promised(acks, agg)
    {
      var i: nat, n: nat :| i < |front| && front[i].key.aggregateId == agg && 1 <= n <= front[i].maxAcked
                            && e == Entry(front[i].key.clientId, n);
      assert acks[i] == front[i];
    }
  }

  /** The audit's sum counts each promised batch once. */
  lemma {:induction false} SumIsPromised(acks: seq<Summary>, agg: nat)
    requires DistinctKeys(acks)
    ensures AckedSum(acks, agg) == |Promised(acks, agg)|
  {
    if acks == [] {
      assert Promised(acks, agg) == {};
    } else {
      var n := |acks| - 1;
      var a := acks[n];
      SumIsPromised(acks[..n], agg);
      PromisedStep(acks, agg);
      if a.key.aggregateId == agg {
        SeqsUpToSize(a.key.clientId, a.maxAcked);
        forall e | e in Promised(acks[..n], agg)
          ensures e.client != a.key.clientId
        {
          var i: nat :| i < n && acks[..n][i].key == Member(agg, e.client);
          assert acks[i].key != a.key;
        }
        assert Promised(acks[..n], agg) !! SeqsUpTo(a.key.clientId, a.maxAcked);
      }
    }
  }

  ghost function Held(log: Log): set<Entry> {
    set e | e in log
  }

  ghost predicate DuplicateFree(log: Log) {
    forall i, j :: 0 <= i < j < |log| ==> log[i] != log[j]
  }

  lemma {:induction false} HeldSize(log: Log)
    ensures |Held(log)| <= |log|
    ensures DuplicateFree(log) ==> |Held(log)| == |log|
  {
    if log == [] {
    } else {
      var n := |log| - 1;
      HeldSize(log[..n]);
      assert Held(log) == Held(log[..n]) + {log[n]};
      assert DuplicateFree(log) ==> log[n] !in log[..n];
    }
  }

  /** An aggregate whose log keeps everything acked is never short, whatever else
      the log holds. */
  lemma KeptNeverShort(acks: seq<Summary>, agg: nat, log: Log)
    requires DistinctKeys(acks)
    requires forall i :: 0 <= i < |acks| && acks[i].key.aggregateId == agg ==> Kept(log, acks[i])
    ensures AckedSum(acks, agg) <= |log|
  {
    SumIsPromised(acks, agg);
    assert Promised(acks, agg) <= Held(log);
    SubsetSize(Promised(acks, agg), Held(log));
    HeldSize(log);
  }

  /** For any number of clients: an audited aggregate is flagged exactly when its log
      lacks more of the promised batches than it holds others, and it is short of the
      difference. */
  lemma AuditBalance(acks: seq<Summary>, versions: seq<Option<nat>>, i: nat, log: Log)
    requires DistinctKeys(acks) && |versions| == |acks| && i < |acks|
    requires acks[i].maxAcked != 0 && versions[i] == Some(|log|) && DuplicateFree(log)
    ensures var promised := Promised(acks, acks[i].key.aggregateId);
      && (Flagged(acks, versions, i) <==> |Held(log) - promised| < |promised - Held(log)|)
      && AckedSum(acks, acks[i].key.aggregateId) - |log| == |promised - Held(log)| - |Held(log) - promised|
  {
    SumIsPromised(acks, acks[i].key.aggregateId);
    HeldSize(log);
    SizeDifference(Promised(acks, acks[i].key.aggregateId), Held(log));
  }

  /** So, where the log holds nothing but promised batches, an audited aggregate is
      flagged exactly when one of them is missing. */
  lemma AuditExact(acks: seq<Summary>, versions: seq<Option<nat>>, i: nat, log: Log)
    requires DistinctKeys(acks) && |versions| == |acks| && i < |acks|
    requires acks[i].maxAcked != 0 && versions[i] == Some(|log|) && DuplicateFree(log)
    requires forall e :: e in log ==> e in Promised(acks, acks[i].key.aggregateId)
    ensures Flagged(acks, versions, i) <==> exists e :: e in Promised(acks, acks[i].key.aggregateId) && e !in log
  {
    var promised := Promised(acks, acks[i].key.aggregateId);
    AuditBalance(acks, versions, i, log);
    assert Held(log) - promised == {};
    if promised <= Held(log) {
      assert promised - Held(log) == {};
    } else {
      var e :| e in promised && e !in Held(log);
      assert e in promised - Held(log);
    }
  }

  /** A flagged aggregate really lost something: some client's acked range has a seq
      the log does not hold. */
  lemma FlaggedReallyLost(acks: seq<Summary>, versions: seq<Option<nat>>, i: nat, log: Log) returns (j: nat, n: nat)
    requires DistinctKeys(acks) && |versions| == |acks| && i < |acks|
    requires Flagged(acks, versions, i) && versions[i] == Some(|log|)
    ensures j < |acks| && acks[j].key.aggregateId == acks[i].key.aggregateId
    ensures 1 <= n <= acks[j].maxAcked && Entry(acks[j].key.clientId, n) !in log
  {
    var agg := acks[i].key.aggregateId;
    if forall k :: 0 <= k < |acks| && acks[k].key.aggregateId == agg ==> Kept(log, acks[k]) {
      KeptNeverShort(acks, agg, log);
      assert false;
    } else {
      j :| 0 <= j < |acks| && acks[j].key.aggregateId == agg && !Kept(log, acks[j]);
      n :| 1 <= n <= acks[j].maxAcked && Entry(acks[j].key.clientId, n) !in log;
    }
  }

  /** With one client on the aggregate the audit is exact. */
  lemma SingleWriterExact(a: Summary, log: Log)
    requires Numbered(log) && forall i :: 0 <= i < |log| ==> log[i].client == a.key.clientId
    requires a.maxAcked != 0
    ensures Flagged([a], [Some(|log|)], 0) <==> Entry(a.key.clientId, a.maxAcked) !in log
  {
    assert [a][..0] == [];
    assert AckedSum([a], a.key.aggregateId) == a.maxAcked;
    OneClientCount(log, a.key.clientId);
    NumberedIsExactlyOnce(log);
    assert Entry(a.key.clientId, a.maxAcked) in log <==> a.maxAcked <= Count(log, a.key.clientId);
  }

  lemma {:induction false} OneClientCount(log: Log, c: nat)
    requires forall i :: 0 <= i < |log| ==> log[i].client == c
    ensures Count(log, c) == |log|
  {
    if log == [] {
    } else {
      OneClientCount(log[..|log| - 1], c);
    }
  }

  // Composition with the ledger.

  /** A listing of the ledger's entries, in any order. */
  ghost predicate Lists(acks: seq<Summary>, entries: map<Member, nat>) {
    && DistinctKeys(acks)
    && (forall i :: 0 <= i < |acks| ==> acks[i].key in entries && acks[i].maxAcked == entries[acks[i].key])
    && (forall k :: k in entries ==> Summary(k, entries[k]) in acks)
  }

  method ToTaskAckSummaries(entries: map<Member, nat>) returns (acks: seq<Summary>)
    ensures Lists(acks, entries)
  {
    acks := [];
    var todo := entries.Keys;
    while todo != {}
      invariant todo <= entries.Keys
      invariant DistinctKeys(acks)
      invariant forall i :: 0 <= i < |acks| ==>
        acks[i].key in entries && acks[i].key !in todo && acks[i].maxAcked == entries[acks[i].key]
      invariant forall k :: k in entries && k !in todo ==> Summary(k, entries[k]) in acks
      decreases |todo|
    {
      var k :| k in todo;
      ghost var before := acks;
      acks := acks + [Summary(k, entries[k])];
      todo := todo - {k};
      assert acks[|before|] == Summary(k, entries[k]);
      assert forall s :: s in before ==> s in acks;
    }
  }

  /** Against a log numbered per client, a flagged aggregate lost a batch the ledger
      was acked for: the maximum of some listed pair. */
  lemma FlaggedAckLost(cap: nat, entries: map<Member, nat>, keys: seq<Member>, observed: nat, past: Past,
                       acks: seq<Summary>, versions: seq<Option<nat>>, i: nat, log: Log) returns (lost: Ack)
    requires Sound(cap, entries, keys, observed, past) && Lists(acks, entries)
    requires |versions| == |acks| && i < |acks| && Flagged(acks, versions, i)
    requires Numbered(log) && versions[i] == Some(|log|)
    ensures lost in past.acks && lost.key.aggregateId == acks[i].key.aggregateId
    ensures Entry(lost.key.clientId, lost.seqNo) !in log
  {
    var j, n := FlaggedReallyLost(acks, versions, i, log);
    lost := Ack(acks[j].key, acks[j].maxAcked);
    ResidentWasAcked(entries, past, lost.key);
    NumberedIsExactlyOnce(log);
    assert Entry(lost.key.clientId, n) !in log;
  }

  /** Summaries of any ledger run, against logs that kept every acked batch and
      those below it, never exceed an aggregate's version: nothing is flagged. */
  lemma LedgerNeverFlagged(cap: nat, entries: map<Member, nat>, keys: seq<Member>, observed: nat, past: Past,
                           logs: map<nat, Log>, acks: seq<Summary>, versions: seq<Option<nat>>, i: nat)
    requires Sound(cap, entries, keys, observed, past) && Lists(acks, entries)
    requires forall a :: a in past.acks ==>
      a.key.aggregateId in logs && Kept(logs[a.key.aggregateId], Summary(a.key, a.seqNo))
    requires |versions| == |acks| && i < |acks|
    requires versions[i].Some? ==>
      acks[i].key.aggregateId in logs && |logs[acks[i].key.aggregateId]| <= versions[i].value
    ensures !Flagged(acks, versions, i)
  {
    var agg := acks[i].key.aggregateId;
    forall j | 0 <= j < |acks|
      ensures acks[j].key.aggregateId in logs && Kept(logs[acks[j].key.aggregateId], acks[j])
    {
      ResidentWasAcked(entries, past, acks[j].key);
      var a := Ack(acks[j].key, acks[j].maxAcked);
      assert a in past.acks;
    }
    KeptNeverShort(acks, agg, logs[agg]);
  }
}
