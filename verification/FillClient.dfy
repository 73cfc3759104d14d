/** The retry discipline of one fill task towards one aggregate: the `Active`
    entry, the classification of failed writes and the write arm of the loop. */
module FillClient {
  import opened Wrappers
  import opened Words

  const ACTIVE_CAP: nat := 64
  const NURSERY_GAP_MS: nat := 50
  const MAX_GAP_MS: nat := 60_000
  const RETRY_GAP_MS: nat := 100
  const REHEAT_BURST: nat := 4

  /** A failed write, as far as the retry discipline can tell failures apart. */
  datatype WriteError =
    | OccConflict(current: Option<nat>)
    | IdempotencyViolation(last: Option<nat>)
    | InflightDuplicate
    | OtherError

  datatype WriteResult = Acked | Failed(error: WriteError)

  datatype FillRetry =
    | Resync(current: nat)
    | AlreadyCommitted(last: Option<nat>)
    | UnexpectedDuplicate
    | Backoff

  function ClassifyWriteFailure(e: WriteError, unacked: bool): FillRetry {
    match e
    case OccConflict(Some(current)) => Resync(current)
    case IdempotencyViolation(last) => if unacked then AlreadyCommitted(last) else UnexpectedDuplicate
    case _ => Backoff
  }

  /** An aggregate spending its lifetime write budget. */
  datatype Active = Active(
    member: Member,
    version: nat,
    clientSeq: nat,
    remaining: nat,
    nextWriteMs: nat,
    gapMs: nat,
    unacked: bool)
  {
    /** Move past a `clientSeq` known to be durable, and decay. */
    function Advance(nowMs: nat, committedSeq: nat): Active {
      var gap := Min(gapMs * 2, MAX_GAP_MS);
      this.(clientSeq := committedSeq + 1,
            unacked := false,
            remaining := if remaining == 0 then 0 else remaining - 1,
            gapMs := gap,
            nextWriteMs := nowMs + gap)
    }

    /** Retry the same `clientSeq` later, having learned nothing. */
    function Defer(nowMs: nat): Active {
      this.(unacked := true, nextWriteMs := nowMs + RETRY_GAP_MS)
    }
  }

  /** What the write arm leaves behind: the entry kept or retired, and the
      `clientSeq` handed to the ack ledger, if any. */
  datatype ArmOutcome = ArmOutcome(kept: Option<Active>, recorded: Option<nat>)

  function KeepUnlessSpent(a: Active): Option<Active> {
    if a.remaining == 0 then None else Some(a)
  }

  function WriteArm(a: Active, res: WriteResult, nowMs: nat): ArmOutcome {
    match res
    case Acked =>
      ArmOutcome(KeepUnlessSpent(a.(version := a.version + 1).Advance(nowMs, a.clientSeq)), Some(a.clientSeq))
    case Failed(e) =>
      match ClassifyWriteFailure(e, a.unacked)
      case Resync(current) => ArmOutcome(Some(a.(version := current)), None)
      case AlreadyCommitted(last) =>
        var committed := Max(if last.Some? then last.value else a.clientSeq, a.clientSeq);
        ArmOutcome(KeepUnlessSpent(a.Advance(nowMs, committed)), None)
      case UnexpectedDuplicate => ArmOutcome(None, None)
      case Backoff => ArmOutcome(Some(a.Defer(nowMs)), None)
  }

  function Newborn(m: Member, budget: nat, nowMs: nat): Active {
    Active(m, 0, 1, budget, nowMs, NURSERY_GAP_MS, false)
  }

  function Reheated(aggregateId: nat, clientId: nat, version: nat, clientSeq: nat, nowMs: nat): Active {
    Active(Member(aggregateId, clientId), version, clientSeq + 1, REHEAT_BURST,
           nowMs + NURSERY_GAP_MS, NURSERY_GAP_MS, false)
  }

  // An entry's lifetime.

  datatype Attempt = Attempt(result: WriteResult, nowMs: nat)

  /** The attempt moves the entry past its seq. */
  predicate Passes(a: Active, at: Attempt) {
    at.result.Acked? || ClassifyWriteFailure(at.result.error, a.unacked).AlreadyCommitted?
  }

  /** The server holds a seq this entry never tried ambiguously. */
  predicate Unexpected(a: Active, at: Attempt) {
    at.result.Failed? && ClassifyWriteFailure(at.result.error, a.unacked).UnexpectedDuplicate?
  }

  /** The entry after a sequence of attempts, if it has not retired. */
  function Live(a: Active, ats: seq<Attempt>): Option<Active> {
    if ats == [] then Some(a)
    else
      match Live(a, ats[..|ats| - 1])
      case None => None
      case Some(b) => WriteArm(b, ats[|ats| - 1].result, ats[|ats| - 1].nowMs).kept
  }

  function PassCount(a: Active, ats: seq<Attempt>): nat {
    if ats == [] then 0
    else
      var b := Live(a, ats[..|ats| - 1]);
      PassCount(a, ats[..|ats| - 1]) + if b.Some? && Passes(b.value, ats[|ats| - 1]) then 1 else 0
  }

  ghost predicate MetUnexpected(a: Active, ats: seq<Attempt>) {
    exists i :: 0 <= i < |ats| && Live(a, ats[..i]).Some? && Unexpected(Live(a, ats[..i]).value, ats[i])
  }

  lemma ArmStep(b: Active, at: Attempt)
    requires 0 < b.remaining && b.gapMs <= MAX_GAP_MS
    ensures var kept := WriteArm(b, at.result, at.nowMs).kept; var passed := if Passes(b, at) then 1 else 0;
      && (kept.Some? ==>
            && kept.value.member == b.member && kept.value.remaining + passed == b.remaining && 0 < kept.value.remaining
            && b.clientSeq + passed <= kept.value.clientSeq && kept.value.gapMs <= MAX_GAP_MS)
      && (kept.None? ==> Unexpected(b, at) || (Passes(b, at) && b.remaining == 1))
  {
  }

  /** Whatever the network answers, a live entry has passed one seq per unit of budget
      spent and still writes to its aggregate at a bounded gap; it retires only when
      the whole budget is spent or the server reports a duplicate it cannot explain. */
  lemma {:induction false} LifetimeIsBudget(a: Active, ats: seq<Attempt>)
    requires 0 < a.remaining && a.gapMs <= MAX_GAP_MS
    ensures Live(a, ats).Some? ==>
      var b := Live(a, ats).value;
      && 0 < b.remaining && PassCount(a, ats) + b.remaining == a.remaining
      && b.member == a.member && a.clientSeq + PassCount(a, ats) <= b.clientSeq && b.gapMs <= MAX_GAP_MS
    ensures Live(a, ats).None? ==> PassCount(a, ats) == a.remaining || MetUnexpected(a, ats)
  {
    if ats == [] {
    } else {
      var n := |ats| - 1;
      LifetimeIsBudget(a, ats[..n]);
      if Live(a, ats[..n]).Some? {
        ArmStep(Live(a, ats[..n]).value, ats[n]);
      }
      if MetUnexpected(a, ats[..n]) {
        var i :| 0 <= i < n && Live(a, ats[..n][..i]).Some? && Unexpected(Live(a, ats[..n][..i]).value, ats[..n][i]);
        assert ats[..n][..i] == ats[..i];
      }
    }
  }

  /** The seq a duplicate answer reports as the server's newest. */
  function Reported(res: WriteResult): Option<nat> {
    if res.Failed? && res.error.IdempotencyViolation? then res.error.last else None
  }

  lemma DoubledGap(gap: nat, n: nat)
    ensures Min(Min(gap * Pow2(n), MAX_GAP_MS) * 2, MAX_GAP_MS) == Min(gap * Pow2(n + 1), MAX_GAP_MS)
  {
    assert Pow2(n + 1) == 2 * Pow2(n);
    assert gap * Pow2(n + 1) == 2 * (gap * Pow2(n));
  }

  /** The least seq above both the entry's own and the one the server reported. */
  predicate JustPast(seqNo: nat, own: nat, last: Option<nat>) {
    && own < seqNo && (last.Some? ==> last.value < seqNo)
    && (seqNo == own + 1 || last == Some(seqNo - 1))
  }

  /** What one attempt leaves of an entry it keeps. */
  ghost predicate Scheduled(prev: Active, at: Attempt, b: Active) {
    if Passes(prev, at) then
      && b.gapMs == Min(prev.gapMs * 2, MAX_GAP_MS) && b.nextWriteMs == at.nowMs + b.gapMs && !b.unacked
      && JustPast(b.clientSeq, prev.clientSeq, Reported(at.result))
      && b.version == prev.version + if at.result.Acked? then 1 else 0
    else if at.result.error.OccConflict? && at.result.error.current.Some? then
      b == prev.(version := at.result.error.current.value)
    else b == prev.(nextWriteMs := at.nowMs + RETRY_GAP_MS, unacked := true)
  }

  lemma ArmSchedules(prev: Active, at: Attempt)
    ensures WriteArm(prev, at.result, at.nowMs).kept.Some? ==>
              Scheduled(prev, at, WriteArm(prev, at.result, at.nowMs).kept.value)
  {
  }

  /** The decay: each pass moves just past what is known to be committed, doubles the gap
      up to its cap and schedules the next write one gap later; a failure that teaches
      nothing is retried after `RETRY_GAP_MS`, a version conflict at once, and neither
      costs budget nor decays the entry. */
  lemma {:induction false} GapsDouble(a: Active, ats: seq<Attempt>)
    requires a.gapMs <= MAX_GAP_MS && Live(a, ats).Some?
    ensures Live(a, ats).value.gapMs == Min(a.gapMs * Pow2(PassCount(a, ats)), MAX_GAP_MS)
    ensures ats != [] ==> Scheduled(Live(a, ats[..|ats| - 1]).value, ats[|ats| - 1], Live(a, ats).value)
  {
    if ats == [] {
    } else {
      var n := |ats| - 1;
      GapsDouble(a, ats[..n]);
      DoubledGap(a.gapMs, PassCount(a, ats[..n]));
      ArmSchedules(Live(a, ats[..n]).value, ats[n]);
    }
  }
}
