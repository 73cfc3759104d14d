/** `HistoryIdempotency`: no seq is acknowledged as new twice, and "already
    applied" is only ever said of something the client may have written. */
module IdempotencyCheck {
  import opened Wrappers
  import opened History

  /** A second `Ok` for a seq the session already holds an `Ok` for. */
  ghost predicate SecondOk(ops: seq<OpRecord>, i: nat)
    requires i < |ops|
  {
    ops[i].outcome.Ok? && OkBefore(ops, i, ops[i].session, ops[i].clientSeq)
  }

  /** "Already applied" with no earlier ack at or above the seq and no earlier
      ambiguous attempt at it. */
  ghost predicate Unjustified(ops: seq<OpRecord>, i: nat)
    requires i < |ops|
  {
    && Is2002(ops[i])
    && 0 < ops[i].clientSeq
    && !AckAtLeast(ops, i, ops[i].session, ops[i].clientSeq)
    && !InfoBefore(ops, i, ops[i].session, ops[i].clientSeq)
  }

  ghost predicate Violation(ops: seq<OpRecord>, i: nat)
    requires i < |ops|
  {
    SecondOk(ops, i) || Unjustified(ops, i)
  }

  ghost predicate OkBefore(ops: seq<OpRecord>, n: nat, ss: Session, q: nat)
    requires n <= |ops|
  {
    exists j :: 0 <= j < n && ops[j].outcome.Ok? && ops[j].session == ss && ops[j].clientSeq == q
  }

  ghost predicate InfoBefore(ops: seq<OpRecord>, n: nat, ss: Session, q: nat)
    requires n <= |ops|
  {
    exists j :: 0 <= j < n && ops[j].outcome.Info? && ops[j].session == ss && ops[j].clientSeq == q
  }

  ghost predicate AckAtLeast(ops: seq<OpRecord>, n: nat, ss: Session, q: nat)
    requires n <= |ops|
  {
    exists j :: 0 <= j < n && IsAck(ops[j]) && ops[j].session == ss && q <= ops[j].clientSeq
  }

  function Top(m: map<Session, nat>, ss: Session): nat {
    if ss in m then m[ss] else 0
  }

  function Raise(m: map<Session, nat>, ss: Session, q: nat): map<Session, nat> {
    m[ss := if Top(m, ss) < q then q else Top(m, ss)]
  }

  /** The bookkeeping agrees with the records read so far. The high-water mark is
      only claimed while nothing has been flagged: a flagged 2002 does not raise it. */
  ghost predicate Bookkeeping(ops: seq<OpRecord>, n: nat, acked: map<Session, set<nat>>,
                              info: map<Session, set<nat>>, top: map<Session, nat>, clean: bool)
    requires n <= |ops|
  {
    && (forall ss, q: nat :: q in Seqs(acked, ss) <==> OkBefore(ops, n, ss, q))
    && (forall ss, q: nat :: q in Seqs(info, ss) <==> InfoBefore(ops, n, ss, q))
    && (clean ==> forall ss, q: nat :: 0 < q ==> (q <= Top(top, ss) <==> AckAtLeast(ops, n, ss, q)))
  }

  lemma BeforeStep(ops: seq<OpRecord>, n: nat, ss: Session, q: nat)
    requires n < |ops|
    ensures OkBefore(ops, n + 1, ss, q) <==>
              OkBefore(ops, n, ss, q) || (ops[n].outcome.Ok? && ops[n].session == ss && ops[n].clientSeq == q)
    ensures InfoBefore(ops, n + 1, ss, q) <==>
              InfoBefore(ops, n, ss, q) || (ops[n].outcome.Info? && ops[n].session == ss && ops[n].clientSeq == q)
    ensures AckAtLeast(ops, n + 1, ss, q) <==>
              AckAtLeast(ops, n, ss, q) || (IsAck(ops[n]) && ops[n].session == ss && q <= ops[n].clientSeq)
  {
    var op := ops[n];
    if op.outcome.Ok? && op.session == ss && op.clientSeq == q {
      assert OkBefore(ops, n + 1, ss, q);
    }
    if op.outcome.Info? && op.session == ss && op.clientSeq == q {
      assert InfoBefore(ops, n + 1, ss, q);
    }
    if IsAck(op) && op.session == ss && q <= op.clientSeq {
      assert AckAtLeast(ops, n + 1, ss, q);
    }
  }

  /** One record read: the updates of the loop body keep the books. */
  lemma BookkeepingStep(ops: seq<OpRecord>, n: nat,
                        acked: map<Session, set<nat>>, info: map<Session, set<nat>>,
                        top: map<Session, nat>, clean: bool,
                        acked': map<Session, set<nat>>, info': map<Session, set<nat>>,
                        top': map<Session, nat>, clean': bool)
    requires n < |ops| && Bookkeeping(ops, n, acked, info, top, clean) && (clean' ==> clean)
    requires var op := ops[n];
      && acked' == (if op.outcome.Ok? then acked[op.session := Seqs(acked, op.session) + {op.clientSeq}] else acked)
      && info' == (if op.outcome.Info? then info[op.session := Seqs(info, op.session) + {op.clientSeq}] else info)
      && (clean' ==> top' == if IsAck(op) then Raise(top, op.session, op.clientSeq) else top)
    ensures Bookkeeping(ops, n + 1, acked', info', top', clean')
  {
    forall ss, q: nat
      ensures q in Seqs(acked', ss) <==> OkBefore(ops, n + 1, ss, q)
    {
      BeforeStep(ops, n, ss, q);
    }
    forall ss, q: nat
      ensures q in Seqs(info', ss) <==> InfoBefore(ops, n + 1, ss, q)
    {
      BeforeStep(ops, n, ss, q);
    }
    forall ss, q: nat {:trigger AckAtLeast(ops, n + 1, ss, q)}
      ensures clean' && 0 < q ==> (q <= Top(top', ss) <==> AckAtLeast(ops, n + 1, ss, q))
    {
      BeforeStep(ops, n, ss, q);
    }
  }

  /** Two acceptances of one write. */
  predicate SameWrite(a: OpRecord, b: OpRecord) {
    a.outcome.Ok? && b.outcome.Ok? && a.session == b.session && a.clientSeq == b.clientSeq
  }

  /** An earlier record that explains "already applied": an ambiguous attempt at the same
      seq, or an ack at or above it. */
  predicate Explains(a: OpRecord, b: OpRecord) {
    && a.session == b.session
    && if a.outcome.Info? then a.clientSeq == b.clientSeq else IsAck(a) && b.clientSeq <= a.clientSeq
  }

  ghost predicate Explained(ops: seq<OpRecord>, j: nat)
    requires j < |ops|
  {
    exists i :: 0 <= i < j && Explains(ops[i], ops[j])
  }

  ghost predicate Repeated(ops: seq<OpRecord>, j: nat)
    requires j < |ops|
  {
    exists i :: 0 <= i < j && SameWrite(ops[i], ops[j])
  }

  lemma JustifiedIsExplained(ops: seq<OpRecord>, j: nat)
    requires j < |ops|
    ensures Explained(ops, j) <==>
      AckAtLeast(ops, j, ops[j].session, ops[j].clientSeq) || InfoBefore(ops, j, ops[j].session, ops[j].clientSeq)
  {
    forall i | 0 <= i < j
      ensures Explains(ops[i], ops[j]) <==>
        && ops[i].session == ops[j].session
        && ((IsAck(ops[i]) && ops[j].clientSeq <= ops[i].clientSeq)
            || (ops[i].outcome.Info? && ops[i].clientSeq == ops[j].clientSeq))
    {
    }
  }

  /** What the check objects to, record against record: a write accepted twice, and an
      "already applied" of a numbered write that nothing explains. */
  lemma ViolationMeaning(ops: seq<OpRecord>, j: nat)
    requires j < |ops|
    ensures Violation(ops, j) <==>
      Repeated(ops, j) || (Is2002(ops[j]) && ops[j].clientSeq != 0 && !Explained(ops, j))
  {
    JustifiedIsExplained(ops, j);
    assert SecondOk(ops, j) <==> Repeated(ops, j);
  }

  /** Exact despite the sample cap: with a complete history the check fails if and
      only if some record is a violation; with any record dropped it always fails. */
  method CheckIdempotency(ops: seq<OpRecord>, recordsDropped: nat) returns (r: CheckResult)
    ensures r.Pass? <==> recordsDropped == 0 && forall i :: 0 <= i < |ops| ==> !Violation(ops, i)
    ensures r.Fails? && recordsDropped == 0 ==> 1 <= r.samples <= SAMPLE_CAP
  {
    if recordsDropped > 0 {
      return Fails(0);
    }
    var acked: map<Session, set<nat>> := map[];
    var top: map<Session, nat> := map[];
    var info: map<Session, set<nat>> := map[];
    var violations := 0;
    for n := 0 to |ops|
      invariant violations <= SAMPLE_CAP
      invariant Bookkeeping(ops, n, acked, info, top, violations == 0)
      invariant violations == 0 <==> forall i :: 0 <= i < n ==> !Violation(ops, i)
    {
      ghost var acked0, info0, top0, clean0 := acked, info, top, violations == 0;
      var op := ops[n];
      var ss := op.session;
      assert SecondOk(ops, n) <==> op.outcome.Ok? && op.clientSeq in Seqs(acked, ss);
      assert clean0 ==> (Unjustified(ops, n) <==>
                           Is2002(op) && op.clientSeq > Top(top, ss) && op.clientSeq !in Seqs(info, ss));
      match op.outcome {
      case Ok =>
        if op.clientSeq in Seqs(acked, ss) && violations < SAMPLE_CAP {
          violations := violations + 1;
        }
        acked := acked[ss := Seqs(acked, ss) + {op.clientSeq}];
        top := Raise(top, ss, op.clientSeq);
      case Info =>
        info := info[ss := Seqs(info, ss) + {op.clientSeq}];
      case Fail =>
        if op.error == Some(ClientIdempotencyViolation) {
          if op.clientSeq > Top(top, ss) && op.clientSeq !in Seqs(info, ss) {
            if violations < SAMPLE_CAP {
              violations := violations + 1;
            }
          } else {
            top := Raise(top, ss, op.clientSeq);
          }
        }
      }
      assert violations == 0 <==> clean0 && !Violation(ops, n);
      BookkeepingStep(ops, n, acked0, info0, top0, clean0, acked, info, top, violations == 0);
    }
    r := if violations == 0 then Pass else Fails(violations);
  }
}
