/** No history of a correct server ever fails the idempotency check, as long as every
    client sends only what it may: that is also the least it has to do. */
module IdempotencySound {
  import opened History
  import opened ServerRun
  import opened IdempotencyCheck
  import Steady = SteadyClients

  /** The server can tell the seq from "nothing yet". */
  ghost predicate Told(w: World, ss: Session, q: nat) {
    0 < q || 0 < w.LastSeq(ss)
  }

  ghost predicate CallInv(w: World, ss: Session, call: Call) {
    var op := call.op;
    && op.session == ss && op.idempotent && Told(w, ss, op.seqNo)
    && (call.Issued? ==> MaySend(w, ss, op.seqNo))
    && (CallCommitted(call) ==> op.seqNo <= w.LastSeq(ss) && op.seqNo !in OkSeqs(w.history, ss))
    && (call.Executed? && call.reply == Rejected(ClientIdempotencyViolation) ==>
          op.seqNo <= w.LastSeq(ss) && Covered(w.history, ss, op.seqNo))
  }

  /** What one session has tried, committed and been told. */
  ghost predicate SessionInv(w: World, ss: Session) {
    var h := w.history;
    var last := w.LastSeq(ss);
    && w.OpeningSeq(ss) <= last
    && (forall q :: q in OkSeqs(h, ss) ==> q <= last)
    && (forall q :: q in AckSeqs(h, ss) ==> q <= last && 0 < last)
    && (forall q :: q in InfoSeqs(h, ss) ==> Told(w, ss, q))
    && (w.OpeningSeq(ss) < last ==>
          || last in OkSeqs(h, ss) || last in InfoSeqs(h, ss)
          || (ss in w.calls && CallCommitted(w.calls[ss]) && w.calls[ss].op.seqNo == last))
    && (forall z :: z in w.zombies && z.session == ss ==> z.idempotent && z.seqNo in InfoSeqs(h, ss))
    && (ss in w.calls ==> CallInv(w, ss, w.calls[ss]))
  }

  ghost predicate Inv(w: World) {
    && (forall ss :: SessionInv(w, ss))
    && (forall i :: 0 <= i < |w.history| ==> !Violation(w.history, i))
  }

  lemma IssueOwn(w: World, op: Op)
    requires SessionInv(w, op.session) && Enabled(w, Issue(op)) && Allowed(Justified, w, Issue(op))
    ensures SessionInv(Next(w, Issue(op)), op.session)
  {
    var w' := Next(w, Issue(op));
    assert w'.LastSeq(op.session) == w.LastSeq(op.session) && w'.OpeningSeq(op.session) == w.OpeningSeq(op.session);
  }

  lemma RefuseOwn(w: World, ss: Session, reason: ErrorLabel)
    requires SessionInv(w, ss) && Enabled(w, Refuse(ss, reason))
    ensures SessionInv(Next(w, Refuse(ss, reason)), ss)
  {
    var w' := Next(w, Refuse(ss, reason));
    assert w'.LastSeq(ss) == w.LastSeq(ss) && w'.OpeningSeq(ss) == w.OpeningSeq(ss);
  }

  /** "Already applied" is only ever said of a covered seq. */
  lemma RejectionIsCovered(w: World, ss: Session)
    requires SessionInv(w, ss) && ss in w.calls && w.calls[ss].Issued? && w.calls[ss].op.seqNo <= w.LastSeq(ss)
    ensures Covered(w.history, ss, w.calls[ss].op.seqNo)
  {
    var q, last := w.calls[ss].op.seqNo, w.LastSeq(ss);
    OkIsAck(w.history, ss, last);
    if w.OpeningSeq(ss) < last && last in OkSeqs(w.history, ss) {
      assert last in AckSeqs(w.history, ss) && q <= last;
    }
  }

  lemma ExecuteCommits(w: World, ss: Session)
    requires SessionInv(w, ss) && Enabled(w, Execute(ss)) && Serve(w, w.calls[ss].op).Committed?
    ensures SessionInv(Next(w, Execute(ss)), ss)
  {
    var op := w.calls[ss].op;
    var w' := Next(w, Execute(ss));
    AppendedFacts(w, op);
    assert w'.LastSeq(ss) == Appended(w, op).LastSeq(ss) == op.seqNo;
    assert w.LastSeq(ss) < op.seqNo;
    assert w'.OpeningSeq(ss) == w.OpeningSeq(ss);
  }

  lemma ExecuteRejects(w: World, ss: Session)
    requires SessionInv(w, ss) && Enabled(w, Execute(ss)) && Serve(w, w.calls[ss].op).Rejected?
    ensures SessionInv(Next(w, Execute(ss)), ss)
  {
    var w' := Next(w, Execute(ss));
    assert w'.LastSeq(ss) == w.LastSeq(ss) && w'.OpeningSeq(ss) == w.OpeningSeq(ss);
    if w.calls[ss].op.seqNo <= w.LastSeq(ss) {
      RejectionIsCovered(w, ss);
    }
  }

  lemma LateExecuteOwn(w: World, z: Op)
    requires SessionInv(w, z.session) && Enabled(w, LateExecute(z))
    ensures SessionInv(Next(w, LateExecute(z)), z.session)
  {
    var w' := Next(w, LateExecute(z));
    assert w'.OpeningSeq(z.session) == w.OpeningSeq(z.session);
    if Serve(w, z).Committed? {
      AppendedFacts(w, z);
      assert w'.LastSeq(z.session) == Appended(w, z).LastSeq(z.session) == z.seqNo;
      assert w.LastSeq(z.session) < z.seqNo;
    } else {
      assert w'.LastSeq(z.session) == w.LastSeq(z.session);
    }
  }

  /** A session that ends with an answer: the seq is acked if it committed or was told
      "already applied". */
  lemma AnsweredEnd(w: World, w': World, ss: Session)
    requires SessionInv(w, ss) && ss in w.calls && w.calls[ss].Executed?
    requires w'.LastSeq(ss) == w.LastSeq(ss) && w'.openingSeq == w.openingSeq && ss !in w'.calls
    requires w'.zombies == w.zombies && InfoSeqs(w'.history, ss) == InfoSeqs(w.history, ss)
    requires var reply, own := w.calls[ss].reply, {w.calls[ss].op.seqNo};
      && OkSeqs(w'.history, ss) == OkSeqs(w.history, ss) + (if reply.Committed? then own else {})
      && AckSeqs(w'.history, ss) == AckSeqs(w.history, ss)
           + (if reply.Committed? || reply == Rejected(ClientIdempotencyViolation) then own else {})
    ensures SessionInv(w', ss)
  {
  }

  /** A session that ends ambiguously: its attempt may be on the network now. */
  lemma AmbiguousEnd(w: World, w': World, op: Op, ss: Session)
    requires SessionInv(w, ss) && ss in w.calls && w.calls[ss].op == op
    requires w'.LastSeq(ss) == w.LastSeq(ss) && w'.openingSeq == w.openingSeq && ss !in w'.calls
    requires OkSeqs(w'.history, ss) == OkSeqs(w.history, ss) && AckSeqs(w'.history, ss) == AckSeqs(w.history, ss)
    requires InfoSeqs(w'.history, ss) == InfoSeqs(w.history, ss) + {op.seqNo}
    requires forall z :: z in w'.zombies ==> z in w.zombies || z == op
    ensures SessionInv(w', ss)
  {
  }

  lemma LoseOwn(w: World, ss: Session)
    requires SessionInv(w, ss) && Enabled(w, Lose(ss))
    ensures SessionInv(Next(w, Lose(ss)), ss)
  {
    var w' := Next(w, Lose(ss));
    EndedFacts(w.history, LostRecord(w.calls[ss].op), ss);
    assert w'.LastSeq(ss) == w.LastSeq(ss);
    AmbiguousEnd(w, w', w.calls[ss].op, ss);
  }

  lemma ReturnOwn(w: World, ss: Session, told: bool)
    requires SessionInv(w, ss) && Enabled(w, Return(ss, told))
    ensures SessionInv(Next(w, Return(ss, told)), ss)
  {
    var w' := Next(w, Return(ss, told));
    var r := AnswerRecord(w.calls[ss].op, w.calls[ss].reply, told);
    EndedFacts(w.history, r, ss);
    assert w'.history == w.history + [r] && r.session == ss && r.clientSeq == w.calls[ss].op.seqNo;
    assert w'.LastSeq(ss) == w.LastSeq(ss);
    AnsweredEnd(w, w', ss);
  }

  lemma SessionKeeps(w: World, step: Step, ss: Session)
    requires Enabled(w, step) && Allowed(Justified, w, step)
    requires SessionInv(w, Actor(step)) && SessionInv(w, ss)
    ensures SessionInv(Next(w, step), ss)
  {
    if ss != Actor(step) {
      StepIsLocal(w, step, ss);
      assert Next(w, step).OpeningSeq(ss) == w.OpeningSeq(ss);
    } else {
      match step
      case Issue(op) => IssueOwn(w, op);
      case Execute(_) =>
        if Serve(w, w.calls[ss].op).Committed? {
          ExecuteCommits(w, ss);
        } else {
          ExecuteRejects(w, ss);
        }
      case Refuse(_, reason) => RefuseOwn(w, ss, reason);
      case Return(_, told) => ReturnOwn(w, ss, told);
      case Lose(_) => LoseOwn(w, ss);
      case LateExecute(z) => LateExecuteOwn(w, z);
    }
  }

  /** Whether a record is a violation depends on the records up to it. */
  lemma ViolationIsLocal(h: seq<OpRecord>, r: OpRecord, i: nat)
    requires i < |h| && !Violation(h, i)
    ensures !Violation(h + [r], i)
  {
    var h' := h + [r];
    assert forall j :: 0 <= j <= i ==> h'[j] == h[j];
    if Is2002(h[i]) && 0 < h[i].clientSeq {
      if AckAtLeast(h, i, h[i].session, h[i].clientSeq) {
        var j :| 0 <= j < i && IsAck(h[j]) && h[j].session == h[i].session && h[i].clientSeq <= h[j].clientSeq;
        assert IsAck(h'[j]);
        assert AckAtLeast(h', i, h[i].session, h[i].clientSeq);
      } else {
        var j :| 0 <= j < i && h[j].outcome.Info? && h[j].session == h[i].session && h[j].clientSeq == h[i].clientSeq;
        assert h'[j].outcome.Info?;
        assert InfoBefore(h', i, h[i].session, h[i].clientSeq);
      }
    }
  }

  /** A covered seq is justified by an earlier record. */
  lemma CoveredIsJustified(h: seq<OpRecord>, r: OpRecord, ss: Session, q: nat)
    requires Covered(h, ss, q)
    ensures AckAtLeast(h + [r], |h|, ss, q) || InfoBefore(h + [r], |h|, ss, q)
  {
    var h' := h + [r];
    assert forall j :: 0 <= j < |h| ==> h'[j] == h[j];
    SeqsMeaning(h, ss, q);
    if p :| p in AckSeqs(h, ss) && q <= p {
      SeqsMeaning(h, ss, p);
      var j :| 0 <= j < |h| && IsAck(h[j]) && h[j].session == ss && h[j].clientSeq == p;
      assert IsAck(h'[j]);
    } else {
      var j :| 0 <= j < |h| && h[j].outcome.Info? && h[j].session == ss && h[j].clientSeq == q;
      assert h'[j].outcome.Info?;
    }
  }

  /** The record an ending call leaves is not a violation. */
  lemma EndIsClean(w: World, step: Step)
    requires Enabled(w, step) && (step.Return? || step.Lose?) && SessionInv(w, step.ss)
    ensures !Violation(Next(w, step).history, |w.history|)
  {
    var op := w.calls[step.ss].op;
    var h, h', n := w.history, Next(w, step).history, |w.history|;
    assert h' == h + [h'[n]];
    assert forall j :: 0 <= j < n ==> h'[j] == h[j];
    SeqsMeaning(h, op.session, op.seqNo);
    if Is2002(h'[n]) {
      CoveredIsJustified(h, h'[n], op.session, op.seqNo);
    }
  }

  lemma HistoryStaysClean(w: World, step: Step)
    requires Enabled(w, step) && SessionInv(w, Actor(step))
    requires forall i :: 0 <= i < |w.history| ==> !Violation(w.history, i)
    ensures forall i :: 0 <= i < |Next(w, step).history| ==> !Violation(Next(w, step).history, i)
  {
    if step.Return? || step.Lose? {
      EndIsClean(w, step);
      var h' := Next(w, step).history;
      assert h' == w.history + [h'[|w.history|]];
      forall i | 0 <= i < |w.history|
        ensures !Violation(h', i)
      {
        ViolationIsLocal(w.history, h'[|w.history|], i);
      }
    }
  }

  lemma InvNext(w: World, step: Step)
    requires Inv(w) && Enabled(w, step) && Allowed(Justified, w, step)
    ensures Inv(Next(w, step))
  {
    forall ss
      ensures SessionInv(Next(w, step), ss)
    {
      SessionKeeps(w, step, ss);
    }
    HistoryStaysClean(w, step);
  }

  lemma {:induction false} InvRun(w: World, steps: seq<Step>)
    requires Inv(w) && ValidRun(Justified, w, steps)
    ensures Inv(Run(Justified, w, steps))
    decreases |steps|
  {
    if steps == [] {
    } else {
      InvNext(w, steps[0]);
      InvRun(Next(w, steps[0]), steps[1..]);
    }
  }

  /** Soundness over every run, any number of clients: no record of the history is a
      violation, so a check that saw all of it passes. */
  lemma NoFalseAlarm(opening: map<Aggregate, nat>, openingSeq: map<Session, nat>, steps: seq<Step>)
    requires ValidRun(Justified, Fresh(opening, openingSeq), steps)
    ensures var h := Run(Justified, Fresh(opening, openingSeq), steps).history;
      forall i :: 0 <= i < |h| ==> !Violation(h, i)
  {
    InvRun(Fresh(opening, openingSeq), steps);
  }

  // Clients that never go back are a special case.

  lemma {:induction false} SteadyIsJustified(w: World, steps: seq<Step>)
    requires Steady.Inv(w) && ValidRun(NonDecreasing, w, steps)
    ensures ValidRun(Justified, w, steps) && Run(Justified, w, steps) == Run(NonDecreasing, w, steps)
    decreases |steps|
  {
    if steps == [] {
    } else {
      if steps[0].Issue? {
        assert Steady.SessionInv(w, steps[0].op.session);
      }
      Steady.InvNext(w, steps[0]);
      SteadyIsJustified(Next(w, steps[0]), steps[1..]);
    }
  }

  lemma SteadyNeverFlagged(opening: map<Aggregate, nat>, openingSeq: map<Session, nat>, steps: seq<Step>)
    requires ValidRun(NonDecreasing, Fresh(opening, openingSeq), steps)
    ensures var h := Run(NonDecreasing, Fresh(opening, openingSeq), steps).history;
      forall i :: 0 <= i < |h| ==> !Violation(h, i)
  {
    SteadyIsJustified(Fresh(opening, openingSeq), steps);
    NoFalseAlarm(opening, openingSeq, steps);
  }
}
