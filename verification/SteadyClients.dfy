/** What every run keeps of clients that enforce idempotency and never go back to an
    older seq. */
module SteadyClients {
  import opened History
  import opened ServerRun

  /** What one session has tried, committed and been told. */
  ghost predicate SessionInv(w: World, ss: Session) {
    var h := w.history;
    var last := w.LastSeq(ss);
    var cur := Current(w, ss);
    && w.OpeningSeq(ss) <= last <= cur
    && (forall q :: q in OkSeqs(h, ss) ==> w.OpeningSeq(ss) < q <= last)
    && (forall q :: q in AckSeqs(h, ss) ==> w.OpeningSeq(ss) < q <= last)
    && (w.OpeningSeq(ss) < last ==>
          last in OkSeqs(h, ss) || last in InfoSeqs(h, ss) || (ss in w.calls && CallCommitted(w.calls[ss])))
    && (forall q :: q in InfoSeqs(h, ss) ==> w.OpeningSeq(ss) < q <= cur)
    && (forall z :: z in w.zombies && z.session == ss ==>
          z.idempotent && w.OpeningSeq(ss) < z.seqNo <= cur && z.seqNo in InfoSeqs(h, ss))
    && (ss in w.calls ==> CallInv(w, ss, w.calls[ss]))
  }

  ghost predicate CallInv(w: World, ss: Session, call: Call) {
    var op := call.op;
    && op.session == ss && op.idempotent && w.OpeningSeq(ss) < op.seqNo
    && (CallCommitted(call) ==> op.seqNo == w.LastSeq(ss) && op.seqNo !in OkSeqs(w.history, ss))
    && (call.Executed? && call.reply == Rejected(ClientIdempotencyViolation) ==>
          op.seqNo <= w.LastSeq(ss) && (op.seqNo in OkSeqs(w.history, ss) || op.seqNo in InfoSeqs(w.history, ss)))
  }

  ghost predicate Inv(w: World) {
    forall ss :: SessionInv(w, ss)
  }

  lemma IssueOwn(w: World, op: Op)
    requires SessionInv(w, op.session) && Enabled(w, Issue(op)) && Allowed(NonDecreasing, w, Issue(op))
    ensures SessionInv(Next(w, Issue(op)), op.session)
  {
  }

  lemma RefuseOwn(w: World, ss: Session, reason: ErrorLabel)
    requires SessionInv(w, ss) && Enabled(w, Refuse(ss, reason))
    ensures SessionInv(Next(w, Refuse(ss, reason)), ss)
  {
  }

  lemma ExecuteOwn(w: World, ss: Session)
    requires SessionInv(w, ss) && Enabled(w, Execute(ss))
    ensures SessionInv(Next(w, Execute(ss)), ss)
  {
    var op := w.calls[ss].op;
    var w' := Next(w, Execute(ss));
    AppendedFacts(w, op);
    assert w'.LastSeq(ss) == (if Serve(w, op).Committed? then op.seqNo else w.LastSeq(ss)) by {
      assert w'.LastSeq(ss) == (if Serve(w, op).Committed? then Appended(w, op) else w).LastSeq(ss);
    }
    assert w'.OpeningSeq(ss) == w.OpeningSeq(ss) && Current(w', ss) == Current(w, ss) == op.seqNo;
  }

  lemma LateExecuteOwn(w: World, z: Op)
    requires SessionInv(w, z.session) && Enabled(w, LateExecute(z))
    ensures SessionInv(Next(w, LateExecute(z)), z.session)
  {
    var w' := Next(w, LateExecute(z));
    if Serve(w, z).Committed? {
      AppendedFacts(w, z);
      assert w'.LastSeq(z.session) == Appended(w, z).LastSeq(z.session);
    }
  }

  lemma ReturnOwn(w: World, ss: Session, told: bool)
    requires SessionInv(w, ss) && Enabled(w, Return(ss, told))
    ensures SessionInv(Next(w, Return(ss, told)), ss)
  {
    var w' := Next(w, Return(ss, told));
    EndedFacts(w.history, AnswerRecord(w.calls[ss].op, w.calls[ss].reply, told), ss);
    assert w'.LastSeq(ss) == w.LastSeq(ss);
    assert Current(w', ss) == Current(w, ss);
  }

  lemma LoseOwn(w: World, ss: Session)
    requires SessionInv(w, ss) && Enabled(w, Lose(ss))
    ensures SessionInv(Next(w, Lose(ss)), ss)
  {
    var w' := Next(w, Lose(ss));
    EndedFacts(w.history, LostRecord(w.calls[ss].op), ss);
    assert w'.LastSeq(ss) == w.LastSeq(ss);
    assert Current(w', ss) == Current(w, ss);
  }

  lemma SessionKeeps(w: World, step: Step, ss: Session)
    requires Enabled(w, step) && Allowed(NonDecreasing, w, step)
    requires SessionInv(w, Actor(step)) && SessionInv(w, ss)
    ensures SessionInv(Next(w, step), ss)
  {
    if ss != Actor(step) {
      StepIsLocal(w, step, ss);
    } else {
      match step
      case Issue(op) => IssueOwn(w, op);
      case Execute(_) => ExecuteOwn(w, ss);
      case Refuse(_, reason) => RefuseOwn(w, ss, reason);
      case Return(_, told) => ReturnOwn(w, ss, told);
      case Lose(_) => LoseOwn(w, ss);
      case LateExecute(z) => LateExecuteOwn(w, z);
    }
  }

  lemma InvNext(w: World, step: Step)
    requires Inv(w) && Enabled(w, step) && Allowed(NonDecreasing, w, step)
    ensures Inv(Next(w, step))
  {
    forall ss
      ensures SessionInv(Next(w, step), ss)
    {
      SessionKeeps(w, step, ss);
    }
  }

  lemma {:induction false} InvRun(w: World, steps: seq<Step>)
    requires Inv(w) && ValidRun(NonDecreasing, w, steps)
    ensures Inv(Run(NonDecreasing, w, steps))
    decreases |steps|
  {
    if steps == [] {
    } else {
      InvNext(w, steps[0]);
      InvRun(Next(w, steps[0]), steps[1..]);
    }
  }
}
