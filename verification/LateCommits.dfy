/** What a history cannot tell: for clients that send no expected version, every run has
    a twin with the same history in which each lost attempt is still on the network and
    commits whenever it would be the session's newest seq. */
module LateCommits {
  import opened Wrappers
  import opened History
  import opened ServerRun

  predicate Plain(op: Op) { op.expected == None && op.idempotent }

  ghost predicate TokenFree(steps: seq<Step>) {
    forall i :: 0 <= i < |steps| && steps[i].Issue? ==> Plain(steps[i].op)
  }

  /** Answered "in flight" or another refusal that says nothing about the log. */
  predicate Refused(call: Call) {
    && call.Executed? && call.reply.Rejected?
    && (call.reply.reason.InflightDuplicateWrite? || call.reply.reason.OtherLabel?)
  }

  /** The twin has seen the same, but has not yet refused what `w` has refused. */
  function Unrefused(call: Call): Call {
    if Refused(call) then Issued(call.op) else call
  }

  ghost predicate Twin(w: World, v: World) {
    && v.opening == w.opening && v.openingSeq == w.openingSeq
    && v.log == w.log && v.history == w.history && v.versions == w.versions
    && v.calls.Keys == w.calls.Keys
    && (forall ss :: ss in w.calls ==> v.calls[ss] == Unrefused(w.calls[ss]))
    && w.zombies <= v.zombies
  }

  function Lost(ss: Session, q: nat): Op { Op(ss, q, None, true) }

  /** Every ambiguous seq of a session is below its newest batch, or still on the network. */
  ghost predicate Pending(v: World, ss: Session) {
    forall q :: q in InfoSeqs(v.history, ss) ==> q <= v.LastSeq(ss) || Lost(ss, q) in v.zombies
  }

  /** A call of the twin, once executed, is below the newest batch whatever it was told. */
  ghost predicate CallOk(v: World, ss: Session, call: Call) {
    call.op == Lost(ss, call.op.seqNo) && (call.Executed? ==> call.op.seqNo <= v.LastSeq(ss))
  }

  ghost predicate SessionReady(v: World, ss: Session) {
    && v.OpeningSeq(ss) <= v.LastSeq(ss)
    && Pending(v, ss)
    && (ss in v.calls ==> CallOk(v, ss, v.calls[ss]))
  }

  ghost predicate NoTokens(h: seq<OpRecord>) {
    forall i :: 0 <= i < |h| ==> h[i].expectedVersion == None
  }

  ghost predicate Ready(v: World) {
    && NoTokens(v.history)
    && (forall z :: z in v.zombies ==> Plain(z))
    && (forall ss {:trigger SessionReady(v, ss)} :: SessionReady(v, ss))
  }

  // The newest seq only grows.

  lemma ServePlain(v: World, op: Op)
    requires Plain(op)
    ensures Serve(v, op).Committed? ==> v.LastSeq(op.session) <= op.seqNo
    ensures Serve(v, op).Rejected? ==>
              Serve(v, op) == Rejected(ClientIdempotencyViolation) && op.seqNo <= v.LastSeq(op.session)
    ensures v.LastSeq(op.session) < op.seqNo ==> Serve(v, op).Committed?
  {
  }

  lemma IssueReady(v: World, op: Op)
    requires SessionReady(v, op.session) && Enabled(v, Issue(op)) && Plain(op)
    ensures SessionReady(Next(v, Issue(op)), op.session)
  {
    assert op == Lost(op.session, op.seqNo);
    assert Next(v, Issue(op)).LastSeq(op.session) == v.LastSeq(op.session);
  }

  lemma ExecuteReady(v: World, ss: Session)
    requires SessionReady(v, ss) && Enabled(v, Execute(ss))
    ensures SessionReady(Next(v, Execute(ss)), ss)
  {
    var op := v.calls[ss].op;
    ServePlain(v, op);
    AppendedFacts(v, op);
    assert Next(v, Execute(ss)).LastSeq(ss) == (if Serve(v, op).Committed? then Appended(v, op) else v).LastSeq(ss);
  }

  lemma LateReady(v: World, z: Op)
    requires SessionReady(v, z.session) && Enabled(v, LateExecute(z)) && Plain(z)
    ensures SessionReady(Next(v, LateExecute(z)), z.session)
  {
    var v' := Next(v, LateExecute(z));
    ServePlain(v, z);
    AppendedFacts(v, z);
    assert v'.LastSeq(z.session) == (if Serve(v, z).Committed? then Appended(v, z) else v).LastSeq(z.session);
    assert z == Lost(z.session, z.seqNo);
  }

  lemma LoseReady(v: World, ss: Session)
    requires SessionReady(v, ss) && Enabled(v, Lose(ss))
    ensures SessionReady(Next(v, Lose(ss)), ss)
  {
    EndedFacts(v.history, LostRecord(v.calls[ss].op), ss);
    assert Next(v, Lose(ss)).LastSeq(ss) == v.LastSeq(ss);
  }

  lemma ReturnReady(v: World, ss: Session, told: bool)
    requires v.OpeningSeq(ss) <= v.LastSeq(ss) && Pending(v, ss) && Enabled(v, Return(ss, told))
    requires v.calls[ss].op.session == ss
    ensures SessionReady(Next(v, Return(ss, told)), ss)
  {
    EndedFacts(v.history, AnswerRecord(v.calls[ss].op, v.calls[ss].reply, told), ss);
    assert Next(v, Return(ss, told)).LastSeq(ss) == v.LastSeq(ss);
  }

  /** The twin refuses and answers in one go. */
  lemma RefuseReturnReady(v: World, at: Session, reason: ErrorLabel, told: bool, ss: Session)
    requires SessionReady(v, at) && SessionReady(v, ss) && Enabled(v, Refuse(at, reason))
    ensures SessionReady(Next(Next(v, Refuse(at, reason)), Return(at, told)), ss)
  {
    var u := Next(v, Refuse(at, reason));
    if ss != at {
      StepIsLocal(v, Refuse(at, reason), ss);
      StepIsLocal(u, Return(at, told), ss);
    } else {
      assert u.LastSeq(ss) == v.LastSeq(ss);
      ReturnReady(u, ss, told);
    }
  }

  // The twin of one step.

  ghost function Shadow(w: World, step: Step): seq<Step>
    requires Enabled(w, step)
  {
    match step
    case Refuse(_, _) => []
    case Return(ss, told) =>
      if Refused(w.calls[ss]) then [Refuse(ss, w.calls[ss].reply.reason), step] else [step]
    case _ => [step]
  }

  lemma RefusedReturnTwin(w: World, v: World, ss: Session, told: bool)
    requires Twin(w, v) && Enabled(w, Return(ss, told)) && Refused(w.calls[ss])
    ensures Enabled(v, Refuse(ss, w.calls[ss].reply.reason))
    ensures Twin(Next(w, Return(ss, told)), Next(Next(v, Refuse(ss, w.calls[ss].reply.reason)), Return(ss, told)))
  {
  }

  lemma RefusedReturnReady(v: World, ss: Session, reason: ErrorLabel, told: bool)
    requires Ready(v) && Enabled(v, Refuse(ss, reason))
    ensures Ready(Next(Next(v, Refuse(ss, reason)), Return(ss, told)))
  {
    assert SessionReady(v, ss);
    forall x
      ensures SessionReady(Next(Next(v, Refuse(ss, reason)), Return(ss, told)), x)
    {
      assert SessionReady(v, x);
      RefuseReturnReady(v, ss, reason, told, x);
    }
  }

  lemma ShadowRefusedReturn(d: Discipline, w: World, v: World, ss: Session, told: bool)
    requires Twin(w, v) && Ready(v) && Enabled(w, Return(ss, told)) && Refused(w.calls[ss])
    ensures var t := Shadow(w, Return(ss, told));
      ValidRun(d, v, t) && Twin(Next(w, Return(ss, told)), Run(d, v, t)) && Ready(Run(d, v, t))
  {
    var reason := w.calls[ss].reply.reason;
    RefusedReturnTwin(w, v, ss, told);
    RefusedReturnReady(v, ss, reason, told);
    var u := Next(v, Refuse(ss, reason));
    RunOne(d, v, Refuse(ss, reason));
    RunOne(d, u, Return(ss, told));
    RunConcat(d, v, [Refuse(ss, reason)], u, [Return(ss, told)]);
    assert [Refuse(ss, reason)] + [Return(ss, told)] == [Refuse(ss, reason), Return(ss, told)];
  }

  lemma SameAllowed(d: Discipline, w: World, v: World, step: Step)
    requires Twin(w, v) && Allowed(d, w, step) && Enabled(w, step)
    ensures Allowed(d, v, step)
  {
    if step.Issue? {
      assert Current(v, step.op.session) == Current(w, step.op.session);
      assert v.OpeningSeq(step.op.session) == w.OpeningSeq(step.op.session);
    }
  }

  lemma IssueTwin(w: World, v: World, op: Op)
    requires Twin(w, v) && Enabled(w, Issue(op))
    ensures Enabled(v, Issue(op)) && Twin(Next(w, Issue(op)), Next(v, Issue(op)))
  {
  }

  lemma ExecuteTwin(w: World, v: World, ss: Session)
    requires Twin(w, v) && Enabled(w, Execute(ss))
    ensures Enabled(v, Execute(ss)) && Twin(Next(w, Execute(ss)), Next(v, Execute(ss)))
  {
    assert Serve(v, w.calls[ss].op) == Serve(w, w.calls[ss].op);
  }

  lemma ReturnTwin(w: World, v: World, ss: Session, told: bool)
    requires Twin(w, v) && Enabled(w, Return(ss, told)) && !Refused(w.calls[ss])
    ensures Enabled(v, Return(ss, told)) && Twin(Next(w, Return(ss, told)), Next(v, Return(ss, told)))
  {
  }

  lemma LoseTwin(w: World, v: World, ss: Session)
    requires Twin(w, v) && Enabled(w, Lose(ss))
    ensures Enabled(v, Lose(ss)) && Twin(Next(w, Lose(ss)), Next(v, Lose(ss)))
  {
  }

  lemma LateTwin(w: World, v: World, z: Op)
    requires Twin(w, v) && Enabled(w, LateExecute(z))
    ensures Enabled(v, LateExecute(z)) && Twin(Next(w, LateExecute(z)), Next(v, LateExecute(z)))
  {
    assert Serve(v, z) == Serve(w, z);
  }

  lemma SessionStays(v: World, step: Step, ss: Session)
    requires Enabled(v, step) && !step.Refuse?
    requires (step.Issue? ==> Plain(step.op)) && (step.LateExecute? ==> Plain(step.z))
    requires SessionReady(v, Actor(step)) && SessionReady(v, ss)
    ensures SessionReady(Next(v, step), ss)
  {
    if ss != Actor(step) {
      StepIsLocal(v, step, ss);
    } else {
      match step
      case Issue(op) => IssueReady(v, op);
      case Execute(_) => ExecuteReady(v, ss);
      case Return(_, told) => ReturnReady(v, ss, told);
      case Lose(_) => LoseReady(v, ss);
      case LateExecute(z) => LateReady(v, z);
    }
  }

  lemma SameStepReady(v: World, step: Step)
    requires Ready(v) && Enabled(v, step) && !step.Refuse? && (step.Issue? ==> Plain(step.op))
    ensures Ready(Next(v, step))
  {
    assert SessionReady(v, Actor(step));
    forall ss
      ensures SessionReady(Next(v, step), ss)
    {
      assert SessionReady(v, ss);
      SessionStays(v, step, ss);
    }
  }

  // Whole runs.

  lemma ShadowStep(d: Discipline, w: World, v: World, step: Step) returns (t: seq<Step>, u: World)
    requires Twin(w, v) && Ready(v) && Enabled(w, step) && Allowed(d, w, step) && (step.Issue? ==> Plain(step.op))
    ensures ValidRun(d, v, t) && Run(d, v, t) == u && TokenFree(t)
    ensures Twin(Next(w, step), u) && Ready(u)
  {
    t := Shadow(w, step);
    if step.Return? && Refused(w.calls[step.ss]) {
      ShadowRefusedReturn(d, w, v, step.ss, step.told);
    } else if !step.Refuse? {
      SameAllowed(d, w, v, step);
      match step {
        case Issue(op) => IssueTwin(w, v, op);
        case Execute(ss) => ExecuteTwin(w, v, ss);
        case Return(ss, told) => ReturnTwin(w, v, ss, told);
        case Lose(ss) => LoseTwin(w, v, ss);
        case LateExecute(z) => LateTwin(w, v, z);
      }
      SameStepReady(v, step);
      RunOne(d, v, step);
    }
    u := Run(d, v, t);
  }

  /** The twin of a whole run. */
  lemma {:induction false} ShadowRun(d: Discipline, w: World, v: World, steps: seq<Step>)
    returns (twin: seq<Step>, u: World)
    requires Twin(w, v) && Ready(v) && ValidRun(d, w, steps) && TokenFree(steps)
    ensures ValidRun(d, v, twin) && Run(d, v, twin) == u && TokenFree(twin)
    ensures Twin(Run(d, w, steps), u) && Ready(u)
    decreases |steps|
  {
    if steps == [] {
      twin, u := [], v;
    } else {
      var head, v' := ShadowStep(d, w, v, steps[0]);
      var rest;
      rest, u := ShadowRun(d, Next(w, steps[0]), v', steps[1..]);
      RunConcat(d, v, head, v', rest);
      twin := head + rest;
    }
  }

  /** Every token-free run has a twin with the same history that is ready. */
  lemma TwinOf(d: Discipline, opening: map<Aggregate, nat>, openingSeq: map<Session, nat>, steps: seq<Step>)
    returns (twin: seq<Step>, u: World)
    requires ValidRun(d, Fresh(opening, openingSeq), steps) && TokenFree(steps)
    ensures ValidRun(d, Fresh(opening, openingSeq), twin) && Run(d, Fresh(opening, openingSeq), twin) == u
    ensures TokenFree(twin) && Twin(Run(d, Fresh(opening, openingSeq), steps), u) && Ready(u)
  {
    var w := Fresh(opening, openingSeq);
    twin, u := ShadowRun(d, w, w, steps);
  }

  /** `u` is `v` some late commits later. */
  ghost predicate Later(v: World, u: World) {
    && u.history == v.history && u.calls == v.calls && u.opening == v.opening && u.openingSeq == v.openingSeq
    && (forall ss :: v.LastSeq(ss) <= u.LastSeq(ss))
  }

  /** A lost attempt above the newest batch commits, unseen by the history. */
  lemma LateCommit(v: World, z: Op)
    requires Enabled(v, LateExecute(z)) && Plain(z) && v.LastSeq(z.session) < z.seqNo
    ensures Later(v, Next(v, LateExecute(z))) && Next(v, LateExecute(z)).LastSeq(z.session) == z.seqNo
  {
    var u := Next(v, LateExecute(z));
    ServePlain(v, z);
    AppendedFacts(v, z);
    forall ss
      ensures v.LastSeq(ss) <= u.LastSeq(ss)
    {
      assert u.LastSeq(ss) == Appended(v, z).LastSeq(ss);
    }
  }

  lemma CommitLate(d: Discipline, v: World, ss: Session, q: nat) returns (late: seq<Step>, u: World)
    requires Ready(v) && q in InfoSeqs(v.history, ss)
    ensures ValidRun(d, v, late) && Run(d, v, late) == u && TokenFree(late)
    ensures Ready(u) && Later(v, u) && q <= u.LastSeq(ss)
  {
    assert SessionReady(v, ss);
    if q <= v.LastSeq(ss) {
      late, u := [], v;
    } else {
      var step := LateExecute(Lost(ss, q));
      late, u := [step], Next(v, step);
      RunOne(d, v, step);
      SameStepReady(v, step);
      LateCommit(v, step.z);
    }
  }

  /** Any set of lost attempts commits, or is overtaken by a later commit. */
  lemma {:induction false} CommitAllLate(d: Discipline, v: World, lost: set<Op>) returns (late: seq<Step>, u: World)
    requires Ready(v) && forall z :: z in lost ==> z.seqNo in InfoSeqs(v.history, z.session)
    ensures ValidRun(d, v, late) && Run(d, v, late) == u && TokenFree(late)
    ensures Later(v, u) && forall z :: z in lost ==> z.seqNo <= u.LastSeq(z.session)
    decreases lost
  {
    if lost == {} {
      late, u := [], v;
    } else {
      var z :| z in lost;
      var first, v' := CommitLate(d, v, z.session, z.seqNo);
      var rest;
      rest, u := CommitAllLate(d, v', lost - {z});
      RunConcat(d, v, first, v', rest);
      late := first + rest;
    }
  }
}
