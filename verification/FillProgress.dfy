/** Progress of the fill client while the leader keeps its log: however far replication
    lags, two answered attempts always pass a seq. */
module FillProgress {
  import opened Wrappers
  import opened FillClient
  import opened WriteLog
  import opened ExactlyOnce

  /** The client's call came back with an ack or with a readable error, other than
      "still in flight", which a leader may repeat until it has replicated. */
  ghost predicate Delivers(s: State, step: Step) {
    step.Ack? || (step.Answer? && step.legible && s.call.Answered? && !s.call.error.InflightDuplicate?)
  }

  ghost function Delivered(s: State, steps: seq<Step>): nat
    requires ValidRun(s, steps)
    decreases |steps|
  {
    if steps == [] then 0
    else (if Delivers(s, steps[0]) then 1 else 0) + Delivered(Next(s, steps[0]), steps[1..])
  }

  /** The leader loses nothing. */
  ghost predicate Lasting(steps: seq<Step>) {
    forall i :: 0 <= i < |steps| ==> !steps[i].Rollback?
  }

  /** The task does not give the aggregate up. */
  ghost predicate Staying(steps: seq<Step>) {
    forall i :: 0 <= i < |steps| ==> !steps[i].Evict?
  }

  /** The server rejects a call only once its seq is in the log. */
  ghost predicate AnswerOk(s: State, a: Active, error: WriteError) {
    && Count(s.log, a.member.clientId) == a.clientSeq
    && match error
       case OccConflict(current) => current == Some(|s.log|) && a.version < |s.log|
       case IdempotencyViolation(_) => a.version == |s.log|
       case InflightDuplicate => a.version == |s.log|
       case OtherError => false
  }

  /** An active entry's version is the log's, or one short of it when the current
      seq went in unnoticed; no older request can enter the log ahead of it. */
  ghost predicate InStep(s: State, a: Active) {
    var c := a.member.clientId;
    && |s.log| - 1 <= a.version <= |s.log|
    && (Count(s.log, c) < a.clientSeq ==> a.version == |s.log|)
    && (s.call.Waiting? ==> a.version == |s.log| - 1 && Count(s.log, c) == a.clientSeq)
    && (s.call.Sent? ==> s.call.req.expected == a.version)
    && (s.call.Answered? ==> AnswerOk(s, a, s.call.error))
    && (forall z :: z in s.zombies && z.expected == |s.log| ==> z.client == c && z.seqNo <= a.clientSeq)
  }

  ghost predicate Abreast(s: State) {
    && (forall z :: z in s.zombies ==> z.expected <= |s.log|)
    && (s.active.Some? ==> InStep(s, s.active.value))
    && (s.active.None? && s.call.Sent? ==> s.call.req.expected <= |s.log|)
    && (s.active.None? && s.call.Waiting? ==>
          && s.call.req.expected == |s.log| - 1
          && (forall z :: z in s.zombies ==> z.expected < |s.log|))
  }

  lemma AbreastInitial(m: Member, budget: nat, nowMs: nat)
    ensures Abreast(Initial(m, budget, nowMs))
  {
  }

  lemma AbreastAppend(s: State)
    requires Inv(s) && Abreast(s) && s.call.Sent? && Serve(s.log, s.durable, s.call.req).Append?
    ensures Abreast(Next(s, Execute))
  {
    ServeMeaning(s.log, s.durable, s.call.req);
    AppendKeeps(s, s.call.req, Next(s, Execute));
  }

  lemma AbreastReject(s: State)
    requires Inv(s) && Abreast(s) && s.call.Sent? && Serve(s.log, s.durable, s.call.req).Reject?
    ensures Abreast(Next(s, Execute))
  {
    ServeMeaning(s.log, s.durable, s.call.req);
  }

  /** A request that slips in late is the entry's own current seq. */
  lemma LateAppendInStep(s: State, z: Request)
    requires Inv(s) && Abreast(s) && z in s.zombies && Serve(s.log, s.durable, z).Append? && s.active.Some?
    ensures InStep(Next(s, LateExecute(z)), s.active.value)
  {
    var s', a := Next(s, LateExecute(z)), s.active.value;
    ServeMeaning(s.log, s.durable, z);
    CountWhole(s.log, s.durable, z.client);
    AppendKeeps(s, z, s');
    assert z.client == a.member.clientId && Count(s'.log, z.client) == a.clientSeq;
  }

  lemma AbreastLateAppend(s: State, z: Request)
    requires Inv(s) && Abreast(s) && z in s.zombies && Serve(s.log, s.durable, z).Append?
    ensures Abreast(Next(s, LateExecute(z)))
  {
    ServeMeaning(s.log, s.durable, z);
    if s.active.Some? {
      LateAppendInStep(s, z);
    }
  }

  lemma AbreastLateReject(s: State, z: Request)
    requires Inv(s) && Abreast(s) && z in s.zombies && Serve(s.log, s.durable, z).Reject?
    ensures Abreast(Next(s, LateExecute(z)))
  {
  }

  lemma AbreastQuiet(s: State, step: Step)
    requires Inv(s) && Abreast(s) && Enabled(s, step)
    requires step.Harden? || step.LateDrop? || step.Evict? || step.SendWrite? || step.SendReheat?
    ensures Abreast(Next(s, step))
  {
  }

  lemma AbreastAck(s: State, nowMs: nat, room: bool)
    requires Inv(s) && Abreast(s) && Enabled(s, Ack(nowMs, room))
    ensures Abreast(Next(s, Ack(nowMs, room)))
  {
    assert Next(s, Ack(nowMs, room)).log == s.log;
  }

  lemma AbreastAnswer(s: State, nowMs: nat, legible: bool)
    requires Inv(s) && Abreast(s) && s.call.Answered?
    ensures Abreast(Next(s, Answer(nowMs, legible)))
  {
    assert Next(s, Answer(nowMs, legible)).log == s.log;
  }

  lemma GiveUpInStep(s: State, nowMs: nat)
    requires Inv(s) && Abreast(s) && !s.call.Idle? && s.active.Some?
    ensures var s' := Next(s, GiveUp(nowMs)); s'.log == s.log && s'.active.Some? && InStep(s', s'.active.value)
  {
    assert Next(s, GiveUp(nowMs)).active == Some(s.active.value.Defer(nowMs));
  }

  lemma AbreastGiveUp(s: State, nowMs: nat)
    requires Inv(s) && Abreast(s) && !s.call.Idle?
    ensures Abreast(Next(s, GiveUp(nowMs)))
  {
    if s.active.Some? {
      GiveUpInStep(s, nowMs);
    } else {
      assert Next(s, GiveUp(nowMs)).log == s.log;
    }
  }

  lemma AbreastKept(s: State, step: Step)
    requires Inv(s) && Abreast(s) && Enabled(s, step) && !step.Rollback?
    ensures Abreast(Next(s, step))
  {
    match step
    case Execute =>
      if Serve(s.log, s.durable, s.call.req).Append? {
        AbreastAppend(s);
      } else {
        AbreastReject(s);
      }
    case LateExecute(z) =>
      if Serve(s.log, s.durable, z).Append? {
        AbreastLateAppend(s, z);
      } else {
        AbreastLateReject(s, z);
      }
    case Ack(nowMs, room) => AbreastAck(s, nowMs, room);
    case Answer(nowMs, legible) => AbreastAnswer(s, nowMs, legible);
    case GiveUp(nowMs) => AbreastGiveUp(s, nowMs);
    case _ => AbreastQuiet(s, step);
  }

  /** The current seq is in the log and the entry's version matches the log. */
  ghost predicate Resynced(s: State) {
    && s.active.Some?
    && Count(s.log, s.active.value.member.clientId) == s.active.value.clientSeq
    && s.active.value.version == |s.log|
  }

  /** The entry for client `c` has moved past seq `n`, which is in the log. */
  ghost predicate Passed(s: State, c: nat, n: nat) {
    && n <= Count(s.log, c)
    && (s.active.Some? ==> s.active.value.member.clientId == c && s.active.value.clientSeq == n + 1)
  }

  ghost predicate StillAt(s: State, c: nat, n: nat) {
    s.active.Some? && s.active.value.member.clientId == c && s.active.value.clientSeq == n
  }

  /** A delivered answer passes a resynced entry and passes or resyncs any other. */
  lemma DeliveryTowards(s: State, step: Step, c: nat, n: nat)
    requires Inv(s) && Abreast(s) && StillAt(s, c, n) && Enabled(s, step) && Delivers(s, step)
    ensures var s' := Next(s, step);
      Passed(s', c, n) || (StillAt(s', c, n) && Resynced(s') && !Resynced(s))
  {
    CountWhole(s.log, s.durable, c);
    if step.Answer? && s.call.error.OccConflict? {
      assert Next(s, step).active == Some(s.active.value.(version := |s.log|));
    }
  }

  /** Late or fresh executions never disturb a resynced entry. */
  lemma ExecuteTowards(s: State, step: Step, c: nat, n: nat)
    requires Inv(s) && Abreast(s) && StillAt(s, c, n) && Enabled(s, step) && (step.Execute? || step.LateExecute?)
    ensures StillAt(Next(s, step), c, n)
    ensures Resynced(s) ==> Resynced(Next(s, step))
  {
    ServeMeaning(s.log, s.durable, if step.Execute? then s.call.req else step.z);
  }

  lemma QuietTowards(s: State, step: Step, c: nat, n: nat)
    requires Inv(s) && Abreast(s) && StillAt(s, c, n) && Enabled(s, step) && !step.Rollback?
    requires !Delivers(s, step) && !step.Evict? && !step.Execute? && !step.LateExecute?
    ensures StillAt(Next(s, step), c, n) || Passed(Next(s, step), c, n)
    ensures Resynced(s) ==> Resynced(Next(s, step)) || Passed(Next(s, step), c, n)
  {
    CountWhole(s.log, s.durable, c);
    if step.GiveUp? {
      assert Next(s, step).active == Some(s.active.value.Defer(step.nowMs));
    }
  }

  /** One step towards passing the seq: passed, or still there and no less resynced;
      and a delivered answer passes or resyncs. */
  lemma StepTowards(s: State, step: Step, c: nat, n: nat)
    requires Inv(s) && Abreast(s) && StillAt(s, c, n) && Enabled(s, step) && !step.Evict? && !step.Rollback?
    ensures var s' := Next(s, step);
      && Inv(s') && Abreast(s')
      && (Passed(s', c, n)
          || (&& StillAt(s', c, n)
              && (Resynced(s) ==> Resynced(s') && !Delivers(s, step))
              && (Delivers(s, step) ==> Resynced(s'))))
  {
    InvNext(s, step);
    AbreastKept(s, step);
    if Delivers(s, step) {
      DeliveryTowards(s, step, c, n);
    } else if step.Execute? || step.LateExecute? {
      ExecuteTowards(s, step, c, n);
    } else {
      QuietTowards(s, step, c, n);
    }
  }

  lemma RunExtends(s: State, steps: seq<Step>, k: nat)
    requires steps != [] && Enabled(s, steps[0]) && k < |steps|
    requires ValidRun(Next(s, steps[0]), steps[1..][..k])
    ensures ValidRun(s, steps[..k + 1])
    ensures Run(s, steps[..k + 1]) == Run(Next(s, steps[0]), steps[1..][..k])
  {
    assert steps[..k + 1][1..] == steps[1..][..k];
  }

  /** From any reachable state with an active entry, two delivered answers (one,
      once resynced) move it past its current seq, whatever else happens. */
  lemma {:induction false} AnswersPass(s: State, steps: seq<Step>, c: nat, n: nat) returns (k: nat)
    requires Inv(s) && Abreast(s) && StillAt(s, c, n) && ValidRun(s, steps) && Lasting(steps) && Staying(steps)
    requires Delivered(s, steps) >= if Resynced(s) then 1 else 2
    ensures k <= |steps| && ValidRun(s, steps[..k]) && Passed(Run(s, steps[..k]), c, n)
    decreases |steps|
  {
    var s' := Next(s, steps[0]);
    StepTowards(s, steps[0], c, n);
    if Passed(s', c, n) {
      k := 0;
      assert steps[1..][..0] == [];
    } else {
      k := AnswersPass(s', steps[1..], c, n);
    }
    RunExtends(s, steps, k);
    k := k + 1;
  }

  lemma {:induction false} AbreastReaches(s: State, steps: seq<Step>)
    requires Inv(s) && Abreast(s) && ValidRun(s, steps) && Lasting(steps)
    ensures Inv(Run(s, steps)) && Abreast(Run(s, steps))
    decreases |steps|
  {
    if steps == [] {
    } else {
      InvNext(s, steps[0]);
      AbreastKept(s, steps[0]);
      AbreastReaches(Next(s, steps[0]), steps[1..]);
    }
  }

  /** In every run from birth: wherever an entry stands at seq `n`, any
      continuation that delivers two answers and does not evict it passes `n`. */
  lemma TwoAnswersPassTheSeq(m: Member, budget: nat, nowMs: nat, before: seq<Step>, steps: seq<Step>, c: nat, n: nat)
    requires ValidRun(Initial(m, budget, nowMs), before) && Lasting(before)
    requires var s := Run(Initial(m, budget, nowMs), before);
      StillAt(s, c, n) && ValidRun(s, steps) && Lasting(steps) && Staying(steps) && Delivered(s, steps) >= 2
    ensures var s := Run(Initial(m, budget, nowMs), before);
      exists k :: 0 <= k <= |steps| && ValidRun(s, steps[..k]) && Passed(Run(s, steps[..k]), c, n)
  {
    InvInitial(m, budget, nowMs);
    AbreastInitial(m, budget, nowMs);
    AbreastReaches(Initial(m, budget, nowMs), before);
    var k := AnswersPass(Run(Initial(m, budget, nowMs), before), steps, c, n);
  }
}
