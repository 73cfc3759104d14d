/** The fill client and the server as one transition system over an aggregate.

    The network loses answers and delays requests without bound; the leader's
    log may run ahead of what is replicated and be rolled back to it; the task
    may evict the aggregate at any time and reheat it later, under the old client
    or another one, from a possibly stale catch-up read. One logical call is
    executed by a server at most once. */
module ExactlyOnce {
  import opened Wrappers
  import opened FillClient
  import opened WriteLog

  /** The task's outstanding call. `Waiting` has been appended at `at` and is
      acknowledged once replicated. */
  datatype Call =
    | Idle
    | Sent(req: Request)
    | Waiting(req: Request, at: nat)
    | Answered(req: Request, error: WriteError)

  datatype State = State(
    aggregateId: nat,
    log: Log,
    durable: nat,
    zombies: multiset<Request>,
    active: Option<Active>,
    call: Call,
    ledger: set<Entry>)

  datatype Step =
    | SendWrite
    | SendReheat(client: nat, readTo: nat)
    | Execute
    | Harden(to: nat)
    | Rollback
    | Ack(nowMs: nat, room: bool)
    | Answer(nowMs: nat, legible: bool)
    | GiveUp(nowMs: nat)
    | LateExecute(z: Request)
    | LateDrop(z: Request)
    | Evict

  ghost predicate Enabled(s: State, step: Step) {
    match step
    case SendWrite => s.call.Idle? && s.active.Some?
    case SendReheat(_, readTo) => s.call.Idle? && s.active.None? && readTo <= s.durable <= |s.log|
    case Execute => s.call.Sent?
    case Harden(to) => s.durable <= to <= |s.log|
    case Rollback => s.durable <= |s.log|
    case Ack(_, _) => s.call.Waiting? && s.call.at < s.durable
    case Answer(_, _) => s.call.Answered?
    case GiveUp(_) => !s.call.Idle?
    case LateExecute(z) => z in s.zombies
    case LateDrop(z) => z in s.zombies
    case Evict => s.call.Idle? && s.active.Some?
  }

  /** An error text that does not parse loses the number it carried. */
  function Received(e: WriteError, legible: bool): WriteError {
    if legible then e
    else if e.OccConflict? then OccConflict(None)
    else if e.IdempotencyViolation? then IdempotencyViolation(None)
    else e
  }

  /** The task handles the result of its call. A failed reheat leaves nothing. */
  function Handle(s: State, res: WriteResult, nowMs: nat): State
    requires !s.call.Idle?
  {
    if s.active.None? then s.(call := Idle)
    else
      var out := WriteArm(s.active.value, res, nowMs);
      s.(call := Idle,
         active := out.kept,
         ledger := if out.recorded.Some?
                   then s.ledger + {Entry(s.active.value.member.clientId, out.recorded.value)}
                   else s.ledger)
  }

  function Next(s: State, step: Step): State
    requires Enabled(s, step)
  {
    match step
    case SendWrite =>
      var a := s.active.value;
      s.(call := Sent(Request(a.member.clientId, a.clientSeq, a.version)))
    case SendReheat(c, readTo) =>
      s.(call := Sent(Request(c, MaxSeq(s.log[..readTo], c) + 1, readTo)))
    case Execute =>
      var req := s.call.req;
      (match Serve(s.log, s.durable, req)
       case Append => s.(log := s.log + [Entry(req.client, req.seqNo)], call := Waiting(req, |s.log|))
       case Reject(e) => s.(call := Answered(req, e)))
    case Harden(to) => s.(durable := to)
    case Rollback =>
      s.(log := s.log[..s.durable],
         call := if s.call.Waiting? && s.durable <= s.call.at
                 then Answered(s.call.req, OtherError) else s.call)
    case Ack(nowMs, room) =>
      if s.active.None? then
        var req := s.call.req;
        s.(call := Idle,
           active := if room
                     then Some(Reheated(s.aggregateId, req.client, req.expected + 1, req.seqNo, nowMs))
                     else None,
           ledger := s.ledger + {Entry(req.client, req.seqNo)})
      else Handle(s, Acked, nowMs)
    case Answer(nowMs, legible) => Handle(s, Failed(Received(s.call.error, legible)), nowMs)
    case GiveUp(nowMs) =>
      var s' := Handle(s, Failed(OtherError), nowMs);
      if s.call.Sent? then s'.(zombies := s'.zombies + multiset{s.call.req}) else s'
    case LateExecute(z) =>
      var s' := s.(zombies := s.zombies - multiset{z});
      (match Serve(s.log, s.durable, z)
       case Append => s'.(log := s.log + [Entry(z.client, z.seqNo)])
       case Reject(_) => s')
    case LateDrop(z) => s.(zombies := s.zombies - multiset{z})
    case Evict => s.(active := None)
  }

  function Initial(m: Member, budget: nat, nowMs: nat): State {
    State(m.aggregateId, [], 0, multiset{}, Some(Newborn(m, budget, nowMs)), Idle, {})
  }

  ghost predicate ValidRun(s: State, steps: seq<Step>)
    decreases |steps|
  {
    steps == [] || (Enabled(s, steps[0]) && ValidRun(Next(s, steps[0]), steps[1..]))
  }

  ghost function Run(s: State, steps: seq<Step>): State
    requires ValidRun(s, steps)
    decreases |steps|
  {
    if steps == [] then s else Run(Next(s, steps[0]), steps[1..])
  }

  // The inductive invariant, one concern per predicate.

  function Durable(s: State, c: nat): nat
    requires s.durable <= |s.log|
  {
    Count(s.log[..s.durable], c)
  }

  ghost predicate LogOk(s: State) {
    s.durable <= |s.log| && Numbered(s.log)
  }

  /** A request still on the network asks for at most the next durable seq. */
  ghost predicate RequestOk(s: State, req: Request)
    requires LogOk(s)
  {
    1 <= req.seqNo <= Durable(s, req.client) + 1
  }

  ghost predicate NetworkOk(s: State)
    requires LogOk(s)
  {
    && (forall z :: z in s.zombies ==> RequestOk(s, z))
    && (s.call.Sent? ==> RequestOk(s, s.call.req))
    && (s.call.Waiting? ==>
          s.call.at < |s.log| && s.log[s.call.at] == Entry(s.call.req.client, s.call.req.seqNo))
  }

  ghost predicate LedgerOk(s: State)
    requires LogOk(s)
  {
    forall e :: e in s.ledger ==> 1 <= e.seqNo <= Durable(s, e.client)
  }

  /** The entry knows its seq to within one, and `unacked` covers every way the
      current seq can have reached, or still reach, the log behind its back. */
  ghost predicate ActiveOk(s: State, a: Active)
    requires LogOk(s)
  {
    var c := a.member.clientId;
    && 1 <= a.clientSeq <= Durable(s, c) + 1
    && Count(s.log, c) <= a.clientSeq
    && (forall z :: z in s.zombies && z.client == c ==>
          z.seqNo <= a.clientSeq && (z.seqNo == a.clientSeq ==> a.unacked))
    && (!s.call.Idle? ==> s.call.req.client == c && s.call.req.seqNo == a.clientSeq)
    && (Count(s.log, c) == a.clientSeq && !s.call.Waiting? ==> a.unacked)
    && (s.call.Answered? && s.call.error.IdempotencyViolation? ==>
          a.unacked && s.call.error.last == Some(a.clientSeq) && Durable(s, c) == a.clientSeq)
  }

  /** A reheat that was admitted is ahead of every older request of its client. */
  ghost predicate ReheatOk(s: State) {
    s.call.Waiting? ==>
      && Count(s.log, s.call.req.client) == s.call.req.seqNo
      && (forall z :: z in s.zombies && z.client == s.call.req.client ==> z.seqNo <= s.call.req.seqNo)
  }

  ghost predicate Inv(s: State) {
    && LogOk(s)
    && NetworkOk(s)
    && LedgerOk(s)
    && (s.active.Some? ==> ActiveOk(s, s.active.value))
    && (s.active.None? ==> ReheatOk(s))
  }

  lemma InvInitial(m: Member, budget: nat, nowMs: nat)
    ensures Inv(Initial(m, budget, nowMs))
  {
  }

  lemma SendKeeps(s: State, step: Step)
    requires Inv(s) && Enabled(s, step) && (step.SendWrite? || step.SendReheat? || step.Evict?)
    ensures Inv(Next(s, step))
  {
    if step.SendReheat? {
      NumberedPrefix(s.log, step.readTo);
      CatchUpFindsCount(s.log[..step.readTo], step.client);
      CountPrefix(s.log, step.readTo, s.durable, step.client);
    }
  }

  /** Appending a request at the log's end keeps the log and the counts in step. */
  lemma AppendKeeps(s: State, req: Request, s': State)
    requires LogOk(s) && RequestOk(s, req) && Serve(s.log, s.durable, req).Append?
    requires s'.log == s.log + [Entry(req.client, req.seqNo)] && s'.durable == s.durable
    ensures LogOk(s')
    ensures forall c :: Durable(s', c) == Durable(s, c)
    ensures forall c {:trigger Count(s'.log, c)} ::
              Count(s'.log, c) == Count(s.log, c) + if req.client == c then 1 else 0
    ensures req.seqNo == Count(s.log, req.client) + 1
  {
    ServeMeaning(s.log, s.durable, req);
    CountWhole(s.log, s.durable, req.client);
    NumberedAppend(s.log, Entry(req.client, req.seqNo));
    forall c
      ensures Count(s'.log, c) == Count(s.log, c) + if req.client == c then 1 else 0
    {
      CountAppend(s.log, Entry(req.client, req.seqNo), c);
    }
    assert s'.log[..s.durable] == s.log[..s.durable];
  }

  lemma AdmitKeeps(s: State)
    requires Inv(s) && s.call.Sent? && Serve(s.log, s.durable, s.call.req).Append?
    ensures Inv(Next(s, Execute))
  {
    CountWhole(s.log, s.durable, s.call.req.client);
    AppendKeeps(s, s.call.req, Next(s, Execute));
  }

  lemma RejectKeeps(s: State)
    requires Inv(s) && s.call.Sent? && Serve(s.log, s.durable, s.call.req).Reject?
    ensures Inv(Next(s, Execute))
  {
    ServeMeaning(s.log, s.durable, s.call.req);
    CountWhole(s.log, s.durable, s.call.req.client);
  }

  /** A late request that is admitted was its client's next seq. */
  lemma LateAppendActive(s: State, z: Request)
    requires Inv(s) && z in s.zombies && Serve(s.log, s.durable, z).Append? && s.active.Some?
    ensures var s' := Next(s, LateExecute(z)); LogOk(s') && ActiveOk(s', s.active.value)
  {
    var s', c := Next(s, LateExecute(z)), s.active.value.member.clientId;
    AppendKeeps(s, z, s');
    CountWhole(s.log, s.durable, z.client);
    assert Durable(s', c) == Durable(s, c);
    assert Count(s'.log, c) == Count(s.log, c) + if z.client == c then 1 else 0;
  }

  lemma LateAppendRest(s: State, z: Request)
    requires Inv(s) && z in s.zombies && Serve(s.log, s.durable, z).Append?
    ensures var s' := Next(s, LateExecute(z)); LogOk(s') && NetworkOk(s') && LedgerOk(s')
  {
    AppendKeeps(s, z, Next(s, LateExecute(z)));
  }

  lemma LateAppendReheat(s: State, z: Request)
    requires LogOk(s) && NetworkOk(s) && ReheatOk(s) && z in s.zombies && Serve(s.log, s.durable, z).Append?
    ensures ReheatOk(Next(s, LateExecute(z)))
  {
    AppendKeeps(s, z, Next(s, LateExecute(z)));
  }

  lemma LateExecuteKeeps(s: State, z: Request)
    requires Inv(s) && z in s.zombies
    ensures Inv(Next(s, LateExecute(z)))
  {
    if Serve(s.log, s.durable, z).Append? {
      LateAppendRest(s, z);
      if s.active.Some? {
        LateAppendActive(s, z);
      } else {
        LateAppendReheat(s, z);
      }
    }
  }

  lemma HardenKeeps(s: State, to: nat)
    requires Inv(s) && Enabled(s, Harden(to))
    ensures Inv(Next(s, Harden(to)))
  {
    var s' := Next(s, Harden(to));
    forall c
      ensures Durable(s, c) <= Durable(s', c) <= Count(s.log, c)
    {
      CountPrefix(s.log, s.durable, to, c);
      CountWhole(s.log, to, c);
    }
  }

  lemma RollbackKeeps(s: State)
    requires Inv(s)
    ensures Inv(Next(s, Rollback))
  {
    var s' := Next(s, Rollback);
    NumberedPrefix(s.log, s.durable);
    assert s'.log[..s.durable] == s'.log;
    forall c
      ensures Count(s'.log, c) == Durable(s', c) == Durable(s, c) <= Count(s.log, c)
    {
      CountWhole(s.log, s.durable, c);
    }
    if s.call.Waiting? {
      var c := s.call.req.client;
      if s.call.at < s.durable {
        CountCovers(s.log, s.call.at, s.durable);
      } else {
        CountPrefix(s.log, s.durable, s.call.at, c);
      }
    }
  }

  lemma AckKeeps(s: State, nowMs: nat, room: bool)
    requires Inv(s) && Enabled(s, Ack(nowMs, room))
    ensures Inv(Next(s, Ack(nowMs, room)))
  {
    CountCovers(s.log, s.call.at, s.durable);
    CountWhole(s.log, s.durable, s.call.req.client);
  }

  /** "Already applied" moves the entry past a seq that is durable. */
  lemma DuplicateKeeps(s: State, nowMs: nat, legible: bool)
    requires Inv(s) && s.call.Answered? && s.active.Some? && s.call.error.IdempotencyViolation?
    ensures Inv(Next(s, Answer(nowMs, legible)))
  {
    CountWhole(s.log, s.durable, s.call.req.client);
    var a := s.active.value;
    assert Next(s, Answer(nowMs, legible)).active == KeepUnlessSpent(a.Advance(nowMs, a.clientSeq));
  }

  lemma AnswerKeeps(s: State, nowMs: nat, legible: bool)
    requires Inv(s) && s.call.Answered?
    ensures Inv(Next(s, Answer(nowMs, legible)))
  {
    if s.active.Some? && s.call.error.IdempotencyViolation? {
      DuplicateKeeps(s, nowMs, legible);
    }
  }

  lemma GiveUpKeeps(s: State, nowMs: nat)
    requires Inv(s) && !s.call.Idle?
    ensures Inv(Next(s, GiveUp(nowMs)))
  {
    var s' := Next(s, GiveUp(nowMs));
    if s.active.Some? {
      assert s'.active == Some(s.active.value.Defer(nowMs));
    }
  }

  lemma InvNext(s: State, step: Step)
    requires Inv(s) && Enabled(s, step)
    ensures Inv(Next(s, step))
  {
    match step
    case Execute =>
      if Serve(s.log, s.durable, s.call.req).Append? {
        AdmitKeeps(s);
      } else {
        RejectKeeps(s);
      }
    case Harden(to) => HardenKeeps(s, to);
    case Rollback => RollbackKeeps(s);
    case LateExecute(z) => LateExecuteKeeps(s, z);
    case LateDrop(z) =>
    case SendWrite => SendKeeps(s, step);
    case SendReheat(_, _) => SendKeeps(s, step);
    case Evict => SendKeeps(s, step);
    case Ack(nowMs, room) => AckKeeps(s, nowMs, room);
    case Answer(nowMs, legible) => AnswerKeeps(s, nowMs, legible);
    case GiveUp(nowMs) => GiveUpKeeps(s, nowMs);
  }

  lemma {:induction false} InvRun(s: State, steps: seq<Step>)
    requires Inv(s) && ValidRun(s, steps)
    ensures Inv(Run(s, steps))
    decreases |steps|
  {
    if steps == [] {
    } else {
      InvNext(s, steps[0]);
      InvRun(Next(s, steps[0]), steps[1..]);
    }
  }

  lemma LedgerDurable(s: State)
    requires Inv(s)
    ensures forall e :: e in s.ledger ==> e in s.log[..s.durable]
  {
    NumberedPrefix(s.log, s.durable);
    NumberedIsExactlyOnce(s.log[..s.durable]);
    forall e | e in s.ledger
      ensures e in s.log[..s.durable]
    {
      assert Entry(e.client, e.seqNo) in s.log[..s.durable];
    }
  }

  /** The batch whose acknowledgement the task receives in a step, read off its request. */
  ghost function Acknowledged(s: State, step: Step): set<Entry>
    requires Enabled(s, step)
  {
    if step.Ack? then {Entry(s.call.req.client, s.call.req.seqNo)} else {}
  }

  ghost function AcknowledgedIn(s: State, steps: seq<Step>): set<Entry>
    requires ValidRun(s, steps)
    decreases |steps|
  {
    if steps == [] then {}
    else Acknowledged(s, steps[0]) + AcknowledgedIn(Next(s, steps[0]), steps[1..])
  }

  /** What the task records is the batch it asked for, and only on its acknowledgement. */
  lemma LedgerStep(s: State, step: Step)
    requires Inv(s) && Enabled(s, step)
    ensures Next(s, step).ledger == s.ledger + Acknowledged(s, step)
  {
    if step.Ack? && s.active.Some? {
      assert s.call.req.seqNo == s.active.value.clientSeq;
    }
  }

  /** Over a run the ledger grows by exactly the acknowledged batches. */
  lemma {:induction false} LedgerIsAcknowledged(s: State, steps: seq<Step>)
    requires Inv(s) && ValidRun(s, steps)
    ensures Run(s, steps).ledger == s.ledger + AcknowledgedIn(s, steps)
    decreases |steps|
  {
    if steps == [] {
    } else {
      LedgerStep(s, steps[0]);
      InvNext(s, steps[0]);
      LedgerIsAcknowledged(Next(s, steps[0]), steps[1..]);
    }
  }

  lemma NoUnexpectedDuplicate(s: State)
    requires Inv(s) && s.active.Some? && s.call.Answered?
    ensures forall legible :: ClassifyWriteFailure(Received(s.call.error, legible), s.active.value.unacked)
                              != UnexpectedDuplicate
  {
  }

  /** Safety of every run: the log holds each (client, seq) at most once and each
      client's seqs are exactly 1..m; an active entry brackets m; the ledger holds
      exactly the batches acknowledged, each replicated; the `UnexpectedDuplicate` arm is never taken. */
  lemma ExactlyOnceInEveryRun(m: Member, budget: nat, nowMs: nat, steps: seq<Step>)
    requires ValidRun(Initial(m, budget, nowMs), steps)
    ensures var s := Run(Initial(m, budget, nowMs), steps);
      && s.durable <= |s.log|
      && (forall i, j :: 0 <= i < j < |s.log| ==> s.log[i] != s.log[j])
      && (forall c, n: nat {:trigger Entry(c, n)} :: Entry(c, n) in s.log <==> 1 <= n <= Count(s.log, c))
      && (s.active.Some? ==>
            var a := s.active.value;
            a.clientSeq - 1 <= Durable(s, a.member.clientId) <= Count(s.log, a.member.clientId) <= a.clientSeq)
      && s.ledger == AcknowledgedIn(Initial(m, budget, nowMs), steps)
      && (forall e :: e in s.ledger ==> e in s.log[..s.durable])
      && (s.active.Some? && s.call.Answered? ==>
            forall legible :: ClassifyWriteFailure(Received(s.call.error, legible), s.active.value.unacked)
                              != UnexpectedDuplicate)
  {
    InvInitial(m, budget, nowMs);
    InvRun(Initial(m, budget, nowMs), steps);
    LedgerIsAcknowledged(Initial(m, budget, nowMs), steps);
    var s := Run(Initial(m, budget, nowMs), steps);
    NumberedIsExactlyOnce(s.log);
    LedgerDurable(s);
    if s.active.Some? {
      CountWhole(s.log, s.durable, s.active.value.member.clientId);
      if s.call.Answered? {
        NoUnexpectedDuplicate(s);
      }
    }
  }
}
