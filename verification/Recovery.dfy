/** Progress of the fill client after any past, rollbacks included: every request still on
    the network may cost one more answer. */
module Recovery {
  import opened Wrappers
  import opened FillClient
  import opened WriteLog
  import opened ExactlyOnce
  import opened FillProgress

  /** A request in flight expects the entry's version. */
  ghost predicate Aligned(s: State) {
    s.active.Some? && s.call.Sent? ==> s.call.req.expected == s.active.value.version
  }

  lemma AlignedNext(s: State, step: Step)
    requires Aligned(s) && Enabled(s, step)
    ensures Aligned(Next(s, step))
  {
  }

  lemma {:induction false} AlignedRun(s: State, steps: seq<Step>)
    requires Aligned(s) && ValidRun(s, steps)
    ensures Aligned(Run(s, steps))
    decreases |steps|
  {
    if steps == [] {
    } else {
      AlignedNext(s, steps[0]);
      AlignedRun(Next(s, steps[0]), steps[1..]);
    }
  }

  /** `others` bounds the requests of other clients on the network. */
  ghost predicate Covers(others: multiset<Request>, s: State, c: nat) {
    forall z :: z in s.zombies && z.client != c ==> s.zombies[z] <= others[z]
  }

  /** Answers the entry needs before its version is the log's. */
  function Stale(s: State): nat
    requires s.active.Some?
  {
    var behind := if s.active.value.version == |s.log| then 0 else 1;
    match s.call
    case Idle => behind
    case Sent(_) => behind
    case Waiting(_, _) => 1
    case Answered(_, OccConflict(current)) => if current == Some(|s.log|) then 1 else 2
    case Answered(_, OtherError) => behind + 1
    case Answered(_, _) => behind
  }

  /** How many answers may still go by before the one that passes seq `n`. */
  function Behind(s: State, others: multiset<Request>, c: nat, n: nat): nat
    requires s.active.Some?
  {
    |others| + (if Count(s.log, c) < n then 1 else 0) + Stale(s)
  }

  /** The step passed the seq, or left the entry no further behind, and nearer by one if
      it delivered an answer. */
  ghost predicate Nearer(s: State, others: multiset<Request>, step: Step, others': multiset<Request>, c: nat, n: nat)
    requires Enabled(s, step) && s.active.Some?
  {
    var s' := Next(s, step);
    || Passed(s', c, n)
    || (&& StillAt(s', c, n) && Covers(others', s', c)
        && Behind(s', others', c, n) + (if Delivers(s, step) then 1 else 0) <= Behind(s, others, c, n))
  }

  /** The entry's own call is admitted: its seq goes in at the version it expected. */
  lemma AdmitNearer(s: State, others: multiset<Request>, c: nat, n: nat)
    requires LogOk(s) && Aligned(s) && StillAt(s, c, n) && ActiveOk(s, s.active.value) && Covers(others, s, c)
    requires s.call.Sent? && Serve(s.log, s.durable, s.call.req).Append?
    ensures Nearer(s, others, Execute, others, c, n)
  {
    var s' := Next(s, Execute);
    ServeMeaning(s.log, s.durable, s.call.req);
    CountWhole(s.log, s.durable, c);
    CountAppend(s.log, Entry(c, n), c);
    assert Count(s'.log, c) == Count(s.log, c) + 1;
  }

  lemma RejectNearer(s: State, others: multiset<Request>, c: nat, n: nat)
    requires Aligned(s) && StillAt(s, c, n) && Covers(others, s, c)
    requires s.call.Sent? && Serve(s.log, s.durable, s.call.req).Reject?
    ensures Nearer(s, others, Execute, others, c, n)
  {
  }

  /** A longer log costs at most one answer. */
  lemma LateAppendStale(s: State, z: Request)
    requires s.active.Some? && z in s.zombies && Serve(s.log, s.durable, z).Append?
    ensures Stale(Next(s, LateExecute(z))) <= Stale(s) + 1
  {
  }

  lemma LateAppendCounts(s: State, z: Request, c: nat, n: nat)
    requires LogOk(s) && RequestOk(s, z) && StillAt(s, c, n) && ActiveOk(s, s.active.value)
    requires z in s.zombies && Serve(s.log, s.durable, z).Append?
    ensures z.client != c ==> Count(Next(s, LateExecute(z)).log, c) == Count(s.log, c)
    ensures z.client == c ==> Count(s.log, c) < n <= Count(Next(s, LateExecute(z)).log, c)
  {
    CountAppend(s.log, Entry(z.client, z.seqNo), c);
    CountWhole(s.log, s.durable, c);
    ServeMeaning(s.log, s.durable, z);
  }

  lemma CoversOneLess(others: multiset<Request>, s: State, z: Request, c: nat)
    requires Covers(others, s, c) && z in s.zombies && z.client != c
    ensures z in others && Covers(others - multiset{z}, Next(s, LateExecute(z)), c)
    ensures |others - multiset{z}| == |others| - 1
  {
  }

  lemma LateAppendNearer(s: State, others: multiset<Request>, z: Request, c: nat, n: nat)
    returns (others': multiset<Request>)
    requires LogOk(s) && RequestOk(s, z) && StillAt(s, c, n) && ActiveOk(s, s.active.value) && Covers(others, s, c)
    requires z in s.zombies && Serve(s.log, s.durable, z).Append?
    ensures Nearer(s, others, LateExecute(z), others', c, n)
  {
    LateAppendStale(s, z);
    LateAppendCounts(s, z, c, n);
    if z.client == c {
      others' := others;
    } else {
      CoversOneLess(others, s, z, c);
      others' := others - multiset{z};
    }
  }

  lemma AnswerNearer(s: State, others: multiset<Request>, nowMs: nat, legible: bool, c: nat, n: nat)
    requires LogOk(s) && StillAt(s, c, n) && ActiveOk(s, s.active.value) && Covers(others, s, c) && s.call.Answered?
    ensures Nearer(s, others, Answer(nowMs, legible), others, c, n)
  {
    CountWhole(s.log, s.durable, c);
    var a, s' := s.active.value, Next(s, Answer(nowMs, legible));
    match s.call.error
    case OccConflict(current) =>
      assert s'.active == Some(if legible && current.Some? then a.(version := current.value) else a.Defer(nowMs));
    case IdempotencyViolation(_) =>
      assert s'.active == KeepUnlessSpent(a.Advance(nowMs, a.clientSeq));
    case _ => assert s'.active == Some(a.Defer(nowMs));
  }

  lemma GiveUpNearer(s: State, others: multiset<Request>, nowMs: nat, c: nat, n: nat)
    requires LogOk(s) && StillAt(s, c, n) && ActiveOk(s, s.active.value) && Covers(others, s, c) && !s.call.Idle?
    ensures Nearer(s, others, GiveUp(nowMs), others, c, n)
  {
    var s' := Next(s, GiveUp(nowMs));
    assert s'.active == Some(s.active.value.Defer(nowMs));
    assert forall z: Request :: z.client != c ==> s'.zombies[z] == s.zombies[z];
  }

  lemma AckNearer(s: State, others: multiset<Request>, nowMs: nat, room: bool, c: nat, n: nat)
    requires LogOk(s) && NetworkOk(s) && StillAt(s, c, n) && ActiveOk(s, s.active.value)
    requires Enabled(s, Ack(nowMs, room))
    ensures Nearer(s, others, Ack(nowMs, room), others, c, n)
  {
    CountCovers(s.log, s.call.at, |s.log|);
    assert s.log[..|s.log|] == s.log;
  }

  lemma QuietNearer(s: State, others: multiset<Request>, step: Step, c: nat, n: nat)
    requires StillAt(s, c, n) && Covers(others, s, c) && Enabled(s, step)
    requires step.SendWrite? || step.Harden? || step.LateDrop?
    ensures Nearer(s, others, step, others, c, n)
  {
  }

  lemma LateRejectNearer(s: State, others: multiset<Request>, z: Request, c: nat, n: nat)
    requires StillAt(s, c, n) && Covers(others, s, c) && z in s.zombies && Serve(s.log, s.durable, z).Reject?
    ensures Nearer(s, others, LateExecute(z), others, c, n)
  {
  }

  lemma StepNearer(s: State, others: multiset<Request>, step: Step, c: nat, n: nat)
    returns (others': multiset<Request>)
    requires Inv(s) && Aligned(s) && StillAt(s, c, n) && Covers(others, s, c)
    requires Enabled(s, step) && !step.Evict? && !step.Rollback?
    ensures Nearer(s, others, step, others', c, n)
  {
    others' := others;
    match step
    case Execute =>
      if Serve(s.log, s.durable, s.call.req).Append? {
        AdmitNearer(s, others, c, n);
      } else {
        RejectNearer(s, others, c, n);
      }
    case LateExecute(z) =>
      if Serve(s.log, s.durable, z).Append? {
        others' := LateAppendNearer(s, others, z, c, n);
      } else {
        LateRejectNearer(s, others, z, c, n);
      }
    case Answer(nowMs, legible) => AnswerNearer(s, others, nowMs, legible, c, n);
    case GiveUp(nowMs) => GiveUpNearer(s, others, nowMs, c, n);
    case Ack(nowMs, room) => AckNearer(s, others, nowMs, room, c, n);
    case _ => QuietNearer(s, others, step, c, n);
  }

  /** From any state a run can reach: a continuation that keeps the log and the entry and
      delivers more answers than the entry is behind passes the seq. */
  lemma {:induction false} AnswersCatchUp(s: State, others: multiset<Request>, steps: seq<Step>, c: nat, n: nat)
    returns (k: nat)
    requires Inv(s) && Aligned(s) && StillAt(s, c, n) && Covers(others, s, c)
    requires ValidRun(s, steps) && Lasting(steps) && Staying(steps) && Behind(s, others, c, n) < Delivered(s, steps)
    ensures k <= |steps| && ValidRun(s, steps[..k]) && Passed(Run(s, steps[..k]), c, n)
    decreases |steps|
  {
    var s' := Next(s, steps[0]);
    var others' := StepNearer(s, others, steps[0], c, n);
    InvNext(s, steps[0]);
    AlignedNext(s, steps[0]);
    if Passed(s', c, n) {
      k := 0;
      assert steps[1..][..0] == [];
    } else {
      k := AnswersCatchUp(s', others', steps[1..], c, n);
    }
    RunExtends(s, steps, k);
    k := k + 1;
  }

  /** In every run from birth, rollbacks included: once the leader keeps its log, three
      answers and one for each request still on the network always pass the seq. */
  lemma AnswersPassAfterRollbacks(m: Member, budget: nat, nowMs: nat,
                                  before: seq<Step>, steps: seq<Step>, c: nat, n: nat)
    requires ValidRun(Initial(m, budget, nowMs), before)
    requires var s := Run(Initial(m, budget, nowMs), before);
      && StillAt(s, c, n) && ValidRun(s, steps) && Lasting(steps) && Staying(steps)
      && |s.zombies| + 3 < Delivered(s, steps)
    ensures var s := Run(Initial(m, budget, nowMs), before);
      exists k :: 0 <= k <= |steps| && ValidRun(s, steps[..k]) && Passed(Run(s, steps[..k]), c, n)
  {
    InvInitial(m, budget, nowMs);
    InvRun(Initial(m, budget, nowMs), before);
    AlignedRun(Initial(m, budget, nowMs), before);
    var s := Run(Initial(m, budget, nowMs), before);
    var k := AnswersCatchUp(s, s.zombies, steps, c, n);
  }
}
