/** Every history a correct server can hand its clients.

    Any number of sessions write through one log. A call is issued, executed by
    the server at most once, and returns an answer or is lost; a lost request may
    still be executed later. The record of a call is appended when it ends. */
module ServerRun {
  import opened Wrappers
  import opened History

  datatype Op = Op(session: Session, seqNo: nat, expected: Option<nat>, idempotent: bool)
  datatype Reply = Committed(version: nat) | Rejected(reason: ErrorLabel)
  datatype Call = Issued(op: Op) | Executed(op: Op, reply: Reply)
  datatype Commit = Commit(session: Session, seqNo: nat)

  /** `opening` and `openingSeq` are what the window of the history starts from;
      `versions[i]` is the version record i committed at, when it is an `Ok`. */
  datatype World = World(
    opening: map<Aggregate, nat>,
    openingSeq: map<Session, nat>,
    log: seq<Commit>,
    calls: map<Session, Call>,
    zombies: multiset<Op>,
    history: seq<OpRecord>,
    versions: seq<nat>)
  {
    function Opening(agg: Aggregate): nat { if agg in opening then opening[agg] else 0 }
    function OpeningSeq(ss: Session): nat { if ss in openingSeq then openingSeq[ss] else 0 }
    function Version(agg: Aggregate): nat { Opening(agg) + Batches(log, agg) }
    function LastSeq(ss: Session): nat { NewestSeq(log, ss, OpeningSeq(ss)) }
  }

  /** Batches of an aggregate in the log. */
  function Batches(log: seq<Commit>, agg: Aggregate): nat {
    if log == [] then 0
    else Batches(log[..|log| - 1], agg) + if log[|log| - 1].session.agg == agg then 1 else 0
  }

  /** Seq of a session's newest batch. */
  function NewestSeq(log: seq<Commit>, ss: Session, opening: nat): nat {
    if log == [] then opening
    else if log[|log| - 1].session == ss then log[|log| - 1].seqNo
    else NewestSeq(log[..|log| - 1], ss, opening)
  }

  /** The server's answer: optimistic concurrency, then idempotency. */
  function Serve(w: World, op: Op): Reply {
    if op.expected.Some? && op.expected.value != w.Version(op.session.agg) then Rejected(OccConflict)
    else if op.idempotent && 0 < w.LastSeq(op.session) && op.seqNo <= w.LastSeq(op.session)
    then Rejected(ClientIdempotencyViolation)
    else Committed(w.Version(op.session.agg) + 1)
  }

  datatype Step =
    | Issue(op: Op)
    | Execute(ss: Session)
    | Refuse(ss: Session, reason: ErrorLabel)
    | Return(ss: Session, told: bool)
    | Lose(ss: Session)
    | LateExecute(z: Op)

  ghost predicate Enabled(w: World, step: Step) {
    match step
    case Issue(op) => op.session !in w.calls
    case Execute(ss) => ss in w.calls && w.calls[ss].Issued?
    case Refuse(ss, reason) =>
      ss in w.calls && w.calls[ss].Issued? && (reason.InflightDuplicateWrite? || reason.OtherLabel?)
    case Return(ss, _) => ss in w.calls && w.calls[ss].Executed?
    case Lose(ss) => ss in w.calls
    case LateExecute(z) => z in w.zombies
  }

  function Appended(w: World, op: Op): World {
    w.(log := w.log + [Commit(op.session, op.seqNo)])
  }

  function Ended(w: World, ss: Session, record: OpRecord, version: nat): World {
    w.(calls := w.calls - {ss}, history := w.history + [record], versions := w.versions + [version])
  }

  function AnswerRecord(op: Op, reply: Reply, told: bool): OpRecord {
    match reply
    case Committed(v) =>
      OpRecord(op.session, op.seqNo, op.expected, Ok, None, if told then Some(v) else None)
    case Rejected(reason) =>
      OpRecord(op.session, op.seqNo, op.expected, Fail, Some(reason), None)
  }

  function LostRecord(op: Op): OpRecord {
    OpRecord(op.session, op.seqNo, op.expected, Info, Some(OtherLabel), None)
  }

  function Next(w: World, step: Step): World
    requires Enabled(w, step)
  {
    match step
    case Issue(op) => w.(calls := w.calls[op.session := Issued(op)])
    case Execute(ss) =>
      var op := w.calls[ss].op;
      var reply := Serve(w, op);
      var w' := if reply.Committed? then Appended(w, op) else w;
      w'.(calls := w.calls[ss := Executed(op, reply)])
    case Refuse(ss, reason) => w.(calls := w.calls[ss := Executed(w.calls[ss].op, Rejected(reason))])
    case Return(ss, told) =>
      var Executed(op, reply) := w.calls[ss];
      Ended(w, ss, AnswerRecord(op, reply, told), if reply.Committed? then reply.version else 0)
    case Lose(ss) =>
      var op := w.calls[ss].op;
      var w' := Ended(w, ss, LostRecord(op), 0);
      if w.calls[ss].Issued? then w'.(zombies := w.zombies + multiset{op}) else w'
    case LateExecute(z) =>
      var w' := if Serve(w, z).Committed? then Appended(w, z) else w;
      w'.(zombies := w.zombies - multiset{z})
  }

  predicate CallCommitted(call: Call) {
    call.Executed? && call.reply.Committed?
  }

  /** How the clients behave. `Free` clients send anything; `Justified` ones enforce
      idempotency and send only a seq they may be told is already applied;
      `NonDecreasing` ones never go back to an older seq; `UntilSeen` ones also count up
      from the opening by one, and only past a seq they have been told of or found in the
      log; `UntilAcked` ones only past an acknowledged seq. */
  datatype Discipline = Free | Justified | NonDecreasing | UntilSeen | UntilAcked

  function LastRecord(h: seq<OpRecord>, ss: Session): Option<OpRecord> {
    if h == [] then None
    else if h[|h| - 1].session == ss then Some(h[|h| - 1])
    else LastRecord(h[..|h| - 1], ss)
  }

  /** Seqs a session was acknowledged for, by an `Ok` or by "already applied". */
  function AckSeqs(h: seq<OpRecord>, ss: Session): set<nat> {
    if h == [] then {}
    else
      var r := h[|h| - 1];
      AckSeqs(h[..|h| - 1], ss) + if IsAck(r) && r.session == ss then {r.clientSeq} else {}
  }

  function OkSeqs(h: seq<OpRecord>, ss: Session): set<nat> {
    if h == [] then {}
    else
      var r := h[|h| - 1];
      OkSeqs(h[..|h| - 1], ss) + if r.outcome.Ok? && r.session == ss then {r.clientSeq} else {}
  }

  function InfoSeqs(h: seq<OpRecord>, ss: Session): set<nat> {
    if h == [] then {}
    else
      var r := h[|h| - 1];
      InfoSeqs(h[..|h| - 1], ss) + if r.outcome.Info? && r.session == ss then {r.clientSeq} else {}
  }

  /** The newest seq a session has tried. */
  function Current(w: World, ss: Session): nat {
    if ss in w.calls then w.calls[ss].op.seqNo
    else if LastRecord(w.history, ss).Some? then LastRecord(w.history, ss).value.clientSeq
    else w.OpeningSeq(ss)
  }

  /** The client already has an answer for the seq: an ack at or above it, or an
      ambiguous attempt at it. */
  ghost predicate Covered(h: seq<OpRecord>, ss: Session, q: nat) {
    (exists p :: p in AckSeqs(h, ss) && q <= p) || q in InfoSeqs(h, ss)
  }

  /** What a client can see before it sends: the seq is covered, or it is new to this
      window and no ambiguous attempt lies above it. */
  ghost predicate MaySend(w: World, ss: Session, q: nat) {
    || Covered(w.history, ss, q)
    || (w.OpeningSeq(ss) < q && forall p :: p in InfoSeqs(w.history, ss) ==> p <= q)
  }

  ghost predicate MayIssue(d: Discipline, w: World, op: Op) {
    var ss := op.session;
    var cur := Current(w, ss);
    match d
    case Free => true
    case Justified => op.idempotent && MaySend(w, ss, op.seqNo)
    case NonDecreasing => op.idempotent && w.OpeningSeq(ss) < op.seqNo && cur <= op.seqNo
    case UntilSeen =>
      && op.idempotent && w.OpeningSeq(ss) < op.seqNo && cur <= op.seqNo
      && (op.seqNo != cur ==> op.seqNo == cur + 1 && cur <= w.LastSeq(ss))
    case UntilAcked =>
      && op.idempotent && w.OpeningSeq(ss) < op.seqNo && cur <= op.seqNo
      && (op.seqNo != cur ==> op.seqNo == cur + 1 && (cur == w.OpeningSeq(ss) || cur in AckSeqs(w.history, ss)))
  }

  ghost predicate Allowed(d: Discipline, w: World, step: Step) {
    step.Issue? ==> MayIssue(d, w, step.op)
  }

  ghost predicate ValidRun(d: Discipline, w: World, steps: seq<Step>)
    decreases |steps|
  {
    steps == [] ||
    (Enabled(w, steps[0]) && Allowed(d, w, steps[0]) && ValidRun(d, Next(w, steps[0]), steps[1..]))
  }

  ghost function Run(d: Discipline, w: World, steps: seq<Step>): World
    requires ValidRun(d, w, steps)
    decreases |steps|
  {
    if steps == [] then w else Run(d, Next(w, steps[0]), steps[1..])
  }

  function Fresh(opening: map<Aggregate, nat>, openingSeq: map<Session, nat>): World {
    World(opening, openingSeq, [], map[], multiset{}, [], [])
  }

  lemma Prepend(d: Discipline, w: World, step: Step, rest: seq<Step>)
    requires Enabled(w, step) && Allowed(d, w, step) && ValidRun(d, Next(w, step), rest)
    ensures ValidRun(d, w, [step] + rest)
    ensures Run(d, w, [step] + rest) == Run(d, Next(w, step), rest)
  {
    assert ([step] + rest)[1..] == rest;
  }

  lemma {:induction false} RunConcat(d: Discipline, w: World, a: seq<Step>, mid: World, b: seq<Step>)
    requires ValidRun(d, w, a) && Run(d, w, a) == mid && ValidRun(d, mid, b)
    ensures ValidRun(d, w, a + b) && Run(d, w, a + b) == Run(d, mid, b)
    decreases |a|
  {
    if a == [] {
      assert a + b == b;
    } else {
      HeadFirst(a, b);
      RunConcat(d, Next(w, a[0]), a[1..], mid, b);
      Prepend(d, w, a[0], a[1..] + b);
    }
  }

  lemma RunOne(d: Discipline, w: World, step: Step)
    requires Enabled(w, step) && Allowed(d, w, step)
    ensures ValidRun(d, w, [step]) && Run(d, w, [step]) == Next(w, step)
  {
    assert [step][1..] == [];
  }

  /** One attempt, executed and answered. */
  function Ask(op: Op): seq<Step> {
    [Issue(op)] + ([Execute(op.session)] + [Return(op.session, true)])
  }

  ghost function Answered(w: World, op: Op): World
    requires op.session !in w.calls
  {
    Next(Next(Next(w, Issue(op)), Execute(op.session)), Return(op.session, true))
  }

  lemma AskRun(d: Discipline, w: World, op: Op)
    requires op.session !in w.calls && MayIssue(d, w, op)
    ensures ValidRun(d, w, Ask(op)) && Run(d, w, Ask(op)) == Answered(w, op)
  {
    var w1 := Next(w, Issue(op));
    var w2 := Next(w1, Execute(op.session));
    RunOne(d, w2, Return(op.session, true));
    Prepend(d, w1, Execute(op.session), [Return(op.session, true)]);
    Prepend(d, w, Issue(op), [Execute(op.session)] + [Return(op.session, true)]);
  }

  lemma {:induction false} OpeningIsKept(d: Discipline, w: World, steps: seq<Step>)
    requires ValidRun(d, w, steps)
    ensures Run(d, w, steps).opening == w.opening && Run(d, w, steps).openingSeq == w.openingSeq
    decreases |steps|
  {
    if steps == [] {
    } else {
      OpeningIsKept(d, Next(w, steps[0]), steps[1..]);
    }
  }

  // Frame facts shared by the invariants.

  lemma AppendedFacts(w: World, op: Op)
    ensures forall agg {:trigger Appended(w, op).Version(agg)} ::
              Appended(w, op).Version(agg) == w.Version(agg) + if agg == op.session.agg then 1 else 0
    ensures forall ss {:trigger Appended(w, op).LastSeq(ss)} ::
              Appended(w, op).LastSeq(ss) == if ss == op.session then op.seqNo else w.LastSeq(ss)
  {
    var log' := w.log + [Commit(op.session, op.seqNo)];
    assert log'[..|w.log|] == w.log;
  }

  lemma EndedFacts(h: seq<OpRecord>, r: OpRecord, ss: Session)
    ensures LastRecord(h + [r], ss) == if r.session == ss then Some(r) else LastRecord(h, ss)
    ensures OkSeqs(h + [r], ss) == OkSeqs(h, ss) + if r.session == ss && r.outcome.Ok? then {r.clientSeq} else {}
    ensures InfoSeqs(h + [r], ss) == InfoSeqs(h, ss) + if r.session == ss && r.outcome.Info? then {r.clientSeq} else {}
    ensures AckSeqs(h + [r], ss) == AckSeqs(h, ss) + if r.session == ss && IsAck(r) then {r.clientSeq} else {}
  {
    assert (h + [r])[..|h|] == h;
  }

  lemma {:induction false} SeqsMeaning(h: seq<OpRecord>, ss: Session, q: nat)
    ensures q in OkSeqs(h, ss) <==>
              exists j :: 0 <= j < |h| && h[j].outcome.Ok? && h[j].session == ss && h[j].clientSeq == q
    ensures q in InfoSeqs(h, ss) <==>
              exists j :: 0 <= j < |h| && h[j].outcome.Info? && h[j].session == ss && h[j].clientSeq == q
    ensures q in AckSeqs(h, ss) <==>
              exists j :: 0 <= j < |h| && IsAck(h[j]) && h[j].session == ss && h[j].clientSeq == q
  {
    if h == [] {
    } else {
      var n := |h| - 1;
      SeqsMeaning(h[..n], ss, q);
      assert forall j :: 0 <= j < n ==> h[..n][j] == h[j];
      if h[n].session == ss && h[n].clientSeq == q {
        assert h[n].outcome.Ok? ==>
          exists j :: 0 <= j < |h| && h[j].outcome.Ok? && h[j].session == ss && h[j].clientSeq == q;
      }
    }
  }

  lemma {:induction false} OkIsAck(h: seq<OpRecord>, ss: Session, q: nat)
    ensures q in OkSeqs(h, ss) ==> q in AckSeqs(h, ss)
  {
    if h == [] {
    } else {
      OkIsAck(h[..|h| - 1], ss, q);
    }
  }

  // A step concerns one session.

  /** The session a step acts for. */
  function Actor(step: Step): Session {
    match step
    case Issue(op) => op.session
    case LateExecute(z) => z.session
    case _ => step.ss
  }

  /** A session's newest batch, records, call and requests on the network are the same. */
  ghost predicate Untouched(w: World, w': World, ss: Session) {
    && w'.openingSeq == w.openingSeq && w'.LastSeq(ss) == w.LastSeq(ss)
    && OkSeqs(w'.history, ss) == OkSeqs(w.history, ss)
    && InfoSeqs(w'.history, ss) == InfoSeqs(w.history, ss)
    && AckSeqs(w'.history, ss) == AckSeqs(w.history, ss)
    && LastRecord(w'.history, ss) == LastRecord(w.history, ss)
    && (ss in w'.calls <==> ss in w.calls)
    && (ss in w.calls ==> w'.calls[ss] == w.calls[ss])
    && (forall z: Op :: z.session == ss ==> (z in w'.zombies <==> z in w.zombies))
  }

  lemma AppendIsLocal(w: World, op: Op, ss: Session)
    requires op.session != ss
    ensures Untouched(w, Appended(w, op), ss)
  {
    AppendedFacts(w, op);
  }

  lemma EndIsLocal(w: World, at: Session, r: OpRecord, version: nat, ss: Session)
    requires at != ss && r.session == at
    ensures Untouched(w, Ended(w, at, r, version), ss)
  {
    EndedFacts(w.history, r, ss);
    assert Ended(w, at, r, version).LastSeq(ss) == w.LastSeq(ss);
  }

  lemma ServeIsLocal(w: World, step: Step, op: Op, ss: Session)
    requires Enabled(w, step) && op.session == Actor(step) != ss
    requires (step.Execute? && op == w.calls[step.ss].op) || step == LateExecute(op)
    ensures Untouched(w, Next(w, step), ss)
  {
    AppendIsLocal(w, op, ss);
    assert Next(w, step).LastSeq(ss) == (if Serve(w, op).Committed? then Appended(w, op) else w).LastSeq(ss);
  }

  /** A step touches no session but its own. */
  lemma StepIsLocal(w: World, step: Step, ss: Session)
    requires Enabled(w, step) && ss != Actor(step)
    requires Actor(step) in w.calls ==> w.calls[Actor(step)].op.session == Actor(step)
    ensures Untouched(w, Next(w, step), ss)
  {
    match step
    case Issue(_) => assert Next(w, step).LastSeq(ss) == w.LastSeq(ss);
    case Refuse(_, _) => assert Next(w, step).LastSeq(ss) == w.LastSeq(ss);
    case Execute(at) => ServeIsLocal(w, step, w.calls[at].op, ss);
    case LateExecute(z) => ServeIsLocal(w, step, z, ss);
    case Return(at, told) =>
      var Executed(op, reply) := w.calls[at];
      EndIsLocal(w, at, AnswerRecord(op, reply, told), if reply.Committed? then reply.version else 0, ss);
    case Lose(at) =>
      EndIsLocal(w, at, LostRecord(w.calls[at].op), 0, ss);
      assert Next(w, step).LastSeq(ss) == w.LastSeq(ss);
  }
}
