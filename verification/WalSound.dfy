/** When the version bounds hold of a correct server, and when they do not. */
module WalSound {
  import opened Wrappers
  import opened History
  import opened ServerRun
  import opened WalCheck
  import Placed = Placement
  import Steady = SteadyClients
  import Occ = OccCheck

  /** A session's batches are numbered consecutively from its opening seq. */
  ghost predicate Chained(w: World) {
    forall p :: 0 <= p < |w.log| ==>
      w.log[p].seqNo == NewestSeq(w.log[..p], w.log[p].session, w.OpeningSeq(w.log[p].session)) + 1
  }

  /** Clients that count up by one, past a seq they know to be committed. */
  predicate Paced(d: Discipline) { d == UntilSeen || d == UntilAcked }

  /** A paced client's current seq is the next to commit at the latest; one that retries
      until acked has an ack for every seq below it. */
  ghost predicate Stepwise(d: Discipline, w: World, ss: Session) {
    && Current(w, ss) <= w.LastSeq(ss) + 1
    && (d == UntilAcked ==> forall q :: w.OpeningSeq(ss) < q < Current(w, ss) ==> q in AckSeqs(w.history, ss))
  }

  ghost predicate Inv(d: Discipline, w: World) {
    && Steady.Inv(w)
    && Chained(w)
    && (forall ss :: Stepwise(d, w, ss))
  }

  lemma ChainedGrows(w: World, op: Op)
    requires Chained(w) && op.seqNo == w.LastSeq(op.session) + 1
    ensures Chained(Appended(w, op))
  {
    var w' := Appended(w, op);
    forall p | 0 <= p < |w'.log|
      ensures w'.log[p].seqNo == NewestSeq(w'.log[..p], w'.log[p].session, w'.OpeningSeq(w'.log[p].session)) + 1
    {
      if p < |w.log| {
        assert w'.log[..p] == w.log[..p];
      } else {
        assert w'.log[..p] == w.log;
      }
    }
  }

  /** A committed op is the next seq of its session. */
  lemma CommitIsNext(d: Discipline, w: World, op: Op)
    requires Steady.SessionInv(w, op.session) && Stepwise(d, w, op.session)
    requires op.idempotent && w.OpeningSeq(op.session) < op.seqNo <= Current(w, op.session)
    requires Serve(w, op).Committed?
    ensures op.seqNo == w.LastSeq(op.session) + 1
  {
  }

  lemma ExecuteChained(d: Discipline, w: World, at: Session)
    requires Inv(d, w) && Enabled(w, Execute(at))
    ensures Chained(Next(w, Execute(at)))
  {
    var op := w.calls[at].op;
    assert Steady.SessionInv(w, at) && Stepwise(d, w, at);
    if Serve(w, op).Committed? {
      CommitIsNext(d, w, op);
      ChainedGrows(w, op);
    }
  }

  lemma LateExecuteChained(d: Discipline, w: World, z: Op)
    requires Inv(d, w) && Enabled(w, LateExecute(z))
    ensures Chained(Next(w, LateExecute(z)))
  {
    assert Steady.SessionInv(w, z.session) && Stepwise(d, w, z.session);
    if Serve(w, z).Committed? {
      CommitIsNext(d, w, z);
      ChainedGrows(w, z);
    }
  }

  /** A served request leaves its own session at most one seq ahead of its newest batch. */
  lemma ServeStepwise(d: Discipline, w: World, step: Step, op: Op)
    requires Enabled(w, step) && op.session == Actor(step)
    requires Steady.SessionInv(w, Actor(step)) && Stepwise(d, w, Actor(step))
    requires (step.Execute? && op == w.calls[step.ss].op) || step == LateExecute(op)
    ensures Stepwise(d, Next(w, step), Actor(step))
  {
    var w', ss := Next(w, step), op.session;
    if Serve(w, op).Committed? {
      CommitIsNext(d, w, op);
      AppendedFacts(w, op);
      assert w'.LastSeq(ss) == Appended(w, op).LastSeq(ss);
    } else {
      assert w'.LastSeq(ss) == w.LastSeq(ss);
    }
    assert Current(w', ss) == Current(w, ss) && w'.OpeningSeq(ss) == w.OpeningSeq(ss);
  }

  lemma EndStepwise(d: Discipline, w: World, step: Step)
    requires Enabled(w, step) && (step.Return? || step.Lose?)
    requires Steady.SessionInv(w, step.ss) && Stepwise(d, w, step.ss)
    ensures Stepwise(d, Next(w, step), step.ss)
  {
    var w', op := Next(w, step), w.calls[step.ss].op;
    var r := if step.Return? then AnswerRecord(op, w.calls[step.ss].reply, step.told) else LostRecord(op);
    assert w'.LastSeq(step.ss) == w.LastSeq(step.ss);
    assert w'.history == w.history + [r];
    EndedFacts(w.history, r, step.ss);
  }

  lemma StepwiseNext(d: Discipline, w: World, step: Step, ss: Session)
    requires Paced(d) && Enabled(w, step) && Allowed(d, w, step)
    requires Steady.SessionInv(w, Actor(step)) && Stepwise(d, w, Actor(step)) && Stepwise(d, w, ss)
    ensures Stepwise(d, Next(w, step), ss)
  {
    var w' := Next(w, step);
    if ss != Actor(step) {
      StepIsLocal(w, step, ss);
    } else {
      match step
      case Issue(_) => assert w'.LastSeq(ss) == w.LastSeq(ss);
      case Refuse(_, _) => assert w'.LastSeq(ss) == w.LastSeq(ss);
      case Execute(_) => ServeStepwise(d, w, step, w.calls[ss].op);
      case LateExecute(z) => ServeStepwise(d, w, step, z);
      case _ => EndStepwise(d, w, step);
    }
  }

  lemma ChainedNext(d: Discipline, w: World, step: Step)
    requires Inv(d, w) && Enabled(w, step)
    ensures Chained(Next(w, step))
  {
    if step.Execute? {
      ExecuteChained(d, w, step.ss);
    } else if step.LateExecute? {
      LateExecuteChained(d, w, step.z);
    }
  }

  lemma InvNext(d: Discipline, w: World, step: Step)
    requires Paced(d) && Inv(d, w) && Enabled(w, step) && Allowed(d, w, step)
    ensures Inv(d, Next(w, step))
  {
    Steady.InvNext(w, step);
    ChainedNext(d, w, step);
    assert Steady.SessionInv(w, Actor(step)) && Stepwise(d, w, Actor(step));
    forall ss
      ensures Stepwise(d, Next(w, step), ss)
    {
      assert Stepwise(d, w, ss);
      StepwiseNext(d, w, step, ss);
    }
  }

  lemma {:induction false} InvRun(d: Discipline, w: World, steps: seq<Step>)
    requires Paced(d) && Inv(d, w) && ValidRun(d, w, steps)
    ensures Inv(d, Run(d, w, steps))
    decreases |steps|
  {
    if steps == [] {
    } else {
      InvNext(d, w, steps[0]);
      InvRun(d, Next(w, steps[0]), steps[1..]);
    }
  }

  /** Committed writes no client has been told about. */
  function Owed(w: World, agg: Aggregate): set<Write> {
    Placed.CommittedWrites(w.log, agg) - Accepted(w.history, agg)
  }

  lemma {:induction false} CommittedMeaning(w: World, n: nat, agg: Aggregate, c: nat, q: nat)
    requires Chained(w) && n <= |w.log|
    ensures Write(c, q) in Placed.CommittedWrites(w.log[..n], agg) <==>
              w.OpeningSeq(Session(agg, c)) < q <= NewestSeq(w.log[..n], Session(agg, c), w.OpeningSeq(Session(agg, c)))
    ensures w.OpeningSeq(Session(agg, c)) <= NewestSeq(w.log[..n], Session(agg, c), w.OpeningSeq(Session(agg, c)))
    decreases n
  {
    if n == 0 {
    } else {
      CommittedMeaning(w, n - 1, agg, c, q);
      assert w.log[..n][..n - 1] == w.log[..n - 1];
    }
  }

  lemma {:induction false} CommittedCount(w: World, n: nat, agg: Aggregate)
    requires Chained(w) && n <= |w.log|
    ensures |Placed.CommittedWrites(w.log[..n], agg)| == Batches(w.log[..n], agg)
    decreases n
  {
    if n == 0 {
    } else {
      CommittedCount(w, n - 1, agg);
      assert w.log[..n][..n - 1] == w.log[..n - 1];
      var e := w.log[n - 1];
      CommittedMeaning(w, n - 1, e.session.agg, e.session.client, e.seqNo);
      assert e.session == Session(e.session.agg, e.session.client);
    }
  }

  /** Every accepted write is committed. */
  lemma AcceptedIsCommitted(d: Discipline, w: World, agg: Aggregate, c: nat, q: nat)
    requires Inv(d, w)
    ensures Write(c, q) in Accepted(w.history, agg) ==> Write(c, q) in Placed.CommittedWrites(w.log, agg)
  {
    var ss := Session(agg, c);
    assert Steady.SessionInv(w, ss);
    AcceptedMeaning(w.history, agg, c, q);
    assert w.log[..|w.log|] == w.log;
    CommittedMeaning(w, |w.log|, agg, c, q);
  }

  /** In every run of paced clients the version is exactly the opening version, plus the
      accepted writes, plus the owed ones. */
  lemma VersionEquation(d: Discipline, opening: map<Aggregate, nat>, openingSeq: map<Session, nat>, steps: seq<Step>,
                        agg: Aggregate)
    requires Paced(d) && ValidRun(d, Fresh(opening, openingSeq), steps)
    ensures var w := Run(d, Fresh(opening, openingSeq), steps);
      w.Version(agg) == w.Opening(agg) + |Accepted(w.history, agg)| + |Owed(w, agg)|
  {
    InvRun(d, Fresh(opening, openingSeq), steps);
    WorldEquation(d, Run(d, Fresh(opening, openingSeq), steps), agg);
  }

  lemma WorldEquation(d: Discipline, w: World, agg: Aggregate)
    requires Inv(d, w)
    ensures w.Version(agg) == w.Opening(agg) + |Accepted(w.history, agg)| + |Owed(w, agg)|
  {
    forall x | x in Accepted(w.history, agg)
      ensures x in Placed.CommittedWrites(w.log, agg)
    {
      AcceptedIsCommitted(d, w, agg, x.client, x.seqNo);
    }
    SubsetSize(Accepted(w.history, agg), Placed.CommittedWrites(w.log, agg));
    assert w.log[..|w.log|] == w.log;
    CommittedCount(w, |w.log|, agg);
  }

  /** Writes tried ambiguously and never acknowledged: what the history leaves open. */
  function Unresolved(h: seq<OpRecord>, agg: Aggregate): set<Write> {
    set r | r in h && r.session.agg == agg && r.outcome.Info? && r.clientSeq !in AckSeqs(h, r.session) ::
      Write(r.session.client, r.clientSeq)
  }

  lemma UnresolvedMeaning(h: seq<OpRecord>, agg: Aggregate, c: nat, q: nat)
    ensures Write(c, q) in Unresolved(h, agg) <==>
              q in InfoSeqs(h, Session(agg, c)) && q !in AckSeqs(h, Session(agg, c))
  {
    var ss := Session(agg, c);
    SeqsMeaning(h, ss, q);
    if q in InfoSeqs(h, ss) && q !in AckSeqs(h, ss) {
      var j :| 0 <= j < |h| && h[j].outcome.Info? && h[j].session == ss && h[j].clientSeq == q;
      assert h[j] in h;
    }
    if Write(c, q) in Unresolved(h, agg) {
      var r :| r in h && r.session.agg == agg && r.outcome.Info? && r.clientSeq !in AckSeqs(h, r.session)
               && Write(r.session.client, r.clientSeq) == Write(c, q);
      assert r.session == ss;
    }
  }

  /** Unresolved writes whose client has moved past them: it found them in the log. */
  function Skipped(h: seq<OpRecord>, agg: Aggregate): set<Write> {
    set x | x in Unresolved(h, agg) && LastRecord(h, Session(agg, x.client)).Some?
            && x.seqNo < LastRecord(h, Session(agg, x.client)).value.clientSeq
  }

  /** Some lost attempt at the write carries no token, or one no acked write has spent. */
  ghost predicate Spendable(h: seq<OpRecord>, agg: Aggregate, x: Write) {
    exists r :: r in h && r.session == Session(agg, x.client) && r.clientSeq == x.seqNo && r.outcome.Info?
                && (r.expectedVersion.Some? ==> r.expectedVersion.value !in Placed.Tokens(h, agg))
  }

  /** Unresolved writes that may have committed. */
  ghost function Open(h: seq<OpRecord>, agg: Aggregate): set<Write> {
    set x | x in Unresolved(h, agg) && Spendable(h, agg, x)
  }

  /** What a reader of the history can check: the baseline exceeds the opening version by
      no more than the skipped writes, and falls short of it by no more than the slack the
      open writes leave of the clients that ended ambiguously. */
  ghost predicate WithinSlack(h: seq<OpRecord>, agg: Aggregate, opening: nat) {
    && Baseline(h, agg) <= opening + |Skipped(h, agg)|
    && opening + |Open(h, agg)| <= Baseline(h, agg) + |EndedAmbiguous(h, agg)|
  }

  ghost predicate Passes(w: World, agg: Aggregate) {
    !TooLow(w.history, agg, w.Version(agg)) && !TooHigh(w.history, agg, w.Version(agg))
  }

  /** Whatever is owed is open. */
  lemma OwedIsOpen(w: World, agg: Aggregate)
    requires Placed.Inv(w) && w.calls == map[]
    ensures Owed(w, agg) <= Open(w.history, agg)
  {
    var h := w.history;
    forall x | x in Owed(w, agg)
      ensures x in Open(h, agg)
    {
      var ss := Session(agg, x.client);
      AcceptedMeaning(h, agg, x.client, x.seqNo);
      OkIsAck(h, ss, x.seqNo);
      var expected := Placed.UntoldWasTried(w, agg, x.client, x.seqNo);
      var r := LostRecord(Op(ss, x.seqNo, expected, true));
      assert r in h;
      SeqsMeaning(h, ss, x.seqNo);
      UnresolvedMeaning(h, agg, x.client, x.seqNo);
    }
  }

  /** Whatever was skipped is owed. */
  lemma SkippedIsOwed(d: Discipline, w: World, agg: Aggregate)
    requires Inv(d, w) && w.calls == map[]
    ensures Skipped(w.history, agg) <= Owed(w, agg)
  {
    forall x | x in Skipped(w.history, agg)
      ensures x in Owed(w, agg)
    {
      var ss := Session(agg, x.client);
      assert Steady.SessionInv(w, ss) && Stepwise(d, w, ss);
      UnresolvedMeaning(w.history, agg, x.client, x.seqNo);
      AcceptedMeaning(w.history, agg, x.client, x.seqNo);
      assert w.log[..|w.log|] == w.log;
      CommittedMeaning(w, |w.log|, agg, x.client, x.seqNo);
    }
  }

  /** The version lies between what was skipped and what is open, above the accepted. */
  lemma VersionBounds(d: Discipline, w: World, agg: Aggregate)
    requires Inv(d, w) && Placed.Inv(w) && w.calls == map[]
    ensures var known := w.Opening(agg) + |Accepted(w.history, agg)|;
      known + |Skipped(w.history, agg)| <= w.Version(agg) <= known + |Open(w.history, agg)|
  {
    WorldEquation(d, w, agg);
    OwedIsOpen(w, agg);
    SkippedIsOwed(d, w, agg);
    SubsetSize(Owed(w, agg), Open(w.history, agg));
    SubsetSize(Skipped(w.history, agg), Owed(w, agg));
  }

  lemma RunBounds(d: Discipline, opening: map<Aggregate, nat>, openingSeq: map<Session, nat>, steps: seq<Step>,
                  agg: Aggregate)
    requires Paced(d) && ValidRun(d, Fresh(opening, openingSeq), steps)
    requires Run(d, Fresh(opening, openingSeq), steps).calls == map[]
    ensures var w := Run(d, Fresh(opening, openingSeq), steps);
      var known := w.Opening(agg) + |Accepted(w.history, agg)|;
      known + |Skipped(w.history, agg)| <= w.Version(agg) <= known + |Open(w.history, agg)|
  {
    InvRun(d, Fresh(opening, openingSeq), steps);
    Placed.InvFresh(opening, openingSeq);
    Placed.InvRun(d, Fresh(opening, openingSeq), steps);
    VersionBounds(d, Run(d, Fresh(opening, openingSeq), steps), agg);
  }

  /** Every run at rest whose history is within its slack passes, whatever became of
      the attempts the history leaves open. */
  lemma SlackSuffices(d: Discipline, opening: map<Aggregate, nat>, openingSeq: map<Session, nat>, steps: seq<Step>,
                      agg: Aggregate)
    requires Paced(d) && ValidRun(d, Fresh(opening, openingSeq), steps)
    requires var w := Run(d, Fresh(opening, openingSeq), steps);
      w.calls == map[] && WithinSlack(w.history, agg, w.Opening(agg))
    ensures Passes(Run(d, Fresh(opening, openingSeq), steps), agg)
  {
    RunBounds(d, opening, openingSeq, steps, agg);
  }

  /** Every unresolved ambiguous attempt is its client's last record. */
  ghost predicate AmbiguityIsLast(h: seq<OpRecord>, agg: Aggregate) {
    forall c, q :: q in InfoSeqs(h, Session(agg, c)) && q !in AckSeqs(h, Session(agg, c)) ==>
                     c in EndedAmbiguous(h, agg)
  }

  lemma {:induction false} OnePerClient(ws: set<Write>, clients: set<nat>)
    requires forall x :: x in ws ==> x.client in clients
    requires forall x, y :: x in ws && y in ws && x.client == y.client ==> x == y
    ensures |ws| <= |clients|
    decreases ws
  {
    if ws == {} {
    } else {
      var x :| x in ws;
      OnePerClient(ws - {x}, clients - {x.client});
    }
  }

  /** An unresolved write is past the opening and not accepted; a client that retries until
      acked leaves at most its current seq unresolved. */
  lemma UnresolvedFacts(d: Discipline, w: World, agg: Aggregate, x: Write)
    requires Inv(d, w) && x in Unresolved(w.history, agg)
    ensures w.OpeningSeq(Session(agg, x.client)) < x.seqNo && x !in Accepted(w.history, agg)
    ensures d == UntilAcked ==> x.seqNo == Current(w, Session(agg, x.client))
  {
    var ss := Session(agg, x.client);
    assert Steady.SessionInv(w, ss) && Stepwise(d, w, ss);
    UnresolvedMeaning(w.history, agg, x.client, x.seqNo);
    AcceptedMeaning(w.history, agg, x.client, x.seqNo);
  }

  /** No false alarm: if the window opened at the aggregate's recorded baseline and
      every unresolved ambiguous attempt is its client's last record, the complete
      history of any number of retry-until-acked clients passes. */
  lemma NoFalseAlarm(opening: map<Aggregate, nat>, openingSeq: map<Session, nat>, steps: seq<Step>, agg: Aggregate)
    requires ValidRun(UntilAcked, Fresh(opening, openingSeq), steps)
    requires var w := Run(UntilAcked, Fresh(opening, openingSeq), steps);
      && w.calls == map[]
      && Baseline(w.history, agg) == w.Opening(agg)
      && AmbiguityIsLast(w.history, agg)
    ensures var w := Run(UntilAcked, Fresh(opening, openingSeq), steps);
      WithinSlack(w.history, agg, w.Opening(agg)) && Passes(w, agg)
  {
    InvRun(UntilAcked, Fresh(opening, openingSeq), steps);
    var w := Run(UntilAcked, Fresh(opening, openingSeq), steps);
    forall x | x in Open(w.history, agg)
      ensures x.client in EndedAmbiguous(w.history, agg) && x.seqNo == Current(w, Session(agg, x.client))
    {
      UnresolvedMeaning(w.history, agg, x.client, x.seqNo);
      UnresolvedFacts(UntilAcked, w, agg, x);
    }
    OnePerClient(Open(w.history, agg), EndedAmbiguous(w.history, agg));
    SlackSuffices(UntilAcked, opening, openingSeq, steps, agg);
  }

  // Evidence survives drops: pigeonhole on distinct compare-and-swap tokens.

  /** Every ack is an `Ok` that carries its expected version. */
  ghost predicate AcksCarryTokens(ops: seq<OpRecord>) {
    forall i :: 0 <= i < |ops| && IsAck(ops[i]) ==> ops[i].outcome.Ok? && ops[i].expectedVersion.Some?
  }

  lemma SpentIsToken(ops: seq<OpRecord>, agg: Aggregate, v: nat)
    ensures v in Placed.Tokens(ops, agg) <==> exists j :: 0 <= j < |ops| && Occ.Spent(ops[j]) == Some(Occ.Slot(agg, v))
  {
    Placed.TokenMeaning(ops, agg, v);
    assert forall j :: 0 <= j < |ops| ==>
      (Occ.Spent(ops[j]) == Some(Occ.Slot(agg, v)) <==>
       ops[j].outcome.Ok? && ops[j].session.agg == agg && ops[j].expectedVersion == Some(v));
  }

  lemma {:induction false} MoreTokensThanWrites(ops: seq<OpRecord>, agg: Aggregate)
    requires AcksCarryTokens(ops) && Occ.ClashFree(Occ.Spent, ops)
    ensures |Accepted(ops, agg)| <= |Placed.Tokens(ops, agg)|
  {
    if ops == [] {
    } else {
      var n := |ops| - 1;
      var front := ops[..n];
      assert forall j :: 0 <= j < n ==> front[j] == ops[j];
      assert Occ.ClashFree(Occ.Spent, front) by {
        forall i, j | 0 <= i < j < n
          ensures !Occ.Clash(Occ.Spent, front, i, j)
        {
          assert !Occ.Clash(Occ.Spent, ops, i, j);
        }
      }
      MoreTokensThanWrites(front, agg);
      var r := ops[n];
      if IsAck(r) && r.session.agg == agg {
        SpentIsToken(front, agg, r.expectedVersion.value);
        forall j | 0 <= j < n
          ensures Occ.Spent(front[j]) != Some(Occ.Slot(agg, r.expectedVersion.value))
        {
          assert !Occ.Clash(Occ.Spent, ops, j, n);
        }
      }
    }
  }

  lemma {:induction false} BaselineBelow(ops: seq<OpRecord>, agg: Aggregate, v: nat)
    requires v in Placed.Tokens(ops, agg)
    ensures MinExpected(ops, agg).Some? && Baseline(ops, agg) <= v
  {
    var rest := ops[..|ops| - 1];
    if v in Placed.Tokens(rest, agg) {
      BaselineBelow(rest, agg, v);
    }
  }

  lemma {:induction false} IntervalHolds(s: set<nat>, lo: nat, hi: nat)
    requires forall v :: v in s ==> lo <= v < hi
    ensures s != {} ==> lo + |s| <= hi
    decreases hi
  {
    if s == {} {
    } else {
      var rest := s - {hi - 1};
      IntervalHolds(rest, lo, hi - 1);
      assert s == rest || s == rest + {hi - 1};
    }
  }

  lemma {:induction false} NoAcceptedWithoutTokens(ops: seq<OpRecord>, agg: Aggregate)
    requires Placed.Tokens(ops, agg) == {} && AcksCarryTokens(ops)
    ensures Accepted(ops, agg) == {}
  {
    if ops == [] {
    } else {
      NoAcceptedWithoutTokens(ops[..|ops| - 1], agg);
    }
  }

  /** For every run of a compare-and-commit server and every subset of its records
      in which every ack is an `Ok` carrying its expected version, the "acked write
      lost" arm fires if and only if no ack on the aggregate was retained and some
      rejected or lost attempts expected versions beyond the real one. */
  lemma LossArmSurvivesDrops(opening: map<Aggregate, nat>, openingSeq: map<Session, nat>, steps: seq<Step>,
                             ops: seq<OpRecord>, at: seq<nat>, agg: Aggregate)
    requires ValidRun(Free, Fresh(opening, openingSeq), steps)
    requires Retained(ops, Run(Free, Fresh(opening, openingSeq), steps).history, at)
    requires AcksCarryTokens(ops)
    ensures var w := Run(Free, Fresh(opening, openingSeq), steps);
      TooLow(ops, agg, w.Version(agg)) <==> Placed.Tokens(ops, agg) == {} && w.Version(agg) < Baseline(ops, agg)
  {
    var w := Run(Free, Fresh(opening, openingSeq), steps);
    Occ.OwnsRun(Fresh(opening, openingSeq), steps);
    Occ.OccSurvivesDrops(opening, openingSeq, steps, ops, at);
    MoreTokensThanWrites(ops, agg);
    forall v | v in Placed.Tokens(ops, agg)
      ensures Baseline(ops, agg) <= v < w.Version(agg)
    {
      BaselineBelow(ops, agg, v);
      SpentIsToken(ops, agg, v);
      var j :| 0 <= j < |ops| && Occ.Spent(ops[j]) == Some(Occ.Slot(agg, v));
      assert ops[j] == w.history[at[j]];
    }
    IntervalHolds(Placed.Tokens(ops, agg), Baseline(ops, agg), w.Version(agg));
    if Placed.Tokens(ops, agg) == {} {
      NoAcceptedWithoutTokens(ops, agg);
    }
  }
}
