/** Runs of a correct server that a check flags: one for each hypothesis of
    `WalSound.NoFalseAlarm`, one for the loss arm and one for the idempotency check. */
module FalseAlarms {
  import opened Wrappers
  import opened History
  import opened ServerRun
  import opened WalCheck
  import Idem = IdempotencyCheck

  /** The bounds of a history, one record longer. */
  lemma OneMore(h: seq<OpRecord>, r: OpRecord)
    ensures Accepted(h + [r], AGG) ==
              Accepted(h, AGG) + if IsAck(r) && r.session.agg == AGG then {Write(r.session.client, r.clientSeq)} else {}
    ensures MinExpected(h + [r], AGG) ==
              if r.session.agg == AGG && r.expectedVersion.Some?
              then Some(Smaller(MinExpected(h, AGG), r.expectedVersion.value)) else MinExpected(h, AGG)
    ensures r.session.agg == AGG && !r.outcome.Info? ==>
              EndedAmbiguous(h + [r], AGG) == EndedAmbiguous(h, AGG) - {r.session.client}
    ensures r.session.agg == AGG && r.outcome.Info? ==>
              EndedAmbiguous(h + [r], AGG) == EndedAmbiguous(h, AGG) + {r.session.client}
  {
    assert (h + [r])[..|h|] == h;
  }

  const AGG := Aggregate(1, 1, 1)
  const WRITER := Session(AGG, 7)

  const OP := Op(WRITER, 1, None, true)
  const LOST := LostRecord(OP)
  const REFUSED := AnswerRecord(OP, Rejected(InflightDuplicateWrite), false)

  /** Its last record is definite, so the writer counts as having nothing owed. */
  lemma RefusedBounds()
    ensures Accepted([LOST, REFUSED], AGG) == {} && EndedAmbiguous([LOST, REFUSED], AGG) == {}
    ensures Baseline([LOST, REFUSED], AGG) == 0
  {
    OneMore([], LOST);
    OneMore([LOST], REFUSED);
    assert [] + [LOST] == [LOST] && [LOST] + [REFUSED] == [LOST, REFUSED];
  }

  const AFTER_LOSS := World(map[], map[], [], map[], multiset{OP}, [LOST], [0])
  const AFTER_REFUSAL := World(map[], map[], [], map[], multiset{OP}, [LOST, REFUSED], [0, 0])

  lemma LosesOne() returns (steps: seq<Step>)
    ensures ValidRun(UntilAcked, Fresh(map[], map[]), steps)
    ensures Run(UntilAcked, Fresh(map[], map[]), steps) == AFTER_LOSS
  {
    var w0 := Fresh(map[], map[]);
    var w1 := Next(w0, Issue(OP));
    assert Next(w1, Lose(WRITER)) == AFTER_LOSS;
    RunOne(UntilAcked, w1, Lose(WRITER));
    Prepend(UntilAcked, w0, Issue(OP), [Lose(WRITER)]);
    steps := [Issue(OP)] + [Lose(WRITER)];
  }

  lemma RetryIsRefused() returns (steps: seq<Step>)
    ensures ValidRun(UntilAcked, AFTER_LOSS, steps) && Run(UntilAcked, AFTER_LOSS, steps) == AFTER_REFUSAL
  {
    var w1 := Next(AFTER_LOSS, Issue(OP));
    var w2 := Next(w1, Refuse(WRITER, InflightDuplicateWrite));
    assert Next(w2, Return(WRITER, false)) == AFTER_REFUSAL;
    RunOne(UntilAcked, w2, Return(WRITER, false));
    Prepend(UntilAcked, w1, Refuse(WRITER, InflightDuplicateWrite), [Return(WRITER, false)]);
    Prepend(UntilAcked, AFTER_LOSS, Issue(OP), [Refuse(WRITER, InflightDuplicateWrite)] + [Return(WRITER, false)]);
    steps := [Issue(OP)] + ([Refuse(WRITER, InflightDuplicateWrite)] + [Return(WRITER, false)]);
  }

  /** A lost attempt retried into "still in flight" and committed afterwards: the
      client's last record is a definite failure, so the write it is owed has no
      slack, and the check reports a duplicate acceptance. */
  lemma InflightRetryFalselyFlagged() returns (steps: seq<Step>)
    ensures ValidRun(UntilAcked, Fresh(map[], map[]), steps)
    ensures var w := Run(UntilAcked, Fresh(map[], map[]), steps);
      && w.calls == map[]
      && Baseline(w.history, AGG) == w.Opening(AGG)
      && TooHigh(w.history, AGG, w.Version(AGG))
  {
    var w0 := Fresh(map[], map[]);
    var lose := LosesOne();
    var retry := RetryIsRefused();
    RunConcat(UntilAcked, w0, lose, AFTER_LOSS, retry);
    RunOne(UntilAcked, AFTER_REFUSAL, LateExecute(OP));
    RunConcat(UntilAcked, w0, lose + retry, AFTER_REFUSAL, [LateExecute(OP)]);
    RefusedBounds();
    assert Next(AFTER_REFUSAL, LateExecute(OP)).log == [Commit(WRITER, 1)];
    steps := lose + retry + [LateExecute(OP)];
  }

  const STALE := Op(WRITER, 1, Some(0), true)
  const GOOD := Op(WRITER, 1, Some(5), true)
  const REJECTED := AnswerRecord(STALE, Rejected(OccConflict), true)
  const ACKED := AnswerRecord(GOOD, Committed(6), true)

  /** The rejected attempt is what the baseline is taken from. */
  lemma StaleBounds()
    ensures |Accepted([REJECTED, ACKED], AGG)| == 1 && EndedAmbiguous([REJECTED, ACKED], AGG) == {}
    ensures Baseline([REJECTED, ACKED], AGG) == 0
  {
    OneMore([], REJECTED);
    OneMore([REJECTED], ACKED);
    assert [] + [REJECTED] == [REJECTED] && [REJECTED] + [ACKED] == [REJECTED, ACKED];
    assert Accepted([REJECTED, ACKED], AGG) == {Write(7, 1)};
  }

  const AFTER_STALE := World(map[AGG := 5], map[], [], map[], multiset{}, [REJECTED], [0])
  const AFTER_ACK := World(map[AGG := 5], map[], [Commit(WRITER, 1)], map[], multiset{}, [REJECTED, ACKED], [0, 6])

  lemma StaleAttempt() returns (steps: seq<Step>)
    ensures ValidRun(UntilAcked, Fresh(map[AGG := 5], map[]), steps)
    ensures Run(UntilAcked, Fresh(map[AGG := 5], map[]), steps) == AFTER_STALE
  {
    var w0 := Fresh(map[AGG := 5], map[]);
    var w1 := Next(w0, Issue(STALE));
    var w2 := Next(w1, Execute(WRITER));
    assert w2 == w1.(calls := map[WRITER := Executed(STALE, Rejected(OccConflict))]);
    assert Next(w2, Return(WRITER, true)) == AFTER_STALE;
    AskRun(UntilAcked, w0, STALE);
    steps := Ask(STALE);
  }

  lemma GoodAttempt() returns (steps: seq<Step>)
    ensures ValidRun(UntilAcked, AFTER_STALE, steps) && Run(UntilAcked, AFTER_STALE, steps) == AFTER_ACK
  {
    var w1 := Next(AFTER_STALE, Issue(GOOD));
    var w2 := Next(w1, Execute(WRITER));
    assert w2.log == [Commit(WRITER, 1)] && w2.calls == map[WRITER := Executed(GOOD, Committed(6))];
    assert Next(w2, Return(WRITER, true)) == AFTER_ACK;
    AskRun(UntilAcked, AFTER_STALE, GOOD);
    steps := Ask(GOOD);
  }

  /** A writer whose catch-up read failed starts from version 0 on an aggregate that
      opened at 5: its rejected first attempt drags the baseline to 0, and one
      ordinary acked write is reported as a duplicate acceptance. */
  lemma StaleStartFalselyFlagged() returns (steps: seq<Step>)
    ensures ValidRun(UntilAcked, Fresh(map[AGG := 5], map[]), steps)
    ensures var w := Run(UntilAcked, Fresh(map[AGG := 5], map[]), steps);
      w.calls == map[] && w.zombies == multiset{} && TooHigh(w.history, AGG, w.Version(AGG))
  {
    var stale := StaleAttempt();
    var good := GoodAttempt();
    RunConcat(UntilAcked, Fresh(map[AGG := 5], map[]), stale, AFTER_STALE, good);
    StaleBounds();
    steps := stale + good;
  }

  const FIRST := Op(WRITER, 1, Some(0), true)
  const SECOND := Op(WRITER, 2, Some(1), true)
  const FIRST_LOST := LostRecord(FIRST)
  const FIRST_CONFLICTS := AnswerRecord(FIRST, Rejected(OccConflict), true)
  const SECOND_ACKED := AnswerRecord(SECOND, Committed(2), true)

  /** The skipped write is neither accepted nor ambiguous at the end. */
  lemma SkippedBounds()
    ensures var h := [FIRST_LOST, FIRST_CONFLICTS, SECOND_ACKED];
      |Accepted(h, AGG)| == 1 && EndedAmbiguous(h, AGG) == {} && Baseline(h, AGG) == 0
  {
    var h1, h2 := [FIRST_LOST], [FIRST_LOST, FIRST_CONFLICTS];
    OneMore([], FIRST_LOST);
    OneMore(h1, FIRST_CONFLICTS);
    OneMore(h2, SECOND_ACKED);
    assert [] + [FIRST_LOST] == h1 && h1 + [FIRST_CONFLICTS] == h2;
    assert h2 + [SECOND_ACKED] == [FIRST_LOST, FIRST_CONFLICTS, SECOND_ACKED];
    assert Accepted(h2 + [SECOND_ACKED], AGG) == {Write(7, 2)};
  }

  const AFTER_VANISH := World(map[], map[], [Commit(WRITER, 1)], map[], multiset{}, [FIRST_LOST], [0])
  const AFTER_CONFLICT :=
    World(map[], map[], [Commit(WRITER, 1)], map[], multiset{}, [FIRST_LOST, FIRST_CONFLICTS], [0, 0])
  const AFTER_SKIP :=
    World(map[], map[], [Commit(WRITER, 1), Commit(WRITER, 2)], map[], multiset{},
          [FIRST_LOST, FIRST_CONFLICTS, SECOND_ACKED], [0, 0, 2])

  lemma AnswerVanishes() returns (steps: seq<Step>)
    ensures ValidRun(UntilSeen, Fresh(map[], map[]), steps)
    ensures Run(UntilSeen, Fresh(map[], map[]), steps) == AFTER_VANISH
  {
    var w0 := Fresh(map[], map[]);
    var w1 := Next(w0, Issue(FIRST));
    var w2 := Next(w1, Execute(WRITER));
    assert w2.log == [Commit(WRITER, 1)] && w2.calls == map[WRITER := Executed(FIRST, Committed(1))];
    assert Next(w2, Lose(WRITER)) == AFTER_VANISH;
    RunOne(UntilSeen, w2, Lose(WRITER));
    Prepend(UntilSeen, w1, Execute(WRITER), [Lose(WRITER)]);
    Prepend(UntilSeen, w0, Issue(FIRST), [Execute(WRITER)] + [Lose(WRITER)]);
    steps := [Issue(FIRST)] + ([Execute(WRITER)] + [Lose(WRITER)]);
  }

  lemma RetryConflicts() returns (steps: seq<Step>)
    ensures ValidRun(UntilSeen, AFTER_VANISH, steps) && Run(UntilSeen, AFTER_VANISH, steps) == AFTER_CONFLICT
  {
    var w1 := Next(AFTER_VANISH, Issue(FIRST));
    var w2 := Next(w1, Execute(WRITER));
    assert w2 == w1.(calls := map[WRITER := Executed(FIRST, Rejected(OccConflict))]);
    assert Answered(AFTER_VANISH, FIRST) == AFTER_CONFLICT;
    AskRun(UntilSeen, AFTER_VANISH, FIRST);
    steps := Ask(FIRST);
  }

  lemma TwoBatches()
    ensures Batches([Commit(WRITER, 1)], AGG) == 1 && Batches([Commit(WRITER, 1), Commit(WRITER, 2)], AGG) == 2
  {
    assert [Commit(WRITER, 1)][..0] == [];
    assert [Commit(WRITER, 1), Commit(WRITER, 2)][..1] == [Commit(WRITER, 1)];
  }

  lemma NextIsAcked() returns (steps: seq<Step>)
    ensures ValidRun(UntilSeen, AFTER_CONFLICT, steps) && Run(UntilSeen, AFTER_CONFLICT, steps) == AFTER_SKIP
  {
    assert Current(AFTER_CONFLICT, WRITER) == 1 && AFTER_CONFLICT.LastSeq(WRITER) == 1;
    TwoBatches();
    var w1 := Next(AFTER_CONFLICT, Issue(SECOND));
    var w2 := Next(w1, Execute(WRITER));
    assert Serve(w1, SECOND) == Committed(2);
    assert w2.log == [Commit(WRITER, 1), Commit(WRITER, 2)];
    assert w2.calls == map[WRITER := Executed(SECOND, Committed(2))];
    assert Answered(AFTER_CONFLICT, SECOND) == AFTER_SKIP;
    AskRun(UntilSeen, AFTER_CONFLICT, SECOND);
    steps := Ask(SECOND);
  }

  /** A hot writer whose first answer is lost: its retry conflicts, catch-up finds the
      batch and it goes on with the next seq. The skipped write is committed, never acked
      and no longer ambiguous, and is reported as a duplicate acceptance. */
  lemma SkippedWriteFalselyFlagged() returns (steps: seq<Step>)
    ensures ValidRun(UntilSeen, Fresh(map[], map[]), steps)
    ensures var w := Run(UntilSeen, Fresh(map[], map[]), steps);
      && w.calls == map[] && w.zombies == multiset{}
      && Baseline(w.history, AGG) == w.Opening(AGG)
      && TooHigh(w.history, AGG, w.Version(AGG))
  {
    var w0 := Fresh(map[], map[]);
    var a := AnswerVanishes();
    var b := RetryConflicts();
    var c := NextIsAcked();
    RunConcat(UntilSeen, w0, a, AFTER_VANISH, b);
    RunConcat(UntilSeen, w0, a + b, AFTER_CONFLICT, c);
    SkippedBounds();
    TwoBatches();
    steps := a + b + c;
  }

  /** With no ack at all, a single rejected attempt that expected a version the
      aggregate never had is reported as a lost acked write. */
  lemma RejectedAttemptReportedAsLoss() returns (steps: seq<Step>)
    ensures ValidRun(Free, Fresh(map[], map[]), steps)
    ensures var w := Run(Free, Fresh(map[], map[]), steps);
      Accepted(w.history, AGG) == {} && TooLow(w.history, AGG, w.Version(AGG))
  {
    var op := Op(WRITER, 1, Some(1), false);
    var w0 := Fresh(map[], map[]);
    var w1 := Next(w0, Issue(op));
    var w2 := Next(w1, Execute(WRITER));
    var w3 := Next(w2, Return(WRITER, false));
    var rejected := AnswerRecord(op, Rejected(OccConflict), false);
    OneMore([], rejected);
    assert [] + [rejected] == [rejected];
    assert w3.history == [rejected];
    Prepend(Free, w2, Return(WRITER, false), []);
    Prepend(Free, w1, Execute(WRITER), [Return(WRITER, false)]);
    Prepend(Free, w0, Issue(op), [Execute(WRITER)] + [Return(WRITER, false)]);
    steps := [Issue(op)] + ([Execute(WRITER)] + [Return(WRITER, false)]);
    assert Run(Free, w0, steps) == w3;
  }

  const TWO := Op(WRITER, 2, None, true)
  const ONE := Op(WRITER, 1, None, true)
  const TOLD := AnswerRecord(ONE, Rejected(ClientIdempotencyViolation), false)

  lemma UnjustifiedAnswer()
    ensures Idem.Violation([LostRecord(TWO), TOLD], 1)
  {
    var h := [LostRecord(TWO), TOLD];
    assert h[0].outcome.Info? && h[0].clientSeq == 2;
    assert !Idem.AckAtLeast(h, 1, WRITER, 1) && !Idem.InfoBefore(h, 1, WRITER, 1);
  }

  /** A client that goes back: its seq 2 commits but the answer is lost, then it sends
      seq 1 and is told "already applied" with nothing to justify it. */
  lemma GoingBackFalselyFlagged() returns (steps: seq<Step>)
    ensures ValidRun(Free, Fresh(map[], map[]), steps)
    ensures var h := Run(Free, Fresh(map[], map[]), steps).history; |h| == 2 && Idem.Violation(h, 1)
  {
    var w0 := Fresh(map[], map[]);
    var w1 := Next(w0, Issue(TWO));
    var w2 := Next(w1, Execute(WRITER));
    var w3 := Next(w2, Lose(WRITER));
    var w4 := Next(w3, Issue(ONE));
    var w5 := Next(w4, Execute(WRITER));
    var w6 := Next(w5, Return(WRITER, false));
    assert w2.log == [Commit(WRITER, 2)];
    assert w6.history == [LostRecord(TWO), TOLD];
    UnjustifiedAnswer();
    var last := [Execute(WRITER)] + [Return(WRITER, false)];
    var r3 := [Issue(ONE)] + last;
    Prepend(Free, w5, Return(WRITER, false), []);
    Prepend(Free, w4, Execute(WRITER), [Return(WRITER, false)]);
    Prepend(Free, w3, Issue(ONE), last);
    Prepend(Free, w2, Lose(WRITER), r3);
    Prepend(Free, w1, Execute(WRITER), [Lose(WRITER)] + r3);
    Prepend(Free, w0, Issue(TWO), [Execute(WRITER)] + ([Lose(WRITER)] + r3));
    steps := [Issue(TWO)] + ([Execute(WRITER)] + ([Lose(WRITER)] + r3));
  }
}
