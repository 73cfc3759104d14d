/** The discipline the idempotency check needs of its clients cannot be relaxed. */
module IdempotencyExact {
  import opened History
  import opened ServerRun
  import opened IdempotencyCheck
  import opened LateCommits
  import Sound = IdempotencySound

  /** A run of justified, token-free clients with this history after which the answer
      to the seq is a violation. */
  ghost predicate Flags(opening: map<Aggregate, nat>, openingSeq: map<Session, nat>, steps: seq<Step>,
                        h: seq<OpRecord>, ss: Session, q: nat) {
    && ValidRun(Justified, Fresh(opening, openingSeq), steps) && TokenFree(steps)
    && var w := Run(Justified, Fresh(opening, openingSeq), steps);
      && w.history == h && ss !in w.calls
      && var h' := Answered(w, Lost(ss, q)).history;
        |h| < |h'| && Violation(h', |h|)
  }

  /** A seq at or below the newest batch is answered "already applied". */
  lemma AnsweredOld(w: World, ss: Session, q: nat)
    requires ss !in w.calls && 0 < q <= w.LastSeq(ss)
    ensures Answered(w, Lost(ss, q)).history ==
              w.history + [AnswerRecord(Lost(ss, q), Rejected(ClientIdempotencyViolation), true)]
  {
    var w1 := Next(w, Issue(Lost(ss, q)));
    assert w1.LastSeq(ss) == w.LastSeq(ss);
    assert Serve(w1, Lost(ss, q)) == Rejected(ClientIdempotencyViolation);
  }

  /** With nothing to cover it, that answer is a violation. */
  lemma UncoveredIsFlagged(h: seq<OpRecord>, r: OpRecord)
    requires Is2002(r) && 0 < r.clientSeq && !Covered(h, r.session, r.clientSeq)
    ensures Violation(h + [r], |h|)
  {
    var h', n, ss, q := h + [r], |h|, r.session, r.clientSeq;
    assert forall j :: 0 <= j < n ==> h'[j] == h[j];
    if AckAtLeast(h', n, ss, q) {
      var j :| 0 <= j < n && IsAck(h'[j]) && h'[j].session == ss && q <= h'[j].clientSeq;
      SeqsMeaning(h, ss, h[j].clientSeq);
      assert false;
    }
    if InfoBefore(h', n, ss, q) {
      SeqsMeaning(h, ss, q);
      assert false;
    }
  }

  /** An attempt the discipline forbids meets, in some run with the same history, a
      newest batch it is not above. */
  lemma OvertakenSomewhere(v: World, ss: Session, q: nat) returns (late: seq<Step>, u: World)
    requires Ready(v) && !MaySend(v, ss, q)
    ensures ValidRun(Justified, v, late) && Run(Justified, v, late) == u && TokenFree(late)
    ensures Later(v, u) && q <= u.LastSeq(ss)
  {
    assert SessionReady(v, ss);
    if q <= v.OpeningSeq(ss) {
      late, u := [], v;
    } else {
      var p :| p in InfoSeqs(v.history, ss) && q < p;
      late, u := CommitLate(Justified, v, ss, p);
    }
  }

  lemma ForbiddenIsFlagged(opening: map<Aggregate, nat>, openingSeq: map<Session, nat>,
                           steps: seq<Step>, ss: Session, q: nat)
    returns (twin: seq<Step>)
    requires ValidRun(Justified, Fresh(opening, openingSeq), steps) && TokenFree(steps) && 0 < q
    requires var w := Run(Justified, Fresh(opening, openingSeq), steps);
      ss !in w.calls && !MaySend(w, ss, q)
    ensures Flags(opening, openingSeq, twin, Run(Justified, Fresh(opening, openingSeq), steps).history, ss, q)
  {
    var w := Run(Justified, Fresh(opening, openingSeq), steps);
    var first, v := TwinOf(Justified, opening, openingSeq, steps);
    assert v.OpeningSeq(ss) == w.OpeningSeq(ss);
    var late, u := OvertakenSomewhere(v, ss, q);
    RunConcat(Justified, Fresh(opening, openingSeq), first, v, late);
    twin := first + late;
    AnsweredOld(u, ss, q);
    UncoveredIsFlagged(w.history, AnswerRecord(Lost(ss, q), Rejected(ClientIdempotencyViolation), true));
  }

  lemma PermittedIsClean(opening: map<Aggregate, nat>, openingSeq: map<Session, nat>,
                         steps: seq<Step>, ss: Session, q: nat)
    requires ValidRun(Justified, Fresh(opening, openingSeq), steps)
    requires var w := Run(Justified, Fresh(opening, openingSeq), steps);
      ss !in w.calls && MaySend(w, ss, q)
    ensures var h' := Answered(Run(Justified, Fresh(opening, openingSeq), steps), Lost(ss, q)).history;
      forall i :: 0 <= i < |h'| ==> !Violation(h', i)
  {
    var w := Run(Justified, Fresh(opening, openingSeq), steps);
    AskRun(Justified, w, Lost(ss, q));
    RunConcat(Justified, Fresh(opening, openingSeq), steps, w, Ask(Lost(ss, q)));
    Sound.NoFalseAlarm(opening, openingSeq, steps + Ask(Lost(ss, q)));
  }

  /** Exactly what a client may send: a seq is safe in every correct run with the
      history it has seen if and only if the discipline permits it. */
  lemma LeastDiscipline(opening: map<Aggregate, nat>, openingSeq: map<Session, nat>,
                        steps: seq<Step>, ss: Session, q: nat)
    requires ValidRun(Justified, Fresh(opening, openingSeq), steps) && TokenFree(steps) && 0 < q
    requires ss !in Run(Justified, Fresh(opening, openingSeq), steps).calls
    ensures var w := Run(Justified, Fresh(opening, openingSeq), steps);
      MaySend(w, ss, q) <==> !exists other :: Flags(opening, openingSeq, other, w.history, ss, q)
  {
    var w0 := Fresh(opening, openingSeq);
    var w := Run(Justified, w0, steps);
    OpeningIsKept(Justified, w0, steps);
    if MaySend(w, ss, q) {
      forall other
        ensures !Flags(opening, openingSeq, other, w.history, ss, q)
      {
        if Flags(opening, openingSeq, other, w.history, ss, q) {
          OpeningIsKept(Justified, w0, other);
          PermittedIsClean(opening, openingSeq, other, ss, q);
          assert false;
        }
      }
    } else {
      var twin := ForbiddenIsFlagged(opening, openingSeq, steps, ss, q);
    }
  }
}
