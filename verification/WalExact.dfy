/** When the version bounds hold of a history, whatever happened to the attempts it
    leaves open. */
module WalExact {
  import opened Wrappers
  import opened History
  import opened ServerRun
  import opened WalCheck
  import opened WalSound
  import opened LateCommits

  // Histories that leave nothing in doubt.

  /** Every open write was skipped, so that it is known to have committed. */
  ghost predicate Settled(h: seq<OpRecord>, agg: Aggregate) {
    Open(h, agg) <= Skipped(h, agg)
  }

  /** Exact for settled histories, with or without tokens: the check passes if and only if
      the history is within its slack. */
  lemma SettledExactly(d: Discipline, opening: map<Aggregate, nat>, openingSeq: map<Session, nat>,
                       steps: seq<Step>, agg: Aggregate)
    requires Paced(d) && ValidRun(d, Fresh(opening, openingSeq), steps)
    requires var w := Run(d, Fresh(opening, openingSeq), steps);
      w.calls == map[] && Settled(w.history, agg)
    ensures var w := Run(d, Fresh(opening, openingSeq), steps);
      Passes(w, agg) <==> WithinSlack(w.history, agg, w.Opening(agg))
  {
    var h := Run(d, Fresh(opening, openingSeq), steps).history;
    RunBounds(d, opening, openingSeq, steps, agg);
    SubsetSize(Open(h, agg), Skipped(h, agg));
  }

  // Clients that send no tokens.

  /** A run of token-free paced clients that rests with this history. */
  ghost predicate RestsWith(d: Discipline, opening: map<Aggregate, nat>, openingSeq: map<Session, nat>,
                            steps: seq<Step>, h: seq<OpRecord>) {
    && ValidRun(d, Fresh(opening, openingSeq), steps) && TokenFree(steps)
    && var w := Run(d, Fresh(opening, openingSeq), steps);
      w.calls == map[] && w.history == h
  }

  ghost predicate PassesAfter(d: Discipline, opening: map<Aggregate, nat>, openingSeq: map<Session, nat>,
                              steps: seq<Step>, agg: Aggregate)
    requires ValidRun(d, Fresh(opening, openingSeq), steps)
  {
    Passes(Run(d, Fresh(opening, openingSeq), steps), agg)
  }

  lemma {:induction false} NoBaseline(h: seq<OpRecord>, agg: Aggregate)
    requires NoTokens(h)
    ensures Baseline(h, agg) == 0 && MinExpected(h, agg) == None
  {
    if h == [] {
    } else {
      NoBaseline(h[..|h| - 1], agg);
    }
  }

  /** Without tokens every unresolved write is open. */
  lemma AllOpen(h: seq<OpRecord>, agg: Aggregate)
    requires NoTokens(h)
    ensures Open(h, agg) == Unresolved(h, agg)
  {
    forall x | x in Unresolved(h, agg)
      ensures Spendable(h, agg, x)
    {
      var ss := Session(agg, x.client);
      UnresolvedMeaning(h, agg, x.client, x.seqNo);
      SeqsMeaning(h, ss, x.seqNo);
      var j :| 0 <= j < |h| && h[j].outcome.Info? && h[j].session == ss && h[j].clientSeq == x.seqNo;
      assert h[j] in h && h[j].expectedVersion == None;
    }
  }

  /** The lost attempts behind the unresolved writes. */
  ghost function Attempts(h: seq<OpRecord>, agg: Aggregate): set<Op> {
    set x | x in Unresolved(h, agg) :: Lost(Session(agg, x.client), x.seqNo)
  }

  lemma AttemptsAreAmbiguous(h: seq<OpRecord>, agg: Aggregate)
    ensures forall z :: z in Attempts(h, agg) ==> z.seqNo in InfoSeqs(h, z.session)
  {
    forall x | x in Unresolved(h, agg)
      ensures x.seqNo in InfoSeqs(h, Session(agg, x.client))
    {
      UnresolvedMeaning(h, agg, x.client, x.seqNo);
    }
  }

  /** Once every lost attempt has committed, all that is unresolved is owed. */
  lemma UnresolvedIsOwed(d: Discipline, u: World, agg: Aggregate)
    requires Inv(d, u) && forall z :: z in Attempts(u.history, agg) ==> z.seqNo <= u.LastSeq(z.session)
    ensures Unresolved(u.history, agg) <= Owed(u, agg)
  {
    forall x | x in Unresolved(u.history, agg)
      ensures x in Owed(u, agg)
    {
      var z := Lost(Session(agg, x.client), x.seqNo);
      assert z in Attempts(u.history, agg);
      UnresolvedFacts(d, u, agg, x);
      assert u.log[..|u.log|] == u.log;
      CommittedMeaning(u, |u.log|, agg, x.client, x.seqNo);
    }
  }

  lemma CommitUnresolved(d: Discipline, v: World, agg: Aggregate) returns (late: seq<Step>, u: World)
    requires Paced(d) && Inv(d, v) && Ready(v)
    ensures ValidRun(d, v, late) && Run(d, v, late) == u && TokenFree(late) && Later(v, u)
    ensures u.Opening(agg) + |Accepted(v.history, agg)| + |Unresolved(v.history, agg)| <= u.Version(agg)
  {
    AttemptsAreAmbiguous(v.history, agg);
    late, u := CommitAllLate(d, v, Attempts(v.history, agg));
    InvRun(d, v, late);
    UnresolvedIsOwed(d, u, agg);
    SubsetSize(Unresolved(v.history, agg), Owed(u, agg));
    WorldEquation(d, u, agg);
  }

  /** A run that rests with a history still does after late commits. */
  lemma LaterRests(d: Discipline, opening: map<Aggregate, nat>, openingSeq: map<Session, nat>,
                   first: seq<Step>, v: World, late: seq<Step>, u: World, h: seq<OpRecord>)
    requires ValidRun(d, Fresh(opening, openingSeq), first) && Run(d, Fresh(opening, openingSeq), first) == v
    requires ValidRun(d, v, late) && Run(d, v, late) == u && TokenFree(first) && TokenFree(late)
    requires Later(v, u) && v.calls == map[] && v.history == h
    ensures RestsWith(d, opening, openingSeq, first + late, h)
    ensures Run(d, Fresh(opening, openingSeq), first + late) == u
  {
    RunConcat(d, Fresh(opening, openingSeq), first, v, late);
  }

  /** Some correct run with the same history committed everything it leaves open. */
  lemma AllCommitted(d: Discipline, opening: map<Aggregate, nat>, openingSeq: map<Session, nat>,
                     steps: seq<Step>, h: seq<OpRecord>, agg: Aggregate)
    returns (twin: seq<Step>, u: World)
    requires Paced(d) && RestsWith(d, opening, openingSeq, steps, h)
    ensures RestsWith(d, opening, openingSeq, twin, h) && Run(d, Fresh(opening, openingSeq), twin) == u
    ensures NoTokens(h) && u.Opening(agg) + |Accepted(h, agg)| + |Unresolved(h, agg)| <= u.Version(agg)
  {
    var first, v := TwinOf(d, opening, openingSeq, steps);
    assert v.calls.Keys == {};
    InvRun(d, Fresh(opening, openingSeq), first);
    var late;
    late, u := CommitUnresolved(d, v, agg);
    LaterRests(d, opening, openingSeq, first, v, late, u, h);
    twin := first + late;
  }

  /** A history outside its slack cannot be told from one with a duplicate acceptance:
      some correct run that rests with it is reported as one. */
  lemma OutsideSlackIsTooHigh(d: Discipline, opening: map<Aggregate, nat>, openingSeq: map<Session, nat>,
                              steps: seq<Step>, h: seq<OpRecord>, agg: Aggregate)
    returns (twin: seq<Step>)
    requires Paced(d) && RestsWith(d, opening, openingSeq, steps, h)
    requires !WithinSlack(h, agg, Fresh(opening, openingSeq).Opening(agg))
    ensures RestsWith(d, opening, openingSeq, twin, h)
    ensures TooHigh(h, agg, Run(d, Fresh(opening, openingSeq), twin).Version(agg))
  {
    var u;
    twin, u := AllCommitted(d, opening, openingSeq, steps, h, agg);
    NoBaseline(h, agg);
    AllOpen(h, agg);
    OpeningIsKept(d, Fresh(opening, openingSeq), twin);
  }

  /** Exactly when a history is beyond suspicion: every correct run of token-free
      clients that rests with it passes if and only if it is within its slack. */
  lemma ExactlyWhenItPasses(d: Discipline, opening: map<Aggregate, nat>, openingSeq: map<Session, nat>,
                            steps: seq<Step>, h: seq<OpRecord>, agg: Aggregate)
    requires Paced(d) && RestsWith(d, opening, openingSeq, steps, h)
    ensures WithinSlack(h, agg, Fresh(opening, openingSeq).Opening(agg)) <==>
              forall other :: RestsWith(d, opening, openingSeq, other, h) ==>
                                PassesAfter(d, opening, openingSeq, other, agg)
  {
    var w0 := Fresh(opening, openingSeq);
    if WithinSlack(h, agg, w0.Opening(agg)) {
      forall other | RestsWith(d, opening, openingSeq, other, h)
        ensures PassesAfter(d, opening, openingSeq, other, agg)
      {
        OpeningIsKept(d, w0, other);
        SlackSuffices(d, opening, openingSeq, other, agg);
      }
    } else {
      var twin := OutsideSlackIsTooHigh(d, opening, openingSeq, steps, h, agg);
      assert !PassesAfter(d, opening, openingSeq, twin, agg);
    }
  }
}
