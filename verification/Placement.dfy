/** Which commit made each version of an aggregate, and what the history says of it. Holds
    of every run, whatever the clients do. */
module Placement {
  import opened Wrappers
  import opened History
  import opened ServerRun
  import opened WalCheck

  /** The commit that made a version of an aggregate. */
  function Maker(log: seq<Commit>, opening: nat, agg: Aggregate, v: nat): Option<Commit> {
    if log == [] then None
    else
      var n := |log| - 1;
      if log[n].session.agg == agg && opening + Batches(log, agg) == v then Some(log[n])
      else Maker(log[..n], opening, agg, v)
  }

  function MadeBy(w: World, agg: Aggregate, v: nat): Option<Commit> {
    Maker(w.log, w.Opening(agg), agg, v)
  }

  lemma {:induction false} MakerInRange(log: seq<Commit>, opening: nat, agg: Aggregate, v: nat)
    ensures Maker(log, opening, agg, v).Some? ==>
              opening < v <= opening + Batches(log, agg) && Maker(log, opening, agg, v).value.session.agg == agg
  {
    if log == [] {
    } else {
      MakerInRange(log[..|log| - 1], opening, agg, v);
    }
  }

  /** One more commit makes one more version. */
  lemma MakerGrows(w: World, op: Op, agg: Aggregate, v: nat)
    ensures MadeBy(Appended(w, op), agg, v) ==
            if op.session.agg == agg && v == w.Version(agg) + 1 then Some(Commit(op.session, op.seqNo))
            else MadeBy(w, agg, v)
  {
    var log' := w.log + [Commit(op.session, op.seqNo)];
    assert log'[..|w.log|] == w.log;
    MakerInRange(w.log, w.Opening(agg), agg, v);
  }

  /** The history holds a lost attempt with this token. */
  predicate Tried(h: seq<OpRecord>, e: Commit, expected: Option<nat>) {
    LostRecord(Op(e.session, e.seqNo, expected, true)) in h
  }

  ghost predicate CallPlaced(w: World, ss: Session, call: Call) {
    && call.op.session == ss
    && (CallCommitted(call) ==>
          && MadeBy(w, ss.agg, call.reply.version) == Some(Commit(ss, call.op.seqNo))
          && (call.op.expected.Some? ==> call.reply.version == call.op.expected.value + 1))
  }

  ghost predicate RecordPlaced(w: World, r: OpRecord, v: nat) {
    r.outcome.Ok? ==>
      && MadeBy(w, r.session.agg, v) == Some(Commit(r.session, r.clientSeq))
      && (r.expectedVersion.Some? ==> v == r.expectedVersion.value + 1)
  }

  /** What is known of the commit that made a version: its call has still to return, it
      was acknowledged, or it was tried without a token or with this version's. */
  ghost predicate Explained(w: World, e: Commit, v: nat) {
    || (e.session in w.calls && CallCommitted(w.calls[e.session]) && w.calls[e.session].op.seqNo == e.seqNo
        && w.calls[e.session].reply.version == v)
    || e.seqNo in OkSeqs(w.history, e.session)
    || Tried(w.history, e, None)
    || (0 < v && Tried(w.history, e, Some(v - 1)))
  }

  ghost predicate AllExplained(w: World) {
    forall agg, v: nat {:trigger MadeBy(w, agg, v)} ::
      MadeBy(w, agg, v).Some? ==> Explained(w, MadeBy(w, agg, v).value, v)
  }

  ghost predicate AllPlaced(w: World) {
    && |w.versions| == |w.history|
    && (forall ss :: ss in w.calls ==> CallPlaced(w, ss, w.calls[ss]))
    && (forall i :: 0 <= i < |w.history| ==> RecordPlaced(w, w.history[i], w.versions[i]))
    && (forall z :: z in w.zombies ==> Tried(w.history, Commit(z.session, z.seqNo), z.expected))
  }

  ghost predicate Inv(w: World) {
    AllPlaced(w) && AllExplained(w)
  }

  /** Placement survives a longer log. */
  lemma AppendedPlaced(w: World, op: Op)
    requires AllPlaced(w)
    ensures AllPlaced(Appended(w, op))
  {
    var w' := Appended(w, op);
    forall agg, v: nat {:trigger MadeBy(w', agg, v)}
      ensures MadeBy(w, agg, v).Some? ==> MadeBy(w', agg, v) == MadeBy(w, agg, v)
    {
      MakerGrows(w, op, agg, v);
      MakerInRange(w.log, w.Opening(agg), agg, v);
    }
    forall ss | ss in w'.calls
      ensures CallPlaced(w', ss, w'.calls[ss])
    {
      assert CallPlaced(w, ss, w.calls[ss]);
    }
    forall i | 0 <= i < |w'.history|
      ensures RecordPlaced(w', w'.history[i], w'.versions[i])
    {
      assert RecordPlaced(w, w.history[i], w.versions[i]);
    }
  }

  /** A commit is explained by the call or the lost attempt it came from. */
  lemma AppendedExplained(w: World, w': World, op: Op)
    requires AllExplained(w) && w'.log == Appended(w, op).log && w'.opening == w.opening && w'.history == w.history
    requires forall ss :: ss in w.calls && CallCommitted(w.calls[ss]) ==> ss in w'.calls && w'.calls[ss] == w.calls[ss]
    requires Explained(w', Commit(op.session, op.seqNo), w.Version(op.session.agg) + 1)
    ensures AllExplained(w')
  {
    forall agg, v: nat {:trigger MadeBy(w', agg, v)}
      ensures MadeBy(w', agg, v).Some? ==> Explained(w', MadeBy(w', agg, v).value, v)
    {
      MakerGrows(w, op, agg, v);
      assert MadeBy(w', agg, v) == MadeBy(Appended(w, op), agg, v);
      if MadeBy(w, agg, v).Some? {
        assert Explained(w, MadeBy(w, agg, v).value, v);
      }
    }
  }

  lemma SameExplained(w: World, w': World)
    requires AllExplained(w) && w'.log == w.log && w'.opening == w.opening && w'.history == w.history
    requires forall ss :: ss in w.calls && CallCommitted(w.calls[ss]) ==> ss in w'.calls && w'.calls[ss] == w.calls[ss]
    ensures AllExplained(w')
  {
    forall agg, v: nat {:trigger MadeBy(w', agg, v)}
      ensures MadeBy(w', agg, v).Some? ==> Explained(w', MadeBy(w', agg, v).value, v)
    {
      assert MadeBy(w', agg, v) == MadeBy(w, agg, v);
    }
  }

  lemma SamePlaced(w: World, w': World)
    requires AllPlaced(w) && w'.log == w.log && w'.opening == w.opening
    requires w'.history == w.history && w'.versions == w.versions && w'.zombies <= w.zombies
    requires forall ss :: ss in w'.calls ==> CallPlaced(w', ss, w'.calls[ss])
    ensures AllPlaced(w')
  {
    forall i | 0 <= i < |w'.history|
      ensures RecordPlaced(w', w'.history[i], w'.versions[i])
    {
      assert RecordPlaced(w, w.history[i], w.versions[i]);
    }
  }

  lemma IssueKeeps(w: World, op: Op)
    requires Inv(w) && Enabled(w, Issue(op))
    ensures Inv(Next(w, Issue(op)))
  {
    var w' := Next(w, Issue(op));
    forall ss | ss in w'.calls
      ensures CallPlaced(w', ss, w'.calls[ss])
    {
      assert ss != op.session ==> CallPlaced(w, ss, w.calls[ss]);
    }
    SamePlaced(w, w');
    SameExplained(w, w');
  }

  lemma RefuseKeeps(w: World, at: Session, reason: ErrorLabel)
    requires Inv(w) && Enabled(w, Refuse(at, reason))
    ensures Inv(Next(w, Refuse(at, reason)))
  {
    var w' := Next(w, Refuse(at, reason));
    forall ss | ss in w'.calls
      ensures CallPlaced(w', ss, w'.calls[ss])
    {
      assert CallPlaced(w, ss, w.calls[ss]);
    }
    SamePlaced(w, w');
    SameExplained(w, w');
  }

  /** The log after a request is served. */
  function Served(w: World, op: Op): World {
    if Serve(w, op).Committed? then Appended(w, op) else w
  }

  lemma ServedPlaced(w: World, op: Op)
    requires AllPlaced(w)
    ensures AllPlaced(Served(w, op))
    ensures Serve(w, op).Committed? ==>
              && MadeBy(Served(w, op), op.session.agg, w.Version(op.session.agg) + 1)
                   == Some(Commit(op.session, op.seqNo))
              && (op.expected.Some? ==> w.Version(op.session.agg) == op.expected.value)
  {
    AppendedPlaced(w, op);
    MakerGrows(w, op, op.session.agg, w.Version(op.session.agg) + 1);
  }

  lemma ServedExplained(w: World, w': World, op: Op)
    requires AllExplained(w) && w'.log == Served(w, op).log && w'.opening == w.opening && w'.history == w.history
    requires forall ss :: ss in w.calls && CallCommitted(w.calls[ss]) ==> ss in w'.calls && w'.calls[ss] == w.calls[ss]
    requires Serve(w, op).Committed? ==> Explained(w', Commit(op.session, op.seqNo), w.Version(op.session.agg) + 1)
    ensures AllExplained(w')
  {
    if Serve(w, op).Committed? {
      AppendedExplained(w, w', op);
    } else {
      SameExplained(w, w');
    }
  }

  lemma ExecutePlaced(w: World, at: Session)
    requires AllPlaced(w) && Enabled(w, Execute(at))
    ensures AllPlaced(Next(w, Execute(at)))
  {
    var w', op := Next(w, Execute(at)), w.calls[at].op;
    var u := Served(w, op);
    assert CallPlaced(w, at, w.calls[at]);
    ServedPlaced(w, op);
    forall ss | ss in w'.calls
      ensures CallPlaced(w', ss, w'.calls[ss])
    {
      assert CallPlaced(u, ss, u.calls[ss]);
      assert MadeBy(w', at.agg, w.Version(at.agg) + 1) == MadeBy(u, at.agg, w.Version(at.agg) + 1);
    }
    SamePlaced(u, w');
  }

  lemma ExecuteKeeps(w: World, at: Session)
    requires Inv(w) && Enabled(w, Execute(at))
    ensures Inv(Next(w, Execute(at)))
  {
    ExecutePlaced(w, at);
    assert CallPlaced(w, at, w.calls[at]);
    ServedExplained(w, Next(w, Execute(at)), w.calls[at].op);
  }

  lemma LateExecutePlaced(w: World, z: Op)
    requires AllPlaced(w) && Enabled(w, LateExecute(z))
    ensures AllPlaced(Next(w, LateExecute(z)))
  {
    var w', u := Next(w, LateExecute(z)), Served(w, z);
    ServedPlaced(w, z);
    forall ss | ss in w'.calls
      ensures CallPlaced(w', ss, w'.calls[ss])
    {
      assert CallPlaced(u, ss, u.calls[ss]);
    }
    SamePlaced(u, w');
  }

  lemma TokenExplains(w: World, e: Commit, expected: Option<nat>, v: nat)
    requires Tried(w.history, e, expected) && (expected == None || expected == Some(v))
    ensures Explained(w, e, v + 1)
  {
    assert expected.Some? ==> expected == Some((v + 1) - 1);
  }

  lemma LateExecuteKeeps(w: World, z: Op)
    requires Inv(w) && Enabled(w, LateExecute(z))
    ensures Inv(Next(w, LateExecute(z)))
  {
    LateExecutePlaced(w, z);
    ServedPlaced(w, z);
    assert Tried(w.history, Commit(z.session, z.seqNo), z.expected);
    if Serve(w, z).Committed? {
      assert z.expected == None || z.expected == Some(w.Version(z.session.agg));
      TokenExplains(Next(w, LateExecute(z)), Commit(z.session, z.seqNo), z.expected, w.Version(z.session.agg));
    }
    ServedExplained(w, Next(w, LateExecute(z)), z);
  }

  lemma EntryExplained(w: World, w': World, at: Session, r: OpRecord, e: Commit, v: nat)
    requires Explained(w, e, v) && w'.history == w.history + [r]
    requires at in w.calls && w'.calls == w.calls - {at} && CallPlaced(w, at, w.calls[at]) && r.session == at
    requires r.clientSeq == w.calls[at].op.seqNo
    requires r.outcome.Ok? || (CallCommitted(w.calls[at]) ==> r == LostRecord(w.calls[at].op))
    ensures Explained(w', e, v)
  {
    EndedFacts(w.history, r, e.session);
    assert forall x :: x in w.history ==> x in w'.history;
    if e.session == at && CallCommitted(w.calls[at]) && w.calls[at].op.seqNo == e.seqNo
       && w.calls[at].reply.version == v {
      var expected := w.calls[at].op.expected;
      assert expected.Some? ==> expected == Some(v - 1);
      if !r.outcome.Ok? {
        assert r == LostRecord(Op(e.session, e.seqNo, expected, true));
        assert w'.history[|w.history|] == r;
        assert Tried(w'.history, e, expected);
      }
    }
  }

  /** What is known stays known in a longer history; what the ending call committed is
      acknowledged or recorded as tried. */
  lemma EndedExplained(w: World, w': World, at: Session, r: OpRecord)
    requires AllExplained(w) && w'.log == w.log && w'.opening == w.opening && w'.history == w.history + [r]
    requires at in w.calls && w'.calls == w.calls - {at} && CallPlaced(w, at, w.calls[at]) && r.session == at
    requires r.clientSeq == w.calls[at].op.seqNo
    requires r.outcome.Ok? || (CallCommitted(w.calls[at]) ==> r == LostRecord(w.calls[at].op))
    ensures AllExplained(w')
  {
    forall agg, v: nat {:trigger MadeBy(w', agg, v)}
      ensures MadeBy(w', agg, v).Some? ==> Explained(w', MadeBy(w', agg, v).value, v)
    {
      assert MadeBy(w', agg, v) == MadeBy(w, agg, v);
      if MadeBy(w, agg, v).Some? {
        EntryExplained(w, w', at, r, MadeBy(w, agg, v).value, v);
      }
    }
  }

  lemma EndedPlaced(w: World, w': World, at: Session, r: OpRecord, version: nat)
    requires AllPlaced(w) && w'.log == w.log && w'.opening == w.opening
    requires w'.history == w.history + [r] && w'.versions == w.versions + [version]
    requires at in w.calls && w'.calls == w.calls - {at} && RecordPlaced(w, r, version)
    requires forall z :: z in w'.zombies ==> z in w.zombies || r == LostRecord(z)
    ensures AllPlaced(w')
  {
    forall ss | ss in w'.calls
      ensures CallPlaced(w', ss, w'.calls[ss])
    {
      assert CallPlaced(w, ss, w.calls[ss]);
    }
    forall i | 0 <= i < |w'.history|
      ensures RecordPlaced(w', w'.history[i], w'.versions[i])
    {
      assert i < |w.history| ==> RecordPlaced(w, w.history[i], w.versions[i]);
    }
  }

  lemma ReturnKeeps(w: World, at: Session, told: bool)
    requires Inv(w) && Enabled(w, Return(at, told))
    ensures Inv(Next(w, Return(at, told)))
  {
    var w', call := Next(w, Return(at, told)), w.calls[at];
    assert CallPlaced(w, at, call);
    var r := AnswerRecord(call.op, call.reply, told);
    EndedPlaced(w, w', at, r, if call.reply.Committed? then call.reply.version else 0);
    EndedExplained(w, w', at, r);
  }

  lemma LoseKeeps(w: World, at: Session)
    requires Inv(w) && Enabled(w, Lose(at))
    ensures Inv(Next(w, Lose(at)))
  {
    var w', call := Next(w, Lose(at)), w.calls[at];
    assert CallPlaced(w, at, call);
    EndedPlaced(w, w', at, LostRecord(call.op), 0);
    EndedExplained(w, w', at, LostRecord(call.op));
  }

  lemma InvNext(w: World, step: Step)
    requires Inv(w) && Enabled(w, step)
    ensures Inv(Next(w, step))
  {
    match step
    case Issue(op) => IssueKeeps(w, op);
    case Execute(ss) => ExecuteKeeps(w, ss);
    case Refuse(ss, reason) => RefuseKeeps(w, ss, reason);
    case Return(ss, told) => ReturnKeeps(w, ss, told);
    case Lose(ss) => LoseKeeps(w, ss);
    case LateExecute(z) => LateExecuteKeeps(w, z);
  }

  lemma {:induction false} InvRun(d: Discipline, w: World, steps: seq<Step>)
    requires Inv(w) && ValidRun(d, w, steps)
    ensures Inv(Run(d, w, steps))
    decreases |steps|
  {
    if steps == [] {
    } else {
      InvNext(w, steps[0]);
      InvRun(d, Next(w, steps[0]), steps[1..]);
    }
  }

  /** The opening world has made nothing. */
  lemma InvFresh(opening: map<Aggregate, nat>, openingSeq: map<Session, nat>)
    ensures Inv(Fresh(opening, openingSeq))
  {
  }

  /** The writes to an aggregate that are in the log. */
  function CommittedWrites(log: seq<Commit>, agg: Aggregate): set<Write> {
    if log == [] then {}
    else
      var e := log[|log| - 1];
      CommittedWrites(log[..|log| - 1], agg)
      + if e.session.agg == agg then {Write(e.session.client, e.seqNo)} else {}
  }

  /** Each of them made a version. */
  lemma {:induction false} CommittedMadeOne(log: seq<Commit>, opening: nat, agg: Aggregate, c: nat, q: nat)
    returns (v: nat)
    requires Write(c, q) in CommittedWrites(log, agg)
    ensures Maker(log, opening, agg, v) == Some(Commit(Session(agg, c), q))
  {
    var n := |log| - 1;
    if log[n] == Commit(Session(agg, c), q) {
      v := opening + Batches(log, agg);
    } else {
      v := CommittedMadeOne(log[..n], opening, agg, c, q);
      MakerInRange(log[..n], opening, agg, v);
    }
  }

  /** A committed write nobody was told of was tried without a token, or with one that no
      acknowledged write has spent. */
  lemma UntoldWasTried(w: World, agg: Aggregate, c: nat, q: nat) returns (expected: Option<nat>)
    requires Inv(w) && w.calls == map[]
    requires Write(c, q) in CommittedWrites(w.log, agg) && q !in OkSeqs(w.history, Session(agg, c))
    ensures Tried(w.history, Commit(Session(agg, c), q), expected)
    ensures expected.Some? ==> expected.value !in Tokens(w.history, agg)
  {
    var e := Commit(Session(agg, c), q);
    var v := CommittedMadeOne(w.log, w.Opening(agg), agg, c, q);
    assert MadeBy(w, agg, v) == Some(e);
    assert Explained(w, e, v);
    if Tried(w.history, e, None) {
      expected := None;
    } else {
      expected := Some(v - 1);
      TokenMeaning(w.history, agg, v - 1);
      if v - 1 in Tokens(w.history, agg) {
        var j :| 0 <= j < |w.history| && w.history[j].outcome.Ok? && w.history[j].session.agg == agg
                 && w.history[j].expectedVersion == Some(v - 1);
        assert RecordPlaced(w, w.history[j], w.versions[j]);
        SeqsMeaning(w.history, e.session, q);
        assert false;
      }
    }
  }

  /** Tokens spent on an aggregate. */
  function Tokens(ops: seq<OpRecord>, agg: Aggregate): set<nat> {
    if ops == [] then {}
    else
      var r := ops[|ops| - 1];
      Tokens(ops[..|ops| - 1], agg)
      + if r.outcome.Ok? && r.session.agg == agg && r.expectedVersion.Some? then {r.expectedVersion.value} else {}
  }

  lemma {:induction false} TokenMeaning(ops: seq<OpRecord>, agg: Aggregate, v: nat)
    ensures v in Tokens(ops, agg) <==>
              exists j :: 0 <= j < |ops| && ops[j].outcome.Ok? && ops[j].session.agg == agg
                          && ops[j].expectedVersion == Some(v)
  {
    if ops == [] {
    } else {
      var n := |ops| - 1;
      TokenMeaning(ops[..n], agg, v);
      assert forall j :: 0 <= j < n ==> ops[..n][j] == ops[j];
    }
  }
}
