/** `HistoryWalMonotonicity`: a node's final version lies in
    [baseline + accepted, baseline + accepted + ambiguous]. */
module WalCheck {
  import opened Wrappers
  import opened History
  import opened ServerRun

  datatype Write = Write(client: nat, seqNo: nat)

  /** The distinct writes to an aggregate the clients hold acks for. */
  function Accepted(ops: seq<OpRecord>, agg: Aggregate): set<Write> {
    if ops == [] then {}
    else
      var r := ops[|ops| - 1];
      Accepted(ops[..|ops| - 1], agg)
      + if IsAck(r) && r.session.agg == agg then {Write(r.session.client, r.clientSeq)} else {}
  }

  /** The clients whose last record on an aggregate is ambiguous. */
  function EndedAmbiguous(ops: seq<OpRecord>, agg: Aggregate): set<nat> {
    if ops == [] then {}
    else
      var r := ops[|ops| - 1];
      var rest := EndedAmbiguous(ops[..|ops| - 1], agg);
      if r.session.agg != agg then rest
      else if r.outcome.Info? then rest + {r.session.client}
      else rest - {r.session.client}
  }

  function Smaller(a: Option<nat>, b: nat): nat {
    if a.Some? && a.value < b then a.value else b
  }

  /** The smallest expected version recorded for an aggregate. */
  function MinExpected(ops: seq<OpRecord>, agg: Aggregate): Option<nat> {
    if ops == [] then None
    else
      var r := ops[|ops| - 1];
      var rest := MinExpected(ops[..|ops| - 1], agg);
      if r.session.agg == agg && r.expectedVersion.Some?
      then Some(Smaller(rest, r.expectedVersion.value)) else rest
  }

  function Baseline(ops: seq<OpRecord>, agg: Aggregate): nat {
    if MinExpected(ops, agg).Some? then MinExpected(ops, agg).value else 0
  }

  ghost predicate Seen(ops: seq<OpRecord>, agg: Aggregate) {
    exists i :: 0 <= i < |ops| && ops[i].session.agg == agg
  }

  ghost predicate TooLow(ops: seq<OpRecord>, agg: Aggregate, version: nat) {
    version < Baseline(ops, agg) + |Accepted(ops, agg)|
  }

  ghost predicate TooHigh(ops: seq<OpRecord>, agg: Aggregate, version: nat) {
    version > Baseline(ops, agg) + |Accepted(ops, agg)| + |EndedAmbiguous(ops, agg)|
  }

  ghost predicate Audited(ops: seq<OpRecord>, f: FinalRead) {
    f.maxVersion.Some? && Seen(ops, f.agg)
  }

  /** A final read the check would flag. */
  ghost predicate Flagged(ops: seq<OpRecord>, f: FinalRead) {
    Audited(ops, f) && (TooLow(ops, f.agg, f.maxVersion.value) || TooHigh(ops, f.agg, f.maxVersion.value))
  }

  // The books of the first loop.

  ghost predicate Books(ops: seq<OpRecord>, acked: map<Session, set<nat>>, ended: map<Session, bool>,
                        baselines: map<Aggregate, nat>) {
    && (forall ss :: Seqs(acked, ss) == AckSeqs(ops, ss))
    && (forall ss :: (ss in ended <==> LastRecord(ops, ss).Some?)
                     && (ss in ended ==> ended[ss] == LastRecord(ops, ss).value.outcome.Info?))
    && (forall agg :: MinExpected(ops, agg) == if agg in baselines then Some(baselines[agg]) else None)
  }

  lemma {:induction false} AcceptedMeaning(ops: seq<OpRecord>, agg: Aggregate, c: nat, q: nat)
    ensures Write(c, q) in Accepted(ops, agg) <==> q in AckSeqs(ops, Session(agg, c))
  {
    if ops == [] {
    } else {
      AcceptedMeaning(ops[..|ops| - 1], agg, c, q);
    }
  }

  lemma {:induction false} AmbiguousMeaning(ops: seq<OpRecord>, agg: Aggregate, c: nat)
    ensures c in EndedAmbiguous(ops, agg) <==>
              LastRecord(ops, Session(agg, c)).Some? && LastRecord(ops, Session(agg, c)).value.outcome.Info?
  {
    if ops == [] {
    } else {
      AmbiguousMeaning(ops[..|ops| - 1], agg, c);
    }
  }

  lemma {:induction false} SeenMeaning(ops: seq<OpRecord>, ss: Session)
    ensures LastRecord(ops, ss).Some? <==> exists i :: 0 <= i < |ops| && ops[i].session == ss
  {
    if ops == [] {
    } else {
      var n := |ops| - 1;
      SeenMeaning(ops[..n], ss);
      assert forall i :: 0 <= i < n ==> ops[..n][i] == ops[i];
    }
  }

  lemma {:induction false} MinExpectedMeaning(ops: seq<OpRecord>, agg: Aggregate)
    ensures forall i :: 0 <= i < |ops| && ops[i].session.agg == agg && ops[i].expectedVersion.Some? ==>
              MinExpected(ops, agg).Some? && MinExpected(ops, agg).value <= ops[i].expectedVersion.value
    ensures MinExpected(ops, agg).Some? ==>
              exists i :: 0 <= i < |ops| && ops[i].session.agg == agg && ops[i].expectedVersion == MinExpected(ops, agg)
  {
    if ops == [] {
    } else {
      var n := |ops| - 1;
      MinExpectedMeaning(ops[..n], agg);
      assert forall i :: 0 <= i < n ==> ops[..n][i] == ops[i];
      if MinExpected(ops, agg) == MinExpected(ops[..n], agg) && MinExpected(ops, agg).Some? {
        var i :| 0 <= i < n && ops[..n][i].session.agg == agg
                 && ops[..n][i].expectedVersion == MinExpected(ops[..n], agg);
        assert ops[i].expectedVersion == MinExpected(ops, agg);
      }
    }
  }

  // What the bounds detect.

  /** A node that holds these writes on top of the baseline is flagged as low exactly when
      it lost more accepted writes than it holds others, and as high exactly when the
      others outnumber those it lost and the clients that ended ambiguous. */
  lemma BoundsWeighLosses(ops: seq<OpRecord>, agg: Aggregate, held: set<Write>)
    ensures var version, accepted := Baseline(ops, agg) + |held|, Accepted(ops, agg);
      && (TooLow(ops, agg, version) <==> |held - accepted| < |accepted - held|)
      && (TooHigh(ops, agg, version) <==> |accepted - held| + |EndedAmbiguous(ops, agg)| < |held - accepted|)
  {
    SizeDifference(held, Accepted(ops, agg));
  }

  /** So losing accepted writes is caught unless as many ambiguous ones make up for it. */
  lemma LossIsFlagged(ops: seq<OpRecord>, f: FinalRead, held: set<Write>, maybe: set<Write>)
    requires Seen(ops, f.agg) && f.maxVersion == Some(Baseline(ops, f.agg) + |held|)
    requires held <= Accepted(ops, f.agg) + maybe && |maybe| < |Accepted(ops, f.agg) - held|
    ensures Flagged(ops, f)
  {
    var accepted := Accepted(ops, f.agg);
    BoundsWeighLosses(ops, f.agg, held);
    SubsetSize(held - accepted, maybe);
  }

  // The sums of the second and third loops.

  function AcceptedOf(acked: map<Session, set<nat>>, done: set<Session>, agg: Aggregate): set<Write> {
    set ss, q | ss in done && ss.agg == agg && q in Seqs(acked, ss) :: Write(ss.client, q)
  }

  function AmbiguousOf(ended: map<Session, bool>, done: set<Session>, agg: Aggregate): set<nat> {
    set ss | ss in done && ss.agg == agg && ss in ended && ended[ss] :: ss.client
  }

  lemma {:induction false} Tagged(client: nat, seqs: set<nat>)
    ensures |set q | q in seqs :: Write(client, q)| == |seqs|
  {
    var image := set q | q in seqs :: Write(client, q);
    if seqs == {} {
      assert image == {};
    } else {
      var q :| q in seqs;
      Tagged(client, seqs - {q});
      assert image == (set x | x in seqs - {q} :: Write(client, x)) + {Write(client, q)};
    }
  }

  lemma AddSession(acked: map<Session, set<nat>>, done: set<Session>, ss: Session, agg: Aggregate)
    requires ss !in done
    ensures |AcceptedOf(acked, done + {ss}, agg)| ==
              |AcceptedOf(acked, done, agg)| + if ss.agg == agg then |Seqs(acked, ss)| else 0
  {
    var before, after := AcceptedOf(acked, done, agg), AcceptedOf(acked, done + {ss}, agg);
    if ss.agg == agg {
      var own := set q | q in Seqs(acked, ss) :: Write(ss.client, q);
      Tagged(ss.client, Seqs(acked, ss));
      assert after == before + own;
      forall w | w in before
        ensures w !in own
      {
        var s2, q :| s2 in done && s2.agg == agg && q in Seqs(acked, s2) && w == Write(s2.client, q);
        assert s2.client != ss.client;
      }
      assert before !! own;
    } else {
      assert after == before;
    }
  }

  lemma AddEnded(ended: map<Session, bool>, done: set<Session>, ss: Session, agg: Aggregate)
    requires ss !in done && ss in ended
    ensures |AmbiguousOf(ended, done + {ss}, agg)| ==
              |AmbiguousOf(ended, done, agg)| + if ss.agg == agg && ended[ss] then 1 else 0
  {
    var before, after := AmbiguousOf(ended, done, agg), AmbiguousOf(ended, done + {ss}, agg);
    if ss.agg == agg && ended[ss] {
      assert after == before + {ss.client};
      forall s2 | s2 in done && s2.agg == agg
        ensures s2.client != ss.client
      {
        assert s2 != ss;
      }
    } else {
      assert after == before;
    }
  }

  function SumAt(sums: map<Aggregate, nat>, agg: Aggregate): nat {
    if agg in sums then sums[agg] else 0
  }

  ghost function Aggregates(sessions: set<Session>): set<Aggregate> {
    set ss | ss in sessions :: ss.agg
  }

  method FirstPass(ops: seq<OpRecord>)
    returns (acked: map<Session, set<nat>>, ended: map<Session, bool>, baselines: map<Aggregate, nat>)
    ensures Books(ops, acked, ended, baselines)
    ensures forall ss :: ss in acked ==> ss in ended
  {
    acked, ended, baselines := map[], map[], map[];
    for n := 0 to |ops|
      invariant Books(ops[..n], acked, ended, baselines)
      invariant forall ss :: ss in acked ==> ss in ended
    {
      var op := ops[n];
      assert ops[..n + 1][..n] == ops[..n];
      if op.expectedVersion.Some? {
        var ev := op.expectedVersion.value;
        var e := if op.session.agg in baselines then baselines[op.session.agg] else ev;
        baselines := baselines[op.session.agg := if e < ev then e else ev];
      }
      if IsAck(op) {
        acked := acked[op.session := Seqs(acked, op.session) + {op.clientSeq}];
      }
      ended := ended[op.session := op.outcome.Info?];
    }
    assert ops[..|ops|] == ops;
  }

  method SumAccepted(acked: map<Session, set<nat>>) returns (sums: map<Aggregate, nat>)
    ensures forall agg :: SumAt(sums, agg) == |AcceptedOf(acked, acked.Keys, agg)|
  {
    sums := map[];
    var todo := acked.Keys;
    while todo != {}
      invariant todo <= acked.Keys
      invariant forall agg :: SumAt(sums, agg) == |AcceptedOf(acked, acked.Keys - todo, agg)|
      decreases todo
    {
      var ss :| ss in todo;
      ghost var done := acked.Keys - todo;
      sums := sums[ss.agg := SumAt(sums, ss.agg) + |acked[ss]|];
      todo := todo - {ss};
      assert acked.Keys - todo == done + {ss};
      forall agg
        ensures SumAt(sums, agg) == |AcceptedOf(acked, done + {ss}, agg)|
      {
        AddSession(acked, done, ss, agg);
      }
    }
    assert acked.Keys - todo == acked.Keys;
  }

  /** Every session counts as an entry of its aggregate, ambiguous or not. */
  method SumAmbiguous(ended: map<Session, bool>) returns (sums: map<Aggregate, nat>)
    ensures forall agg :: SumAt(sums, agg) == |AmbiguousOf(ended, ended.Keys, agg)|
    ensures sums.Keys == Aggregates(ended.Keys)
  {
    sums := map[];
    var todo := ended.Keys;
    while todo != {}
      invariant todo <= ended.Keys
      invariant forall agg :: SumAt(sums, agg) == |AmbiguousOf(ended, ended.Keys - todo, agg)|
      invariant sums.Keys == Aggregates(ended.Keys - todo)
      decreases todo
    {
      var ss :| ss in todo;
      ghost var done := ended.Keys - todo;
      sums := sums[ss.agg := SumAt(sums, ss.agg) + if ended[ss] then 1 else 0];
      todo := todo - {ss};
      assert ended.Keys - todo == done + {ss};
      forall agg
        ensures SumAt(sums, agg) == |AmbiguousOf(ended, done + {ss}, agg)|
      {
        AddEnded(ended, done, ss, agg);
      }
    }
    assert ended.Keys - todo == ended.Keys;
  }

  lemma SumsAreSizes(ops: seq<OpRecord>, acked: map<Session, set<nat>>, ended: map<Session, bool>,
                     baselines: map<Aggregate, nat>, agg: Aggregate)
    requires Books(ops, acked, ended, baselines)
    ensures AcceptedOf(acked, acked.Keys, agg) == Accepted(ops, agg)
    ensures AmbiguousOf(ended, ended.Keys, agg) == EndedAmbiguous(ops, agg)
    ensures Seen(ops, agg) <==> agg in Aggregates(ended.Keys)
  {
    forall w: Write
      ensures w in AcceptedOf(acked, acked.Keys, agg) <==> w in Accepted(ops, agg)
    {
      var ss := Session(agg, w.client);
      AcceptedMeaning(ops, agg, w.client, w.seqNo);
      assert w.seqNo in Seqs(acked, ss) <==> w.seqNo in AckSeqs(ops, ss);
      assert w == Write(ss.client, w.seqNo);
    }
    forall c: nat
      ensures c in AmbiguousOf(ended, ended.Keys, agg) <==> c in EndedAmbiguous(ops, agg)
    {
      AmbiguousMeaning(ops, agg, c);
      assert Session(agg, c).client == c;
    }
    if Seen(ops, agg) {
      var i :| 0 <= i < |ops| && ops[i].session.agg == agg;
      SeenMeaning(ops, ops[i].session);
      assert ops[i].session in ended;
    }
    if agg in Aggregates(ended.Keys) {
      var ss :| ss in ended && ss.agg == agg;
      SeenMeaning(ops, ss);
    }
  }

  /** What the first two loops leave for an aggregate. */
  ghost predicate Tallied(ops: seq<OpRecord>, accepted: map<Aggregate, nat>, ambiguous: map<Aggregate, nat>,
                          baselines: map<Aggregate, nat>, agg: Aggregate) {
    && (agg in ambiguous <==> Seen(ops, agg))
    && SumAt(accepted, agg) == |Accepted(ops, agg)|
    && SumAt(ambiguous, agg) == |EndedAmbiguous(ops, agg)|
    && SumAt(baselines, agg) == Baseline(ops, agg)
  }

  method Tally(ops: seq<OpRecord>)
    returns (accepted: map<Aggregate, nat>, ambiguous: map<Aggregate, nat>, baselines: map<Aggregate, nat>)
    ensures forall agg :: Tallied(ops, accepted, ambiguous, baselines, agg)
  {
    var acked, ended;
    acked, ended, baselines := FirstPass(ops);
    accepted := SumAccepted(acked);
    ambiguous := SumAmbiguous(ended);
    forall agg
      ensures Tallied(ops, accepted, ambiguous, baselines, agg)
    {
      SumsAreSizes(ops, acked, ended, baselines, agg);
    }
  }

  /** Exact despite the sample cap: the check passes if and only if no audited
      final read lies outside its bounds. */
  method CheckWalMonotonicity(ops: seq<OpRecord>, finals: seq<FinalRead>) returns (r: CheckResult)
    ensures r.Pass? <==> forall i :: 0 <= i < |finals| ==> !Flagged(ops, finals[i])
    ensures r.Fails? ==> 1 <= r.samples <= SAMPLE_CAP
  {
    if finals == [] {
      return Pass;
    }
    var accepted, ambiguous, baselines := Tally(ops);
    var violations := 0;
    for n := 0 to |finals|
      invariant violations <= SAMPLE_CAP
      invariant violations == 0 <==> forall i :: 0 <= i < n ==> !Flagged(ops, finals[i])
    {
      var f := finals[n];
      assert Tallied(ops, accepted, ambiguous, baselines, f.agg);
      if f.agg in ambiguous && f.maxVersion.Some? {
        var low := SumAt(baselines, f.agg) + SumAt(accepted, f.agg);
        if f.maxVersion.value < low && violations < SAMPLE_CAP {
          violations := violations + 1;
        }
        if f.maxVersion.value > low + SumAt(ambiguous, f.agg) && violations < SAMPLE_CAP {
          violations := violations + 1;
        }
      }
    }
    r := if violations == 0 then Pass else Fails(violations);
  }
}
