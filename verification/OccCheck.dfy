/** `HistoryOcc`: at most one acked write per compare-and-swap token, and no two
    acks naming the same committed version. */
module OccCheck {
  import opened Wrappers
  import opened History
  import opened ServerRun

  datatype Slot = Slot(agg: Aggregate, version: nat)

  /** The token an acked write spent. */
  function Spent(op: OpRecord): Option<Slot> {
    if op.outcome.Ok? && op.expectedVersion.Some?
    then Some(Slot(op.session.agg, op.expectedVersion.value)) else None
  }

  /** The version the server said an acked write committed at. */
  function Told(op: OpRecord): Option<Slot> {
    if op.outcome.Ok? && op.ackedVersion.Some?
    then Some(Slot(op.session.agg, op.ackedVersion.value)) else None
  }

  function Occurrences(f: OpRecord -> Option<Slot>, ops: seq<OpRecord>, k: Slot): nat {
    if ops == [] then 0
    else Occurrences(f, ops[..|ops| - 1], k) + if f(ops[|ops| - 1]) == Some(k) then 1 else 0
  }

  /** Two records share a slot. */
  ghost predicate Clash(f: OpRecord -> Option<Slot>, ops: seq<OpRecord>, i: nat, j: nat)
    requires i < j < |ops|
  {
    f(ops[i]).Some? && f(ops[i]) == f(ops[j])
  }

  ghost predicate ClashFree(f: OpRecord -> Option<Slot>, ops: seq<OpRecord>) {
    forall i, j :: 0 <= i < j < |ops| ==> !Clash(f, ops, i, j)
  }

  lemma {:induction false} OccursIffFound(f: OpRecord -> Option<Slot>, ops: seq<OpRecord>, k: Slot)
    ensures 0 < Occurrences(f, ops, k) <==> exists j :: 0 <= j < |ops| && f(ops[j]) == Some(k)
  {
    if ops == [] {
    } else {
      var n := |ops| - 1;
      OccursIffFound(f, ops[..n], k);
      assert forall j :: 0 <= j < n ==> ops[..n][j] == ops[j];
    }
  }

  /** Counting each slot at most once is the same as having no clash. */
  lemma {:induction false} CountsDecideClashes(f: OpRecord -> Option<Slot>, ops: seq<OpRecord>)
    ensures ClashFree(f, ops) <==> forall k :: Occurrences(f, ops, k) <= 1
  {
    if ops == [] {
    } else {
      var n := |ops| - 1;
      var front := ops[..n];
      CountsDecideClashes(f, front);
      assert forall j :: 0 <= j < n ==> front[j] == ops[j];
      if ClashFree(f, ops) {
        assert ClashFree(f, front) by {
          forall i, j | 0 <= i < j < n
            ensures !Clash(f, front, i, j)
          {
            assert !Clash(f, ops, i, j);
          }
        }
        forall k
          ensures Occurrences(f, ops, k) <= 1
        {
          OccursIffFound(f, front, k);
          if f(ops[n]) == Some(k) && 0 < Occurrences(f, front, k) {
            var j :| 0 <= j < n && f(front[j]) == Some(k);
            assert Clash(f, ops, j, n);
          }
        }
      } else {
        var i, j :| 0 <= i < j < |ops| && Clash(f, ops, i, j);
        if j < n {
          assert Clash(f, front, i, j);
        } else {
          var k := f(ops[n]).value;
          OccursIffFound(f, front, k);
          assert f(front[i]) == Some(k);
          assert Occurrences(f, ops, k) > 1;
        }
      }
      if !ClashFree(f, front) {
        var k :| Occurrences(f, front, k) > 1;
        assert Occurrences(f, ops, k) > 1;
      }
    }
  }

  function Bump(m: map<Slot, nat>, k: Slot, add: nat): map<Slot, nat> {
    m[k := add + if k in m then m[k] else 0]
  }

  ghost predicate Tallies(f: OpRecord -> Option<Slot>, ops: seq<OpRecord>, m: map<Slot, nat>) {
    forall k :: (if k in m then m[k] else 0) == Occurrences(f, ops, k)
  }

  lemma OverfullMeansClash(f: OpRecord -> Option<Slot>, ops: seq<OpRecord>, m: map<Slot, nat>)
    requires Tallies(f, ops, m)
    ensures |set k | k in m && m[k] > 1| == 0 <==> ClashFree(f, ops)
  {
    CountsDecideClashes(f, ops);
    var over := set k | k in m && m[k] > 1;
    if ClashFree(f, ops) {
      forall k | k in over
        ensures false
      {
        assert Occurrences(f, ops, k) <= 1;
      }
      assert over == {};
    } else {
      var k :| Occurrences(f, ops, k) > 1;
      assert k in over;
    }
  }

  /** Two acks of one aggregate spent the same token, or were told the same version. */
  ghost predicate SharedAck(a: OpRecord, b: OpRecord) {
    && a.outcome.Ok? && b.outcome.Ok? && a.session.agg == b.session.agg
    && ((a.expectedVersion.Some? && a.expectedVersion == b.expectedVersion)
        || (a.ackedVersion.Some? && a.ackedVersion == b.ackedVersion))
  }

  lemma ClashesAreShared(ops: seq<OpRecord>)
    ensures ClashFree(Spent, ops) && ClashFree(Told, ops)
            <==> forall i, j :: 0 <= i < j < |ops| ==> !SharedAck(ops[i], ops[j])
  {
    forall i, j | 0 <= i < j < |ops|
      ensures SharedAck(ops[i], ops[j]) <==> Clash(Spent, ops, i, j) || Clash(Told, ops, i, j)
    {
    }
  }

  /** Exact despite the sample cap: the check passes if and only if no two acks of an
      aggregate share a token or a version. */
  method CheckOcc(ops: seq<OpRecord>) returns (r: CheckResult)
    ensures r.Pass? <==> forall i, j :: 0 <= i < j < |ops| ==> !SharedAck(ops[i], ops[j])
    ensures r.Pass? <==> ClashFree(Spent, ops) && ClashFree(Told, ops)
    ensures r.Fails? ==> 1 <= r.samples <= 2 * SAMPLE_CAP
  {
    var okCounts: map<Slot, nat> := map[];
    var toldCounts: map<Slot, nat> := map[];
    for n := 0 to |ops|
      invariant Tallies(Spent, ops[..n], okCounts)
      invariant Tallies(Told, ops[..n], toldCounts)
    {
      var op := ops[n];
      assert ops[..n + 1][..n] == ops[..n];
      if op.expectedVersion.Some? {
        okCounts := Bump(okCounts, Slot(op.session.agg, op.expectedVersion.value), if op.outcome.Ok? then 1 else 0);
      }
      if op.outcome.Ok? && op.ackedVersion.Some? {
        toldCounts := Bump(toldCounts, Slot(op.session.agg, op.ackedVersion.value), 1);
      }
    }
    assert ops[..|ops|] == ops;
    OverfullMeansClash(Spent, ops, okCounts);
    OverfullMeansClash(Told, ops, toldCounts);
    ClashesAreShared(ops);
    var overSpent := set k | k in okCounts && okCounts[k] > 1;
    var overTold := set k | k in toldCounts && toldCounts[k] > 1;
    var violations := Min(|overSpent|, SAMPLE_CAP) + Min(|overTold|, SAMPLE_CAP);
    r := if violations == 0 then Pass else Fails(violations);
  }

  // Soundness for every run and every subset of its records.

  ghost predicate Ack(w: World, agg: Aggregate, expected: Option<nat>, v: nat) {
    && w.Opening(agg) < v <= w.Version(agg)
    && (expected.Some? ==> v == expected.value + 1)
  }

  /** Each acked record, and each committed call still to return, owns one version
      of its aggregate, and no two own the same. */
  ghost predicate RecordsOwn(w: World) {
    && |w.versions| == |w.history|
    && (forall i :: 0 <= i < |w.history| && w.history[i].outcome.Ok? ==>
          var r := w.history[i];
          && Ack(w, r.session.agg, r.expectedVersion, w.versions[i])
          && (r.ackedVersion.Some? ==> r.ackedVersion.value == w.versions[i]))
    && (forall i, j :: 0 <= i < j < |w.history| && BothAcked(w.history[i], w.history[j]) ==>
          w.versions[i] != w.versions[j])
  }

  predicate BothAcked(a: OpRecord, b: OpRecord) {
    a.outcome.Ok? && b.outcome.Ok? && a.session.agg == b.session.agg
  }

  predicate BothHold(a: Call, b: Call) {
    CallCommitted(a) && CallCommitted(b) && a.op.session.agg == b.op.session.agg
  }

  ghost predicate CallsOwn(w: World)
    requires |w.versions| == |w.history|
  {
    && (forall ss :: ss in w.calls ==> w.calls[ss].op.session == ss)
    && (forall ss :: ss in w.calls && CallCommitted(w.calls[ss]) ==>
          var v := w.calls[ss].reply.version;
          && Ack(w, ss.agg, w.calls[ss].op.expected, v)
          && (forall i :: 0 <= i < |w.history| && w.history[i].outcome.Ok? && w.history[i].session.agg == ss.agg ==>
                w.versions[i] != v))
    && (forall s1, s2 :: s1 in w.calls && s2 in w.calls && s1 != s2 && BothHold(w.calls[s1], w.calls[s2]) ==>
          w.calls[s1].reply.version != w.calls[s2].reply.version)
  }

  ghost predicate Owns(w: World) {
    RecordsOwn(w) && CallsOwn(w)
  }

  lemma OwnsGrows(w: World, op: Op)
    requires Owns(w)
    ensures Owns(Appended(w, op))
  {
    AppendedFacts(w, op);
    var w' := Appended(w, op);
    forall agg ensures w'.Version(agg) >= w.Version(agg) {}
  }

  lemma IssueOwns(w: World, op: Op)
    requires Owns(w) && Enabled(w, Issue(op))
    ensures Owns(Next(w, Issue(op)))
  {
    var w' := Next(w, Issue(op));
    assert forall agg :: w'.Version(agg) == w.Version(agg) && w'.Opening(agg) == w.Opening(agg);
  }

  lemma RefuseOwns(w: World, ss: Session, reason: ErrorLabel)
    requires Owns(w) && Enabled(w, Refuse(ss, reason))
    ensures Owns(Next(w, Refuse(ss, reason)))
  {
    var w' := Next(w, Refuse(ss, reason));
    assert forall agg :: w'.Version(agg) == w.Version(agg) && w'.Opening(agg) == w.Opening(agg);
  }

  /** The committed version is one past every version anybody owns. */
  lemma CommitOwns(w: World, ss: Session)
    requires Owns(w) && Enabled(w, Execute(ss)) && Serve(w, w.calls[ss].op).Committed?
    ensures CallsOwn(Next(w, Execute(ss)))
  {
    var w' := Next(w, Execute(ss));
    AppendedFacts(w, w.calls[ss].op);
    forall agg
      ensures w'.Opening(agg) == w.Opening(agg)
      ensures w'.Version(agg) == w.Version(agg) + if agg == ss.agg then 1 else 0
    {
      assert w'.Version(agg) == Appended(w, w.calls[ss].op).Version(agg);
    }
    assert Ack(w', ss.agg, w.calls[ss].op.expected, w.Version(ss.agg) + 1);
    forall s1 | s1 in w'.calls && s1 != ss && CallCommitted(w'.calls[s1])
      ensures Ack(w', s1.agg, w'.calls[s1].op.expected, w'.calls[s1].reply.version)
    {
      assert Ack(w, s1.agg, w.calls[s1].op.expected, w.calls[s1].reply.version);
    }
    forall s1, s2 | s1 in w'.calls && s2 in w'.calls && s1 != s2 && BothHold(w'.calls[s1], w'.calls[s2])
      ensures w'.calls[s1].reply.version != w'.calls[s2].reply.version
    {
      if s1 != ss && s2 != ss {
        assert BothHold(w.calls[s1], w.calls[s2]);
      } else {
        var other := if s1 == ss then s2 else s1;
        assert Ack(w, other.agg, w.calls[other].op.expected, w.calls[other].reply.version);
      }
    }
  }

  lemma CommitOwnsRecords(w: World, ss: Session)
    requires Owns(w) && Enabled(w, Execute(ss)) && Serve(w, w.calls[ss].op).Committed?
    ensures RecordsOwn(Next(w, Execute(ss)))
  {
    var op := w.calls[ss].op;
    var w' := Next(w, Execute(ss));
    OwnsGrows(w, op);
    assert forall agg :: w'.Version(agg) == Appended(w, op).Version(agg) && w'.Opening(agg) == w.Opening(agg);
  }

  lemma RejectOwns(w: World, ss: Session)
    requires Owns(w) && Enabled(w, Execute(ss)) && Serve(w, w.calls[ss].op).Rejected?
    ensures Owns(Next(w, Execute(ss)))
  {
    var w' := Next(w, Execute(ss));
    assert forall agg :: w'.Version(agg) == w.Version(agg) && w'.Opening(agg) == w.Opening(agg);
  }

  /** Requests on the network own nothing. */
  lemma OwnsIgnoresNetwork(w: World, zombies: multiset<Op>)
    requires Owns(w)
    ensures Owns(w.(zombies := zombies))
  {
    var w' := w.(zombies := zombies);
    assert forall agg :: w'.Version(agg) == w.Version(agg) && w'.Opening(agg) == w.Opening(agg);
  }

  lemma LateExecuteOwns(w: World, z: Op)
    requires Owns(w) && Enabled(w, LateExecute(z))
    ensures Owns(Next(w, LateExecute(z)))
  {
    OwnsGrows(w, z);
    var u := if Serve(w, z).Committed? then Appended(w, z) else w;
    OwnsIgnoresNetwork(u, w.zombies - multiset{z});
    assert Next(w, LateExecute(z)) == u.(zombies := w.zombies - multiset{z});
  }

  /** Ending a call moves its ownership, if any, to the record it leaves. */
  lemma EndRecords(w: World, ss: Session, r: OpRecord, v: nat)
    requires Owns(w) && ss in w.calls && r.session == ss
    requires r.outcome.Ok? ==>
      && CallCommitted(w.calls[ss]) && v == w.calls[ss].reply.version && r.expectedVersion == w.calls[ss].op.expected
      && (r.ackedVersion.Some? ==> r.ackedVersion.value == v)
    ensures RecordsOwn(Ended(w, ss, r, v))
  {
    var w' := Ended(w, ss, r, v);
    assert forall agg :: w'.Version(agg) == w.Version(agg) && w'.Opening(agg) == w.Opening(agg);
  }

  lemma EndCalls(w: World, ss: Session, r: OpRecord, v: nat)
    requires Owns(w) && ss in w.calls && r.session == ss
    requires r.outcome.Ok? ==> CallCommitted(w.calls[ss]) && v == w.calls[ss].reply.version
    ensures |Ended(w, ss, r, v).versions| == |Ended(w, ss, r, v).history| && CallsOwn(Ended(w, ss, r, v))
  {
    var w' := Ended(w, ss, r, v);
    assert forall agg :: w'.Version(agg) == w.Version(agg) && w'.Opening(agg) == w.Opening(agg);
    forall s1, i | s1 in w'.calls && CallCommitted(w'.calls[s1]) && 0 <= i < |w'.history|
                   && w'.history[i].outcome.Ok? && w'.history[i].session.agg == s1.agg
      ensures w'.versions[i] != w'.calls[s1].reply.version
    {
      if i == |w.history| {
        assert BothHold(w.calls[s1], w.calls[ss]);
      }
    }
  }

  lemma LoseOwns(w: World, ss: Session)
    requires Owns(w) && Enabled(w, Lose(ss))
    ensures Owns(Next(w, Lose(ss)))
  {
    var op := w.calls[ss].op;
    EndRecords(w, ss, LostRecord(op), 0);
    EndCalls(w, ss, LostRecord(op), 0);
    OwnsIgnoresNetwork(Ended(w, ss, LostRecord(op), 0), w.zombies + multiset{op});
  }

  lemma ReturnOwns(w: World, ss: Session, told: bool)
    requires Owns(w) && Enabled(w, Return(ss, told))
    ensures Owns(Next(w, Return(ss, told)))
  {
    var Executed(op, reply) := w.calls[ss];
    var v := if reply.Committed? then reply.version else 0;
    EndRecords(w, ss, AnswerRecord(op, reply, told), v);
    EndCalls(w, ss, AnswerRecord(op, reply, told), v);
  }

  lemma OwnsNext(w: World, step: Step)
    requires Owns(w) && Enabled(w, step)
    ensures Owns(Next(w, step))
  {
    match step
    case Issue(op) => IssueOwns(w, op);
    case Refuse(ss, reason) => RefuseOwns(w, ss, reason);
    case Execute(ss) =>
      if Serve(w, w.calls[ss].op).Committed? {
        CommitOwnsRecords(w, ss);
        CommitOwns(w, ss);
      } else {
        RejectOwns(w, ss);
      }
    case LateExecute(z) => LateExecuteOwns(w, z);
    case Return(ss, told) => ReturnOwns(w, ss, told);
    case Lose(ss) => LoseOwns(w, ss);
  }

  lemma {:induction false} OwnsRun(w: World, steps: seq<Step>)
    requires Owns(w) && ValidRun(Free, w, steps)
    ensures Owns(Run(Free, w, steps))
    decreases |steps|
  {
    if steps == [] {
    } else {
      OwnsNext(w, steps[0]);
      OwnsRun(Next(w, steps[0]), steps[1..]);
    }
  }

  /** For every run of a compare-and-commit server, whatever its clients send, and
      every subset of the records it leaves, the check passes. */
  lemma OccSurvivesDrops(opening: map<Aggregate, nat>, openingSeq: map<Session, nat>, steps: seq<Step>,
                         ops: seq<OpRecord>, at: seq<nat>)
    requires ValidRun(Free, Fresh(opening, openingSeq), steps)
    requires Retained(ops, Run(Free, Fresh(opening, openingSeq), steps).history, at)
    ensures ClashFree(Spent, ops) && ClashFree(Told, ops)
  {
    OwnsRun(Fresh(opening, openingSeq), steps);
    var w := Run(Free, Fresh(opening, openingSeq), steps);
    forall i, j | 0 <= i < j < |ops|
      ensures !Clash(Spent, ops, i, j) && !Clash(Told, ops, i, j)
    {
      assert at[i] < at[j];
      assert ops[i] == w.history[at[i]] && ops[j] == w.history[at[j]];
    }
  }
}
