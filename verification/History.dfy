/** The per-operation client history the consistency checkers read. */
module History {
  import opened Wrappers

  datatype Aggregate = Aggregate(orgId: nat, typeId: nat, aggId: nat)

  /** One client writing to one aggregate. */
  datatype Session = Session(agg: Aggregate, client: nat)

  datatype Outcome = Ok | Fail | Info

  datatype ErrorLabel = ClientIdempotencyViolation | OccConflict | InflightDuplicateWrite | OtherLabel

  datatype OpRecord = OpRecord(
    session: Session,
    clientSeq: nat,
    expectedVersion: Option<nat>,
    outcome: Outcome,
    error: Option<ErrorLabel>,
    ackedVersion: Option<nat>)

  datatype FinalRead = FinalRead(node: string, agg: Aggregate, maxVersion: Option<nat>)

  /** Samples quoted by a failing check. */
  const SAMPLE_CAP: nat := 10

  /** A verdict: a failing check quotes at least one and at most `SAMPLE_CAP` samples. */
  datatype CheckResult = Pass | Fails(samples: nat)

  /** The server answered "already applied". */
  predicate Is2002(op: OpRecord) {
    op.outcome.Fail? && op.error == Some(ClientIdempotencyViolation)
  }

  /** The client counts the seq as durable. */
  predicate IsAck(op: OpRecord) {
    op.outcome.Ok? || Is2002(op)
  }

  /** The seqs a checker has noted for a session. */
  function Seqs(m: map<Session, set<nat>>, ss: Session): set<nat> {
    if ss in m then m[ss] else {}
  }

  /** `ops` keeps the records at the ascending positions `at`, and drops the rest. */
  ghost predicate Retained<T>(ops: seq<T>, history: seq<T>, at: seq<nat>) {
    && |at| == |ops|
    && (forall i :: 0 <= i < |at| ==> at[i] < |history| && ops[i] == history[at[i]])
    && (forall i, j :: 0 <= i < j < |at| ==> at[i] < at[j])
  }
}
