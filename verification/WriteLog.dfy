/** An aggregate's committed batches as one log, and the server's admission
    check: optimistic concurrency first, client idempotency second. */
module WriteLog {
  import opened Wrappers
  import opened FillClient

  datatype Entry = Entry(client: nat, seqNo: nat)
  type Log = seq<Entry>

  datatype Request = Request(client: nat, seqNo: nat, expected: nat)

  datatype Verdict = Append | Reject(error: WriteError)

  /** Number of batches a client has in the log. */
  function Count(log: Log, c: nat): nat {
    if log == [] then 0
    else Count(log[..|log| - 1], c) + if log[|log| - 1].client == c then 1 else 0
  }

  /** Position of a client's newest batch, or -1. */
  function LastIndex(log: Log, c: nat): (i: int)
    ensures -1 <= i < |log|
    ensures 0 <= i ==> log[i].client == c
    ensures forall j :: i < j < |log| ==> log[j].client != c
  {
    if log == [] then -1
    else if log[|log| - 1].client == c then |log| - 1
    else LastIndex(log[..|log| - 1], c)
  }

  /** The highest `clientSeq` a catch-up read finds for a client. */
  function MaxSeq(log: Log, c: nat): nat {
    if log == [] then 0
    else
      var rest := MaxSeq(log[..|log| - 1], c);
      var e := log[|log| - 1];
      if e.client == c then Max(rest, e.seqNo) else rest
  }

  /** The leader's check. `durable` is the replicated prefix of the log: a
      duplicate of a batch beyond it is answered "still in flight". */
  function Serve(log: Log, durable: nat, req: Request): Verdict {
    if req.expected != |log| then Reject(OccConflict(Some(|log|)))
    else
      var i := LastIndex(log, req.client);
      if 0 <= i && req.seqNo <= log[i].seqNo then
        if durable <= i then Reject(InflightDuplicate)
        else Reject(IdempotencyViolation(Some(log[i].seqNo)))
      else Append
  }

  /** Every client's batches are numbered 1, 2, 3, ... in log order. */
  ghost predicate Numbered(log: Log) {
    forall i :: 0 <= i < |log| ==> log[i].seqNo == Count(log[..i], log[i].client) + 1
  }

  lemma {:induction false} CountPrefix(log: Log, i: nat, j: nat, c: nat)
    requires i <= j <= |log|
    ensures Count(log[..i], c) <= Count(log[..j], c) <= Count(log[..i], c) + (j - i)
  {
    if i == j {
    } else {
      CountPrefix(log, i, j - 1, c);
      assert log[..j][..j - 1] == log[..j - 1];
    }
  }

  lemma CountWhole(log: Log, i: nat, c: nat)
    requires i <= |log|
    ensures Count(log[..i], c) <= Count(log, c)
  {
    CountPrefix(log, i, |log|, c);
    assert log[..|log|] == log;
  }

  lemma CountStep(log: Log, i: nat, c: nat)
    requires i < |log|
    ensures Count(log[..i + 1], c) == Count(log[..i], c) + if log[i].client == c then 1 else 0
  {
    assert log[..i + 1][..i] == log[..i];
  }

  lemma CountAppend(log: Log, e: Entry, c: nat)
    ensures Count(log + [e], c) == Count(log, c) + if e.client == c then 1 else 0
  {
    assert (log + [e])[..|log|] == log;
  }

  lemma NumberedPrefix(log: Log, n: nat)
    requires Numbered(log) && n <= |log|
    ensures Numbered(log[..n])
  {
    forall i | 0 <= i < n
      ensures log[..n][i].seqNo == Count(log[..n][..i], log[..n][i].client) + 1
    {
      assert log[..n][..i] == log[..i];
    }
  }

  lemma NumberedAppend(log: Log, e: Entry)
    requires Numbered(log) && e.seqNo == Count(log, e.client) + 1
    ensures Numbered(log + [e])
  {
    var l := log + [e];
    forall i | 0 <= i < |l|
      ensures l[i].seqNo == Count(l[..i], l[i].client) + 1
    {
      if i < |log| {
        assert l[..i] == log[..i];
      } else {
        assert l[..i] == log;
      }
    }
  }

  /** A batch at position i is counted by every longer prefix. */
  lemma CountCovers(log: Log, i: nat, n: nat)
    requires Numbered(log) && i < n <= |log|
    ensures log[i].seqNo <= Count(log[..n], log[i].client)
  {
    CountStep(log, i, log[i].client);
    CountPrefix(log, i + 1, n, log[i].client);
  }

  /** A catch-up read of a numbered log finds the client's batch count. */
  lemma {:induction false} CatchUpFindsCount(log: Log, c: nat)
    requires Numbered(log)
    ensures MaxSeq(log, c) == Count(log, c)
    decreases |log|
  {
    if log == [] {
    } else {
      NumberedPrefix(log, |log| - 1);
      CatchUpFindsCount(log[..|log| - 1], c);
    }
  }

  /** No batch of the client follows its newest one. */
  lemma {:induction false} CountAfterNewest(log: Log, c: nat, n: nat)
    requires LastIndex(log, c) < n <= |log|
    ensures Count(log[..n], c) == Count(log, c)
    decreases |log| - n
  {
    if n == |log| {
      assert log[..n] == log;
    } else {
      CountAfterNewest(log, c, n + 1);
      CountStep(log, n, c);
    }
  }

  /** In a numbered log the newest batch of a client carries its count. */
  lemma NewestIsCount(log: Log, c: nat)
    requires Numbered(log)
    ensures LastIndex(log, c) < 0 ==> Count(log, c) == 0
    ensures LastIndex(log, c) >= 0 ==> log[LastIndex(log, c)].seqNo == Count(log, c)
  {
    var i := LastIndex(log, c);
    CountAfterNewest(log, c, i + 1);
    if 0 <= i {
      CountStep(log, i, c);
    } else {
      assert log[..0] == [];
    }
  }

  /** A client's newest batch is replicated exactly when all its batches are. */
  lemma NewestReplicated(log: Log, durable: nat, c: nat)
    requires durable <= |log| && 0 <= LastIndex(log, c)
    ensures LastIndex(log, c) < durable <==> Count(log[..durable], c) == Count(log, c)
    ensures durable <= LastIndex(log, c) <==> Count(log[..durable], c) < Count(log, c)
  {
    var i := LastIndex(log, c);
    if i < durable {
      CountAfterNewest(log, c, durable);
    } else {
      CountPrefix(log, durable, i, c);
      CountStep(log, i, c);
      CountWhole(log, i + 1, c);
    }
  }

  /** The admission check in terms of counts: appended past the client's count, a
      duplicate once all its batches are replicated, in flight while some are not. */
  lemma ServeMeaning(log: Log, durable: nat, req: Request)
    requires Numbered(log) && durable <= |log|
    ensures Serve(log, durable, req).Append? && req.seqNo >= 1
            <==> req.expected == |log| && Count(log, req.client) < req.seqNo
    ensures req.seqNo >= 1 ==>
      (Serve(log, durable, req) == Reject(IdempotencyViolation(Some(Count(log, req.client))))
       <==> req.expected == |log| && req.seqNo <= Count(log, req.client) == Count(log[..durable], req.client))
    ensures req.seqNo >= 1 ==>
      (Serve(log, durable, req) == Reject(InflightDuplicate)
       <==> req.expected == |log| && req.seqNo <= Count(log, req.client)
            && Count(log[..durable], req.client) < Count(log, req.client))
    ensures Serve(log, durable, req).Reject? && Serve(log, durable, req).error.IdempotencyViolation?
            ==> Serve(log, durable, req).error.last == Some(Count(log, req.client))
                && req.expected == |log|
                && Count(log[..durable], req.client) == Count(log, req.client)
                && req.seqNo <= Count(log, req.client)
    ensures Serve(log, durable, req) == Reject(OccConflict(Some(|log|))) <==> req.expected != |log|
    ensures Serve(log, durable, req).Reject? && Serve(log, durable, req).error.OccConflict?
            <==> req.expected != |log|
    ensures Serve(log, durable, req).Reject? && durable == |log|
            ==> !Serve(log, durable, req).error.InflightDuplicate? && !Serve(log, durable, req).error.OtherError?
  {
    NewestIsCount(log, req.client);
    if 0 <= LastIndex(log, req.client) {
      NewestReplicated(log, durable, req.client);
    }
  }

  /** A numbered log holds each (client, seq) at most once, and holds exactly
      the seqs 1..Count for every client. */
  lemma NumberedIsExactlyOnce(log: Log)
    requires Numbered(log)
    ensures forall i, j :: 0 <= i < j < |log| ==> log[i] != log[j]
    ensures forall c, n: nat {:trigger Entry(c, n)} ::
              Entry(c, n) in log <==> 1 <= n <= Count(log, c)
  {
    forall i, j | 0 <= i < j < |log|
      ensures log[i] != log[j]
    {
      if log[i].client == log[j].client {
        CountCovers(log, i, j);
      }
    }
    forall c, n: nat
      ensures Entry(c, n) in log <==> 1 <= n <= Count(log, c)
    {
      if Entry(c, n) in log {
        var i :| 0 <= i < |log| && log[i] == Entry(c, n);
        CountCovers(log, i, |log|);
        assert log[..|log|] == log;
      }
      if 1 <= n <= Count(log, c) {
        NumberedHolds(log, c, n);
      }
    }
  }

  lemma {:induction false} NumberedHolds(log: Log, c: nat, n: nat)
    requires Numbered(log) && 1 <= n <= Count(log, c)
    ensures Entry(c, n) in log
    decreases |log|
  {
    var m := |log| - 1;
    NumberedPrefix(log, m);
    if n <= Count(log[..m], c) {
      NumberedHolds(log[..m], c, n);
    } else {
      assert log[m] == Entry(c, n);
    }
  }
}
