/** Fill runs audited: what the clients recorded against what the aggregates hold. */
module FillAudit {
  import opened Wrappers
  import opened WriteLog
  import opened AckHistory
  import opened GapAudit
  import Fill = ExactlyOnce

  /** How one aggregate was born and what happened to it. */
  datatype Story = Story(member: Member, budget: nat, bornMs: nat, steps: seq<Fill.Step>)

  ghost predicate Happened(story: Story, agg: nat) {
    && story.member.aggregateId == agg
    && Fill.ValidRun(Fill.Initial(story.member, story.budget, story.bornMs), story.steps)
  }

  ghost function Outcome(story: Story): Fill.State
    requires Happened(story, story.member.aggregateId)
  {
    Fill.Run(Fill.Initial(story.member, story.budget, story.bornMs), story.steps)
  }

  /** What is left of an aggregate after any failover. */
  ghost function Replicated(story: Story): Log
    requires Happened(story, story.member.aggregateId)
    ensures Numbered(Replicated(story))
    ensures forall e :: e in Outcome(story).ledger ==> e in Replicated(story)
  {
    var s := Outcome(story);
    Fill.InvInitial(story.member, story.budget, story.bornMs);
    Fill.InvRun(Fill.Initial(story.member, story.budget, story.bornMs), story.steps);
    NumberedPrefix(s.log, s.durable);
    Fill.LedgerDurable(s);
    s.log[..s.durable]
  }

  /** Every ack the shared ledger saw was recorded by its aggregate's run. */
  ghost predicate Recorded(past: Past, stories: map<nat, Story>) {
    forall a :: a in past.acks ==>
      && a.key.aggregateId in stories && Happened(stories[a.key.aggregateId], a.key.aggregateId)
      && Entry(a.key.clientId, a.seqNo) in Outcome(stories[a.key.aggregateId]).ledger
  }

  /** A numbered log that holds a seq holds all below it. */
  lemma HeldIsKept(log: Log, key: Member, n: nat)
    requires Numbered(log) && Entry(key.clientId, n) in log
    ensures Kept(log, Summary(key, n))
  {
    NumberedIsExactlyOnce(log);
    forall k: nat | 1 <= k <= n
      ensures Entry(key.clientId, k) in log
    {
      assert 1 <= n <= Count(log, key.clientId);
    }
  }

  /** From the wire to the verdict: acks recorded by any fill runs, sampled and folded
      by the ledger in any order, are never flagged against nodes that still hold the
      replicated batches. */
  lemma FillRunsNeverFlagged(cap: nat, entries: map<Member, nat>, keys: seq<Member>, observed: nat, past: Past,
                             stories: map<nat, Story>, acks: seq<Summary>, versions: seq<Option<nat>>, i: nat)
    requires Sound(cap, entries, keys, observed, past) && Lists(acks, entries) && Recorded(past, stories)
    requires |versions| == |acks| && i < |acks|
    requires versions[i].Some? && acks[i].key.aggregateId in stories ==>
      var story := stories[acks[i].key.aggregateId];
      Happened(story, acks[i].key.aggregateId) ==> |Replicated(story)| <= versions[i].value
    ensures !Flagged(acks, versions, i)
  {
    var logs := map agg | agg in stories && Happened(stories[agg], agg) :: Replicated(stories[agg]);
    forall a | a in past.acks
      ensures a.key.aggregateId in logs && Kept(logs[a.key.aggregateId], Summary(a.key, a.seqNo))
    {
      HeldIsKept(Replicated(stories[a.key.aggregateId]), a.key, a.seqNo);
    }
    ResidentWasAcked(entries, past, acks[i].key);
    assert Ack(acks[i].key, acks[i].maxAcked) in past.acks;
    LedgerNeverFlagged(cap, entries, keys, observed, past, logs, acks, versions, i);
  }
}
