/** Why progress needs a leader that keeps its log: one that is rolled back can hold a
    client at a seq through any number of answers. */
module Rollbacks {
  import opened Wrappers
  import opened WriteLog
  import opened ExactlyOnce
  import opened FillProgress
  import Recovery

  /** `steps` lead from `s` to `t`, delivering `answers` answers and evicting nothing. */
  ghost predicate Leads(s: State, steps: seq<Step>, t: State, answers: nat) {
    ValidRun(s, steps) && Run(s, steps) == t && Delivered(s, steps) == answers && Staying(steps)
  }

  lemma LeadsNowhere(s: State)
    ensures Leads(s, [], s, 0)
  {
  }

  lemma LeadsFirst(s: State, step: Step, rest: seq<Step>, t: State, answers: nat)
    requires Enabled(s, step) && !step.Evict? && Leads(Next(s, step), rest, t, answers)
    ensures Leads(s, [step] + rest, t, answers + if Delivers(s, step) then 1 else 0)
  {
    assert ([step] + rest)[1..] == rest;
  }

  lemma {:induction false} LeadsOn(s: State, a: seq<Step>, mid: State, b: seq<Step>, t: State, i: nat, j: nat)
    requires Leads(s, a, mid, i) && Leads(mid, b, t, j)
    ensures Leads(s, a + b, t, i + j)
    decreases |a|
  {
    if a == [] {
      assert a + b == b;
    } else {
      var first := if Delivers(s, a[0]) then 1 else 0;
      HeadFirst(a, b);
      LeadsOn(Next(s, a[0]), a[1..], mid, b, t, i - first, j);
      LeadsFirst(s, a[0], a[1..] + b, t, i - first + j);
    }
  }

  /** An attempt at the wrong version learns the right one. */
  lemma Resyncs(s: State) returns (steps: seq<Step>)
    requires s.call.Idle? && s.active.Some? && s.active.value.version != |s.log|
    ensures Leads(s, steps, s.(active := Some(s.active.value.(version := |s.log|))), 1) && Lasting(steps)
  {
    var s1 := Next(s, SendWrite);
    var s2 := Next(s1, Execute);
    var t := s.(active := Some(s.active.value.(version := |s.log|)));
    assert Next(s2, Answer(0, true)) == t;
    LeadsNowhere(t);
    LeadsFirst(s2, Answer(0, true), [], t, 0);
    LeadsFirst(s1, Execute, [Answer(0, true)] + [], t, 1);
    LeadsFirst(s, SendWrite, [Execute] + ([Answer(0, true)] + []), t, 1);
    steps := [SendWrite] + ([Execute] + ([Answer(0, true)] + []));
  }

  /** A newborn entry that has not got anywhere. */
  ghost predicate AtStart(s: State, c: nat) {
    && s.log == [] && s.durable == 0 && s.call.Idle?
    && StillAt(s, c, 1) && s.active.value.version == 0
  }

  /** Its write is appended and not answered. */
  lemma Vanishes(s: State, c: nat) returns (steps: seq<Step>, t: State)
    requires AtStart(s, c)
    ensures Leads(s, steps, t, 0)
    ensures t == s.(log := [Entry(c, 1)], active := Some(s.active.value.Defer(0)))
  {
    var s1 := Next(s, SendWrite);
    var s2 := Next(s1, Execute);
    assert s2.log == [Entry(c, 1)];
    t := Next(s2, GiveUp(0));
    LeadsNowhere(t);
    LeadsFirst(s2, GiveUp(0), [], t, 0);
    LeadsFirst(s1, Execute, [GiveUp(0)] + [], t, 0);
    LeadsFirst(s, SendWrite, [Execute] + ([GiveUp(0)] + []), t, 0);
    steps := [SendWrite] + ([Execute] + ([GiveUp(0)] + []));
  }

  /** Two answers and a rollback later the entry is where it was. */
  lemma Cycle(s: State, c: nat) returns (steps: seq<Step>, t: State)
    requires AtStart(s, c)
    ensures Leads(s, steps, t, 2) && AtStart(t, c)
  {
    var first, s1 := Vanishes(s, c);
    var second := Resyncs(s1);
    var s2 := s1.(active := Some(s1.active.value.(version := 1)));
    LeadsOn(s, first, s1, second, s2, 0, 1);
    var s3 := Next(s2, Rollback);
    assert s3.log == [];
    LeadsNowhere(s3);
    LeadsFirst(s2, Rollback, [], s3, 0);
    LeadsOn(s, first + second, s2, [Rollback] + [], s3, 1, 0);
    var third := Resyncs(s3);
    t := s3.(active := Some(s3.active.value.(version := 0)));
    LeadsOn(s, first + second + ([Rollback] + []), s3, third, t, 1, 1);
    steps := first + second + ([Rollback] + []) + third;
  }

  lemma {:induction false} Cycles(s: State, c: nat, rounds: nat) returns (steps: seq<Step>, t: State)
    requires AtStart(s, c)
    ensures Leads(s, steps, t, 2 * rounds) && AtStart(t, c)
    decreases rounds
  {
    if rounds == 0 {
      LeadsNowhere(s);
      steps, t := [], s;
    } else {
      var first, mid := Cycle(s, c);
      var rest;
      rest, t := Cycles(mid, c, rounds - 1);
      LeadsOn(s, first, mid, rest, t, 2, 2 * (rounds - 1));
      steps := first + rest;
    }
  }

  /** With rollbacks no number of answers is enough: every newborn entry has a run that
      delivers as many as one likes and leaves it at its first seq. */
  lemma RollbacksHoldTheSeq(m: Member, budget: nat, nowMs: nat, rounds: nat) returns (steps: seq<Step>)
    ensures ValidRun(Initial(m, budget, nowMs), steps) && Staying(steps)
    ensures Delivered(Initial(m, budget, nowMs), steps) == 2 * rounds
    ensures StillAt(Run(Initial(m, budget, nowMs), steps), m.clientId, 1)
  {
    var t;
    steps, t := Cycles(Initial(m, budget, nowMs), m.clientId, rounds);
  }

  // An old request after an earlier rollback.

  /** The entry's write is appended and not answered; it counts as given up. */
  lemma AppendsUnanswered(s: State) returns (steps: seq<Step>, t: State)
    requires s.call.Idle? && s.active.Some? && s.active.value.version == |s.log| && s.durable <= |s.log|
    requires LastIndex(s.log, s.active.value.member.clientId) < 0
             || s.log[LastIndex(s.log, s.active.value.member.clientId)].seqNo < s.active.value.clientSeq
    ensures Leads(s, steps, t, 0) && Lasting(steps)
    ensures var a := s.active.value;
      t == s.(log := s.log + [Entry(a.member.clientId, a.clientSeq)], active := Some(a.Defer(0)))
  {
    var s1 := Next(s, SendWrite);
    var s2 := Next(s1, Execute);
    t := Next(s2, GiveUp(0));
    LeadsNowhere(t);
    LeadsFirst(s2, GiveUp(0), [], t, 0);
    LeadsFirst(s1, Execute, [GiveUp(0)] + [], t, 0);
    LeadsFirst(s, SendWrite, [Execute] + ([GiveUp(0)] + []), t, 0);
    steps := [SendWrite] + ([Execute] + ([GiveUp(0)] + []));
  }

  lemma Two(s: State, a: Step, b: Step)
    requires Enabled(s, a) && Enabled(Next(s, a), b)
    ensures ValidRun(s, [a, b]) && Run(s, [a, b]) == Next(Next(s, a), b)
  {
    assert [a, b][1..] == [b] && [b][1..] == [];
    assert Run(Next(s, a), [b]) == Next(Next(s, a), b);
  }

  lemma {:induction false} RunOn(s: State, a: seq<Step>, mid: State, b: seq<Step>)
    requires ValidRun(s, a) && Run(s, a) == mid && ValidRun(mid, b)
    ensures ValidRun(s, a + b) && Run(s, a + b) == Run(mid, b)
    decreases |a|
  {
    if a == [] {
      assert a + b == b;
    } else {
      HeadFirst(a, b);
      RunOn(Next(s, a[0]), a[1..], mid, b);
      assert (a + b)[1..] == a[1..] + b;
    }
  }

  /** A request that expects the version of a batch which is then rolled back. */
  function Leftover(c: nat): Request { Request(c, 1, 1) }

  function Abandoned(m: Member): State {
    State(m.aggregateId, [], 0, multiset{Leftover(m.clientId)}, None, Idle, {})
  }

  lemma LeavesRequest(m: Member, budget: nat, nowMs: nat) returns (steps: seq<Step>)
    ensures ValidRun(Initial(m, budget, nowMs), steps) && Run(Initial(m, budget, nowMs), steps) == Abandoned(m)
  {
    var s := Initial(m, budget, nowMs);
    var first, s1 := Vanishes(s, m.clientId);
    var second := Resyncs(s1);
    var s2 := s1.(active := Some(s1.active.value.(version := 1)));
    LeadsOn(s, first, s1, second, s2, 0, 1);
    var s4 := Next(Next(s2, SendWrite), GiveUp(0));
    Two(s2, SendWrite, GiveUp(0));
    assert s4.zombies == multiset{Leftover(m.clientId)};
    RunOn(s, first + second, s2, [SendWrite, GiveUp(0)]);
    Two(s4, Rollback, Evict);
    assert Next(Next(s4, Rollback), Evict) == Abandoned(m);
    RunOn(s, first + second + [SendWrite, GiveUp(0)], s4, [Rollback, Evict]);
    steps := first + second + [SendWrite, GiveUp(0)] + [Rollback, Evict];
  }

  function Reopened(m: Member, c: nat): State {
    State(m.aggregateId, [Entry(c, 1)], 1, multiset{Leftover(m.clientId)},
          Some(FillClient.Reheated(m.aggregateId, c, 1, 1, 0)), Idle, {Entry(c, 1)})
  }

  lemma Reopens(m: Member, c: nat) returns (steps: seq<Step>)
    ensures ValidRun(Abandoned(m), steps) && Run(Abandoned(m), steps) == Reopened(m, c)
  {
    var s := Abandoned(m);
    var s2 := Next(Next(s, SendReheat(c, 0)), Execute);
    Two(s, SendReheat(c, 0), Execute);
    assert s2.log == [Entry(c, 1)];
    Two(s2, Harden(1), Ack(0, true));
    assert Next(Next(s2, Harden(1)), Ack(0, true)) == Reopened(m, c);
    RunOn(s, [SendReheat(c, 0), Execute], s2, [Harden(1), Ack(0, true)]);
    steps := [SendReheat(c, 0), Execute] + [Harden(1), Ack(0, true)];
  }

  lemma ReopenedIsBehind(m: Member, c: nat)
    ensures Recovery.Behind(Reopened(m, c), Reopened(m, c).zombies, c, 2) == 2
  {
    CountAppend([], Entry(c, 1), c);
    assert [] + [Entry(c, 1)] == [Entry(c, 1)];
    assert Count(Reopened(m, c).log, c) == 1;
  }

  /** The leftover request lands first, then the entry's own write goes unanswered. */
  lemma TwoAnswersFallShort(m: Member, c: nat) returns (steps: seq<Step>, t: State)
    requires c != m.clientId
    ensures Leads(Reopened(m, c), steps, t, 2) && Lasting(steps) && StillAt(t, c, 2)
  {
    var s, z := Reopened(m, c), Leftover(m.clientId);
    var s1 := Next(s, LateExecute(z));
    assert s1.log == [Entry(c, 1), Entry(m.clientId, 1)];
    LeadsNowhere(s1);
    LeadsFirst(s, LateExecute(z), [], s1, 0);
    var first := Resyncs(s1);
    var s2 := s1.(active := Some(s1.active.value.(version := 2)));
    LeadsOn(s, [LateExecute(z)] + [], s1, first, s2, 0, 1);
    assert s2.log[..1] == [Entry(c, 1)];
    var second, s3 := AppendsUnanswered(s2);
    LeadsOn(s, [LateExecute(z)] + [] + first, s2, second, s3, 1, 0);
    var third := Resyncs(s3);
    t := s3.(active := Some(s3.active.value.(version := 3)));
    LeadsOn(s, [LateExecute(z)] + [] + first + second, s3, third, t, 1, 1);
    steps := [LateExecute(z)] + [] + first + second + third;
  }

  /** After one rollback two answers are not enough even though nothing is rolled back any
      more: the entry is two behind, and stays at its seq through two answers. */
  lemma OldRequestCostsAnAnswer(m: Member, budget: nat, nowMs: nat, c: nat)
    returns (before: seq<Step>, steps: seq<Step>)
    requires c != m.clientId
    ensures ValidRun(Initial(m, budget, nowMs), before)
    ensures var s := Run(Initial(m, budget, nowMs), before);
      && StillAt(s, c, 2) && Recovery.Behind(s, s.zombies, c, 2) == 2
      && ValidRun(s, steps) && Lasting(steps) && Staying(steps) && Delivered(s, steps) == 2
      && StillAt(Run(s, steps), c, 2)
  {
    var a := LeavesRequest(m, budget, nowMs);
    var b := Reopens(m, c);
    RunOn(Initial(m, budget, nowMs), a, Abandoned(m), b);
    before := a + b;
    var t;
    steps, t := TwoAnswersFallShort(m, c);
    ReopenedIsBehind(m, c);
  }
}
