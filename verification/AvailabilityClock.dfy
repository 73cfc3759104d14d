/** The lock-free availability clock, one atomic operation at a time. Any number of
    writers record acks; their operations interleave arbitrarily with each other and
    with marking the kill. */
module AvailabilityClock {
  import opened Wrappers

  /** What a writer inside `record_at_us` does next. */
  datatype Next =
    | Widen(us: nat, gap: nat)
    | LoadKill(us: nat)
    | LowerAfter(us: nat)
    | RaiseBefore(us: nat)
    | SetSaw

  datatype State = State(
    killUs: nat,
    sawOkBefore: bool,
    lastOkBeforeUs: nat,
    firstOkAfterUs: nat,
    maxAckGapUs: nat,
    prevOkUs: nat,
    writers: map<nat, Next>,
    swaps: seq<nat>)

  /** `swaps` lists the acks in the order their swaps landed. */
  const INITIAL: State := State(U64_MAX, false, 0, U64_MAX, 0, U64_MAX, map[], [])

  datatype Step = Swap(writer: nat, us: nat) | Continue(writer: nat) | MarkKill(us: nat)

  ghost predicate Enabled(s: State, step: Step) {
    match step
    case Swap(w, us) => w !in s.writers && us < U64_MAX
    case Continue(w) => w in s.writers
    case MarkKill(us) => us < U64_MAX
  }

  function Leave(s: State, w: nat): map<nat, Next> { s.writers - {w} }

  function Apply(s: State, step: Step): State
    requires Enabled(s, step)
  {
    match step
    case Swap(w, us) =>
      var prev := s.prevOkUs;
      var next := if prev != U64_MAX && prev < us then Widen(us, us - prev) else LoadKill(us);
      s.(prevOkUs := us, writers := s.writers[w := next], swaps := s.swaps + [us])
    case MarkKill(us) => s.(killUs := us)
    case Continue(w) =>
      match s.writers[w]
      case Widen(us, gap) =>
        s.(maxAckGapUs := Max(s.maxAckGapUs, gap), writers := s.writers[w := LoadKill(us)])
      case LoadKill(us) =>
        var next := if s.killUs != U64_MAX && s.killUs <= us then LowerAfter(us) else RaiseBefore(us);
        s.(writers := s.writers[w := next])
      case LowerAfter(us) => s.(firstOkAfterUs := Min(s.firstOkAfterUs, us), writers := Leave(s, w))
      case RaiseBefore(us) => s.(lastOkBeforeUs := Max(s.lastOkBeforeUs, us), writers := s.writers[w := SetSaw])
      case SetSaw => s.(sawOkBefore := true, writers := Leave(s, w))
  }

  ghost predicate ValidRun(s: State, steps: seq<Step>)
    decreases steps
  {
    steps == [] || (Enabled(s, steps[0]) && ValidRun(Apply(s, steps[0]), steps[1..]))
  }

  function Run(s: State, steps: seq<Step>): State
    requires ValidRun(s, steps)
    decreases steps
  {
    if steps == [] then s else Run(Apply(s, steps[0]), steps[1..])
  }

  function MaxAckGap(s: State): Option<nat> {
    if s.maxAckGapUs == 0 then None else Some(s.maxAckGapUs)
  }

  /** `gap` reads four atomics one after the other, so each read may see a later state. */
  function TornGap(s1: State, s2: State, s3: State, s4: State): Option<nat> {
    if s3.killUs == U64_MAX || !s4.sawOkBefore || s2.firstOkAfterUs == U64_MAX then None
    else Some(if s2.firstOkAfterUs < s1.lastOkBeforeUs then 0 else s2.firstOkAfterUs - s1.lastOkBeforeUs)
  }

  // The largest step up between acks adjacent in swap order.

  function StepUp(a: nat, b: nat): nat { if a < b then b - a else 0 }

  function LargestStep(xs: seq<nat>): nat {
    if |xs| < 2 then 0
    else Max(LargestStep(xs[..|xs| - 1]), StepUp(xs[|xs| - 2], xs[|xs| - 1]))
  }

  lemma {:induction false} LargestStepMeaning(xs: seq<nat>)
    ensures forall i :: 0 < i < |xs| ==> StepUp(xs[i - 1], xs[i]) <= LargestStep(xs)
    ensures 0 < LargestStep(xs) ==> exists i :: 0 < i < |xs| && StepUp(xs[i - 1], xs[i]) == LargestStep(xs)
  {
    if |xs| < 2 {
    } else {
      var n := |xs| - 1;
      LargestStepMeaning(xs[..n]);
      forall i | 0 < i < |xs|
        ensures StepUp(xs[i - 1], xs[i]) <= LargestStep(xs)
      {
        if i < n {
          assert StepUp(xs[..n][i - 1], xs[..n][i]) <= LargestStep(xs[..n]);
        }
      }
      if LargestStep(xs) == LargestStep(xs[..n]) && 0 < LargestStep(xs) {
        var i :| 0 < i < n && StepUp(xs[..n][i - 1], xs[..n][i]) == LargestStep(xs[..n]);
        assert StepUp(xs[i - 1], xs[i]) == LargestStep(xs);
      } else {
        assert 0 < LargestStep(xs) ==> StepUp(xs[n - 1], xs[n]) == LargestStep(xs);
      }
    }
  }

  // The invariant.

  /** The largest step is in the clock already, or about to be. */
  ghost predicate Inv(s: State) {
    var top := LargestStep(s.swaps);
    && (forall i :: 0 <= i < |s.swaps| ==> s.swaps[i] < U64_MAX)
    && s.prevOkUs == (if s.swaps == [] then U64_MAX else s.swaps[|s.swaps| - 1])
    && s.maxAckGapUs <= top
    && (forall w :: w in s.writers && s.writers[w].Widen? ==> s.writers[w].gap <= top)
    && (s.maxAckGapUs == top || exists w :: w in s.writers && s.writers[w].Widen? && s.writers[w].gap == top)
  }

  lemma SwapKeeps(s: State, w: nat, us: nat)
    requires Inv(s) && Enabled(s, Swap(w, us))
    ensures Inv(Apply(s, Swap(w, us)))
  {
    var s' := Apply(s, Swap(w, us));
    assert s'.swaps[..|s.swaps|] == s.swaps;
    var top, top' := LargestStep(s.swaps), LargestStep(s'.swaps);
    if s.swaps != [] && top < StepUp(s.prevOkUs, us) {
      assert s'.writers[w] == Widen(us, top');
    } else {
      assert top' == top;
      if s.maxAckGapUs != top {
        var v :| v in s.writers && s.writers[v].Widen? && s.writers[v].gap == top;
        assert s'.writers[v] == s.writers[v];
      }
    }
  }

  lemma ContinueKeeps(s: State, w: nat)
    requires Inv(s) && w in s.writers
    ensures Inv(Apply(s, Continue(w)))
  {
    var s' := Apply(s, Continue(w));
    var top := LargestStep(s.swaps);
    if s.maxAckGapUs != top {
      var v :| v in s.writers && s.writers[v].Widen? && s.writers[v].gap == top;
      if v != w {
        assert s'.writers[v] == s.writers[v];
      }
    }
  }

  lemma {:induction false} InvRun(s: State, steps: seq<Step>)
    requires Inv(s) && ValidRun(s, steps)
    ensures Inv(Run(s, steps))
    decreases steps
  {
    if steps == [] {
    } else {
      match steps[0] {
        case Swap(w, us) => SwapKeeps(s, w, us);
        case Continue(w) => ContinueKeeps(s, w);
        case MarkKill(_) =>
      }
      InvRun(Apply(s, steps[0]), steps[1..]);
    }
  }

  ghost predicate Quiet(s: State) {
    forall w :: w in s.writers ==> !s.writers[w].Widen?
  }

  /** When no writer is about to widen it, the reported gap is the largest step up in
      swap order: it depends on nothing else, in particular not on when the kill was
      marked. It is never more than that in any reachable state. */
  lemma GapIsLargestStep(steps: seq<Step>)
    requires ValidRun(INITIAL, steps)
    ensures var s := Run(INITIAL, steps);
      && s.maxAckGapUs <= LargestStep(s.swaps)
      && (Quiet(s) ==> s.maxAckGapUs == LargestStep(s.swaps))
  {
    InvRun(INITIAL, steps);
  }

  /** Two runs whose swaps landed alike report alike, whatever their kills were. */
  lemma GapIgnoresKill(run1: seq<Step>, run2: seq<Step>)
    requires ValidRun(INITIAL, run1) && ValidRun(INITIAL, run2)
    requires Run(INITIAL, run1).swaps == Run(INITIAL, run2).swaps
    requires Quiet(Run(INITIAL, run1)) && Quiet(Run(INITIAL, run2))
    ensures MaxAckGap(Run(INITIAL, run1)) == MaxAckGap(Run(INITIAL, run2))
  {
    GapIsLargestStep(run1);
    GapIsLargestStep(run2);
  }

  // Outages.

  /** No ack inside the open interval. */
  ghost predicate Silent(xs: seq<nat>, from: nat, to: nat) {
    from < to && forall i :: 0 <= i < |xs| ==> xs[i] <= from || to <= xs[i]
  }

  /** Some ack from before the interval was swapped ahead of some ack from after it. */
  ghost predicate Opened(xs: seq<nat>, from: nat, to: nat) {
    exists i, j :: 0 <= i < j < |xs| && xs[i] <= from && to <= xs[j]
  }

  /** Some adjacent pair of swaps steps across the interval. */
  ghost predicate Crossed(xs: seq<nat>, from: nat, to: nat) {
    exists k :: 0 < k < |xs| && xs[k - 1] <= from && to <= xs[k]
  }

  lemma {:induction false} SomethingCrosses(xs: seq<nat>, from: nat, to: nat, i: nat, j: nat) returns (k: nat)
    requires Silent(xs, from, to) && i < j < |xs| && xs[i] <= from && to <= xs[j]
    ensures i < k <= j && xs[k - 1] <= from && to <= xs[k]
    decreases j
  {
    if xs[j - 1] <= from {
      k := j;
    } else {
      k := SomethingCrosses(xs, from, to, i, j - 1);
    }
  }

  /** A silence leaves its trace exactly when it was opened, whatever order the swaps
      landed in; and then the largest step covers it. */
  lemma OutageNeverUnderstated(xs: seq<nat>, from: nat, to: nat)
    requires Silent(xs, from, to)
    ensures Crossed(xs, from, to) <==> Opened(xs, from, to)
    ensures Opened(xs, from, to) ==> to - from <= LargestStep(xs)
  {
    if Opened(xs, from, to) {
      var i, j :| 0 <= i < j < |xs| && xs[i] <= from && to <= xs[j];
      var k := SomethingCrosses(xs, from, to, i, j);
      LargestStepMeaning(xs);
      assert StepUp(xs[k - 1], xs[k]) <= LargestStep(xs);
    }
  }

  /** In every run the clock covers every silence that was opened. */
  lemma ClockNeverUnderstates(steps: seq<Step>, from: nat, to: nat)
    requires ValidRun(INITIAL, steps) && Quiet(Run(INITIAL, steps))
    requires Silent(Run(INITIAL, steps).swaps, from, to) && Opened(Run(INITIAL, steps).swaps, from, to)
    ensures MaxAckGap(Run(INITIAL, steps)).Some? && to - from <= MaxAckGap(Run(INITIAL, steps)).value
  {
    GapIsLargestStep(steps);
    OutageNeverUnderstated(Run(INITIAL, steps).swaps, from, to);
  }

  lemma Two(s: State, a: Step, b: Step)
    requires Enabled(s, a) && Enabled(Apply(s, a), b)
    ensures ValidRun(s, [a, b]) && Run(s, [a, b]) == Apply(Apply(s, a), b)
  {
    assert [a, b][1..] == [b] && [b][1..] == [];
    assert Run(Apply(s, a), [b]) == Apply(Apply(s, a), b);
  }

  lemma {:induction false} RunConcat(s: State, a: seq<Step>, b: seq<Step>)
    requires ValidRun(s, a) && ValidRun(Run(s, a), b)
    ensures ValidRun(s, a + b) && Run(s, a + b) == Run(Run(s, a), b)
    decreases a
  {
    if a == [] {
      assert a + b == b;
    } else {
      RunConcat(Apply(s, a[0]), a[1..], b);
      assert (a + b)[1..] == a[1..] + b;
    }
  }

  /** Any silence can be missed: swapped in reverse, its two acks report no gap. */
  lemma UnopenedSilenceMissed(from: nat, to: nat) returns (steps: seq<Step>)
    requires from < to < U64_MAX
    ensures ValidRun(INITIAL, steps)
    ensures var s := Run(INITIAL, steps);
      && Quiet(s) && from in s.swaps && to in s.swaps
      && Silent(s.swaps, from, to) && !Opened(s.swaps, from, to) && MaxAckGap(s) == None
  {
    steps := [Swap(0, to), Swap(1, from)];
    Two(INITIAL, Swap(0, to), Swap(1, from));
    assert Run(INITIAL, steps).swaps == [to, from];
  }

  /** Any step can be overstated: an ack inside it that swaps too late is not seen, and
      the clock reports more than any silence between two acks. */
  lemma LateAckOverstates(a: nat, c: nat, b: nat) returns (steps: seq<Step>)
    requires a < c < b < U64_MAX
    ensures ValidRun(INITIAL, steps)
    ensures var s := Run(INITIAL, steps);
      && Quiet(s) && s.swaps == [a, b, c] && MaxAckGap(s) == Some(b - a)
      && forall from, to :: from in s.swaps && to in s.swaps && Silent(s.swaps, from, to) ==> to - from < b - a
  {
    Two(INITIAL, Swap(0, a), Swap(1, b));
    var s2 := Run(INITIAL, [Swap(0, a), Swap(1, b)]);
    Two(s2, Continue(1), Swap(2, c));
    steps := [Swap(0, a), Swap(1, b)] + [Continue(1), Swap(2, c)];
    RunConcat(INITIAL, [Swap(0, a), Swap(1, b)], [Continue(1), Swap(2, c)]);
    var xs := Run(INITIAL, steps).swaps;
    assert xs == [a, b, c];
    assert xs[2] == c;
  }

  /** The swaps opened a silence of this length. */
  ghost predicate OpenedSilence(xs: seq<nat>, length: nat) {
    exists from: nat, to: nat :: Silent(xs, from, to) && Opened(xs, from, to) && to - from == length
  }

  /** The `k`-th step is the largest, and no other ack lies strictly inside it. */
  ghost predicate CleanStep(xs: seq<nat>, k: nat) {
    0 < k < |xs| && StepUp(xs[k - 1], xs[k]) == LargestStep(xs) && Silent(xs, xs[k - 1], xs[k])
  }

  lemma SilenceIsClean(xs: seq<nat>, from: nat, to: nat) returns (k: nat)
    requires Silent(xs, from, to) && Opened(xs, from, to) && to - from == LargestStep(xs)
    ensures CleanStep(xs, k)
  {
    OutageNeverUnderstated(xs, from, to);
    k :| 0 < k < |xs| && xs[k - 1] <= from && to <= xs[k];
    LargestStepMeaning(xs);
    assert StepUp(xs[k - 1], xs[k]) <= LargestStep(xs);
  }

  /** The reported gap is a silence the swaps opened exactly when some step that attains
      it has no other ack strictly inside. */
  lemma ReportedGapIsSilenceIff(xs: seq<nat>)
    ensures OpenedSilence(xs, LargestStep(xs)) <==> exists k: nat :: CleanStep(xs, k)
  {
    if OpenedSilence(xs, LargestStep(xs)) {
      var from: nat, to: nat :| Silent(xs, from, to) && Opened(xs, from, to) && to - from == LargestStep(xs);
      var k := SilenceIsClean(xs, from, to);
    }
    if k: nat :| CleanStep(xs, k) {
      assert Opened(xs, xs[k - 1], xs[k]);
    }
  }

  ghost predicate InOrder(xs: seq<nat>) {
    forall i, j :: 0 <= i < j < |xs| ==> xs[i] <= xs[j]
  }

  /** For acks in order it is exact: no silence between two acks is longer, and one is
      as long. */
  lemma InOrderCovers(xs: seq<nat>, i: nat, j: nat)
    requires InOrder(xs) && i < |xs| && j < |xs| && Silent(xs, xs[i], xs[j])
    ensures xs[j] - xs[i] <= LargestStep(xs)
  {
    assert i < j;
    assert Opened(xs, xs[i], xs[j]);
    OutageNeverUnderstated(xs, xs[i], xs[j]);
  }

  lemma InOrderAttains(xs: seq<nat>) returns (i: nat)
    requires InOrder(xs) && 0 < LargestStep(xs)
    ensures 0 < i < |xs| && Silent(xs, xs[i - 1], xs[i]) && xs[i] - xs[i - 1] == LargestStep(xs)
  {
    LargestStepMeaning(xs);
    i :| 0 < i < |xs| && StepUp(xs[i - 1], xs[i]) == LargestStep(xs);
    forall k | 0 <= k < |xs|
      ensures xs[k] <= xs[i - 1] || xs[i] <= xs[k]
    {
      if k < i - 1 {
        assert xs[k] <= xs[i - 1];
      } else if i < k {
        assert xs[i] <= xs[k];
      }
    }
  }

  // The anchored gap.

  /** What no step undoes. */
  ghost predicate Later(s: State, s': State) {
    && (s.killUs != U64_MAX ==> s'.killUs != U64_MAX)
    && (s.sawOkBefore ==> s'.sawOkBefore)
    && s.lastOkBeforeUs <= s'.lastOkBeforeUs
    && s'.firstOkAfterUs <= s.firstOkAfterUs
  }

  lemma {:induction false} RunIsLater(s: State, steps: seq<Step>)
    requires ValidRun(s, steps)
    ensures Later(s, Run(s, steps))
    decreases steps
  {
    if steps == [] {
    } else {
      assert Later(s, Apply(s, steps[0]));
      RunIsLater(Apply(s, steps[0]), steps[1..]);
    }
  }

  ghost predicate Reaches(s: State, s': State) {
    exists steps :: ValidRun(s, steps) && Run(s, steps) == s'
  }

  lemma ReachesLater(s: State, s': State)
    requires Reaches(s, s')
    ensures Later(s, s')
  {
    var steps :| ValidRun(s, steps) && Run(s, steps) == s';
    RunIsLater(s, steps);
  }

  /** Once a read of the anchored gap defines it, every read whose four loads come no
      earlier, each than its counterpart, defines it too and reports no more. Both
      reads may straddle other writers' steps, and each other. */
  lemma GapNeverGrows(s1: State, s2: State, s3: State, s4: State, t1: State, t2: State, t3: State, t4: State)
    requires Reaches(INITIAL, s2)
    requires Reaches(s1, t1) && Reaches(s2, t2) && Reaches(s3, t3) && Reaches(s4, t4)
    requires TornGap(s1, s2, s3, s4).Some?
    ensures TornGap(t1, t2, t3, t4).Some? && TornGap(t1, t2, t3, t4).value <= TornGap(s1, s2, s3, s4).value
  {
    ReachesLater(INITIAL, s2);
    ReachesLater(s1, t1);
    ReachesLater(s2, t2);
    ReachesLater(s3, t3);
    ReachesLater(s4, t4);
  }
}
