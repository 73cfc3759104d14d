/** The anchored gap of the availability clock: the last ack before the kill against
    the first one after it, over runs with a single kill time. */
module AnchoredGap {
  import opened Wrappers
  import opened AvailabilityClock

  /** `gap` read with no writer in between. */
  function Gap(s: State): Option<nat> { TornGap(s, s, s, s) }

  ghost predicate OnlyKill(steps: seq<Step>, k: nat) {
    forall i :: 0 <= i < |steps| && steps[i].MarkKill? ==> steps[i].us == k
  }

  // Acks by what they saw when they loaded the kill time.

  predicate Loads(s: State, step: Step) {
    step.Continue? && step.writer in s.writers && s.writers[step.writer].LoadKill?
  }

  function Loaded(s: State, step: Step, marked: bool): set<nat> {
    if Loads(s, step) && (s.killUs != U64_MAX) == marked then {s.writers[step.writer].us} else {}
  }

  /** The acks that loaded the kill time before, or after, it was marked. */
  function LoadedIn(s: State, steps: seq<Step>, marked: bool): set<nat>
    requires ValidRun(s, steps)
    decreases steps
  {
    if steps == [] then {}
    else Loaded(s, steps[0], marked) + LoadedIn(Apply(s, steps[0]), steps[1..], marked)
  }

  /** Acks on the near side of the kill: those that could not know of it, and those
      from before it. */
  function Near(k: nat, early: set<nat>, late: set<nat>): set<nat> {
    early + set x | x in late && x < k
  }

  /** Acks on the far side: from the kill on, and knowing of it. */
  function Far(k: nat, late: set<nat>): set<nat> {
    set x | x in late && k <= x
  }

  // The invariant, one concern per predicate.

  ghost predicate Acks(s: State, early: set<nat>, late: set<nat>) {
    && (forall x :: x in s.swaps ==> x < U64_MAX)
    && (forall x :: x in early || x in late ==> x in s.swaps)
    && (forall w :: w in s.writers && (s.writers[w].Widen? || s.writers[w].LoadKill?) ==> s.writers[w].us in s.swaps)
    && (forall x :: x in s.swaps ==> x in early || x in late || AboutToLoad(s, x))
  }

  ghost predicate AboutToLoad(s: State, x: nat) {
    exists w :: w in s.writers && (s.writers[w].Widen? || s.writers[w].LoadKill?) && s.writers[w].us == x
  }

  ghost predicate FarOk(s: State, k: nat, late: set<nat>) {
    && (s.firstOkAfterUs == U64_MAX || s.firstOkAfterUs in Far(k, late))
    && (forall w :: w in s.writers && s.writers[w].LowerAfter? ==> s.writers[w].us in Far(k, late))
    && (forall x :: x in Far(k, late) ==> s.firstOkAfterUs <= x || exists w :: AboutTo(s, w, LowerAfter(x)))
  }

  ghost predicate NearOk(s: State, near: set<nat>) {
    && (s.lastOkBeforeUs == 0 || s.lastOkBeforeUs in near)
    && (s.sawOkBefore ==> s.lastOkBeforeUs in near)
    && (forall w :: w in s.writers && s.writers[w].RaiseBefore? ==> s.writers[w].us in near)
    && (forall w :: w in s.writers && s.writers[w].SetSaw? ==> s.lastOkBeforeUs in near)
    && (forall x :: x in near ==> x <= s.lastOkBeforeUs || exists w :: AboutTo(s, w, RaiseBefore(x)))
    && (near != {} ==> s.sawOkBefore || exists w :: Raising(s, w))
  }

  ghost predicate AboutTo(s: State, w: nat, next: Next) { w in s.writers && s.writers[w] == next }

  ghost predicate Raising(s: State, w: nat) {
    w in s.writers && (s.writers[w].RaiseBefore? || s.writers[w].SetSaw?)
  }

  ghost predicate KillOk(s: State, k: nat, late: set<nat>) {
    (s.killUs == U64_MAX || s.killUs == k) && (late != {} ==> s.killUs == k)
  }

  ghost predicate Anchored(s: State, k: nat, early: set<nat>, late: set<nat>) {
    k < U64_MAX && Acks(s, early, late) && KillOk(s, k, late) && FarOk(s, k, late) && NearOk(s, Near(k, early, late))
  }

  lemma AcksKept(s: State, step: Step, early: set<nat>, late: set<nat>)
    requires Acks(s, early, late) && Enabled(s, step)
    ensures Acks(Apply(s, step), early + Loaded(s, step, false), late + Loaded(s, step, true))
  {
    var s' := Apply(s, step);
    forall x | x in s'.swaps && x !in early + Loaded(s, step, false) && x !in late + Loaded(s, step, true)
      ensures AboutToLoad(s', x)
    {
      if step.Swap? && x == step.us {
        assert s'.writers[step.writer].us == x;
      } else {
        var w :| w in s.writers && (s.writers[w].Widen? || s.writers[w].LoadKill?) && s.writers[w].us == x;
        assert s'.writers[w].us == x;
      }
    }
  }

  lemma FarKept(s: State, step: Step, k: nat, early: set<nat>, late: set<nat>)
    requires Acks(s, early, late) && KillOk(s, k, late) && FarOk(s, k, late) && Enabled(s, step)
    requires k < U64_MAX && (step.MarkKill? ==> step.us == k)
    ensures KillOk(Apply(s, step), k, late + Loaded(s, step, true))
    ensures FarOk(Apply(s, step), k, late + Loaded(s, step, true))
  {
    var s', late' := Apply(s, step), late + Loaded(s, step, true);
    forall x | x in Far(k, late') && x < s'.firstOkAfterUs
      ensures exists w :: AboutTo(s', w, LowerAfter(x))
    {
      if x in Far(k, late) {
        var w :| AboutTo(s, w, LowerAfter(x));
        assert AboutTo(s', w, LowerAfter(x));
      } else {
        assert AboutTo(s', step.writer, LowerAfter(x));
      }
    }
  }

  /** Any step but a load leaves the near side alone. */
  lemma NearKept(s: State, step: Step, near: set<nat>)
    requires NearOk(s, near) && Enabled(s, step) && !Loads(s, step)
    ensures NearOk(Apply(s, step), near)
  {
    var s' := Apply(s, step);
    forall x | x in near && s'.lastOkBeforeUs < x
      ensures exists w :: AboutTo(s', w, RaiseBefore(x))
    {
      var w :| AboutTo(s, w, RaiseBefore(x));
      assert AboutTo(s', w, RaiseBefore(x));
    }
    if near != {} && !s'.sawOkBefore {
      var w :| Raising(s, w);
      assert Raising(s', w);
    }
  }

  lemma LoadNearKept(s: State, w: nat, near: set<nat>)
    requires NearOk(s, near) && w in s.writers && s.writers[w].LoadKill?
    ensures var us := s.writers[w].us; var s' := Apply(s, Continue(w));
      NearOk(s', if s'.writers[w].RaiseBefore? then near + {us} else near)
  {
    var s' := Apply(s, Continue(w));
    forall x | x in near && s.lastOkBeforeUs < x
      ensures exists v :: AboutTo(s', v, RaiseBefore(x))
    {
      var v :| AboutTo(s, v, RaiseBefore(x));
      assert AboutTo(s', v, RaiseBefore(x));
    }
    if near != {} && !s.sawOkBefore {
      var v :| Raising(s, v);
      assert Raising(s', v);
    }
    if s'.writers[w].RaiseBefore? {
      assert Raising(s', w) && AboutTo(s', w, RaiseBefore(s.writers[w].us));
    }
  }

  lemma AnchoredStep(s: State, step: Step, k: nat, early: set<nat>, late: set<nat>)
    requires Anchored(s, k, early, late) && Enabled(s, step) && (step.MarkKill? ==> step.us == k)
    ensures Anchored(Apply(s, step), k, early + Loaded(s, step, false), late + Loaded(s, step, true))
  {
    AcksKept(s, step, early, late);
    FarKept(s, step, k, early, late);
    var early', late' := early + Loaded(s, step, false), late + Loaded(s, step, true);
    var near, near' := Near(k, early, late), Near(k, early', late');
    if Loads(s, step) {
      LoadNearKept(s, step.writer, near);
      var us := s.writers[step.writer].us;
      assert near' == if s.killUs == U64_MAX || us < k then near + {us} else near;
    } else {
      NearKept(s, step, near);
      assert near' == near;
    }
  }

  lemma LoadedFirst(s: State, steps: seq<Step>, marked: bool, before: set<nat>)
    requires steps != [] && ValidRun(s, steps)
    ensures before + LoadedIn(s, steps, marked)
         == (before + Loaded(s, steps[0], marked)) + LoadedIn(Apply(s, steps[0]), steps[1..], marked)
  {
  }

  lemma {:induction false} AnchoredRun(s: State, steps: seq<Step>, k: nat, early: set<nat>, late: set<nat>)
    requires Anchored(s, k, early, late) && ValidRun(s, steps) && OnlyKill(steps, k)
    ensures Anchored(Run(s, steps), k, early + LoadedIn(s, steps, false), late + LoadedIn(s, steps, true))
    decreases steps
  {
    if steps == [] {
      assert early + {} == early && late + {} == late;
    } else {
      LoadedFirst(s, steps, false, early);
      LoadedFirst(s, steps, true, late);
      AnchoredStep(s, steps[0], k, early, late);
      AnchoredRun(Apply(s, steps[0]), steps[1..], k,
                  early + Loaded(s, steps[0], false), late + Loaded(s, steps[0], true));
    }
  }

  lemma AnchoredFromStart(steps: seq<Step>, k: nat)
    requires ValidRun(INITIAL, steps) && OnlyKill(steps, k) && k < U64_MAX
    ensures Anchored(Run(INITIAL, steps), k, LoadedIn(INITIAL, steps, false), LoadedIn(INITIAL, steps, true))
  {
    AnchoredRun(INITIAL, steps, k, {}, {});
    var early, late := LoadedIn(INITIAL, steps, false), LoadedIn(INITIAL, steps, true);
    assert {} + early == early && {} + late == late;
  }

  // What the two watermarks mean.

  /** In every reachable state the far watermark is unset or an ack from the kill on, and
      the near one, once announced, is an ack. */
  lemma WatermarksAreAcks(steps: seq<Step>, k: nat)
    requires ValidRun(INITIAL, steps) && OnlyKill(steps, k) && k < U64_MAX
    ensures var s := Run(INITIAL, steps);
      && (s.firstOkAfterUs == U64_MAX || (k <= s.firstOkAfterUs && s.firstOkAfterUs in s.swaps))
      && (s.sawOkBefore ==> s.lastOkBeforeUs in s.swaps)
  {
    AnchoredFromStart(steps, k);
  }

  /** With no writer under way, `last` is the newest of a set of acks and `first` the
      oldest of another. */
  ghost predicate Newest(last: nat, acks: set<nat>) { last in acks && forall x :: x in acks ==> x <= last }
  ghost predicate Oldest(first: nat, acks: set<nat>) { first in acks && forall x :: x in acks ==> first <= x }

  /** Once every writer has finished, every ack is on one side, the gap is defined exactly
      when both sides have one, and it runs from the newest near ack to the oldest far
      one. */
  lemma GapAtRest(steps: seq<Step>, k: nat)
    requires ValidRun(INITIAL, steps) && OnlyKill(steps, k) && k < U64_MAX && Run(INITIAL, steps).writers == map[]
    ensures var s := Run(INITIAL, steps);
      var early, late := LoadedIn(INITIAL, steps, false), LoadedIn(INITIAL, steps, true);
      var near, far := Near(k, early, late), Far(k, late);
      && (forall x :: x in s.swaps <==> x in near || x in far)
      && (Gap(s).Some? <==> near != {} && far != {})
      && (near != {} ==> Newest(s.lastOkBeforeUs, near))
      && (far != {} ==> Oldest(s.firstOkAfterUs, far))
      && (Gap(s).Some? ==> Gap(s).value == StepUp(s.lastOkBeforeUs, s.firstOkAfterUs))
  {
    AnchoredFromStart(steps, k);
    var s := Run(INITIAL, steps);
    var early, late := LoadedIn(INITIAL, steps, false), LoadedIn(INITIAL, steps, true);
    var near, far := Near(k, early, late), Far(k, late);
    forall x | x in s.swaps
      ensures x in near || x in far
    {
      assert x in early || x in late;
    }
    if near != {} {
      var x :| x in near;
    }
    if far != {} {
      var x :| x in far;
      assert x in s.swaps;
    }
  }

  /** If every ack from the kill on loads it after it was marked, the gap is the silence
      around the kill: from the last ack before it to the first one from it on. */
  lemma GapIsSilenceAroundKill(steps: seq<Step>, k: nat)
    requires ValidRun(INITIAL, steps) && OnlyKill(steps, k) && k < U64_MAX && Run(INITIAL, steps).writers == map[]
    requires forall x :: x in LoadedIn(INITIAL, steps, false) ==> x < k
    ensures var s := Run(INITIAL, steps);
      && (Gap(s).Some? <==> (exists x :: x in s.swaps && x < k) && (exists x :: x in s.swaps && k <= x))
      && (Gap(s).Some? ==>
            && s.lastOkBeforeUs in s.swaps && s.firstOkAfterUs in s.swaps
            && s.lastOkBeforeUs < k <= s.firstOkAfterUs
            && Silent(s.swaps, s.lastOkBeforeUs, s.firstOkAfterUs)
            && Gap(s).value == s.firstOkAfterUs - s.lastOkBeforeUs)
  {
    GapAtRest(steps, k);
    var s := Run(INITIAL, steps);
    var early, late := LoadedIn(INITIAL, steps, false), LoadedIn(INITIAL, steps, true);
    var near, far := Near(k, early, late), Far(k, late);
    assert forall x :: x in near ==> x in s.swaps && x < k;
    assert forall x :: x in far ==> x in s.swaps && k <= x;
    assert forall x :: x in s.swaps ==> if x < k then x in near else x in far;
    if Gap(s).Some? {
      forall i | 0 <= i < |s.swaps|
        ensures s.swaps[i] <= s.lastOkBeforeUs || s.firstOkAfterUs <= s.swaps[i]
      {
        assert s.swaps[i] in s.swaps;
      }
    }
  }

  // Can the gap come out negative?

  /** The subtraction stays above zero exactly when no ack that loaded the kill too early
      is later than one that loaded it in time; otherwise only its saturation hides it. */
  lemma GapOrderedIff(steps: seq<Step>, k: nat)
    requires ValidRun(INITIAL, steps) && OnlyKill(steps, k) && k < U64_MAX && Run(INITIAL, steps).writers == map[]
    requires Gap(Run(INITIAL, steps)).Some?
    ensures var s := Run(INITIAL, steps);
      s.lastOkBeforeUs <= s.firstOkAfterUs <==>
      forall x, y :: x in LoadedIn(INITIAL, steps, false) && y in LoadedIn(INITIAL, steps, true) && k <= y ==> x <= y
  {
    GapAtRest(steps, k);
    var s := Run(INITIAL, steps);
    var early, late := LoadedIn(INITIAL, steps, false), LoadedIn(INITIAL, steps, true);
    var near, far := Near(k, early, late), Far(k, late);
    assert s.lastOkBeforeUs in near && s.firstOkAfterUs in far;
    forall x, y | x in early && y in late && k <= y && s.lastOkBeforeUs <= s.firstOkAfterUs
      ensures x <= y
    {
      assert x in near && y in far;
    }
  }

  lemma Extend(steps: seq<Step>, s: State, step: Step)
    requires ValidRun(INITIAL, steps) && Run(INITIAL, steps) == s && Enabled(s, step)
    ensures ValidRun(INITIAL, steps + [step]) && Run(INITIAL, steps + [step]) == Apply(s, step)
  {
    assert [step][1..] == [];
    assert Run(Apply(s, step), []) == Apply(s, step);
    RunConcat(INITIAL, steps, [step]);
  }

  /** It does happen: of two acks after the kill the later one loads before the mark, and
      its watermark ends above the other's. */
  lemma StaleLoadInverts(k: nat, a: nat, b: nat) returns (steps: seq<Step>)
    requires k <= a < b < U64_MAX
    ensures ValidRun(INITIAL, steps) && OnlyKill(steps, k)
    ensures var s := Run(INITIAL, steps);
      && s.writers == map[] && s.swaps == [b, a]
      && s.firstOkAfterUs == a < b == s.lastOkBeforeUs && Gap(s) == Some(0)
  {
    steps := [Swap(0, b), Continue(0)];
    Two(INITIAL, Swap(0, b), Continue(0));
    var s := Run(INITIAL, steps);
    assert s.writers == map[0 := RaiseBefore(b)];
    Extend(steps, s, MarkKill(k));
    steps, s := steps + [MarkKill(k)], Apply(s, MarkKill(k));
    var rest := [Swap(1, a), Continue(1), Continue(1), Continue(0), Continue(0)];
    assert s.swaps + [a] == [b, a];
    for i := 0 to |rest|
      invariant ValidRun(INITIAL, steps) && Run(INITIAL, steps) == s && OnlyKill(steps, k)
      invariant s.writers == [map[0 := RaiseBefore(b)], map[0 := RaiseBefore(b), 1 := LoadKill(a)],
                              map[0 := RaiseBefore(b), 1 := LowerAfter(a)], map[0 := RaiseBefore(b)],
                              map[0 := SetSaw], map[]][i]
      invariant s.swaps == if i == 0 then [b] else [b, a]
      invariant s.killUs == k && s.prevOkUs == (if i == 0 then b else a)
      invariant s.firstOkAfterUs == (if i < 3 then U64_MAX else a)
      invariant s.lastOkBeforeUs == (if i < 4 then 0 else b) && (i == 5 ==> s.sawOkBefore)
    {
      Extend(steps, s, rest[i]);
      s, steps := Apply(s, rest[i]), steps + [rest[i]];
    }
  }
}
