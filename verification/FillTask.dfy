/** One task of the cardinality fill: the three arms of its loop over the birth
    ledger, the ack ledger and the hot set. The clock, the random draws and the
    outcomes of calls are the caller's. */
module FillTask {
  import opened Wrappers
  import opened Identities
  import opened FillClient
  import opened Cohorts
  import opened BirthLedger
  import opened ActiveSet
  import Population
  import AckHistory
  import Ledger = AckLedger

  const DRAW_ATTEMPTS: nat := 4
  const BUCKETS: seq<AgeBucket> := [FiveMin, ThirtyMin, TwoHour, FourHour]

  /** What a successful reheat leaves behind. */
  datatype ReheatState = ReheatState(clientId: nat, version: nat, clientSeq: nat)

  class FillTask {
    const population: Population.Population
    const ledger: Ledger.AckLedger
    var active: seq<Active>
    var cursor: nat

    ghost predicate Valid()
      reads this`active, population, ledger
    {
      && population.Valid()
      && ledger.Valid()
      && ActiveOk(population.cfg, population.birthsTotal, active)
    }

    constructor (settings: Settings, ledgerCap: nat)
      requires settings.Accepted()
      ensures Valid() && fresh(population) && fresh(ledger)
      ensures active == [] && population.settings == settings && population.birthsTotal == 0
    {
      population := new Population.Population(settings);
      ledger := new Ledger.AckLedger(ledgerCap);
      active, cursor := [], 0;
    }

    /** A full hot set evicts its most decayed entry, then the newcomer joins. */
    method Join(a: Active) returns (evicted: Option<nat>)
      requires Valid() && !Hot(active, a.member.aggregateId)
      requires MintedId(population.cfg, population.birthsTotal, a.member.aggregateId)
      modifies this`active
      ensures Valid()
      ensures evicted.Some? <==> |old(active)| == ACTIVE_CAP
      ensures evicted.Some? ==>
        && evicted.value < |old(active)|
        && forall k :: 0 <= k < |old(active)| ==> old(active)[k].nextWriteMs <= old(active)[evicted.value].nextWriteMs
      ensures active == (if evicted.Some? then SwapRemove(old(active), evicted.value) else old(active)) + [a]
    {
      evicted := None;
      if |active| >= ACTIVE_CAP {
        var i := MostDecayed(active);
        SwapRemoveOk(population.cfg, population.birthsTotal, active, i);
        evicted, active := Some(i), SwapRemove(active, i);
      }
      PushOk(population.cfg, population.birthsTotal, active, a);
      active := active + [a];
    }

    /** Birth: the newborn joins the hot set, unless the population panics. */
    method BirthArm(nowMs: nat, rand: nat, budget: nat) returns (born: Option<Member>, evicted: Option<nat>)
      requires Valid()
      requires population.birthsTotal + 1 < TWO_64 && nowMs <= U64_MAX
      modifies this`active, population
      ensures Valid() && population.birthsTotal == old(population.birthsTotal) + 1
      ensures born.None? <==> population.settings.SliceMs() == 0
      ensures born.None? ==> evicted.None? && active == old(active)
      ensures born.Some? ==> (evicted.Some? <==> |old(active)| == ACTIVE_CAP)
      ensures evicted.Some? ==>
        && evicted.value < |old(active)|
        && forall k :: 0 <= k < |old(active)| ==> old(active)[k].nextWriteMs <= old(active)[evicted.value].nextWriteMs
      ensures born.Some? ==>
        DrewWith(population.cfg, population.stories, Born(old(population.birthsTotal), born.value, nowMs), rand)
      ensures born.Some? ==>
        active == (if evicted.Some? then SwapRemove(old(active), evicted.value) else old(active))
                  + [Active(born.value, 0, 1, budget, nowMs, NURSERY_GAP_MS, false)]
    {
      ghost var n := population.birthsTotal;
      GrowOk(population.cfg, n, active);
      born := population.Birth(nowMs, rand);
      evicted := None;
      if born.Some? {
        NewbornJoins(population.cfg, n, population.birthsTotal, active, Births(population.stories),
                     Born(n, born.value, nowMs));
        evicted := Join(Newborn(born.value, budget, nowMs));
      }
    }

    /** What the population answers at cursor position `at` with draw `rand`. */
    ghost function DrawAt(nowMs: nat, at: nat, rand: nat): Option<Member>
      reads population
    {
      Draw(population.cohorts, population.cfg.sliceMs, nowMs, BUCKETS[at % |BUCKETS|], rand)
    }

    /** Nothing to draw there, or only a hot aggregate. */
    ghost predicate Blocked(nowMs: nat, at: nat, rand: nat)
      reads this`active, population
    {
      var m := DrawAt(nowMs, at, rand);
      m.None? || Hot(active, m.value.aggregateId)
    }

    /** Draw a dormant aggregate, round-robin over the age buckets: the first draw that
        is not blocked. */
    method SampleReheat(nowMs: nat, rands: seq<nat>) returns (r: Option<(AgeBucket, Member)>)
      requires Valid() && |rands| == DRAW_ATTEMPTS * |BUCKETS|
      modifies this`cursor
      ensures Valid() && old(cursor) <= cursor <= old(cursor) + DRAW_ATTEMPTS * |BUCKETS|
      ensures r.None? ==>
        && cursor == old(cursor) + DRAW_ATTEMPTS * |BUCKETS|
        && forall t :: 0 <= t < |rands| ==> Blocked(nowMs, old(cursor) + t, rands[t])
      ensures r.Some? ==>
        && old(cursor) < cursor
        && (forall t :: 0 <= t < cursor - 1 - old(cursor) ==> Blocked(nowMs, old(cursor) + t, rands[t]))
        && DrawAt(nowMs, cursor - 1, rands[cursor - 1 - old(cursor)]) == Some(r.value.1)
        && !Hot(active, r.value.1.aggregateId)
        && r.value.0 == BUCKETS[(cursor - 1) % |BUCKETS|]
        && BornAs(population.stories, r.value.1)
        && (EdgesFit(population.cfg, population.cohorts) ==>
              BornWithin(population.stories, r.value.1, nowMs, r.value.0.RangeMs().0, r.value.0.RangeMs().1))
    {
      for t := 0 to DRAW_ATTEMPTS * |BUCKETS|
        invariant cursor == old(cursor) + t
        invariant forall u :: 0 <= u < t ==> Blocked(nowMs, old(cursor) + u, rands[u])
      {
        r := DrawOnce(nowMs, rands[t]);
        if r.Some? {
          return;
        }
      }
      return None;
    }

    method DrawOnce(nowMs: nat, rand: nat) returns (r: Option<(AgeBucket, Member)>)
      requires Valid()
      modifies this`cursor
      ensures cursor == old(cursor) + 1
      ensures r.None? <==> Blocked(nowMs, old(cursor), rand)
      ensures r.Some? ==>
        && !Hot(active, r.value.1.aggregateId)
        && r.value.0 == BUCKETS[old(cursor) % |BUCKETS|]
        && DrawAt(nowMs, old(cursor), rand) == Some(r.value.1)
        && BornAs(population.stories, r.value.1)
        && (EdgesFit(population.cfg, population.cohorts) ==>
              BornWithin(population.stories, r.value.1, nowMs, r.value.0.RangeMs().0, r.value.0.RangeMs().1))
    {
      var bucket := BUCKETS[cursor % |BUCKETS|];
      cursor := cursor + 1;
      var drawn := population.SampleByAge(nowMs, bucket, rand);
      if drawn.Some? && !Hot(active, drawn.value.aggregateId) {
        return Some((bucket, drawn.value));
      }
      return None;
    }

    /** Reheat: a drawn aggregate that answers is acked, and joins if there is room. */
    method ReheatArm(nowMs: nat, rands: seq<nat>, outcome: Option<ReheatState>, rand: nat)
      returns (drawn: Option<(AgeBucket, Member)>)
      requires Valid() && |rands| == DRAW_ATTEMPTS * |BUCKETS|
      modifies this, ledger
      ensures Valid()
      ensures drawn.None? || outcome.None? ==> active == old(active) && ledger.past.acks == old(ledger.past.acks)
      ensures drawn.Some? ==> !Hot(old(active), drawn.value.1.aggregateId)
      ensures drawn.Some? && outcome.Some? ==>
        var (agg, st) := (drawn.value.1.aggregateId, outcome.value);
        && ledger.past.acks == old(ledger.past.acks) + [AckHistory.Ack(Member(agg, st.clientId), st.clientSeq)]
        && (ledger.keys, ledger.observed)
             == AckHistory.Step(ledger.cap, old(ledger.keys), old(ledger.observed), Member(agg, st.clientId), rand)
        && active == old(active) + if |old(active)| < ACTIVE_CAP
                                   then [Reheated(agg, st.clientId, st.version, st.clientSeq, nowMs)] else []
    {
      drawn := SampleReheat(nowMs, rands);
      if drawn.None? || outcome.None? {
        return;
      }
      SampledIsMinted(drawn.value.1);
      Adopt(drawn.value.1.aggregateId, outcome.value, nowMs, rand);
    }

    method Adopt(agg: nat, st: ReheatState, nowMs: nat, rand: nat)
      requires Valid() && !Hot(active, agg) && MintedId(population.cfg, population.birthsTotal, agg)
      modifies this`active, ledger
      ensures Valid()
      ensures ledger.past.acks == old(ledger.past.acks) + [AckHistory.Ack(Member(agg, st.clientId), st.clientSeq)]
      ensures (ledger.keys, ledger.observed)
           == AckHistory.Step(ledger.cap, old(ledger.keys), old(ledger.observed), Member(agg, st.clientId), rand)
      ensures active == old(active) + if |old(active)| < ACTIVE_CAP
                                      then [Active(Member(agg, st.clientId), st.version, st.clientSeq + 1, REHEAT_BURST,
                                                   nowMs + NURSERY_GAP_MS, NURSERY_GAP_MS, false)] else []
    {
      Note(Member(agg, st.clientId), Some(st.clientSeq), rand);
      if |active| < ACTIVE_CAP {
        var evicted := Join(Reheated(agg, st.clientId, st.version, st.clientSeq, nowMs));
      }
    }

    lemma SampledIsMinted(m: Member)
      requires population.Valid() && BornAs(population.stories, m)
      ensures MintedId(population.cfg, population.birthsTotal, m.aggregateId)
    {
      var b :| b in Births(population.stories) && b.member == m;
      BornId(population.cfg, population.birthsTotal, Births(population.stories), b);
    }

    /** Write: the earliest entry due makes one call and is kept or retired. */
    method WriteDue(nowMs: nat, res: WriteResult, rand: nat) returns (due: Option<nat>)
      requires Valid()
      modifies this`active, ledger
      ensures Valid()
      ensures due.None? <==> forall k :: 0 <= k < |old(active)| ==> nowMs < old(active)[k].nextWriteMs
      ensures due.None? ==> active == old(active) && ledger.past.acks == old(ledger.past.acks)
      ensures due.Some? ==>
        && due.value < |old(active)| && old(active)[due.value].nextWriteMs <= nowMs
        && (forall k :: 0 <= k < |old(active)| ==> old(active)[due.value].nextWriteMs <= old(active)[k].nextWriteMs)
        && var a := old(active)[due.value];
        var kept := WriteArm(a, res, nowMs).kept;
        && active == (if kept.Some? then old(active)[due.value := kept.value] else SwapRemove(old(active), due.value))
        && ledger.past.acks == old(ledger.past.acks)
             + (if res.Acked? then [AckHistory.Ack(a.member, a.clientSeq)] else [])
        && (res.Acked? ==>
              (ledger.keys, ledger.observed)
              == AckHistory.Step(ledger.cap, old(ledger.keys), old(ledger.observed), a.member, rand))
    {
      due := Due(active, nowMs);
      if due.Some? {
        WriteAt(due.value, nowMs, res, rand);
      }
    }

    method WriteAt(i: nat, nowMs: nat, res: WriteResult, rand: nat)
      requires Valid() && i < |active|
      modifies this`active, ledger
      ensures Valid()
      ensures var kept := WriteArm(old(active)[i], res, nowMs).kept;
        active == if kept.Some? then old(active)[i := kept.value] else SwapRemove(old(active), i)
      ensures ledger.past.acks == old(ledger.past.acks)
                + if res.Acked? then [AckHistory.Ack(old(active)[i].member, old(active)[i].clientSeq)] else []
      ensures res.Acked? ==>
        (ledger.keys, ledger.observed)
        == AckHistory.Step(ledger.cap, old(ledger.keys), old(ledger.observed), old(active)[i].member, rand)
    {
      var out := WriteArm(active[i], res, nowMs);
      assert out.recorded == if res.Acked? then Some(active[i].clientSeq) else None;
      Note(active[i].member, out.recorded, rand);
      Settle(i, out.kept);
    }

    method Note(member: Member, recorded: Option<nat>, rand: nat)
      requires Valid()
      modifies ledger
      ensures Valid()
      ensures ledger.past.acks == old(ledger.past.acks)
                + if recorded.Some? then [AckHistory.Ack(member, recorded.value)] else []
      ensures recorded.Some? ==>
        (ledger.keys, ledger.observed)
        == AckHistory.Step(ledger.cap, old(ledger.keys), old(ledger.observed), member, rand)
    {
      if recorded.Some? {
        ledger.Record(member, recorded.value, rand);
      }
    }

    method Settle(i: nat, kept: Option<Active>)
      requires Valid() && i < |active| && (kept.Some? ==> kept.value.member == active[i].member)
      modifies this`active
      ensures Valid()
      ensures active == if kept.Some? then old(active)[i := kept.value] else SwapRemove(old(active), i)
    {
      if kept.Some? {
        ReplaceOk(population.cfg, population.birthsTotal, active, i, kept.value);
        active := active[i := kept.value];
      } else {
        SwapRemoveOk(population.cfg, population.birthsTotal, active, i);
        active := SwapRemove(active, i);
      }
    }
  }
}
