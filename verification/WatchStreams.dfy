/** Watch deliveries, stream by stream. */
module WatchStreams {
  import opened Wrappers
  import opened History

  datatype Delivery = Delivery(connection: nat, epoch: nat, agg: Aggregate, fromVersion: nat, toVersion: nat, tNs: nat)

  /** One watch subscription on one connection, for one aggregate. */
  datatype StreamKey = StreamKey(connection: nat, epoch: nat, agg: Aggregate)

  function KeyOf(d: Delivery): StreamKey { StreamKey(d.connection, d.epoch, d.agg) }

  /** The deliveries of one stream, in record order. */
  function Stream(ds: seq<Delivery>, k: StreamKey): seq<Delivery> {
    if ds == [] then []
    else
      var d := ds[|ds| - 1];
      Stream(ds[..|ds| - 1], k) + if KeyOf(d) == k then [d] else []
  }

  lemma {:induction false} StreamMeaning(ds: seq<Delivery>, k: StreamKey)
    ensures forall d :: d in Stream(ds, k) <==> d in ds && KeyOf(d) == k
  {
    if ds == [] {
    } else {
      var n := |ds| - 1;
      StreamMeaning(ds[..n], k);
      assert ds == ds[..n] + [ds[n]];
    }
  }

  // What the two checks are about.

  /** Both came from one subscription, on one connection, for one aggregate. */
  predicate SameStream(d: Delivery, e: Delivery) {
    d.connection == e.connection && d.epoch == e.epoch && d.agg == e.agg
  }

  /** Each range is a range, and a stream never stamps two deliveries alike. */
  ghost predicate WellFormed(ds: seq<Delivery>) {
    && (forall i :: 0 <= i < |ds| ==> ds[i].fromVersion <= ds[i].toVersion)
    && (forall i, j :: 0 <= i < j < |ds| && SameStream(ds[i], ds[j]) ==> ds[i].tNs != ds[j].tNs)
  }

  /** Within a stream, ranges are pairwise disjoint and increase with time. */
  ghost predicate Ordered(ds: seq<Delivery>) {
    forall d, e :: d in ds && e in ds && SameStream(d, e) && d.tNs < e.tNs ==> d.toVersion < e.fromVersion
  }

  /** Some node answered for the aggregate, and every answer is below the delivery. */
  ghost predicate Ghostly(d: Delivery, finals: seq<FinalRead>) {
    && (exists i :: 0 <= i < |finals| && finals[i].agg == d.agg && finals[i].maxVersion.Some?)
    && (forall i :: 0 <= i < |finals| && finals[i].agg == d.agg && finals[i].maxVersion.Some? ==>
          finals[i].maxVersion.value < d.toVersion)
  }

  // Ordering of one stream.

  ghost predicate ByTime(s: seq<Delivery>) {
    forall i, j :: 0 <= i < j < |s| ==> s[i].tNs <= s[j].tNs
  }

  ghost predicate StrictlyByTime(s: seq<Delivery>) {
    forall i, j :: 0 <= i < j < |s| ==> s[i].tNs < s[j].tNs
  }

  ghost predicate DistinctTimes(s: seq<Delivery>) {
    forall i, j :: 0 <= i < j < |s| ==> s[i].tNs != s[j].tNs
  }

  /** A sort by timestamp, in no particular order among equals. */
  ghost predicate SortOf(r: seq<Delivery>, s: seq<Delivery>) {
    && multiset(r) == multiset(s)
    && ByTime(r)
    && (DistinctTimes(s) ==> StrictlyByTime(r))
  }

  /** The adjacent comparison the scan makes. */
  ghost predicate Chained(s: seq<Delivery>) {
    forall i :: 0 < i < |s| ==> s[i - 1].toVersion < s[i].fromVersion
  }

  /** Adjacent comparisons reach across the stream when ranges are ranges. */
  lemma {:induction false} ChainReaches(s: seq<Delivery>, i: nat, j: nat)
    requires Chained(s) && i < j < |s|
    requires forall k :: 0 <= k < |s| ==> s[k].fromVersion <= s[k].toVersion
    ensures s[i].toVersion < s[j].fromVersion
    decreases j
  {
    if i + 1 == j {
    } else {
      ChainReaches(s, i, j - 1);
    }
  }

  function Insert(s: seq<Delivery>, d: Delivery): seq<Delivery> {
    if s == [] || s[|s| - 1].tNs <= d.tNs then s + [d]
    else Insert(s[..|s| - 1], d) + [s[|s| - 1]]
  }

  lemma {:induction false} InsertMembers(s: seq<Delivery>, d: Delivery)
    ensures multiset(Insert(s, d)) == multiset(s) + multiset{d}
    ensures forall e :: e in Insert(s, d) ==> e in s || e == d
  {
    if s != [] && d.tNs < s[|s| - 1].tNs {
      InsertMembers(s[..|s| - 1], d);
      assert s == s[..|s| - 1] + [s[|s| - 1]];
    }
  }

  lemma {:induction false} InsertSorts(s: seq<Delivery>, d: Delivery)
    requires ByTime(s)
    ensures ByTime(Insert(s, d))
  {
    if s != [] && d.tNs < s[|s| - 1].tNs {
      var n := |s| - 1;
      InsertSorts(s[..n], d);
      InsertMembers(s[..n], d);
      var front := Insert(s[..n], d);
      forall i | 0 <= i < |front|
        ensures front[i].tNs <= s[n].tNs
      {
        assert front[i] in s[..n] || front[i] == d;
      }
    }
  }

  lemma {:induction false} InsertSortsStrictly(s: seq<Delivery>, d: Delivery)
    requires StrictlyByTime(s) && forall e :: e in s ==> e.tNs != d.tNs
    ensures StrictlyByTime(Insert(s, d))
  {
    if s != [] && d.tNs < s[|s| - 1].tNs {
      var n := |s| - 1;
      InsertSortsStrictly(s[..n], d);
      InsertMembers(s[..n], d);
      var front := Insert(s[..n], d);
      forall i | 0 <= i < |front|
        ensures front[i].tNs < s[n].tNs
      {
        assert front[i] in s[..n] || front[i] == d;
      }
    } else if s != [] {
      assert s[|s| - 1] in s;
    }
  }

  // Grouping.

  ghost function Keys(ds: seq<Delivery>): set<StreamKey> {
    if ds == [] then {} else Keys(ds[..|ds| - 1]) + {KeyOf(ds[|ds| - 1])}
  }

  lemma {:induction false} KeysMeaning(ds: seq<Delivery>, d: Delivery)
    requires d in ds
    ensures KeyOf(d) in Keys(ds)
  {
    if d != ds[|ds| - 1] {
      KeysMeaning(ds[..|ds| - 1], d);
    }
  }

  lemma StreamStep(ds: seq<Delivery>, n: nat, k: StreamKey)
    requires n < |ds|
    ensures Stream(ds[..n + 1], k) == Stream(ds[..n], k) + if KeyOf(ds[n]) == k then [ds[n]] else []
    ensures Keys(ds[..n + 1]) == Keys(ds[..n]) + {KeyOf(ds[n])}
  {
    assert ds[..n + 1][..n] == ds[..n];
  }

  /** Sorted deliveries of some of the streams. */
  ghost predicate Sorting(ds: seq<Delivery>, order: map<StreamKey, seq<Delivery>>) {
    forall k {:trigger SortOf(order[k], Stream(ds, k))} :: k in order ==> SortOf(order[k], Stream(ds, k))
  }

  /** Each stream's deliveries, sorted. */
  ghost predicate Sorts(ds: seq<Delivery>, order: map<StreamKey, seq<Delivery>>) {
    order.Keys == Keys(ds) && Sorting(ds, order)
  }

  ghost predicate AllChained(order: map<StreamKey, seq<Delivery>>) {
    forall k {:trigger Chained(order[k])} :: k in order ==> Chained(order[k])
  }

  lemma AddStream(ds: seq<Delivery>, order: map<StreamKey, seq<Delivery>>, k: StreamKey, s: seq<Delivery>)
    requires Sorting(ds, order) && k !in order && SortOf(s, Stream(ds, k))
    ensures Sorting(ds, order[k := s])
    ensures AllChained(order[k := s]) <==> AllChained(order) && Chained(s)
  {
    var after := order[k := s];
    forall j | j in after
      ensures SortOf(after[j], Stream(ds, j))
    {
      assert j != k ==> SortOf(order[j], Stream(ds, j));
    }
    if AllChained(after) {
      assert Chained(after[k]);
      forall j | j in order
        ensures Chained(order[j])
      {
        assert Chained(after[j]);
      }
    }
    if AllChained(order) && Chained(s) {
      forall j | j in after
        ensures Chained(after[j])
      {
        assert j != k ==> Chained(order[j]);
      }
    }
  }

  lemma {:induction false} StreamDistinct(ds: seq<Delivery>, k: StreamKey)
    requires WellFormed(ds)
    ensures DistinctTimes(Stream(ds, k))
  {
    if ds == [] {
    } else {
      var n := |ds| - 1;
      StreamDistinct(ds[..n], k);
      StreamMeaning(ds[..n], k);
      if KeyOf(ds[n]) == k {
        forall i | 0 <= i < |Stream(ds[..n], k)|
          ensures Stream(ds[..n], k)[i].tNs != ds[n].tNs
        {
          assert Stream(ds[..n], k)[i] in ds[..n];
        }
      }
    }
  }

  lemma Position(s: seq<Delivery>, d: Delivery, t: seq<Delivery>) returns (p: nat)
    requires multiset(s) == multiset(t) && d in t
    ensures p < |s| && s[p] == d
  {
    assert d in multiset(t);
    assert d in s;
    p :| 0 <= p < |s| && s[p] == d;
  }

  ghost predicate StreamOrdered(s: seq<Delivery>) {
    forall d, e :: d in s && e in s && d.tNs < e.tNs ==> d.toVersion < e.fromVersion
  }

  /** The chain of a stream is the pairwise property of a stream. */
  lemma StreamExact(ds: seq<Delivery>, k: StreamKey, s: seq<Delivery>)
    requires WellFormed(ds) && SortOf(s, Stream(ds, k))
    ensures Chained(s) <==> StreamOrdered(Stream(ds, k))
  {
    StreamMeaning(ds, k);
    StreamDistinct(ds, k);
    assert forall i :: 0 <= i < |s| ==> s[i] in multiset(s);
    assert forall i :: 0 <= i < |s| ==> s[i] in Stream(ds, k);
    if Chained(s) {
      forall d, e | d in Stream(ds, k) && e in Stream(ds, k) && d.tNs < e.tNs
        ensures d.toVersion < e.fromVersion
      {
        var p := Position(s, d, Stream(ds, k));
        var q := Position(s, e, Stream(ds, k));
        ChainReaches(s, p, q);
      }
    }
  }

  lemma OrderedStream(ds: seq<Delivery>, k: StreamKey)
    requires Ordered(ds)
    ensures StreamOrdered(Stream(ds, k))
  {
    StreamMeaning(ds, k);
    forall d, e | d in Stream(ds, k) && e in Stream(ds, k) && d.tNs < e.tNs
      ensures d.toVersion < e.fromVersion
    {
      assert SameStream(d, e);
    }
  }

  lemma OrderedByStream(ds: seq<Delivery>)
    requires forall k :: k in Keys(ds) ==> StreamOrdered(Stream(ds, k))
    ensures Ordered(ds)
  {
    forall d, e | d in ds && e in ds && SameStream(d, e) && d.tNs < e.tNs
      ensures d.toVersion < e.fromVersion
    {
      KeysMeaning(ds, d);
      StreamMeaning(ds, KeyOf(d));
      assert StreamOrdered(Stream(ds, KeyOf(d)));
    }
  }

  lemma OrderedExact(ds: seq<Delivery>, order: map<StreamKey, seq<Delivery>>)
    requires WellFormed(ds) && Sorts(ds, order)
    ensures AllChained(order) <==> Ordered(ds)
  {
    forall k | k in order
      ensures Chained(order[k]) <==> StreamOrdered(Stream(ds, k))
    {
      assert SortOf(order[k], Stream(ds, k));
      StreamExact(ds, k, order[k]);
    }
    if AllChained(order) {
      OrderedByStream(ds);
    }
    if Ordered(ds) {
      forall k | k in order
        ensures Chained(order[k])
      {
        OrderedStream(ds, k);
      }
    }
  }

  // The durable check.

  /** The highest final version any node reported for an aggregate. */
  function MaxFinal(finals: seq<FinalRead>, a: Aggregate): Option<nat> {
    if finals == [] then None
    else
      var rest := MaxFinal(finals[..|finals| - 1], a);
      var f := finals[|finals| - 1];
      if f.agg != a || f.maxVersion.None? then rest
      else if rest.Some? && f.maxVersion.value <= rest.value then rest
      else f.maxVersion
  }

  lemma {:induction false} MaxFinalMeaning(finals: seq<FinalRead>, d: Delivery)
    ensures Ghostly(d, finals) <==> MaxFinal(finals, d.agg).Some? && MaxFinal(finals, d.agg).value < d.toVersion
    ensures MaxFinal(finals, d.agg).None? <==>
            forall i :: 0 <= i < |finals| && finals[i].agg == d.agg ==> finals[i].maxVersion.None?
  {
    if finals == [] {
    } else {
      var n := |finals| - 1;
      MaxFinalMeaning(finals[..n], d);
      assert forall i :: 0 <= i < n ==> finals[..n][i] == finals[i];
    }
  }

  // Dropped records.

  /** Removing deliveries never turns a pass of either check into a fail. */
  lemma RemovalNeverFails(sub: seq<Delivery>, ds: seq<Delivery>, at: seq<nat>, finals: seq<FinalRead>)
    requires WellFormed(ds) && Retained(sub, ds, at)
    ensures WellFormed(sub)
    ensures Ordered(ds) ==> Ordered(sub)
    ensures (forall i :: 0 <= i < |ds| ==> !Ghostly(ds[i], finals)) ==>
              forall i :: 0 <= i < |sub| ==> !Ghostly(sub[i], finals)
  {
    assert forall d :: d in sub ==> d in ds;
  }

  /** With inverted ranges the scan is neither complete nor stable under removal: it
      accepts three deliveries of which the outer two overlap. */
  lemma InvertedRangesSlipThrough(k: StreamKey)
    ensures exists s: seq<Delivery> ::
      && |s| == 3 && StrictlyByTime(s) && Chained(s)
      && s[2].fromVersion <= s[0].toVersion && !Chained([s[0], s[2]])
  {
    var s := [Delivery(k.connection, k.epoch, k.agg, 1, 5, 0),
              Delivery(k.connection, k.epoch, k.agg, 6, 2, 1),
              Delivery(k.connection, k.epoch, k.agg, 3, 4, 2)];
    assert Chained(s);
    assert !([s[0], s[2]][0].toVersion < [s[0], s[2]][1].fromVersion);
    assert |s| == 3 && StrictlyByTime(s) && s[2].fromVersion <= s[0].toVersion && !Chained([s[0], s[2]]);
  }
}
