/** `WatchPerConnectionOrdered` and `WatchDeliveredDurable`. */
module WatchChecks {
  import opened Wrappers
  import opened History
  import opened WatchStreams

  method SortByTime(s: seq<Delivery>) returns (r: seq<Delivery>)
    ensures SortOf(r, s)
  {
    r := [];
    for n := 0 to |s|
      invariant multiset(r) == multiset(s[..n]) && ByTime(r)
      invariant DistinctTimes(s) ==> StrictlyByTime(r)
    {
      InsertMembers(r, s[n]);
      InsertSorts(r, s[n]);
      assert s[..n + 1] == s[..n] + [s[n]];
      if DistinctTimes(s) {
        forall e | e in r
          ensures e.tNs != s[n].tNs
        {
          assert e in multiset(r);
          assert e in s[..n];
        }
        InsertSortsStrictly(r, s[n]);
      }
      r := Insert(r, s[n]);
    }
    assert s[..|s|] == s;
  }

  method Group(ds: seq<Delivery>) returns (streams: map<StreamKey, seq<Delivery>>)
    ensures streams.Keys == Keys(ds)
    ensures forall k :: k in streams ==> streams[k] == Stream(ds, k)
  {
    streams := map[];
    for n := 0 to |ds|
      invariant streams.Keys == Keys(ds[..n])
      invariant forall k :: (if k in streams then streams[k] else []) == Stream(ds[..n], k)
    {
      StreamStep(ds, n, KeyOf(ds[n]));
      forall k
        ensures Stream(ds[..n + 1], k) == Stream(ds[..n], k) + if KeyOf(ds[n]) == k then [ds[n]] else []
      {
        StreamStep(ds, n, k);
      }
      var k := KeyOf(ds[n]);
      streams := streams[k := (if k in streams then streams[k] else []) + [ds[n]]];
    }
    assert ds[..|ds|] == ds;
  }

  /** Scan one sorted stream, adding to the capped samples. */
  method Scan(s: seq<Delivery>, samples: nat) returns (after: nat)
    requires samples <= SAMPLE_CAP
    ensures samples <= after <= SAMPLE_CAP
    ensures after == 0 <==> samples == 0 && Chained(s)
  {
    after := samples;
    for i := 0 to |s|
      invariant samples <= after <= SAMPLE_CAP
      invariant after == 0 <==> samples == 0 && Chained(s[..i])
    {
      assert s[..i + 1][..i] == s[..i];
      if 0 < i && s[i].fromVersion <= s[i - 1].toVersion {
        assert !(s[..i + 1][i - 1].toVersion < s[..i + 1][i].fromVersion);
        if after < SAMPLE_CAP {
          after := after + 1;
        }
      } else {
        assert Chained(s[..i]) ==> Chained(s[..i + 1]);
        assert forall j :: 0 <= j < i ==> s[..i][j] == s[..i + 1][j];
      }
    }
    assert s[..|s|] == s;
  }

  /** Sort and scan every stream, in no particular order. */
  method ScanStreams(ds: seq<Delivery>, streams: map<StreamKey, seq<Delivery>>)
    returns (samples: nat, ghost order: map<StreamKey, seq<Delivery>>)
    requires forall k :: k in streams ==> streams[k] == Stream(ds, k)
    ensures order.Keys == streams.Keys && Sorting(ds, order)
    ensures samples <= SAMPLE_CAP && (samples == 0 <==> AllChained(order))
  {
    order, samples := map[], 0;
    var todo := streams.Keys;
    while todo != {}
      invariant todo <= streams.Keys && order.Keys == streams.Keys - todo && samples <= SAMPLE_CAP
      invariant Sorting(ds, order)
      invariant samples == 0 <==> AllChained(order)
      decreases |todo|
    {
      var k :| k in todo;
      var sorted := SortByTime(streams[k]);
      AddStream(ds, order, k, sorted);
      samples := Scan(sorted, samples);
      todo, order := todo - {k}, order[k := sorted];
    }
  }

  /** The check passes exactly when each stream, in the order the sort produced, has
      no adjacent overlap; and, for well-formed records, exactly when all ranges of a
      stream are disjoint and increase with time. */
  method CheckOrdered(ds: seq<Delivery>) returns (r: CheckResult, ghost order: map<StreamKey, seq<Delivery>>)
    ensures Sorts(ds, order)
    ensures r.Pass? <==> AllChained(order)
    ensures r.Fails? ==> 1 <= r.samples <= SAMPLE_CAP
    ensures WellFormed(ds) ==> (r.Pass? <==> Ordered(ds))
  {
    var streams := Group(ds);
    var samples;
    samples, order := ScanStreams(ds, streams);
    if WellFormed(ds) {
      OrderedExact(ds, order);
    }
    r := if samples == 0 then Pass else Fails(samples);
  }

  method CheckDurable(ds: seq<Delivery>, finals: seq<FinalRead>) returns (r: CheckResult)
    ensures r.Pass? <==> forall i :: 0 <= i < |ds| ==> !Ghostly(ds[i], finals)
    ensures r.Fails? ==> 1 <= r.samples <= SAMPLE_CAP
  {
    var top: map<Aggregate, nat> := map[];
    for n := 0 to |finals|
      invariant forall a :: (if a in top then Some(top[a]) else None) == MaxFinal(finals[..n], a)
    {
      assert finals[..n + 1][..n] == finals[..n];
      var f := finals[n];
      if f.maxVersion.Some? {
        var seen := if f.agg in top then top[f.agg] else 0;
        top := top[f.agg := if seen < f.maxVersion.value then f.maxVersion.value else seen];
      }
    }
    assert finals[..|finals|] == finals;
    var samples := 0;
    for n := 0 to |ds|
      invariant samples <= SAMPLE_CAP
      invariant samples == 0 <==> forall i :: 0 <= i < n ==> !Ghostly(ds[i], finals)
    {
      MaxFinalMeaning(finals, ds[n]);
      if ds[n].agg in top && top[ds[n].agg] < ds[n].toVersion && samples < SAMPLE_CAP {
        samples := samples + 1;
      }
    }
    r := if samples == 0 then Pass else Fails(samples);
  }
}
