/** What the bounded ledger of acked pairs holds: a sample of keys, each with its
    maximum since it was last admitted. */
module AckHistory {
  import opened Wrappers
  import Reservoir

  datatype Ack = Ack(key: Member, seqNo: nat)

  /** The sampled keys and the offers so far, one ack later. */
  function Step(cap: nat, keys: seq<Member>, offers: nat, key: Member, rand: nat): (r: (seq<Member>, nat))
    requires |keys| <= cap
    ensures |r.0| <= cap
  {
    if key in keys then (keys, offers) else (Reservoir.Offer(cap, keys, key, rand % (offers + 1)), offers + 1)
  }

  /** The unbounded ledger: the maximum acked seq of every key. */
  function MaxMap(acks: seq<Ack>): map<Member, nat> {
    if acks == [] then map[]
    else
      var m := MaxMap(acks[..|acks| - 1]);
      var a := acks[|acks| - 1];
      m[a.key := if a.key in m then Max(m[a.key], a.seqNo) else a.seqNo]
  }

  /** Its values are acked seqs, and none acked is higher. */
  lemma {:induction false} MaxMapMeaning(acks: seq<Ack>, k: Member)
    ensures k in MaxMap(acks) <==> exists i :: 0 <= i < |acks| && acks[i].key == k
    ensures k in MaxMap(acks) ==> Ack(k, MaxMap(acks)[k]) in acks
    ensures forall i :: 0 <= i < |acks| && acks[i].key == k ==> k in MaxMap(acks) && acks[i].seqNo <= MaxMap(acks)[k]
  {
    if acks == [] {
    } else {
      var n := |acks| - 1;
      MaxMapMeaning(acks[..n], k);
      if k in MaxMap(acks[..n]) {
        var i :| 0 <= i < n && acks[..n][i].key == k;
        assert acks[i].key == k;
      }
      assert acks[n] in acks;
    }
  }

  /** Forgetting a prefix can only lower a maximum. */
  lemma SuffixBelow(acks: seq<Ack>, from: nat, k: Member)
    requires from <= |acks| && k in MaxMap(acks[from..])
    ensures k in MaxMap(acks) && MaxMap(acks[from..])[k] <= MaxMap(acks)[k]
  {
    MaxMapMeaning(acks[from..], k);
    MaxMapMeaning(acks, k);
    var a := Ack(k, MaxMap(acks[from..])[k]);
    var i :| 0 <= i < |acks[from..]| && acks[from..][i] == a;
    assert acks[from + i] == a;
  }

  lemma MaxMapStep(acks: seq<Ack>, a: Ack, from: nat)
    requires from <= |acks|
    ensures MaxMap((acks + [a])[from..])
         == var m := MaxMap(acks[from..]); m[a.key := if a.key in m then Max(m[a.key], a.seqNo) else a.seqNo]
  {
    assert (acks + [a])[from..] == acks[from..] + [a];
    assert (acks[from..] + [a])[..|acks| - from] == acks[from..];
  }

  /** A key resident since its admission at `from`: absent just before, present after. */
  ghost predicate ResidentSince(residents: seq<set<Member>>, k: Member, from: nat) {
    && from < |residents|
    && k !in residents[from]
    && forall j :: from < j < |residents| ==> k in residents[j]
  }

  ghost predicate KeyOk(acks: seq<Ack>, residents: seq<set<Member>>, k: Member, from: nat, value: nat) {
    && from < |acks| && acks[from].key == k
    && ResidentSince(residents, k, from)
    && k in MaxMap(acks[from..]) && value == MaxMap(acks[from..])[k]
  }

  ghost predicate AllKeysOk(acks: seq<Ack>, residents: seq<set<Member>>,
                            entries: map<Member, nat>, admitted: map<Member, nat>) {
    && entries.Keys <= admitted.Keys
    && forall k {:trigger KeyOk(acks, residents, k, admitted[k], entries[k])} ::
         k in entries ==> KeyOk(acks, residents, k, admitted[k], entries[k])
  }

  // One more ack.

  lemma KeepKey(acks: seq<Ack>, residents: seq<set<Member>>, k: Member, from: nat, value: nat,
                a: Ack, now: set<Member>)
    requires KeyOk(acks, residents, k, from, value) && |residents| == |acks| + 1 && k in now
    ensures KeyOk(acks + [a], residents + [now], k, from, if a.key == k then Max(value, a.seqNo) else value)
  {
    MaxMapStep(acks, a, from);
  }

  lemma AdmitKey(acks: seq<Ack>, residents: seq<set<Member>>, a: Ack, now: set<Member>)
    requires |residents| == |acks| + 1 && a.key !in residents[|acks|] && a.key in now
    ensures KeyOk(acks + [a], residents + [now], a.key, |acks|, a.seqNo)
  {
    assert (acks + [a])[|acks|..] == [a];
    assert [a][..0] == [];
  }

  lemma RecordKnown(acks: seq<Ack>, residents: seq<set<Member>>, entries: map<Member, nat>,
                    admitted: map<Member, nat>, a: Ack)
    requires AllKeysOk(acks, residents, entries, admitted) && |residents| == |acks| + 1 && a.key in entries
    ensures AllKeysOk(acks + [a], residents + [entries.Keys],
                      entries[a.key := Max(entries[a.key], a.seqNo)], admitted)
  {
    forall k | k in entries
      ensures KeyOk(acks + [a], residents + [entries.Keys], k, admitted[k],
                    if a.key == k then Max(entries[k], a.seqNo) else entries[k])
    {
      assert KeyOk(acks, residents, k, admitted[k], entries[k]);
      KeepKey(acks, residents, k, admitted[k], entries[k], a, entries.Keys);
    }
  }

  lemma RecordUnsampled(acks: seq<Ack>, residents: seq<set<Member>>, entries: map<Member, nat>,
                        admitted: map<Member, nat>, a: Ack)
    requires AllKeysOk(acks, residents, entries, admitted) && |residents| == |acks| + 1 && a.key !in entries
    ensures AllKeysOk(acks + [a], residents + [entries.Keys], entries, admitted)
  {
    forall k | k in entries
      ensures KeyOk(acks + [a], residents + [entries.Keys], k, admitted[k], entries[k])
    {
      assert KeyOk(acks, residents, k, admitted[k], entries[k]);
      KeepKey(acks, residents, k, admitted[k], entries[k], a, entries.Keys);
    }
  }

  lemma RecordAdmitted(acks: seq<Ack>, residents: seq<set<Member>>, entries: map<Member, nat>,
                       admitted: map<Member, nat>, kept: map<Member, nat>, a: Ack)
    requires AllKeysOk(acks, residents, entries, admitted)
    requires |residents| == |acks| + 1 && residents[|acks|] == entries.Keys && a.key !in entries
    requires forall k :: k in kept ==> k in entries && kept[k] == entries[k]
    ensures AllKeysOk(acks + [a], residents + [kept.Keys + {a.key}], kept[a.key := a.seqNo], admitted[a.key := |acks|])
  {
    var now := kept.Keys + {a.key};
    AdmitKey(acks, residents, a, now);
    forall k | k in kept
      ensures KeyOk(acks + [a], residents + [now], k, admitted[k], kept[k])
    {
      assert KeyOk(acks, residents, k, admitted[k], entries[k]);
      KeepKey(acks, residents, k, admitted[k], entries[k], a, now);
    }
  }

  lemma KeysStep(acks: seq<Ack>, a: Ack)
    ensures MaxMap(acks + [a]).Keys == MaxMap(acks).Keys + {a.key}
    ensures |MaxMap(acks).Keys| <= |MaxMap(acks + [a]).Keys| <= |MaxMap(acks).Keys| + 1
    ensures a.key !in MaxMap(acks) ==> |MaxMap(acks + [a]).Keys| == |MaxMap(acks).Keys| + 1
    ensures a.key !in MaxMap(acks) ==> MaxMap(acks + [a]) == MaxMap(acks)[a.key := a.seqNo]
  {
    assert (acks + [a])[..|acks|] == acks;
    var before := MaxMap(acks).Keys;
    assert a.key in before ==> before + {a.key} == before;
  }

  predicate Other(a: Member, b: Member) { a != b }

  ghost predicate NoRepeats(keys: seq<Member>) {
    forall i, j {:trigger Other(keys[i], keys[j])} :: 0 <= i < j < |keys| ==> Other(keys[i], keys[j])
  }

  lemma SwapKey(keys: seq<Member>, j: nat, key: Member)
    requires NoRepeats(keys) && key !in keys && j < |keys|
    ensures NoRepeats(keys[j := key])
    ensures forall k :: k in keys[j := key] <==> k == key || (k in keys && k != keys[j])
  {
    var after := keys[j := key];
    forall i, i' | 0 <= i < i' < |after|
      ensures Other(after[i], after[i'])
    {
      assert Other(keys[i], keys[i']);
    }
    assert forall i :: 0 <= i < |keys| && i != j ==> Other(keys[i], keys[j]) || Other(keys[j], keys[i]);
    forall k
      ensures k in keys[j := key] <==> k == key || (k in keys && k != keys[j])
    {
      if k in keys && k != keys[j] {
        var i :| 0 <= i < |keys| && keys[i] == k;
        assert keys[j := key][i] == k;
      }
      if k == key {
        assert keys[j := key][j] == k;
      }
    }
  }

  lemma SampleStep(cap: nat, offers: seq<Member>, draws: seq<nat>, key: Member, draw: nat)
    requires |draws| == |offers|
    ensures Reservoir.Sample(cap, offers + [key], draws + [draw])
         == Reservoir.Offer(cap, Reservoir.Sample(cap, offers, draws), key, draw)
  {
    assert (offers + [key])[..|offers|] == offers && (draws + [draw])[..|offers|] == draws;
  }

  // The ledger's invariant.

  /** Everything acked, when each resident key was last admitted, who was resident
      after each ack, and the offers and draws of the reservoir. */
  datatype Past = Past(acks: seq<Ack>, admitted: map<Member, nat>, residents: seq<set<Member>>,
                       offers: seq<Member>, draws: seq<nat>)

  ghost predicate Indexed(cap: nat, keys: seq<Member>, entries: map<Member, nat>) {
    && NoRepeats(keys)
    && |keys| <= cap
    && forall k :: k in keys <==> k in entries
  }

  ghost predicate Sampled(cap: nat, keys: seq<Member>, observed: nat, past: Past) {
    && observed == |past.offers|
    && Reservoir.LegalDraws(cap, observed, past.draws)
    && keys == Reservoir.Sample(cap, past.offers, past.draws)
  }

  ghost predicate Tracked(entries: map<Member, nat>, past: Past) {
    && |past.residents| == |past.acks| + 1
    && past.residents[|past.acks|] == entries.Keys
    && AllKeysOk(past.acks, past.residents, entries, past.admitted)
  }

  /** Exact until an offer no longer fits, which is when the distinct keys do not. */
  ghost predicate Counted(cap: nat, entries: map<Member, nat>, observed: nat, acks: seq<Ack>) {
    && |MaxMap(acks).Keys| <= observed <= |acks|
    && (observed <= cap ==> entries == MaxMap(acks) && |entries.Keys| == observed)
    && (cap < observed ==> cap < |MaxMap(acks).Keys|)
  }

  lemma CountRaised(cap: nat, entries: map<Member, nat>, observed: nat, acks: seq<Ack>, a: Ack)
    requires Counted(cap, entries, observed, acks) && a.key in entries && a.key in MaxMap(acks)
    ensures Counted(cap, entries[a.key := Max(entries[a.key], a.seqNo)], observed, acks + [a])
  {
    KeysStep(acks, a);
    assert (acks + [a])[..|acks|] == acks;
    assert MaxMap(acks).Keys + {a.key} == MaxMap(acks).Keys;
    assert entries[a.key := Max(entries[a.key], a.seqNo)].Keys == entries.Keys;
  }

  lemma CountOffered(cap: nat, entries: map<Member, nat>, observed: nat, acks: seq<Ack>,
                     a: Ack, after: map<Member, nat>)
    requires Counted(cap, entries, observed, acks) && a.key !in entries
    requires observed < cap ==> after == entries[a.key := a.seqNo]
    ensures Counted(cap, after, observed + 1, acks + [a])
  {
    KeysStep(acks, a);
    if observed < cap {
      assert after.Keys == entries.Keys + {a.key};
    }
  }

  lemma ResidentWasAcked(entries: map<Member, nat>, past: Past, k: Member)
    requires Tracked(entries, past) && k in entries
    ensures k in MaxMap(past.acks) && entries[k] <= MaxMap(past.acks)[k]
    ensures Ack(k, entries[k]) in past.acks
  {
    var from := past.admitted[k];
    assert KeyOk(past.acks, past.residents, k, from, entries[k]);
    SuffixBelow(past.acks, from, k);
    MaxMapMeaning(past.acks[from..], k);
    assert forall x :: x in past.acks[from..] ==> x in past.acks;
  }

  ghost predicate Sound(cap: nat, entries: map<Member, nat>, keys: seq<Member>, observed: nat, past: Past) {
    && Indexed(cap, keys, entries)
    && Sampled(cap, keys, observed, past)
    && Tracked(entries, past)
    && Counted(cap, entries, observed, past.acks)
  }

  // The pasts of the four outcomes of an ack.

  ghost function Seen(past: Past, a: Ack, now: set<Member>): Past {
    past.(acks := past.acks + [a], residents := past.residents + [now])
  }

  ghost function Offered(past: Past, a: Ack, now: set<Member>, draw: nat): Past {
    Seen(past, a, now).(offers := past.offers + [a.key], draws := past.draws + [draw])
  }

  ghost function Admitted(past: Past, a: Ack, now: set<Member>, draw: nat): Past {
    Offered(past, a, now, draw).(admitted := past.admitted[a.key := |past.acks|])
  }

  lemma SoundRaised(cap: nat, entries: map<Member, nat>, keys: seq<Member>, observed: nat, past: Past, a: Ack)
    requires Sound(cap, entries, keys, observed, past) && a.key in entries
    ensures var entries' := entries[a.key := Max(entries[a.key], a.seqNo)];
            Sound(cap, entries', keys, observed, Seen(past, a, entries'.Keys))
  {
    ResidentWasAcked(entries, past, a.key);
    CountRaised(cap, entries, observed, past.acks, a);
    RecordKnown(past.acks, past.residents, entries, past.admitted, a);
    assert entries[a.key := Max(entries[a.key], a.seqNo)].Keys == entries.Keys;
  }

  lemma SampledStep(cap: nat, keys: seq<Member>, observed: nat, past: Past, a: Ack, now: set<Member>, draw: nat)
    requires Sampled(cap, keys, observed, past) && (cap <= observed ==> draw <= observed)
    ensures |keys| == if observed < cap then observed else cap
    ensures Sampled(cap, Reservoir.Offer(cap, keys, a.key, draw), observed + 1, Offered(past, a, now, draw))
    ensures Sampled(cap, Reservoir.Offer(cap, keys, a.key, draw), observed + 1, Admitted(past, a, now, draw))
  {
    SampleStep(cap, past.offers, past.draws, a.key, draw);
  }

  lemma SoundSkipped(cap: nat, entries: map<Member, nat>, keys: seq<Member>, observed: nat,
                     past: Past, a: Ack, draw: nat)
    requires Sound(cap, entries, keys, observed, past) && a.key !in entries
    requires cap <= |keys| && cap <= draw <= observed
    ensures Sound(cap, entries, keys, observed + 1, Offered(past, a, entries.Keys, draw))
  {
    SampledStep(cap, keys, observed, past, a, entries.Keys, draw);
    RecordUnsampled(past.acks, past.residents, entries, past.admitted, a);
    CountOffered(cap, entries, observed, past.acks, a, entries);
  }

  lemma TrackedAdmitted(entries: map<Member, nat>, past: Past, kept: map<Member, nat>, a: Ack, draw: nat)
    requires Tracked(entries, past) && a.key !in entries
    requires forall k :: k in kept ==> k in entries && kept[k] == entries[k]
    ensures var entries' := kept[a.key := a.seqNo]; Tracked(entries', Admitted(past, a, entries'.Keys, draw))
  {
    RecordAdmitted(past.acks, past.residents, entries, past.admitted, kept, a);
    assert kept[a.key := a.seqNo].Keys == kept.Keys + {a.key};
  }

  lemma IndexedPush(cap: nat, keys: seq<Member>, entries: map<Member, nat>, a: Ack)
    requires Indexed(cap, keys, entries) && a.key !in entries && |keys| < cap
    ensures Indexed(cap, keys + [a.key], entries[a.key := a.seqNo])
  {
    assert a.key !in keys;
    var after := keys + [a.key];
    forall i, j | 0 <= i < j < |after|
      ensures Other(after[i], after[j])
    {
      assert j < |keys| ==> Other(keys[i], keys[j]);
    }
  }

  lemma IndexedSwap(cap: nat, keys: seq<Member>, entries: map<Member, nat>, a: Ack, j: nat)
    requires Indexed(cap, keys, entries) && a.key !in entries && j < |keys|
    ensures Indexed(cap, keys[j := a.key], (entries - {keys[j]})[a.key := a.seqNo])
  {
    SwapKey(keys, j, a.key);
    var entries' := (entries - {keys[j]})[a.key := a.seqNo];
    forall k
      ensures k in keys[j := a.key] <==> k in entries'
    {
      assert k in entries' <==> k == a.key || (k in entries && k != keys[j]);
    }
  }

  lemma SoundPushed(cap: nat, entries: map<Member, nat>, keys: seq<Member>, observed: nat,
                    past: Past, a: Ack, draw: nat)
    requires Sound(cap, entries, keys, observed, past) && a.key !in entries && |keys| < cap
    ensures var entries' := entries[a.key := a.seqNo];
            Sound(cap, entries', keys + [a.key], observed + 1, Admitted(past, a, entries'.Keys, draw))
  {
    var entries' := entries[a.key := a.seqNo];
    IndexedPush(cap, keys, entries, a);
    SampledStep(cap, keys, observed, past, a, entries'.Keys, draw);
    TrackedAdmitted(entries, past, entries, a, draw);
    CountOffered(cap, entries, observed, past.acks, a, entries');
  }

  lemma SoundSwapped(cap: nat, entries: map<Member, nat>, keys: seq<Member>, observed: nat,
                     past: Past, a: Ack, draw: nat)
    requires Sound(cap, entries, keys, observed, past) && a.key !in entries
    requires draw < cap == |keys| && draw <= observed
    ensures var entries' := (entries - {keys[draw]})[a.key := a.seqNo];
            Sound(cap, entries', keys[draw := a.key], observed + 1, Admitted(past, a, entries'.Keys, draw))
  {
    var entries' := (entries - {keys[draw]})[a.key := a.seqNo];
    IndexedSwap(cap, keys, entries, a, draw);
    SampledStep(cap, keys, observed, past, a, entries'.Keys, draw);
    TrackedAdmitted(entries, past, entries - {keys[draw]}, a, draw);
    CountOffered(cap, entries, observed, past.acks, a, entries');
  }

  lemma KeysLength(cap: nat, entries: map<Member, nat>, keys: seq<Member>, observed: nat, past: Past)
    requires Sound(cap, entries, keys, observed, past)
    ensures |keys| == if observed < cap then observed else cap
  {
  }

  /** What a ledger knows after any run: at most `cap` keys, each value a seq really
      acked for that key and at most its true maximum; and the exact maximum of every
      key as long as the distinct keys fit. */
  lemma LedgerMeaning(cap: nat, entries: map<Member, nat>, keys: seq<Member>, observed: nat, past: Past)
    requires Sound(cap, entries, keys, observed, past)
    ensures |keys| <= cap && Reservoir.Distinct(keys) && forall k :: k in keys <==> k in entries
    ensures forall k :: k in entries ==>
      k in MaxMap(past.acks) && entries[k] <= MaxMap(past.acks)[k] && Ack(k, entries[k]) in past.acks
    ensures |MaxMap(past.acks).Keys| <= cap ==> entries == MaxMap(past.acks)
    ensures |MaxMap(past.acks).Keys| <= observed <= |past.acks|
  {
    assert forall i, j :: 0 <= i < j < |keys| ==> Other(keys[i], keys[j]);
    forall k | k in entries
      ensures k in MaxMap(past.acks) && entries[k] <= MaxMap(past.acks)[k] && Ack(k, entries[k]) in past.acks
    {
      ResidentWasAcked(entries, past, k);
    }
  }
}
