/** The bounded ledger of acked (aggregate, client) pairs. */
module AckLedger {
  import opened Wrappers
  import opened AckHistory

  class AckLedger {
    const cap: nat
    var entries: map<Member, nat>
    var keys: seq<Member>
    var observed: nat
    ghost var past: Past

    ghost predicate Valid()
      reads this
    {
      Sound(cap, entries, keys, observed, past)
    }

    constructor (capacity: nat)
      ensures Valid() && cap == capacity && past.acks == []
    {
      cap := capacity;
      entries, keys, observed := map[], [], 0;
      past := Past([], map[], [{}], [], []);
    }

    /** Record an ack. A resident key keeps its maximum; a new one is offered to the
        reservoir with draw `rand` modulo the offers so far. */
    method Record(key: Member, seqNo: nat, rand: nat)
      requires Valid()
      modifies this
      ensures Valid() && past.acks == old(past.acks) + [Ack(key, seqNo)]
      ensures key in old(entries) ==> past.offers == old(past.offers)
      ensures key !in old(entries) ==> past.offers == old(past.offers) + [key]
      ensures key !in old(entries) ==> past.draws == old(past.draws) + [rand % (old(observed) + 1)]
      ensures (keys, observed) == Step(cap, old(keys), old(observed), key, rand)
    {
      ghost var a := Ack(key, seqNo);
      if key in entries {
        SoundRaised(cap, entries, keys, observed, past, a);
        entries := entries[key := Max(entries[key], seqNo)];
        past := Seen(past, a, entries.Keys);
        return;
      }
      Offer(key, seqNo, rand);
    }

    /** A new key: Algorithm R over the keys not resident when offered. */
    method Offer(key: Member, seqNo: nat, rand: nat)
      requires Valid() && key !in entries
      modifies this
      ensures Valid() && past.acks == old(past.acks) + [Ack(key, seqNo)]
      ensures past.offers == old(past.offers) + [key]
      ensures past.draws == old(past.draws) + [rand % (old(observed) + 1)]
      ensures keys == Reservoir.Offer(cap, old(keys), key, rand % (old(observed) + 1)) && observed == old(observed) + 1
    {
      KeysLength(cap, entries, keys, observed, past);
      var j := rand % (observed + 1);
      if cap == 0 {
        Skip(key, seqNo, j);
      } else if |keys| < cap {
        Push(key, seqNo, j);
      } else if j < cap {
        Swap(key, seqNo, j);
      } else {
        Skip(key, seqNo, j);
      }
    }

    method Skip(ghost key: Member, ghost seqNo: nat, ghost j: nat)
      requires Valid() && key !in entries && cap <= |keys| && cap <= j <= observed
      modifies this`observed, this`past
      ensures Valid() && past == Offered(old(past), Ack(key, seqNo), entries.Keys, j) && observed == old(observed) + 1
    {
      SoundSkipped(cap, entries, keys, observed, past, Ack(key, seqNo), j);
      observed, past := observed + 1, Offered(past, Ack(key, seqNo), entries.Keys, j);
    }

    method Push(key: Member, seqNo: nat, ghost j: nat)
      requires Valid() && key !in entries && |keys| < cap
      modifies this
      ensures Valid() && past == Admitted(old(past), Ack(key, seqNo), entries.Keys, j)
      ensures keys == old(keys) + [key] && observed == old(observed) + 1
    {
      SoundPushed(cap, entries, keys, observed, past, Ack(key, seqNo), j);
      keys, entries, observed, past := keys + [key], entries[key := seqNo], observed + 1,
        Admitted(past, Ack(key, seqNo), entries[key := seqNo].Keys, j);
    }

    method Swap(key: Member, seqNo: nat, j: nat)
      requires Valid() && key !in entries && j < cap == |keys| && j <= observed
      modifies this
      ensures Valid() && past == Admitted(old(past), Ack(key, seqNo), entries.Keys, j)
      ensures keys == old(keys)[j := key] && observed == old(observed) + 1
    {
      SoundSwapped(cap, entries, keys, observed, past, Ack(key, seqNo), j);
      var victim := keys[j];
      keys, entries, observed, past := keys[j := key], (entries - {victim})[key := seqNo], observed + 1,
        Admitted(past, Ack(key, seqNo), (entries - {victim})[key := seqNo].Keys, j);
    }
  }
}
