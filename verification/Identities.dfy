/** Minted identities: shard-lane aggregate ids, mixed client ids, reheat nonces
    and settle keys, with the source's 64- and 128-bit widths written out. */
module Identities {
  import opened Words

  const TWO_32: nat := 0x1_0000_0000
  const TWO_64: nat := 0x1_0000_0000_0000_0000
  const TWO_96: nat := 0x1_0000_0000_0000_0000_0000_0000
  const TWO_128: nat := 0x1_0000_0000_0000_0000_0000_0000_0000_0000

  const DATA_SHARDS: nat := 3
  const SETTLE_ORDINAL: nat := 0x10_0000_0000_0000_0000_0000_0000

  /** A task's `n`-th birth, namespaced by the task and scaled onto its lane. The
      ordinal's shift-and-or is a sum, since `n` has 64 bits. */
  function AggregateId(task: nat, n: nat, shards: nat): nat
    requires 0 < shards
  {
    (task * TWO_64 + n) * shards + task % shards
  }

  function SettleAggregateId(lane: nat): nat {
    SETTLE_ORDINAL * DATA_SHARDS + lane
  }

  /** Ids fit in 128 bits and route to the task's own shard. */
  lemma MintedIdFits(task: nat, n: nat, shards: nat)
    requires task < TWO_32 && n < TWO_64 && 0 < shards < TWO_32
    ensures AggregateId(task, n, shards) < TWO_128
    ensures AggregateId(task, n, shards) % shards == task % shards
  {
    var ordinal := task * TWO_64 + n;
    QuotientAndRemainder(ordinal, task % shards, shards);
    MulMono(ordinal, TWO_96, shards);
  }

  /** Over all tasks and births under one shard count, equal ids mean the same birth. */
  lemma MintedIdsDistinct(t1: nat, n1: nat, t2: nat, n2: nat, shards: nat)
    requires n1 < TWO_64 && n2 < TWO_64 && 0 < shards
    requires AggregateId(t1, n1, shards) == AggregateId(t2, n2, shards)
    ensures t1 == t2 && n1 == n2
  {
    OneAnswer(t1 * TWO_64 + n1, t1 % shards, t2 * TWO_64 + n2, t2 % shards, shards);
  }

  /** A settle key routes to its lane, fits, and is never minted. */
  lemma SettleKeyNeverMinted(lane: nat, task: nat, n: nat)
    requires lane < DATA_SHARDS && task < TWO_32 && n < TWO_64
    ensures SettleAggregateId(lane) % DATA_SHARDS == lane
    ensures SettleAggregateId(lane) < TWO_128
    ensures AggregateId(task, n, DATA_SHARDS) != SettleAggregateId(lane)
  {
    assert task % DATA_SHARDS < DATA_SHARDS;
  }

  // Client ids: an xor-shift involution and an odd multiplier, twice per half.

  const LO_KEY: nat := 0xD6E8_FEB8_6659_FD93
  const HI_KEY: nat := 0xA076_1D64_78BD_642F
  const MULTIPLIER: nat := 0xD6E8_FEB8_6659_FD93
  /** The inverse of the multiplier modulo 2^64. */
  const UNMULTIPLIER: nat := 0xCFEE_444D_8B59_A89B

  type Word64 = x: nat | x < TWO_64

  function Fold(z: Word64): (r: Word64) {
    Pow2Values();
    Xor(64, z, Shr(z, 32))
  }

  function Times(z: Word64): Word64 { (z * MULTIPLIER) % TWO_64 }
  function Untimes(z: Word64): Word64 { (z * UNMULTIPLIER) % TWO_64 }

  function Mix64(z: Word64): Word64 { Fold(Times(Fold(Times(Fold(z))))) }
  function Unmix64(z: Word64): Word64 { Fold(Untimes(Fold(Untimes(Fold(z))))) }

  /** The xor-shift undoes itself: it leaves the upper half alone. */
  lemma FoldTwice(z: Word64)
    ensures Fold(Fold(z)) == z
  {
    Pow2Values();
    var up := Shr(z, 32);
    ShrBound(z, 32, 32);
    ShrBound(up, 32, 0);
    XorShift(32, 32, z, up);
    XorZero(32, up);
    XorTwice(64, z, up);
  }

  lemma TimesBack(z: Word64)
    ensures Untimes(Times(z)) == z && Times(Untimes(z)) == z
  {
    assert (MULTIPLIER * UNMULTIPLIER) % TWO_64 == 1;
    assert (UNMULTIPLIER * MULTIPLIER) % TWO_64 == 1;
    MultiplyBack(z, MULTIPLIER, UNMULTIPLIER, TWO_64);
    MultiplyBack(z, UNMULTIPLIER, MULTIPLIER, TWO_64);
  }

  /** One half of the mixing function is a bijection on 64-bit words. */
  lemma Mix64Bijective(z: Word64)
    ensures Unmix64(Mix64(z)) == z && Mix64(Unmix64(z)) == z
  {
    var a := Times(Fold(z));
    var b := Times(Fold(a));
    FoldTwice(b);
    TimesBack(Fold(a));
    FoldTwice(a);
    TimesBack(Fold(z));
    FoldTwice(z);
    var c := Untimes(Fold(z));
    var d := Untimes(Fold(c));
    FoldTwice(d);
    TimesBack(Fold(c));
    FoldTwice(c);
  }

  type Word128 = x: nat | x < TWO_128

  function Hi(x: Word128): Word64 { x / TWO_64 }
  function Lo(x: Word128): Word64 { x % TWO_64 }
  function Join(hi: Word64, lo: Word64): Word128 { hi * TWO_64 + lo }

  function Xor64(a: Word64, b: Word64): Word64 {
    Pow2Values();
    Xor(64, a, b)
  }

  function MixU128(x: Word128): Word128 {
    Join(Mix64(Xor64(Hi(x), HI_KEY)), Mix64(Xor64(Lo(x), LO_KEY)))
  }

  function UnmixU128(y: Word128): Word128 {
    Join(Xor64(Unmix64(Hi(y)), HI_KEY), Xor64(Unmix64(Lo(y)), LO_KEY))
  }

  lemma JoinSplits(hi: Word64, lo: Word64)
    ensures Hi(Join(hi, lo)) == hi && Lo(Join(hi, lo)) == lo
  {
  }

  lemma Xor64Twice(a: Word64, b: Word64)
    ensures Xor64(Xor64(a, b), b) == a
  {
    Pow2Values();
    XorTwice(64, a, b);
  }

  /** `mix_u128` is a bijection on 128-bit ids. */
  lemma MixU128Bijective(x: Word128)
    ensures UnmixU128(MixU128(x)) == x && MixU128(UnmixU128(x)) == x
  {
    var hi, lo := Xor64(Hi(x), HI_KEY), Xor64(Lo(x), LO_KEY);
    Mix64Bijective(hi);
    Mix64Bijective(lo);
    JoinSplits(Mix64(hi), Mix64(lo));
    Xor64Twice(Hi(x), HI_KEY);
    Xor64Twice(Lo(x), LO_KEY);
    assert Join(Hi(x), Lo(x)) == x;
    var hi', lo' := Unmix64(Hi(x)), Unmix64(Lo(x));
    Mix64Bijective(Hi(x));
    Mix64Bijective(Lo(x));
    JoinSplits(Xor64(hi', HI_KEY), Xor64(lo', LO_KEY));
    Xor64Twice(hi', HI_KEY);
    Xor64Twice(lo', LO_KEY);
  }

  /** The client minted with an aggregate. */
  function ClientId(task: nat, n: nat, shards: nat): nat
    requires task < TWO_32 && n < TWO_64 && 0 < shards < TWO_32
  {
    MintedIdFits(task, n, shards);
    MixU128(AggregateId(task, n, shards))
  }

  /** Distinct births get distinct clients. */
  lemma MintedClientsDistinct(t1: nat, n1: nat, t2: nat, n2: nat, shards: nat)
    requires t1 < TWO_32 && n1 < TWO_64 && t2 < TWO_32 && n2 < TWO_64 && 0 < shards < TWO_32
    requires ClientId(t1, n1, shards) == ClientId(t2, n2, shards)
    ensures t1 == t2 && n1 == n2
  {
    MintedIdFits(t1, n1, shards);
    MintedIdFits(t2, n2, shards);
    MixU128Bijective(AggregateId(t1, n1, shards));
    MixU128Bijective(AggregateId(t2, n2, shards));
    MintedIdsDistinct(t1, n1, t2, n2, shards);
  }

  // New-client reheats.

  const NONCE_MULTIPLIER: nat := 0xA076_1D64_78BD_642F
  /** The inverse of the nonce multiplier modulo 2^128. */
  const NONCE_UNMULTIPLIER: nat := 0x2D6B_D72A_F188_51AE_939C_72E4_AF1E_62CF
  const NONCE_KEY: nat := 0xD6E8_FEB8_6659_FD93

  function ReheatNonce(task: nat, ordinal: nat): nat {
    task * TWO_64 + ordinal
  }

  function Spread(nonce: nat): Word128 { (nonce * NONCE_MULTIPLIER) % TWO_128 }

  /** The client id of a new-client reheat. */
  function ReheatClientId(client: Word128, nonce: nat): nat {
    Xor(128, Xor(128, client, Spread(nonce)), NONCE_KEY)
  }

  /** Nonces are injective over every task and 64-bit ordinal. */
  lemma NoncesDistinct(t1: nat, o1: nat, t2: nat, o2: nat)
    requires o1 < TWO_64 && o2 < TWO_64 && ReheatNonce(t1, o1) == ReheatNonce(t2, o2)
    ensures t1 == t2 && o1 == o2
  {
    OneAnswer(t1, o1, t2, o2, TWO_64);
  }

  function Unspread(x: Word128): Word128 { (x * NONCE_UNMULTIPLIER) % TWO_128 }

  lemma SpreadBack(nonce: Word128)
    ensures Unspread(Spread(nonce)) == nonce
  {
    assert (NONCE_MULTIPLIER * NONCE_UNMULTIPLIER) % TWO_128 == 1;
    MultiplyBack(nonce, NONCE_MULTIPLIER, NONCE_UNMULTIPLIER, TWO_128);
  }

  /** The mask of a reheat client id is recovered from it. */
  lemma MaskRecovered(client: Word128, x: Word128)
    ensures Xor(128, Xor(128, Xor(128, Xor(128, client, x), NONCE_KEY), NONCE_KEY), client) == x
  {
    Pow2Values();
    XorTwice(128, Xor(128, client, x), NONCE_KEY);
    XorCommutes(128, client, x);
    XorTwice(128, x, client);
  }

  /** For one aggregate, distinct nonces give distinct new clients, and none of
      them is the aggregate's original client. */
  lemma ReheatClientsAreNew(client: Word128, t1: nat, o1: nat, t2: nat, o2: nat)
    requires t1 < TWO_32 && t2 < TWO_32 && o1 < TWO_64 && o2 < TWO_64
    ensures (t1, o1) != (t2, o2) ==>
              ReheatClientId(client, ReheatNonce(t1, o1)) != ReheatClientId(client, ReheatNonce(t2, o2))
    ensures ReheatClientId(client, ReheatNonce(t1, o1)) != client
  {
    var n1, n2 := ReheatNonce(t1, o1), ReheatNonce(t2, o2);
    MaskRecovered(client, Spread(n1));
    MaskRecovered(client, Spread(n2));
    SpreadBack(n1);
    SpreadBack(n2);
    if n1 == n2 {
      NoncesDistinct(t1, o1, t2, o2);
    }
    KeyIsNoSpread(n1);
    if ReheatClientId(client, n1) == client {
      OnlyKeyCancels(client, Spread(n1));
    }
  }

  /** Only the fixed key itself masks to nothing. */
  lemma OnlyKeyCancels(client: Word128, x: Word128)
    requires Xor(128, Xor(128, client, x), NONCE_KEY) == client
    ensures x == NONCE_KEY
  {
    Pow2Values();
    MaskRecovered(client, x);
    XorCommutes(128, client, NONCE_KEY);
    XorTwice(128, NONCE_KEY, client);
  }

  lemma UnspreadKey()
    ensures Unspread(NONCE_KEY) == 0x635C_C10E_FA95_AA8C_0921_5E18_6A10_4FDD
  {
  }

  /** The fixed key is the spread of no nonce a run can produce. */
  lemma KeyIsNoSpread(nonce: nat)
    requires nonce < TWO_96
    ensures Spread(nonce) != NONCE_KEY
  {
    SpreadBack(nonce);
    UnspreadKey();
  }
}
