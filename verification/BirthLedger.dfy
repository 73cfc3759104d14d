/** What a birth ledger keeps: each cohort is a fair sample of real, distinct births. */
module BirthLedger {
  import opened Wrappers
  import opened Identities
  import opened Cohorts
  import Reservoir

  const NS_PER_MS: nat := 1_000_000

  /** The configuration as it is given, with durations in nanoseconds. */
  datatype Settings = Settings(taskId: nat, shards: nat, sliceNs: nat, maxAgeNs: nat, reservoir: nat) {
    /** What the constructor asserts. */
    ghost predicate Accepted() {
      taskId < TWO_32 && 0 < shards < TWO_32 && 0 < sliceNs && 0 < reservoir
    }

    /** The slice in milliseconds: truncated, and cast to 64 bits. */
    function SliceMs(): nat { (sliceNs / NS_PER_MS) % TWO_64 }

    function MaxAgeMs(): nat { Min(maxAgeNs / NS_PER_MS, U64_MAX) }

    /** The configuration as the ledger computes with it. */
    function Millis(): Config { Config(taskId, shards, SliceMs(), MaxAgeMs(), reservoir) }
  }

  /** Settings are truncated to whole milliseconds; a tracked age past 64 bits is capped. */
  lemma MillisTruncate(s: Settings)
    ensures s.sliceNs < TWO_64 * NS_PER_MS ==>
              s.SliceMs() * NS_PER_MS <= s.sliceNs < (s.SliceMs() + 1) * NS_PER_MS
    ensures s.maxAgeNs < TWO_64 * NS_PER_MS ==>
              s.MaxAgeMs() * NS_PER_MS <= s.maxAgeNs < (s.MaxAgeMs() + 1) * NS_PER_MS
    ensures TWO_64 * NS_PER_MS <= s.maxAgeNs ==> s.MaxAgeMs() == U64_MAX
  {
  }

  /** The slice vanishes exactly when it is under a millisecond, or under one past a
      whole multiple of 2^64 of them. */
  lemma SliceVanishesIff(s: Settings)
    ensures s.SliceMs() == 0 <==> s.sliceNs % (TWO_64 * NS_PER_MS) < NS_PER_MS
    ensures s.sliceNs < TWO_64 * NS_PER_MS ==> (s.SliceMs() == 0 <==> s.sliceNs < NS_PER_MS)
  {
    var a, whole := s.sliceNs / NS_PER_MS, TWO_64 * NS_PER_MS;
    assert s.sliceNs == a * NS_PER_MS + s.sliceNs % NS_PER_MS;
    assert a == (a / TWO_64) * TWO_64 + a % TWO_64;
    assert a * NS_PER_MS == (a / TWO_64) * whole + (a % TWO_64) * NS_PER_MS;
    Words.QuotientAndRemainder(a / TWO_64, (a % TWO_64) * NS_PER_MS + s.sliceNs % NS_PER_MS, whole);
  }

  datatype Config = Config(taskId: nat, shards: nat, sliceMs: nat, maxAgeMs: nat, reservoir: nat) {
    ghost predicate Mints() {
      taskId < TWO_32 && 0 < shards < TWO_32
    }

    ghost predicate Valid() {
      Mints() && 0 < sliceMs <= U64_MAX && 0 < reservoir
    }

    /** The identity the task's `n`-th birth mints. */
    function Minted(n: nat): Member
      requires taskId < TWO_32 && n < TWO_64 && 0 < shards < TWO_32
    {
      Member(AggregateId(taskId, n, shards), ClientId(taskId, n, shards))
    }
  }

  /** The births behind a cohort and the draws its reservoir took. */
  datatype Story = Story(births: seq<Birth>, draws: seq<nat>)

  ghost predicate BirthOk(cfg: Config, total: nat, latestMs: nat, slice: nat, b: Birth)
    requires cfg.Valid() && total < TWO_64
  {
    && b.ordinal < total
    && SliceOf(cfg, b.atMs) == slice
    && b.atMs <= latestMs
  }

  ghost predicate NoTwins(births: seq<Birth>) {
    forall i, j :: 0 <= i < j < |births| ==> births[i].member != births[j].member
  }

  /** A cohort is what Algorithm R keeps of its births. */
  ghost predicate CohortOk(cfg: Config, total: nat, latestMs: nat, c: Cohort, st: Story)
    requires cfg.Valid() && total < TWO_64
  {
    && c.seen == |st.births|
    && Reservoir.LegalDraws(cfg.reservoir, c.seen, st.draws)
    && c.members == Reservoir.Sample(cfg.reservoir, Members(st.births), st.draws)
    && NoTwins(st.births)
    && forall i {:trigger BirthOk(cfg, total, latestMs, c.slice, st.births[i])} ::
         0 <= i < |st.births| ==> BirthOk(cfg, total, latestMs, c.slice, st.births[i])
  }

  ghost predicate NoSharedMember(a: seq<Birth>, b: seq<Birth>) {
    forall i, j :: 0 <= i < |a| && 0 <= j < |b| ==> a[i].member != b[j].member
  }

  ghost predicate Apart(stories: seq<Story>) {
    forall i, j {:trigger NoSharedMember(stories[i].births, stories[j].births)} ::
      0 <= i < j < |stories| ==> NoSharedMember(stories[i].births, stories[j].births)
  }

  ghost predicate AllOk(cfg: Config, total: nat, latestMs: nat, cohorts: seq<Cohort>, stories: seq<Story>)
    requires cfg.Valid() && total < TWO_64
  {
    && |stories| == |cohorts|
    && forall i {:trigger CohortOk(cfg, total, latestMs, cohorts[i], stories[i])} ::
         0 <= i < |cohorts| ==> CohortOk(cfg, total, latestMs, cohorts[i], stories[i])
  }

  ghost predicate Good(cfg: Config, total: nat, latestMs: nat, cohorts: seq<Cohort>, stories: seq<Story>) {
    && cfg.Valid()
    && total < TWO_64
    && latestMs <= U64_MAX
    && Ascending(cohorts)
    && AllOk(cfg, total, latestMs, cohorts, stories)
    && Apart(stories)
  }

  // Minting.

  ghost predicate MintedBirth(cfg: Config, total: nat, b: Birth)
    requires cfg.Mints() && total <= TWO_64
  {
    b.ordinal < total && b.member == cfg.Minted(b.ordinal)
  }

  /** Every birth was minted by this task, with an ordinal below `total`. */
  ghost predicate Provenance(cfg: Config, total: nat, births: set<Birth>)
    requires cfg.Mints() && total <= TWO_64
  {
    forall b {:trigger MintedBirth(cfg, total, b)} :: b in births ==> MintedBirth(cfg, total, b)
  }

  /** The birth was minted as the next one. */
  ghost predicate NewlyMinted(cfg: Config, b: Birth)
    requires cfg.Mints() && b.ordinal < TWO_64
  {
    forall x {:trigger MintedBirth(cfg, b.ordinal + 1, x)} :: x == b ==> MintedBirth(cfg, b.ordinal + 1, x)
  }

  lemma BirthAggregate(cfg: Config, n: nat, births: set<Birth>, x: Birth)
    requires cfg.Mints() && n <= TWO_64 && Provenance(cfg, n, births) && x in births
    ensures x.ordinal < n && x.member.aggregateId == AggregateId(cfg.taskId, x.ordinal, cfg.shards)
  {
    assert MintedBirth(cfg, n, x);
  }

  lemma NewAggregate(cfg: Config, b: Birth)
    requires cfg.Mints() && b.ordinal < TWO_64 && NewlyMinted(cfg, b)
    ensures b.member.aggregateId == AggregateId(cfg.taskId, b.ordinal, cfg.shards)
  {
    assert MintedBirth(cfg, b.ordinal + 1, b);
  }

  /** The next identity is new. */
  lemma NextIsFresh(cfg: Config, n: nat, births: set<Birth>, b: Birth)
    requires cfg.Mints() && n < TWO_64 && b.ordinal == n
    requires Provenance(cfg, n, births) && NewlyMinted(cfg, b)
    ensures Fresh(births, b.member)
  {
    NewAggregate(cfg, b);
    forall x | x in births
      ensures x.member != b.member
    {
      BirthAggregate(cfg, n, births, x);
      if x.member.aggregateId == b.member.aggregateId {
        MintedIdsDistinct(cfg.taskId, x.ordinal, cfg.taskId, n, cfg.shards);
      }
    }
  }

  lemma ProvenanceGrows(cfg: Config, n: nat, total: nat, births: set<Birth>, after: set<Birth>)
    requires cfg.Mints() && n <= total <= TWO_64 && Provenance(cfg, n, births) && after <= births
    ensures Provenance(cfg, total, after)
  {
    forall x | x in after
      ensures MintedBirth(cfg, total, x)
    {
      MintedLater(cfg, n, total, births, x);
    }
  }

  lemma ProvenanceExtends(cfg: Config, n: nat, total: nat, births: set<Birth>, after: set<Birth>, b: Birth)
    requires cfg.Mints() && n < TWO_64 && b.ordinal == n && total == n + 1
    requires Provenance(cfg, n, births) && NewlyMinted(cfg, b) && after - {b} <= births
    ensures Provenance(cfg, total, after)
  {
    forall x | x in after
      ensures MintedBirth(cfg, total, x)
    {
      if x != b {
        assert x in births;
        MintedLater(cfg, n, total, births, x);
      } else {
        assert MintedBirth(cfg, b.ordinal + 1, b);
      }
    }
  }

  lemma MintedLater(cfg: Config, n: nat, total: nat, births: set<Birth>, x: Birth)
    requires cfg.Mints() && n <= total <= TWO_64 && Provenance(cfg, n, births) && x in births
    ensures MintedBirth(cfg, total, x)
  {
    assert MintedBirth(cfg, n, x);
  }

  // Division.

  lemma DivideBelow(n: nat, q: nat, m: nat)
    requires 0 < m && n < q * m
    ensures n / m < q
  {
    var d := n / m;
    assert n == d * m + n % m;
    if q < d {
      Words.MulMono(q, d, m);
    }
  }

  lemma DivideMonotone(a: nat, b: nat, m: nat)
    requires 0 < m && a <= b
    ensures a / m <= b / m
  {
    var d := b / m;
    assert b == d * m + b % m;
    assert (d + 1) * m == d * m + m;
    DivideBelow(a, d + 1, m);
  }

  function CeilDiv(a: nat, b: nat): nat
    requires 0 < b
  {
    (a + b - 1) / b
  }

  lemma TrackedSpan(nowMs: nat, ageMs: nat, sliceMs: nat)
    requires 0 < sliceMs
    ensures nowMs / sliceMs - Minus(nowMs, ageMs) / sliceMs <= CeilDiv(ageMs, sliceMs)
  {
    var c := CeilDiv(ageMs, sliceMs);
    var top := ageMs + sliceMs - 1;
    assert top == c * sliceMs + top % sliceMs;
    var cut := Minus(nowMs, ageMs);
    var q := cut / sliceMs;
    assert cut == q * sliceMs + cut % sliceMs;
    assert (q + c + 1) * sliceMs == q * sliceMs + c * sliceMs + sliceMs;
    DivideBelow(nowMs, q + c + 1, sliceMs);
  }

  // Contents.

  ghost function BirthSet(births: seq<Birth>): set<Birth> {
    set b | b in births
  }

  /** Every birth behind the live cohorts. */
  ghost function Births(stories: seq<Story>): set<Birth> {
    if stories == [] then {} else Births(stories[..|stories| - 1]) + BirthSet(stories[|stories| - 1].births)
  }

  lemma {:induction false} BirthsSplit(stories: seq<Story>, p: nat)
    requires p <= |stories|
    ensures Births(stories) == Births(stories[..p]) + Births(stories[p..])
    decreases |stories| - p
  {
    if p == |stories| {
      assert stories[..p] == stories && stories[p..] == [];
    } else {
      var n := |stories| - 1;
      BirthsSplit(stories[..n], p);
      assert stories[..n][..p] == stories[..p] && stories[..n][p..] == stories[p..n];
      assert stories[p..][..n - p] == stories[p..n];
    }
  }

  lemma BirthsAt(stories: seq<Story>, i: nat)
    requires i < |stories|
    ensures Births(stories) == Births(stories[..i]) + BirthSet(stories[i].births) + Births(stories[i + 1..])
  {
    BirthsSplit(stories, i + 1);
    assert stories[..i + 1][..i] == stories[..i];
  }

  lemma {:induction false} BornSomewhere(stories: seq<Story>, b: Birth) returns (i: nat, j: nat)
    requires b in Births(stories)
    ensures i < |stories| && j < |stories[i].births| && stories[i].births[j] == b
  {
    var n := |stories| - 1;
    if b in Births(stories[..n]) {
      i, j := BornSomewhere(stories[..n], b);
    } else {
      i := n;
      j :| 0 <= j < |stories[n].births| && stories[n].births[j] == b;
    }
  }

  lemma InsertBirths(stories: seq<Story>, pos: nat)
    requires pos <= |stories|
    ensures Births(stories[..pos] + [Story([], [])] + stories[pos..]) == Births(stories)
  {
    var ss := stories[..pos] + [Story([], [])] + stories[pos..];
    BirthsAt(ss, pos);
    BirthsSplit(stories, pos);
    assert ss[..pos] == stories[..pos] && ss[pos + 1..] == stories[pos..];
  }

  function Appended(stories: seq<Story>, idx: nat, b: Birth, draw: nat): seq<Story>
    requires idx < |stories|
  {
    stories[idx := Story(stories[idx].births + [b], stories[idx].draws + [draw])]
  }

  lemma AppendBirths(stories: seq<Story>, idx: nat, b: Birth, draw: nat)
    requires idx < |stories|
    ensures Births(Appended(stories, idx, b, draw)) == Births(stories) + {b}
  {
    var ss := Appended(stories, idx, b, draw);
    BirthsAt(ss, idx);
    BirthsAt(stories, idx);
    assert ss[..idx] == stories[..idx] && ss[idx + 1..] == stories[idx + 1..];
    assert BirthSet(stories[idx].births + [b]) == BirthSet(stories[idx].births) + {b};
  }

  ghost predicate Fresh(births: set<Birth>, m: Member) {
    forall b :: b in births ==> b.member != m
  }

  /** What expiry may do: drop births past the tracked age and nothing else. */
  ghost predicate Trimmed(before: set<Birth>, after: set<Birth>, maxAgeMs: nat, nowMs: nat) {
    after <= before && forall b :: b in before && b !in after ==> maxAgeMs < Minus(nowMs, b.atMs)
  }

  /** The dropped births are older than the configured age. */
  ghost predicate Outlived(before: set<Birth>, after: set<Birth>, s: Settings, nowMs: nat) {
    forall b :: b in before && b !in after ==> s.maxAgeNs < Minus(nowMs, b.atMs) * NS_PER_MS
  }

  lemma TrimmedOutlived(before: set<Birth>, after: set<Birth>, s: Settings, nowMs: nat)
    requires Trimmed(before, after, s.MaxAgeMs(), nowMs) && nowMs <= U64_MAX
    ensures Outlived(before, after, s, nowMs)
  {
    MillisTruncate(s);
  }

  // What each operation keeps.

  lemma SuffixGood(cfg: Config, total: nat, latestMs: nat, cohorts: seq<Cohort>, stories: seq<Story>, p: nat)
    requires Good(cfg, total, latestMs, cohorts, stories) && p <= |cohorts|
    ensures Good(cfg, total, latestMs, cohorts[p..], stories[p..])
  {
    forall i, j | 0 <= i < j < |cohorts| - p
      ensures Before(cohorts[p..][i], cohorts[p..][j]) && NoSharedMember(stories[p..][i].births, stories[p..][j].births)
    {
      assert Before(cohorts[p + i], cohorts[p + j]);
      assert NoSharedMember(stories[p + i].births, stories[p + j].births);
    }
    forall i | 0 <= i < |cohorts| - p
      ensures CohortOk(cfg, total, latestMs, cohorts[p..][i], stories[p..][i])
    {
      assert CohortOk(cfg, total, latestMs, cohorts[p + i], stories[p + i]);
    }
  }

  /** A cohort below the cutoff holds only births past the tracked age. */
  lemma DroppedIsOld(cfg: Config, total: nat, latestMs: nat, c: Cohort, st: Story, nowMs: nat, i: nat)
    requires cfg.Valid() && total < TWO_64
    requires CohortOk(cfg, total, latestMs, c, st) && i < |st.births|
    requires c.slice < Cutoff(cfg, nowMs)
    ensures cfg.maxAgeMs < Minus(nowMs, st.births[i].atMs)
  {
    var at := st.births[i].atMs;
    assert BirthOk(cfg, total, latestMs, c.slice, st.births[i]);
    if Minus(nowMs, cfg.maxAgeMs) <= at {
      SliceMonotone(cfg, Minus(nowMs, cfg.maxAgeMs), at);
    }
  }

  function SliceOf(cfg: Config, atMs: nat): nat
    requires 0 < cfg.sliceMs
  {
    atMs / cfg.sliceMs
  }

  lemma SliceMonotone(cfg: Config, a: nat, b: nat)
    requires 0 < cfg.sliceMs && a <= b
    ensures SliceOf(cfg, a) <= SliceOf(cfg, b)
  {
    DivideMonotone(a, b, cfg.sliceMs);
  }

  ghost predicate UpTo(cohorts: seq<Cohort>, slice: nat) {
    forall i :: 0 <= i < |cohorts| ==> cohorts[i].slice <= slice
  }

  /** The first slice an expiry keeps. */
  function Cutoff(cfg: Config, nowMs: nat): nat
    requires 0 < cfg.sliceMs
  {
    SliceOf(cfg, Minus(nowMs, cfg.maxAgeMs))
  }

  lemma DroppedAreOld(cfg: Config, total: nat, latestMs: nat, cohorts: seq<Cohort>, stories: seq<Story>,
                      p: nat, nowMs: nat)
    requires cfg.Valid() && total < TWO_64 && AllOk(cfg, total, latestMs, cohorts, stories) && p <= |cohorts|
    requires forall i :: 0 <= i < p ==> cohorts[i].slice < Cutoff(cfg, nowMs)
    ensures Trimmed(Births(stories), Births(stories[p..]), cfg.maxAgeMs, nowMs)
  {
    BirthsSplit(stories, p);
    forall b | b in Births(stories[..p])
      ensures cfg.maxAgeMs < Minus(nowMs, b.atMs)
    {
      var i, t := BornSomewhere(stories[..p], b);
      assert CohortOk(cfg, total, latestMs, cohorts[i], stories[i]);
      DroppedIsOld(cfg, total, latestMs, cohorts[i], stories[i], nowMs, t);
    }
  }

  /** Expiry drops a prefix of cohorts, and only births past the tracked age. */
  lemma ExpireGood(cfg: Config, total: nat, latestMs: nat, cohorts: seq<Cohort>, stories: seq<Story>, nowMs: nat)
    returns (p: nat)
    requires Good(cfg, total, latestMs, cohorts, stories)
    ensures p <= |cohorts| == |stories|
    ensures KeepFrom(cohorts, Cutoff(cfg, nowMs)) == cohorts[p..]
    ensures Good(cfg, total, latestMs, cohorts[p..], stories[p..])
    ensures Trimmed(Births(stories), Births(stories[p..]), cfg.maxAgeMs, nowMs)
    ensures forall i :: p <= i < |cohorts| ==> Cutoff(cfg, nowMs) <= cohorts[i].slice
    ensures SeenTotal(cohorts) == SeenTotal(cohorts[..p]) + SeenTotal(cohorts[p..])
  {
    p := KeepFromIsSuffix(cohorts, Cutoff(cfg, nowMs));
    SuffixGood(cfg, total, latestMs, cohorts, stories, p);
    SeenSplits(cohorts, p);
    DroppedAreOld(cfg, total, latestMs, cohorts, stories, p, nowMs);
  }

  /** Counting a birth and moving the clock on spoils nothing. */
  lemma GrowGood(cfg: Config, total: nat, latestMs: nat, cohorts: seq<Cohort>, stories: seq<Story>,
                 total': nat, latestMs': nat)
    requires Good(cfg, total, latestMs, cohorts, stories)
    requires total <= total' < TWO_64 && latestMs <= latestMs' && latestMs' <= U64_MAX
    ensures Good(cfg, total', latestMs', cohorts, stories)
  {
    forall i | 0 <= i < |cohorts|
      ensures CohortOk(cfg, total', latestMs', cohorts[i], stories[i])
    {
      assert CohortOk(cfg, total, latestMs, cohorts[i], stories[i]);
      forall j | 0 <= j < |stories[i].births|
        ensures BirthOk(cfg, total', latestMs', cohorts[i].slice, stories[i].births[j])
      {
        assert BirthOk(cfg, total, latestMs, cohorts[i].slice, stories[i].births[j]);
      }
    }
  }

  lemma InsertApart(stories: seq<Story>, pos: nat)
    requires Apart(stories) && pos <= |stories|
    ensures Apart(stories[..pos] + [Story([], [])] + stories[pos..])
  {
    var ss := stories[..pos] + [Story([], [])] + stories[pos..];
    forall i, j | 0 <= i < j < |ss|
      ensures NoSharedMember(ss[i].births, ss[j].births)
    {
      if i != pos && j != pos {
        var i', j' := if i < pos then i else i - 1, if j < pos then j else j - 1;
        assert NoSharedMember(stories[i'].births, stories[j'].births);
      }
    }
  }

  lemma InsertAllOk(cfg: Config, total: nat, latestMs: nat, cohorts: seq<Cohort>, stories: seq<Story>,
                    pos: nat, slice: nat)
    requires cfg.Valid() && total < TWO_64
    requires AllOk(cfg, total, latestMs, cohorts, stories) && pos <= |cohorts|
    ensures AllOk(cfg, total, latestMs, cohorts[..pos] + [Cohort(slice, 0, [])] + cohorts[pos..],
                  stories[..pos] + [Story([], [])] + stories[pos..])
  {
    var cs := cohorts[..pos] + [Cohort(slice, 0, [])] + cohorts[pos..];
    var ss := stories[..pos] + [Story([], [])] + stories[pos..];
    forall i | 0 <= i < |cs|
      ensures CohortOk(cfg, total, latestMs, cs[i], ss[i])
    {
      if i == pos {
        assert Members([]) == [];
      } else {
        var i' := if i < pos then i else i - 1;
        assert cs[i] == cohorts[i'] && ss[i] == stories[i'];
        assert CohortOk(cfg, total, latestMs, cohorts[i'], stories[i']);
      }
    }
  }

  lemma InsertAscending(cohorts: seq<Cohort>, pos: nat, c: Cohort)
    requires Ascending(cohorts) && pos <= |cohorts|
    requires forall i :: 0 <= i < pos ==> cohorts[i].slice < c.slice
    requires forall i :: pos <= i < |cohorts| ==> c.slice < cohorts[i].slice
    ensures Ascending(cohorts[..pos] + [c] + cohorts[pos..])
  {
    var cs := cohorts[..pos] + [c] + cohorts[pos..];
    forall i, j | 0 <= i < j < |cs|
      ensures Before(cs[i], cs[j])
    {
      if i != pos && j != pos {
        assert Before(cohorts[if i < pos then i else i - 1], cohorts[if j < pos then j else j - 1]);
      }
    }
  }

  lemma InsertGood(cfg: Config, total: nat, latestMs: nat, cohorts: seq<Cohort>, stories: seq<Story>,
                   pos: nat, slice: nat)
    requires Good(cfg, total, latestMs, cohorts, stories) && pos <= |cohorts|
    requires forall i :: 0 <= i < pos ==> cohorts[i].slice < slice
    requires forall i :: pos <= i < |cohorts| ==> slice < cohorts[i].slice
    ensures Good(cfg, total, latestMs, cohorts[..pos] + [Cohort(slice, 0, [])] + cohorts[pos..],
                 stories[..pos] + [Story([], [])] + stories[pos..])
  {
    InsertAscending(cohorts, pos, Cohort(slice, 0, []));
    InsertAllOk(cfg, total, latestMs, cohorts, stories, pos, slice);
    InsertApart(stories, pos);
  }

  /** What counting the next birth at `nowMs` leaves true. */
  lemma NextBirth(cfg: Config, total: nat, latestMs: nat, cohorts: seq<Cohort>, stories: seq<Story>,
                  nowMs: nat, latestMs': nat)
    requires Good(cfg, total, latestMs, cohorts, stories) && UpTo(cohorts, SliceOf(cfg, latestMs))
    requires total + 1 < TWO_64 && nowMs <= U64_MAX
    requires latestMs' == if nowMs < latestMs then latestMs else nowMs
    ensures Good(cfg, total + 1, latestMs', cohorts, stories) && UpTo(cohorts, SliceOf(cfg, latestMs'))
  {
    SliceMonotone(cfg, latestMs, latestMs');
    GrowGood(cfg, total, latestMs, cohorts, stories, total + 1, latestMs');
  }

  /** The story ends with this birth, and if it had to be drawn for, with this draw. */
  ghost predicate EndsWith(cfg: Config, st: Story, b: Birth, rand: nat) {
    && st.births != [] && |st.draws| == |st.births| && st.births[|st.births| - 1] == b
    && (cfg.reservoir < |st.births| ==> st.draws[|st.births| - 1] == rand % |st.births|)
  }

  /** The birth was the last offered to its cohort, under this draw. */
  ghost predicate DrewWith(cfg: Config, stories: seq<Story>, b: Birth, rand: nat) {
    exists i :: 0 <= i < |stories| && EndsWith(cfg, stories[i], b, rand)
  }

  function Offered(cfg: Config, c: Cohort, m: Member, draw: nat): Cohort
    requires |c.members| <= cfg.reservoir
  {
    Cohort(c.slice, c.seen + 1, Reservoir.Offer(cfg.reservoir, c.members, m, draw))
  }

  /** One offer of the newest birth to a cohort. */
  lemma OfferedOk(cfg: Config, total: nat, latestMs: nat, c: Cohort, st: Story, b: Birth, draw: nat)
    requires cfg.Valid() && total < TWO_64
    requires CohortOk(cfg, total, latestMs, c, st)
    requires BirthOk(cfg, total, latestMs, c.slice, b)
    requires forall i :: 0 <= i < |st.births| ==> st.births[i].member != b.member
    requires cfg.reservoir <= c.seen ==> draw <= c.seen
    ensures |c.members| <= cfg.reservoir
    ensures CohortOk(cfg, total, latestMs, Offered(cfg, c, b.member, draw), Story(st.births + [b], st.draws + [draw]))
  {
    var ms := Members(st.births + [b]);
    var n := |st.births|;
    assert ms[..n] == Members(st.births) && (st.draws + [draw])[..n] == st.draws;
  }

  lemma FreshEverywhere(stories: seq<Story>, m: Member)
    requires Fresh(Births(stories), m)
    ensures forall i, j :: 0 <= i < |stories| && 0 <= j < |stories[i].births| ==> stories[i].births[j].member != m
  {
    forall i, j | 0 <= i < |stories| && 0 <= j < |stories[i].births|
      ensures stories[i].births[j].member != m
    {
      BirthsAt(stories, i);
      assert stories[i].births[j] in BirthSet(stories[i].births);
    }
  }

  lemma AppendApart(stories: seq<Story>, idx: nat, b: Birth, draw: nat)
    requires Apart(stories) && idx < |stories|
    requires forall i, j :: 0 <= i < |stories| && 0 <= j < |stories[i].births| ==>
               stories[i].births[j].member != b.member
    ensures Apart(Appended(stories, idx, b, draw))
  {
    var ss := Appended(stories, idx, b, draw);
    forall i, j | 0 <= i < j < |ss|
      ensures NoSharedMember(ss[i].births, ss[j].births)
    {
      assert NoSharedMember(stories[i].births, stories[j].births);
    }
  }

  lemma OfferGood(cfg: Config, total: nat, latestMs: nat, cohorts: seq<Cohort>, stories: seq<Story>,
                  idx: nat, b: Birth, draw: nat)
    requires Good(cfg, total, latestMs, cohorts, stories) && idx < |cohorts|
    requires BirthOk(cfg, total, latestMs, cohorts[idx].slice, b)
    requires Fresh(Births(stories), b.member)
    requires cfg.reservoir <= cohorts[idx].seen ==> draw <= cohorts[idx].seen
    ensures |cohorts[idx].members| <= cfg.reservoir
    ensures Good(cfg, total, latestMs, cohorts[idx := Offered(cfg, cohorts[idx], b.member, draw)],
                 Appended(stories, idx, b, draw))
  {
    FreshEverywhere(stories, b.member);
    assert CohortOk(cfg, total, latestMs, cohorts[idx], stories[idx]);
    OfferedOk(cfg, total, latestMs, cohorts[idx], stories[idx], b, draw);
    AppendApart(stories, idx, b, draw);
    var after := cohorts[idx := Offered(cfg, cohorts[idx], b.member, draw)];
    forall i, j | 0 <= i < j < |after|
      ensures Before(after[i], after[j])
    {
      assert Before(cohorts[i], cohorts[j]);
    }
  }

  lemma ReservoirsBounded(cfg: Config, total: nat, latestMs: nat, cohorts: seq<Cohort>, stories: seq<Story>)
    requires cfg.Valid() && total < TWO_64 && AllOk(cfg, total, latestMs, cohorts, stories)
    ensures Retained(cohorts) <= |cohorts| * cfg.reservoir
  {
    forall i | 0 <= i < |cohorts|
      ensures |cohorts[i].members| <= cfg.reservoir
    {
      assert CohortOk(cfg, total, latestMs, cohorts[i], stories[i]);
    }
    RetainedBound(cohorts, cfg.reservoir);
  }

  lemma OfferStep(cfg: Config, total: nat, latestMs: nat, cohorts: seq<Cohort>, stories: seq<Story>,
                  idx: nat, b: Birth, draw: nat, c': Cohort)
    requires Good(cfg, total, latestMs, cohorts, stories) && idx < |cohorts|
    requires BirthOk(cfg, total, latestMs, cohorts[idx].slice, b)
    requires Fresh(Births(stories), b.member)
    requires cfg.reservoir <= cohorts[idx].seen ==> draw <= cohorts[idx].seen
    requires |cohorts[idx].members| <= cfg.reservoir && c' == Offered(cfg, cohorts[idx], b.member, draw)
    ensures Good(cfg, total, latestMs, cohorts[idx := c'], Appended(stories, idx, b, draw))
    ensures SeenTotal(cohorts[idx := c']) == SeenTotal(cohorts) + 1
    ensures Births(Appended(stories, idx, b, draw)) == Births(stories) + {b}
  {
    OfferGood(cfg, total, latestMs, cohorts, stories, idx, b, draw);
    SeenReplaced(cohorts, idx, c');
    AppendBirths(stories, idx, b, draw);
  }

  lemma SpanBound(cohorts: seq<Cohort>, first: nat, last: nat, span: nat, k: nat)
    requires Ascending(cohorts) && Retained(cohorts) <= |cohorts| * k && last - first <= span
    requires forall i :: 0 <= i < |cohorts| ==> first <= cohorts[i].slice <= last
    ensures Retained(cohorts) <= (span + 1) * k
  {
    AscendingSpan(cohorts, first, last);
    if |cohorts| < span + 1 {
      Words.MulMono(|cohorts|, span + 1, k);
    } else {
      assert |cohorts| == span + 1;
    }
  }

  /** Retained members at most: a cohort for each slice of the tracked age, rounded up,
      and one more. */
  function Capacity(cfg: Config): nat
    requires 0 < cfg.sliceMs
  {
    (CeilDiv(cfg.maxAgeMs, cfg.sliceMs) + 1) * cfg.reservoir
  }

  /** Memory after a birth at a time no earlier than any before it. */
  lemma BirthBound(cfg: Config, total: nat, nowMs: nat, cohorts: seq<Cohort>, stories: seq<Story>)
    requires Good(cfg, total, nowMs, cohorts, stories) && UpTo(cohorts, SliceOf(cfg, nowMs))
    requires forall i :: 0 <= i < |cohorts| ==> Cutoff(cfg, nowMs) <= cohorts[i].slice
    ensures Retained(cohorts) <= Capacity(cfg)
  {
    ReservoirsBounded(cfg, total, nowMs, cohorts, stories);
    TrackedSpan(nowMs, cfg.maxAgeMs, cfg.sliceMs);
    SpanBound(cohorts, Cutoff(cfg, nowMs), SliceOf(cfg, nowMs), CeilDiv(cfg.maxAgeMs, cfg.sliceMs), cfg.reservoir);
  }

  lemma CutoffBefore(cfg: Config, nowMs: nat)
    requires 0 < cfg.sliceMs
    ensures Cutoff(cfg, nowMs) <= SliceOf(cfg, nowMs)
  {
    SliceMonotone(cfg, Minus(nowMs, cfg.maxAgeMs), nowMs);
  }

  // Sampling.

  /** Every retained member is one of the cohort's births. */
  lemma MemberBorn(cfg: Config, total: nat, latestMs: nat, c: Cohort, st: Story, j: nat) returns (t: nat)
    requires cfg.Valid() && total < TWO_64 && CohortOk(cfg, total, latestMs, c, st) && j < |c.members|
    ensures t < |st.births| && st.births[t].member == c.members[j]
  {
    var ms := Members(st.births);
    Reservoir.SampleIsDrawnFrom(cfg.reservoir, ms, st.draws);
    assert c.members[j] in ms;
    t :| 0 <= t < |ms| && ms[t] == c.members[j];
  }

  lemma CohortDistinct(cfg: Config, total: nat, latestMs: nat, c: Cohort, st: Story)
    requires cfg.Valid() && total < TWO_64 && CohortOk(cfg, total, latestMs, c, st)
    ensures Reservoir.Distinct(c.members)
  {
    var ms := Members(st.births);
    Reservoir.SampleStaysDistinct(cfg.reservoir, ms, st.draws);
  }

  lemma CohortsApart(cfg: Config, total: nat, latestMs: nat, c: Cohort, st: Story, d: Cohort, su: Story, i: nat, j: nat)
    requires cfg.Valid() && total < TWO_64
    requires CohortOk(cfg, total, latestMs, c, st) && CohortOk(cfg, total, latestMs, d, su)
    requires NoSharedMember(st.births, su.births)
    requires i < |c.members| && j < |d.members|
    ensures c.members[i] != d.members[j]
  {
    var s := MemberBorn(cfg, total, latestMs, c, st, i);
    var t := MemberBorn(cfg, total, latestMs, d, su, j);
  }

  /** The candidates of a draw are pairwise distinct, so picks and members pair off. */
  lemma {:induction false} EligibleDistinct(cfg: Config, total: nat, latestMs: nat,
                                            cohorts: seq<Cohort>, stories: seq<Story>,
                                            nowMs: nat, lo: nat, hi: nat)
    requires cfg.Valid() && total < TWO_64 && AllOk(cfg, total, latestMs, cohorts, stories) && Apart(stories)
    ensures Reservoir.Distinct(Eligible(cohorts, cfg.sliceMs, nowMs, lo, hi))
  {
    if cohorts == [] {
    } else {
      var n := |cohorts| - 1;
      EligibleDistinct(cfg, total, latestMs, cohorts[..n], stories[..n], nowMs, lo, hi);
      assert CohortOk(cfg, total, latestMs, cohorts[n], stories[n]);
      CohortDistinct(cfg, total, latestMs, cohorts[n], stories[n]);
      var front := Eligible(cohorts[..n], cfg.sliceMs, nowMs, lo, hi);
      forall p, q | 0 <= p < |front| && 0 <= q < |cohorts[n].members|
        ensures front[p] != cohorts[n].members[q]
      {
        var i, j := EligibleFrom(cohorts[..n], cfg.sliceMs, nowMs, lo, hi, p);
        assert CohortOk(cfg, total, latestMs, cohorts[i], stories[i]);
        CohortsApart(cfg, total, latestMs, cohorts[i], stories[i], cohorts[n], stories[n], j, q);
      }
    }
  }

  /** The newest edge of a slice, where it fits in 64 bits. */
  ghost predicate EdgeFits(slice: nat, sliceMs: nat) {
    slice * sliceMs + sliceMs <= TWO_64
  }

  ghost predicate AgeIn(atMs: nat, nowMs: nat, lo: nat, hi: nat) {
    atMs <= nowMs && lo <= nowMs - atMs < hi
  }

  /** Membership of a bucket is about true birth times. */
  lemma BucketAge(atMs: nat, sliceMs: nat, nowMs: nat, lo: nat, hi: nat)
    requires 0 < sliceMs && EdgeFits(atMs / sliceMs, sliceMs)
    requires CohortInBucket(atMs / sliceMs, sliceMs, nowMs, lo, hi)
    ensures AgeIn(atMs, nowMs, lo, hi)
  {
    var q := atMs / sliceMs;
    assert atMs == q * sliceMs + atMs % sliceMs;
  }

  /** Every birth time of the slice has an age in the range. */
  ghost predicate SliceWithin(slice: nat, sliceMs: nat, nowMs: nat, lo: nat, hi: nat)
    requires 0 < sliceMs
  {
    forall at: nat :: at / sliceMs == slice ==> AgeIn(at, nowMs, lo, hi)
  }

  /** Where its newest edge fits, a cohort is eligible exactly when all its times are. */
  lemma BucketIffWithin(slice: nat, sliceMs: nat, nowMs: nat, lo: nat, hi: nat)
    requires 0 < sliceMs && EdgeFits(slice, sliceMs)
    ensures CohortInBucket(slice, sliceMs, nowMs, lo, hi) <==> SliceWithin(slice, sliceMs, nowMs, lo, hi)
  {
    if CohortInBucket(slice, sliceMs, nowMs, lo, hi) {
      forall at: nat | at / sliceMs == slice
        ensures AgeIn(at, nowMs, lo, hi)
      {
        BucketAge(at, sliceMs, nowMs, lo, hi);
      }
    }
    if SliceWithin(slice, sliceMs, nowMs, lo, hi) {
      var oldest := slice * sliceMs;
      Words.QuotientAndRemainder(slice, 0, sliceMs);
      Words.QuotientAndRemainder(slice, sliceMs - 1, sliceMs);
      assert AgeIn(oldest, nowMs, lo, hi) && AgeIn(oldest + (sliceMs - 1), nowMs, lo, hi);
    }
  }

  /** Exactly when it is: an eligible cohort holds only births of the right age if and
      only if its newest edge fits. A wrapped edge makes a cohort look old whose births
      may be as young as now. */
  lemma BucketAgeIff(slice: nat, sliceMs: nat, nowMs: nat, lo: nat, hi: nat)
    requires 0 < sliceMs && 0 < lo && slice * sliceMs <= U64_MAX && nowMs <= U64_MAX
    requires CohortInBucket(slice, sliceMs, nowMs, lo, hi)
    ensures (forall at: nat :: at <= U64_MAX && at / sliceMs == slice ==> AgeIn(at, nowMs, lo, hi)) <==>
            EdgeFits(slice, sliceMs)
  {
    if EdgeFits(slice, sliceMs) {
      forall at: nat | at <= U64_MAX && at / sliceMs == slice
        ensures AgeIn(at, nowMs, lo, hi)
      {
        BucketAge(at, sliceMs, nowMs, lo, hi);
      }
    } else {
      var oldest := slice * sliceMs;
      var at := if nowMs < oldest then oldest else nowMs;
      Words.QuotientAndRemainder(slice, at - oldest, sliceMs);
      assert at / sliceMs == slice && !AgeIn(at, nowMs, lo, hi);
    }
  }

  /** Such a cohort exists: with one-second slices at the end of 64-bit time, the last one
      looks five minutes old and may hold a birth of this very moment. */
  lemma WrappedCohortLooksOld()
    ensures var (lo, hi) := FiveMin.RangeMs();
      var slice, sliceMs := 18_446_744_073_709_551, 1000;
      && U64_MAX / sliceMs == slice && !EdgeFits(slice, sliceMs)
      && CohortInBucket(slice, sliceMs, U64_MAX, lo, hi) && !AgeIn(U64_MAX, U64_MAX, lo, hi)
  {
  }

  ghost predicate EdgesFit(cfg: Config, cohorts: seq<Cohort>) {
    forall i :: 0 <= i < |cohorts| ==> EdgeFits(cohorts[i].slice, cfg.sliceMs)
  }

  lemma EligibleBorn(cfg: Config, total: nat, latestMs: nat, cohorts: seq<Cohort>, stories: seq<Story>,
                     nowMs: nat, lo: nat, hi: nat, p: nat) returns (i: nat, t: nat)
    requires Good(cfg, total, latestMs, cohorts, stories)
    requires p < |Eligible(cohorts, cfg.sliceMs, nowMs, lo, hi)|
    ensures i < |stories| == |cohorts| && t < |stories[i].births|
    ensures stories[i].births[t].member == Eligible(cohorts, cfg.sliceMs, nowMs, lo, hi)[p]
    ensures SliceOf(cfg, stories[i].births[t].atMs) == cohorts[i].slice
    ensures CohortInBucket(cohorts[i].slice, cfg.sliceMs, nowMs, lo, hi)
  {
    var j;
    i, j := EligibleFrom(cohorts, cfg.sliceMs, nowMs, lo, hi, p);
    assert CohortOk(cfg, total, latestMs, cohorts[i], stories[i]);
    t := MemberBorn(cfg, total, latestMs, cohorts[i], stories[i], j);
    assert BirthOk(cfg, total, latestMs, cohorts[i].slice, stories[i].births[t]);
  }

  ghost predicate BornAs(stories: seq<Story>, m: Member) {
    exists b :: b in Births(stories) && b.member == m
  }

  ghost predicate BornWithin(stories: seq<Story>, m: Member, nowMs: nat, lo: nat, hi: nat) {
    exists b :: b in Births(stories) && b.member == m && AgeIn(b.atMs, nowMs, lo, hi)
  }

  /** A draw's candidates: pairwise distinct, and each a birth of the ledger. */
  ghost predicate FairCandidates(stories: seq<Story>, all: seq<Member>) {
    Reservoir.Distinct(all) && forall p :: 0 <= p < |all| ==> BornAs(stories, all[p])
  }

  /** Each candidate was born at the right time. */
  ghost predicate AgedCandidates(stories: seq<Story>, all: seq<Member>, nowMs: nat, lo: nat, hi: nat) {
    forall p :: 0 <= p < |all| ==> BornWithin(stories, all[p], nowMs, lo, hi)
  }

  lemma EligibleFair(cfg: Config, total: nat, latestMs: nat, cohorts: seq<Cohort>, stories: seq<Story>,
                     nowMs: nat, lo: nat, hi: nat)
    requires Good(cfg, total, latestMs, cohorts, stories)
    ensures FairCandidates(stories, Eligible(cohorts, cfg.sliceMs, nowMs, lo, hi))
    ensures EdgesFit(cfg, cohorts) ==>
              AgedCandidates(stories, Eligible(cohorts, cfg.sliceMs, nowMs, lo, hi), nowMs, lo, hi)
  {
    EligibleDistinct(cfg, total, latestMs, cohorts, stories, nowMs, lo, hi);
    var all := Eligible(cohorts, cfg.sliceMs, nowMs, lo, hi);
    forall p | 0 <= p < |all|
      ensures BornAs(stories, all[p])
      ensures EdgesFit(cfg, cohorts) ==> BornWithin(stories, all[p], nowMs, lo, hi)
    {
      CandidateBorn(cfg, total, latestMs, cohorts, stories, nowMs, lo, hi, p);
    }
  }

  lemma CandidateBorn(cfg: Config, total: nat, latestMs: nat, cohorts: seq<Cohort>, stories: seq<Story>,
                      nowMs: nat, lo: nat, hi: nat, p: nat)
    requires Good(cfg, total, latestMs, cohorts, stories)
    requires p < |Eligible(cohorts, cfg.sliceMs, nowMs, lo, hi)|
    ensures var m := Eligible(cohorts, cfg.sliceMs, nowMs, lo, hi)[p];
      BornAs(stories, m) && (EdgesFit(cfg, cohorts) ==> BornWithin(stories, m, nowMs, lo, hi))
  {
    var i, t := EligibleBorn(cfg, total, latestMs, cohorts, stories, nowMs, lo, hi, p);
    var b := stories[i].births[t];
    BirthsAt(stories, i);
    assert b in BirthSet(stories[i].births);
    if EdgesFit(cfg, cohorts) {
      BucketAge(b.atMs, cfg.sliceMs, nowMs, lo, hi);
    }
  }

  /** A retained member of a cohort all of whose times are in the range. */
  ghost predicate InRange(sliceMs: nat, cohorts: seq<Cohort>, nowMs: nat, lo: nat, hi: nat, m: Member)
    requires 0 < sliceMs
  {
    exists i :: 0 <= i < |cohorts| && m in cohorts[i].members && SliceWithin(cohorts[i].slice, sliceMs, nowMs, lo, hi)
  }

  /** The candidates of a draw, read off the birth times. */
  ghost predicate CandidatesAreInRange(sliceMs: nat, cohorts: seq<Cohort>, nowMs: nat, lo: nat, hi: nat,
                                       all: seq<Member>)
    requires 0 < sliceMs
  {
    forall m :: m in all <==> InRange(sliceMs, cohorts, nowMs, lo, hi, m)
  }

  /** A draw finds a member of the range, and fails only when there is none. */
  ghost predicate DrawsFromRange(sliceMs: nat, cohorts: seq<Cohort>, nowMs: nat, lo: nat, hi: nat, r: Option<Member>)
    requires 0 < sliceMs
  {
    match r
    case None => forall m :: !InRange(sliceMs, cohorts, nowMs, lo, hi, m)
    case Some(m) => InRange(sliceMs, cohorts, nowMs, lo, hi, m)
  }

  lemma EligibleInRange(cfg: Config, cohorts: seq<Cohort>, nowMs: nat, lo: nat, hi: nat)
    requires 0 < cfg.sliceMs && EdgesFit(cfg, cohorts)
    ensures CandidatesAreInRange(cfg.sliceMs, cohorts, nowMs, lo, hi, Eligible(cohorts, cfg.sliceMs, nowMs, lo, hi))
  {
    forall i | 0 <= i < |cohorts|
      ensures CohortInBucket(cohorts[i].slice, cfg.sliceMs, nowMs, lo, hi)
              <==> SliceWithin(cohorts[i].slice, cfg.sliceMs, nowMs, lo, hi)
    {
      BucketIffWithin(cohorts[i].slice, cfg.sliceMs, nowMs, lo, hi);
    }
    forall m
      ensures m in Eligible(cohorts, cfg.sliceMs, nowMs, lo, hi) <==> InRange(cfg.sliceMs, cohorts, nowMs, lo, hi, m)
    {
      EligibleMembers(cohorts, cfg.sliceMs, nowMs, lo, hi, m);
    }
  }

  lemma DrawInRange(cfg: Config, cohorts: seq<Cohort>, nowMs: nat, bucket: AgeBucket, rand: nat)
    requires 0 < cfg.sliceMs && EdgesFit(cfg, cohorts)
    ensures var (lo, hi) := bucket.RangeMs();
      && CandidatesAreInRange(cfg.sliceMs, cohorts, nowMs, lo, hi, Eligible(cohorts, cfg.sliceMs, nowMs, lo, hi))
      && DrawsFromRange(cfg.sliceMs, cohorts, nowMs, lo, hi, Draw(cohorts, cfg.sliceMs, nowMs, bucket, rand))
  {
    var (lo, hi) := bucket.RangeMs();
    EligibleInRange(cfg, cohorts, nowMs, lo, hi);
    var all := Eligible(cohorts, cfg.sliceMs, nowMs, lo, hi);
    assert all != [] ==> all[rand % |all|] in all;
  }
}
