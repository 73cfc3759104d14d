/** The per-task birth ledger, as the object the bench mutates. */
module Population {
  import opened Wrappers
  import opened Identities
  import opened Cohorts
  import opened BirthLedger

  class Population {
    const settings: Settings
    const cfg: Config
    var cohorts: seq<Cohort>
    var birthsTotal: nat

    /** The births and draws behind each cohort, the latest birth time, and how many
        births were in cohorts since expired. */
    ghost var stories: seq<Story>
    ghost var latestMs: nat
    ghost var expired: nat

    ghost predicate Core()
      reads this
    {
      Good(cfg, birthsTotal, latestMs, cohorts, stories) && UpTo(cohorts, SliceOf(cfg, latestMs))
    }

    ghost predicate Valid()
      reads this
    {
      settings.Accepted() && cfg == settings.Millis() && Sound()
    }

    ghost predicate Sound()
      reads this
    {
      && cfg.Mints()
      && birthsTotal < TWO_64
      && Provenance(cfg, birthsTotal, Births(stories))
      && if cfg.sliceMs == 0 then Idle() else Core() && birthsTotal == SeenTotal(cohorts) + expired
    }

    /** With a slice of no milliseconds nothing is ever offered. */
    ghost predicate Idle()
      reads this
    {
      cohorts == [] && stories == []
    }

    /** Any settings the source's assertions accept. */
    constructor (settings: Settings)
      requires settings.Accepted()
      ensures Valid() && this.settings == settings && birthsTotal == 0 && cohorts == [] && latestMs == 0
    {
      this.settings, cfg := settings, settings.Millis();
      cohorts, birthsTotal := [], 0;
      stories, latestMs, expired := [], 0, 0;
    }

    /** Where a slice is, or where it belongs. */
    method Search(slice: nat) returns (found: bool, pos: nat)
      requires Ascending(cohorts)
      ensures pos <= |cohorts|
      ensures found ==> pos < |cohorts| && cohorts[pos].slice == slice
      ensures !found ==> forall i :: 0 <= i < pos ==> cohorts[i].slice < slice
      ensures !found ==> forall i :: pos <= i < |cohorts| ==> slice < cohorts[i].slice
    {
      var lo, hi := 0, |cohorts|;
      while lo < hi
        invariant 0 <= lo <= hi <= |cohorts|
        invariant forall i :: 0 <= i < lo ==> cohorts[i].slice < slice
        invariant forall i :: hi <= i < |cohorts| ==> slice < cohorts[i].slice
      {
        var mid := (lo + hi) / 2;
        AscendingAt(cohorts, mid);
        if cohorts[mid].slice == slice {
          return true, mid;
        } else if cohorts[mid].slice < slice {
          lo := mid + 1;
        } else {
          hi := mid;
        }
      }
      return false, lo;
    }

    /** Drop whole cohorts that have aged out. Nothing within the tracked age goes. It
        divides by the slice, so it panics exactly when that is zero. */
    method Expire(nowMs: nat) returns (panicked: bool)
      requires if cfg.sliceMs == 0 then Idle() else Core()
      modifies this`cohorts, this`stories, this`expired
      ensures panicked <==> cfg.sliceMs == 0
      ensures panicked ==> cohorts == old(cohorts) && stories == old(stories) && expired == old(expired)
      ensures !panicked ==>
        && Core()
        && Trimmed(old(Births(stories)), Births(stories), cfg.maxAgeMs, nowMs)
        && (forall i :: 0 <= i < |cohorts| ==> Cutoff(cfg, nowMs) <= cohorts[i].slice)
        && SeenTotal(cohorts) + expired == old(SeenTotal(cohorts) + expired)
      ensures cfg == settings.Millis() && nowMs <= U64_MAX ==>
        Outlived(old(Births(stories)), Births(stories), settings, nowMs)
    {
      if cfg.sliceMs == 0 {
        return true;
      }
      Retain(nowMs);
      if cfg == settings.Millis() && nowMs <= U64_MAX {
        TrimmedOutlived(old(Births(stories)), Births(stories), settings, nowMs);
      }
      return false;
    }

    method Retain(nowMs: nat)
      requires Core()
      modifies this`cohorts, this`stories, this`expired
      ensures Core()
      ensures Trimmed(old(Births(stories)), Births(stories), cfg.maxAgeMs, nowMs)
      ensures forall i :: 0 <= i < |cohorts| ==> Cutoff(cfg, nowMs) <= cohorts[i].slice
      ensures SeenTotal(cohorts) + expired == old(SeenTotal(cohorts) + expired)
    {
      var keepFrom := Cutoff(cfg, nowMs);
      ghost var p := ExpireGood(cfg, birthsTotal, latestMs, cohorts, stories, nowMs);
      expired := expired + SeenTotal(cohorts[..p]);
      cohorts, stories := KeepFrom(cohorts, keepFrom), stories[p..];
    }

    /** Make sure a cohort for the slice exists. */
    method Locate(slice: nat) returns (idx: nat)
      requires Core() && slice <= SliceOf(cfg, latestMs)
      modifies this`cohorts, this`stories
      ensures Core()
      ensures idx < |cohorts| && cohorts[idx].slice == slice
      ensures SeenTotal(cohorts) == old(SeenTotal(cohorts))
      ensures Births(stories) == old(Births(stories))
      ensures forall i :: 0 <= i < |cohorts| ==> cohorts[i].slice == slice || cohorts[i] in old(cohorts)
    {
      if cohorts != [] && cohorts[|cohorts| - 1].slice == slice {
        return |cohorts| - 1;
      }
      var found, pos := Search(slice);
      if !found {
        InsertGood(cfg, birthsTotal, latestMs, cohorts, stories, pos, slice);
        SeenInserted(cohorts, pos, Cohort(slice, 0, []));
        InsertBirths(stories, pos);
        cohorts := cohorts[..pos] + [Cohort(slice, 0, [])] + cohorts[pos..];
        stories := stories[..pos] + [Story([], [])] + stories[pos..];
      }
      return pos;
    }

    /** Algorithm R on one cohort. */
    method Admit(c: Cohort, member: Member, rand: nat) returns (c': Cohort, draw: nat)
      requires |c.members| == if c.seen < cfg.reservoir then c.seen else cfg.reservoir
      ensures c' == Offered(cfg, c, member, draw)
      ensures cfg.reservoir <= c.seen ==> draw == rand % (c.seen + 1)
    {
      var seen := c.seen + 1;
      if seen <= cfg.reservoir {
        return Cohort(c.slice, seen, c.members + [member]), 0;
      }
      draw := rand % seen;
      if draw < cfg.reservoir {
        c' := Cohort(c.slice, seen, c.members[draw := member]);
      } else {
        c' := Cohort(c.slice, seen, c.members);
      }
    }

    /** Offer a birth to the cohort its time falls in. It divides by the slice too. */
    method Offer(member: Member, nowMs: nat, rand: nat, ghost n: nat) returns (panicked: bool)
      requires if cfg.sliceMs == 0 then Idle() else
        && Core() && Fresh(Births(stories), member)
        && BirthOk(cfg, birthsTotal, latestMs, SliceOf(cfg, nowMs), Born(n, member, nowMs))
      modifies this`cohorts, this`stories
      ensures panicked <==> cfg.sliceMs == 0
      ensures panicked ==> cohorts == old(cohorts) && stories == old(stories)
      ensures !panicked ==>
        && Core()
        && SeenTotal(cohorts) == old(SeenTotal(cohorts)) + 1
        && Births(stories) == old(Births(stories)) + {Born(n, member, nowMs)}
        && DrewWith(cfg, stories, Born(n, member, nowMs), rand)
        && (forall i :: 0 <= i < |cohorts| ==>
              cohorts[i].slice == SliceOf(cfg, nowMs) || cohorts[i] in old(cohorts))
    {
      if cfg.sliceMs == 0 {
        return true;
      }
      SliceMonotone(cfg, nowMs, latestMs);
      var idx := Locate(SliceOf(cfg, nowMs));
      assert CohortOk(cfg, birthsTotal, latestMs, cohorts[idx], stories[idx]);
      var c, draw := Admit(cohorts[idx], member, rand);
      ghost var b := Born(n, member, nowMs);
      OfferStep(cfg, birthsTotal, latestMs, cohorts, stories, idx, b, draw, c);
      cohorts, stories := cohorts[idx := c], Appended(stories, idx, b, draw);
      assert EndsWith(cfg, stories[idx], b, rand);
      return false;
    }

    /** Expire, then offer. */
    method Renew(member: Member, nowMs: nat, rand: nat, ghost n: nat) returns (panicked: bool)
      requires if cfg.sliceMs == 0 then Idle() else
        && Core() && Fresh(Births(stories), member)
        && BirthOk(cfg, birthsTotal, latestMs, SliceOf(cfg, nowMs), Born(n, member, nowMs))
      modifies this`cohorts, this`stories, this`expired
      ensures panicked <==> cfg.sliceMs == 0
      ensures panicked ==> cohorts == old(cohorts) && stories == old(stories) && expired == old(expired)
      ensures !panicked ==>
        && Core()
        && SeenTotal(cohorts) + expired == old(SeenTotal(cohorts) + expired) + 1
        && Born(n, member, nowMs) in Births(stories) && DrewWith(cfg, stories, Born(n, member, nowMs), rand)
        && Trimmed(old(Births(stories)), Births(stories) - {Born(n, member, nowMs)}, cfg.maxAgeMs, nowMs)
        && (latestMs == nowMs ==> Retained(cohorts) <= Capacity(cfg))
    {
      panicked := Expire(nowMs);
      if panicked {
        return;
      }
      ghost var kept := Births(stories);
      CutoffBefore(cfg, nowMs);
      panicked := Offer(member, nowMs, rand, n);
      assert Births(stories) - {Born(n, member, nowMs)} == kept;
      if latestMs == nowMs {
        BirthBound(cfg, birthsTotal, nowMs, cohorts, stories);
      }
    }

    method Mint(n: nat, ghost nowMs: nat) returns (member: Member)
      requires cfg.Mints() && n < TWO_64
      ensures NewlyMinted(cfg, Born(n, member, nowMs))
    {
      member := cfg.Minted(n);
      assert MintedBirth(cfg, n + 1, Born(n, member, nowMs));
    }

    /** Mint the next identity, expire, and offer. The ledger then covers the newborn
        and every birth it covered that is within the tracked age; when time does not
        run backwards its memory is bounded. `None` is a panic, which happens exactly
        when the slice truncates to no milliseconds. */
    method Birth(nowMs: nat, rand: nat) returns (r: Option<Member>)
      requires Valid()
      requires birthsTotal + 1 < TWO_64 && nowMs <= U64_MAX
      modifies this
      ensures Valid()
      ensures birthsTotal == old(birthsTotal) + 1
      ensures r.None? <==> settings.SliceMs() == 0
      ensures r.Some? ==>
        && latestMs == (if nowMs < old(latestMs) then old(latestMs) else nowMs)
        && Born(old(birthsTotal), r.value, nowMs) in Births(stories)
        && DrewWith(cfg, stories, Born(old(birthsTotal), r.value, nowMs), rand)
        && Trimmed(old(Births(stories)), Births(stories) - {Born(old(birthsTotal), r.value, nowMs)},
                   cfg.maxAgeMs, nowMs)
        && Outlived(old(Births(stories)), Births(stories) - {Born(old(birthsTotal), r.value, nowMs)},
                    settings, nowMs)
        && (old(latestMs) <= nowMs ==> Retained(cohorts) <= Capacity(cfg))
    {
      var n := birthsTotal;
      if settings.SliceMs() == 0 {
        birthsTotal := n + 1;
        ProvenanceGrows(cfg, n, birthsTotal, Births(stories), Births(stories));
        var panicked := Expire(nowMs);
        return None;
      }
      var member := Mint(n, nowMs);
      BirthInto(member, nowMs, rand);
      TrimmedOutlived(old(Births(stories)), Births(stories) - {Born(n, member, nowMs)}, settings, nowMs);
      return Some(member);
    }

    method BirthInto(member: Member, nowMs: nat, rand: nat)
      requires Sound() && cfg.sliceMs != 0
      requires birthsTotal + 1 < TWO_64 && nowMs <= U64_MAX
      requires NewlyMinted(cfg, Born(birthsTotal, member, nowMs))
      modifies this
      ensures Sound()
      ensures birthsTotal == old(birthsTotal) + 1
      ensures latestMs == if nowMs < old(latestMs) then old(latestMs) else nowMs
      ensures Born(old(birthsTotal), member, nowMs) in Births(stories)
      ensures DrewWith(cfg, stories, Born(old(birthsTotal), member, nowMs), rand)
      ensures Trimmed(old(Births(stories)), Births(stories) - {Born(old(birthsTotal), member, nowMs)},
                      cfg.maxAgeMs, nowMs)
      ensures old(latestMs) <= nowMs ==> Retained(cohorts) <= Capacity(cfg)
    {
      ghost var latestMs' := if nowMs < latestMs then latestMs else nowMs;
      NextBirth(cfg, birthsTotal, latestMs, cohorts, stories, nowMs, latestMs');
      NextIsFresh(cfg, birthsTotal, Births(stories), Born(birthsTotal, member, nowMs));
      var n := birthsTotal;
      ghost var b := Born(n, member, nowMs);
      birthsTotal, latestMs := birthsTotal + 1, latestMs';
      var panicked := Renew(member, nowMs, rand, n);
      ProvenanceExtends(cfg, n, birthsTotal, old(Births(stories)), Births(stories), b);
    }

    /** Draw a retained member whose age lands in the bucket: `None` exactly if there is
        none, otherwise the `rand`-th modulo their number. The candidates are distinct
        births, and where slice edges fit in 64 bits they are exactly the members of the
        cohorts all of whose birth times are in the bucket. */
    method SampleByAge(nowMs: nat, bucket: AgeBucket, rand: nat) returns (r: Option<Member>)
      requires Valid()
      ensures var (lo, hi) := bucket.RangeMs();
              var all := Eligible(cohorts, cfg.sliceMs, nowMs, lo, hi);
              && FairCandidates(stories, all)
              && (EdgesFit(cfg, cohorts) ==> AgedCandidates(stories, all, nowMs, lo, hi))
              && r == (if all == [] then None else Some(all[rand % |all|]))
              && (0 < cfg.sliceMs && EdgesFit(cfg, cohorts) ==>
                    && CandidatesAreInRange(cfg.sliceMs, cohorts, nowMs, lo, hi, all)
                    && DrawsFromRange(cfg.sliceMs, cohorts, nowMs, lo, hi, r))
      ensures cfg.sliceMs == 0 ==> r.None?
      ensures r == Draw(cohorts, cfg.sliceMs, nowMs, bucket, rand)
    {
      var (lo, hi) := bucket.RangeMs();
      if cfg.sliceMs != 0 {
        EligibleFair(cfg, birthsTotal, latestMs, cohorts, stories, nowMs, lo, hi);
        if EdgesFit(cfg, cohorts) {
          DrawInRange(cfg, cohorts, nowMs, bucket, rand);
        }
      }
      var total := CountEligible(cohorts, cfg.sliceMs, nowMs, lo, hi);
      if total == 0 {
        return None;
      }
      r := WalkTo(cohorts, cfg.sliceMs, nowMs, lo, hi, rand % total);
    }
  }
}
