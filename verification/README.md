# Verified model of the Celeriant test bench, checkers and boot metadata

This project models the parts of Celeriant that decide whether the database is correct,
and proves what they promise:

- the **fill client**: how a task writes aggregates through lost answers, delayed
  requests, rollback, eviction and reheat, against a leader that checks optimistic
  concurrency before client idempotency (`FillClient`, `WriteLog`, `ExactlyOnce`,
  `FillProgress`, `Recovery`, `Rollbacks`);
- the **bounded samplers**: Algorithm R and its exact uniformity, the birth ledger with its
  age windows, the ack ledger, and the hot set of a task (`Reservoir`, `Uniformity`,
  `Cohorts`, `BirthLedger`, `Population`, `AckHistory`, `AckLedger`, `AckSampling`,
  `AckUniform`, `ActiveSet`, `FillTask`);
- the **identifiers** minted along the way (`Words`, `Identities`);
- the **history checkers**, with a server and any number of clients as a transition system
  whose histories they must accept, and with other runs that share a history
  (`History`, `ServerRun`, `SteadyClients`, `LateCommits`, `Placement`, `IdempotencyCheck`,
  `IdempotencySound`, `IdempotencyExact`, `OccCheck`, `WalCheck`, `WalSound`, `WalExact`,
  `FalseAlarms`, `WatchStreams`, `WatchChecks`);
- the **gap audit**, composed with the ledger and the fill runs, the **epoch oracle** and
  the **availability clock** (`GapAudit`, `FillAudit`, `EpochChains`, `EpochOracle`,
  `AvailabilityClock`, `AnchoredGap`);
- the **boot metadata** state machine over whole sequences of boots (`ServerMeta`,
  `BootRuns`).

`dafny verify dfyconfig.toml` checks everything. Invariants over plain values live in one
module and the class or loop that keeps them in another (`BirthLedger`/`Population`,
`AckHistory`/`AckLedger`, `WatchStreams`/`WatchChecks`, `EpochChains`/`EpochOracle`).
`Wrappers` holds what they share.

## Modelling decisions

- One logical client call is executed by a server at most once. The pool hands every
  failure after the send back to the caller (`celeriant_client_tokio/src/pool.rs:16-20`),
  although a comment in `celeriant_bench/src/history.rs:343-348` still speaks of a retry
  across nodes inside one call; the model follows the code.
- Random draws, clocks and the outcomes of calls are parameters. A draw is any natural
  number reduced modulo the count, as in the source; SplitMix64 itself is not modelled.
- Integers are unbounded with the widths written out where they matter: minted ids, mixing
  and nonces are exact 64- and 128-bit arithmetic; a cohort slice is given in nanoseconds
  and truncated and cast to 64-bit milliseconds as the source does; the newest edge of a
  cohort wraps at 64 bits, as it does without overflow checks. The birth counter is assumed
  not to overflow.
- The latency reservoir of the chaos crate is the same code as the latency digest of the
  bench; one class stands for both.
- `check_epoch_monotonicity` is documented to report at most one violation per shard and
  node; the code reports every decrease until the shared list holds ten, and so does the
  model.
- Sorting by timestamp is specified only as a sort: ties come out in any order, as with
  the unstable sort of the source.

## Findings

- The version upper bound of `check_wal_monotonicity` is tripped by correct servers: by an
  ambiguous attempt whose retry is definitely refused, by a writer that starts from a stale
  version, by a hot writer that finds its lost write by catch-up and skips it
  (`FalseAlarms`). Every run passes whose history is within its slack:
  the baseline does not exceed the opening version plus the skipped writes, and the opening
  version plus the open writes does not exceed the baseline plus the clients that ended
  ambiguously (`WalSound.SlackSuffices`). A write is open if it was tried ambiguously, never
  acked, and some lost attempt carries no token or one no acked write has spent. The
  condition is exact where every open write was skipped (`WalExact.SettledExactly`), and for
  clients that send no tokens: outside it some correct run with the same history is flagged
  (`WalExact.ExactlyWhenItPasses`).
- Its "acked write lost" arm survives record drops except when no ack of the aggregate is
  retained and every expected version left lies above the real one; a lone rejected attempt
  can trip it.
- The idempotency check is sound for clients that send a seq only if an ack covers it, it
  was tried ambiguously, or it is new and no ambiguous attempt lies above it.
  `IdempotencyExact.LeastDiscipline` shows that anything else can be flagged on a correct
  server, for clients that send no tokens. Hot writers that never go back are covered (`IdempotencySound.SteadyNeverFlagged`).
- The fill client's retry passes its seq within two answers however far replication lags,
  as long as nothing was ever rolled back. While a leader is being rolled back it can be held
  there through any number of them (`Rollbacks.RollbacksHoldTheSeq`); afterwards every request
  still on the network may cost one more (`Recovery.AnswersPassAfterRollbacks`,
  `Rollbacks.OldRequestCostsAnAnswer`).
- The ack ledger is a uniform sample all along exactly when no key returns once more than
  `cap` distinct keys have been acked (`AckUniform.UniformIffReturnsFit`); a key that does is
  favoured (`AckSampling.ReturningKeyIsFavoured`).
- A dictionary write cut short by a crash before the metadata exists is adopted as if it
  had been staged. The pinned hash is the built-in's exactly when the file was absent or
  already had that hash (`BootRuns.FirstBootPinsBuiltInIff`).
- The epoch oracle's two checks attest one global chain exactly when every two neighbours
  of the merged windows lie together in one window (`EpochChains.AttestsIffLinked`): holes
  the other node covers do no harm, disjoint windows and uncovered holes do.
- A cohort slice that truncates to zero milliseconds passes the constructor's assertion and
  divides by zero at the first birth (`celeriant_bench/src/population.rs:100`, `:148`);
  `BirthLedger.SliceVanishesIff` says which slices do.
- Within one slice of the 64-bit maximum a cohort's newest edge wraps, and the cohort looks
  older than its births (`BirthLedger.BucketAgeIff`, `BirthLedger.WrappedCohortLooksOld`).
- When swaps land out of order the availability clock misses a silence exactly when no ack
  from before it is swapped ahead of one from after it, and it can overstate one
  (`AvailabilityClock.OutageNeverUnderstated`, `UnopenedSilenceMissed`,
  `LateAckOverstates`).
- The clock's anchored gap is the silence around the kill if every ack from the kill on reads
  the kill time after it was marked (`AnchoredGap.GapIsSilenceAroundKill`). Its documentation
  says the difference can never come out negative; it does exactly when an ack that read the
  kill time too early is later than one that read it in time, and only the saturating
  subtraction hides it (`AnchoredGap.GapOrderedIff`, `AnchoredGap.StaleLoadInverts`).
- The gap audit flags an aggregate exactly when its log lacks more of the acked batches than
  it holds others, so batches nobody was told of can cover for lost ones
  (`GapAudit.AuditBalance`); the version check of the history is the same balance
  (`WalCheck.BoundsWeighLosses`).

## Model

| member | source | states |
|---|---|---|
| `FillClient.LifetimeIsBudget` | celeriant_chaos/src/cardinality_workload.rs:560-598 | Over any answers, a live entry has passed one seq per unit of budget spent and keeps its aggregate; it retires only with the budget spent or on an unexplained duplicate |
| `FillClient.GapsDouble` | celeriant_chaos/src/cardinality_workload.rs:580-598 | Over any answers the gap is the first one doubled per seq passed, up to its cap; each pass moves to the least seq above its own and the reported one, due one gap later; any other failure keeps the seq, due after the retry gap, or at once on a conflict |
| `WriteLog.ServeMeaning` | celeriant_shard/src/shard_wal.rs:2664-2700 | The leader's check in terms of batch counts: a conflict exactly when the expected version is not the log's; otherwise, seqs counting from 1, one above the client's count is appended, and one at or below it is a duplicate reporting that count exactly when all the client's batches are replicated, and in flight exactly while some are not |
| `WriteLog.CatchUpFindsCount` | celeriant_chaos/src/cardinality_workload.rs:537-558 | A catch-up read of a numbered log finds the client's batch count |
| `ExactlyOnce.InvNext` | celeriant_chaos/src/cardinality_workload.rs:968-1046 | Every step of client, server and network keeps the invariant: the seq is known to within one and `unacked` covers every way it can have landed |
| `ExactlyOnce.NoUnexpectedDuplicate` | celeriant_chaos/src/cardinality_workload.rs:511-531 | A duplicate answer always finds `unacked` set |
| `ExactlyOnce.LedgerDurable` | celeriant_chaos/src/cardinality_workload.rs:981-989 | Every seq handed to the ledger is in the replicated log |
| `ExactlyOnce.LedgerStep` | celeriant_chaos/src/cardinality_workload.rs:981-989 | A step adds to the ledger exactly the request it acknowledges, and nothing otherwise |
| `ExactlyOnce.LedgerIsAcknowledged` | celeriant_chaos/src/cardinality_workload.rs:981-1011 | Over every run the ledger grows by exactly the acknowledged requests |
| `ExactlyOnce.ExactlyOnceInEveryRun` | celeriant_chaos/src/cardinality_workload.rs:488-598 | In every run with lost answers, delayed requests, rollback, eviction and reheat: each seq commits at most once, seqs are exactly 1..m with the entry bracketing m, the ledger is exactly the acknowledged requests and durable, `UnexpectedDuplicate` is unreachable |
| `FillProgress.AbreastKept` | celeriant_chaos/src/cardinality_workload.rs:968-1046 | While the leader keeps its log, at any replication lag, the entry's version is the log's, or one short of it when its seq went in unnoticed |
| `FillProgress.StepTowards` | celeriant_chaos/src/cardinality_workload.rs:996-1024 | A delivered answer passes the seq or resyncs the entry; nothing else undoes either |
| `FillProgress.AnswersPass` | celeriant_chaos/src/cardinality_workload.rs:996-1024 | From any such state, two delivered answers (one once resynced) pass the seq, whatever else happens |
| `FillProgress.TwoAnswersPassTheSeq` | celeriant_chaos/src/cardinality_workload.rs:493-531 | In every run from birth without a rollback, two answered attempts other than "still in flight" always pass the current seq, so no committed write is retried forever |
| `Rollbacks.RollbacksHoldTheSeq` | celeriant_chaos/src/cardinality_workload.rs:493-531 | With rollbacks any number of delivered answers can leave a newborn entry at its first seq |
| `Recovery.StepNearer` | celeriant_chaos/src/cardinality_workload.rs:996-1024 | From any state, a step without rollback or eviction passes the seq or leaves the entry no further behind, and nearer by one if it delivers an answer |
| `Recovery.AnswersCatchUp` | celeriant_chaos/src/cardinality_workload.rs:996-1024 | More delivered answers than the entry is behind (other clients' requests on the network, its own seq, its version) pass the seq |
| `Recovery.AnswersPassAfterRollbacks` | celeriant_chaos/src/cardinality_workload.rs:493-531 | In every run from birth, rollbacks included, a continuation without them that delivers more than three answers and one per request on the network passes the seq |
| `Rollbacks.OldRequestCostsAnAnswer` | celeriant_chaos/src/cardinality_workload.rs:493-531 | After one rollback an entry two behind stays at its seq through two answers although nothing is rolled back any more |
| `Reservoir.SampleIsDrawnFrom` | celeriant_bench/src/read_workload.rs:116-126 | Everything the reservoir holds was offered |
| `Reservoir.SampleStaysDistinct` | celeriant_bench/src/population.rs:205-241 | Distinct offers stay distinct in the reservoir |
| `Reservoir.LatencyDigest.Record` | celeriant_bench/src/read_workload.rs:116-126 | Recording one latency is one offer of Algorithm R over everything recorded |
| `Uniformity.EveryOfferEquallyLikely` | celeriant_bench/src/population.rs:205-209 | For every stream longer than k, over all draw sequences each offer is retained in exactly k/n of them |
| `Uniformity.EverySubsetEquallyLikely` | celeriant_chaos/src/cardinality_workload.rs:300-327 | Every k-subset of the offers is retained by the same number of draw sequences |
| `Uniformity.SampleIsKept` | celeriant_bench/src/population.rs:210-241 | The reservoir's contents are the offers at the positions the counting is about |
| `Identities.MintedIdFits` | celeriant_bench/src/population.rs:130-138 | Minted ids fit in 128 bits and route to the task's own shard |
| `Identities.MintedIdsDistinct` | celeriant_bench/src/population.rs:133-138 | Over all tasks and births under one shard count, equal ids mean the same birth |
| `Identities.SettleKeyNeverMinted` | celeriant_chaos/src/cardinality_workload.rs:1264-1272 | A settle key routes to its lane, fits, and equals no minted id |
| `Identities.Mix64Bijective` | celeriant_bench/src/population.rs:259-263 | One half of the mixing function is a bijection on 64-bit words |
| `Identities.MixU128Bijective` | celeriant_bench/src/population.rs:256-265 | `mix_u128` is a bijection on 128-bit words, with its inverse given |
| `Identities.MintedClientsDistinct` | celeriant_bench/src/population.rs:126-143 | Distinct births get distinct client ids |
| `Identities.NoncesDistinct` | celeriant_chaos/src/cardinality_workload.rs:1224-1226 | Nonces are injective over every task and ordinal |
| `Identities.ReheatClientsAreNew` | celeriant_chaos/src/cardinality_workload.rs:1136-1148 | For one member distinct nonces give distinct new clients, none of them the original |
| `Cohorts.BucketsDisjoint` | celeriant_bench/src/population.rs:46-56 | An age belongs to at most one bucket |
| `Cohorts.BucketsCover` | celeriant_bench/src/population.rs:46-56 | Every age from five minutes on has a bucket |
| `Cohorts.KeepFromIsSuffix` | celeriant_bench/src/population.rs:147-155 | Expiry drops a prefix of the sorted cohorts |
| `Cohorts.EligibleMembers` | celeriant_bench/src/population.rs:173-193 | The candidates of a draw are exactly the members of the eligible cohorts |
| `Cohorts.CountEligible` | celeriant_bench/src/population.rs:173-181 | The first pass counts the retained members of the eligible cohorts |
| `Cohorts.WalkTo` | celeriant_bench/src/population.rs:183-193 | The prefix walk returns the pick-th candidate, for every pick |
| `BirthLedger.DroppedAreOld` | celeriant_bench/src/population.rs:147-155 | Everything an expiry drops is past the tracked age |
| `BirthLedger.SliceVanishesIff` | celeriant_bench/src/population.rs:100-148 | The millisecond slice is zero exactly when the configured slice is under one millisecond (modulo 2^64 of them) |
| `BirthLedger.MillisTruncate` | celeriant_bench/src/population.rs:148-149 | The slice and the tracked age are the configured ones cut to whole milliseconds |
| `BirthLedger.NextIsFresh` | celeriant_bench/src/population.rs:126-139 | The next minted identity is new to the ledger |
| `BirthLedger.OfferStep` | celeriant_bench/src/population.rs:224-241 | One offer keeps the cohort equal to Algorithm R over its births and adds exactly that birth |
| `BirthLedger.BirthBound` | celeriant_bench/src/population.rs:126-155 | After a birth no earlier than any before it, at most (ceil(age/slice)+1)*k members are retained |
| `BirthLedger.EligibleDistinct` | celeriant_bench/src/population.rs:157-161 | The candidates of a draw are pairwise distinct, so picks and members pair off |
| `BirthLedger.BucketAge` | celeriant_bench/src/population.rs:195-203 | A cohort in a bucket whose newest edge fits in 64 bits holds only births whose true age is in the bucket |
| `BirthLedger.BucketIffWithin` | celeriant_bench/src/population.rs:195-203 | Where its newest edge fits, a cohort is in a bucket if and only if every birth time of its slice is |
| `BirthLedger.DrawInRange` | celeriant_bench/src/population.rs:162-203 | While no edge wraps the candidates are exactly the retained members of cohorts all of whose times are in the bucket, and a draw finds one unless there is none |
| `BirthLedger.BucketAgeIff` | celeriant_bench/src/population.rs:195-203 | An eligible cohort admits only births of the right age if and only if its newest edge does not wrap |
| `BirthLedger.WrappedCohortLooksOld` | celeriant_bench/src/population.rs:195-203 | With one-second slices at the end of 64-bit time an eligible five-minute cohort may hold a birth of this moment |
| `BirthLedger.EligibleFair` | celeriant_bench/src/population.rs:157-203 | Every candidate is a birth in the ledger and none appears twice; all are of the right age when no edge wraps |
| `Population.Population.constructor` | celeriant_bench/src/population.rs:97-109 | Any configuration that passes the assertions gives an empty ledger that satisfies the invariant |
| `Population.Population.Search` | celeriant_bench/src/population.rs:215-222 | Where a slice is, or where it belongs |
| `Population.Population.Expire` | celeriant_bench/src/population.rs:147-155 | Panics exactly when the slice is zero milliseconds; otherwise only births older than the configured age are dropped, and births counted live plus expired are conserved |
| `Population.Population.Locate` | celeriant_bench/src/population.rs:215-226 | A cohort for the slice exists afterwards and nothing else changed |
| `Population.Population.Admit` | celeriant_bench/src/population.rs:228-241 | One offer to a cohort, with the caller's draw below the new count |
| `Population.Population.Offer` | celeriant_bench/src/population.rs:210-241 | Panics exactly when the slice is zero milliseconds; otherwise the birth joins the ledger, in the cohort of its time, under the caller's draw |
| `Population.Population.Birth` | celeriant_bench/src/population.rs:126-143 | Panics exactly when the slice is zero milliseconds; otherwise mints a new identity, offers it under the caller's draw, drops only births older than the configured age, conserves `births_total`, and bounds memory when time does not run backwards |
| `Population.Population.SampleByAge` | celeriant_bench/src/population.rs:162-193 | `None` exactly when no member is eligible, otherwise candidate `rand` mod their number; candidates are distinct births, and while no edge wraps they are exactly the retained members of cohorts all of whose times are in the bucket |
| `AckHistory.MaxMapMeaning` | celeriant_bench/src/account_workload.rs:238-247 | The unbounded ledger holds, per key, an acked seq that none exceeds |
| `AckHistory.SoundRaised` | celeriant_bench/src/account_workload.rs:244-247 | An ack of a resident key keeps its maximum and the invariant |
| `AckHistory.SoundPushed` | celeriant_bench/src/account_workload.rs:252-256 | A new key with room is admitted; keys and map stay in step |
| `AckHistory.SoundSwapped` | celeriant_bench/src/account_workload.rs:257-266 | An eviction replaces the victim in both structures at one index |
| `AckHistory.SoundSkipped` | celeriant_bench/src/account_workload.rs:248-251 | A key not sampled changes only the offer count |
| `AckHistory.ResidentWasAcked` | celeriant_bench/src/account_workload.rs:288-290 | A reported value is a seq really acked for its key and at most its true maximum |
| `AckHistory.LedgerMeaning` | celeriant_bench/src/account_workload.rs:218-290 | At most cap keys, duplicate-free and equal to the map's domain; exact per-key maxima while the distinct keys fit; distinct keys <= offers <= acks |
| `AckLedger.AckLedger.constructor` | celeriant_bench/src/account_workload.rs:228-236 | An empty ledger satisfies the invariant |
| `AckLedger.AckLedger.Record` | celeriant_bench/src/account_workload.rs:243-267 | Each ack extends the history, keeps each value the maximum since its key's last admission, and offers only non-resident keys, with the draw below the offers so far |
| `AckSampling.KeysAreSampled` | celeriant_bench/src/account_workload.rs:209-267 | While returning keys fit, the ledger's keys are those Algorithm R keeps of the distinct keys, and its offers their number |
| `AckUniform.FibreCount` | celeriant_bench/src/account_workload.rs:257-261 | Every choice of draws is the reduction of the same number of random numbers |
| `AckUniform.SampleCount` | celeriant_bench/src/account_workload.rs:213-217 | While returning keys fit, every set of `cap` distinct keys is left by the same, positive number of random numbers |
| `AckUniform.LateReturnIsFavoured` | celeriant_bench/src/account_workload.rs:257-266 | After a key returns too late, samples with it are strictly likelier than samples without it |
| `AckUniform.UniformIffReturnsFit` | celeriant_bench/src/account_workload.rs:213-217 | The ledger is a uniform sample after every ack if and only if no key returns once more than `cap` distinct keys have been acked (or there is no room at all) |
| `AckUniform.FactorialIsFine` | celeriant_bench/src/account_workload.rs:260 | Ranges of random numbers without modulo bias exist for every stream |
| `AckSampling.ReturningKeyIsFavoured` | celeriant_bench/src/account_workload.rs:257-266 | With one slot and acks A, B, A the key A is held for four of the six draws |
| `GapAudit.SumByAggregate` | celeriant_bench/src/lib.rs:1126-1136 | The map holds the sum of acked seqs of each aggregate named |
| `GapAudit.SumIsPromised` | celeriant_bench/src/lib.rs:1109-1136 | An aggregate's sum is the number of distinct (client, seq) batches its summaries vouch for |
| `GapAudit.Audit` | celeriant_bench/src/lib.rs:1141-1221 | The report lists exactly the flagged summaries, with totals and capped samples |
| `GapAudit.AuditedMeaning` | celeriant_bench/src/lib.rs:1141-1187 | The audited count is the number of summaries with something acked |
| `GapAudit.UnreadableMeaning` | celeriant_bench/src/lib.rs:1189-1218 | The unreadable count is the number of those whose read failed |
| `GapAudit.FlaggedMeaning` | celeriant_bench/src/lib.rs:1196-1204 | The failing list holds each flagged summary, one entry per position |
| `GapAudit.ShortfallMeaning` | celeriant_bench/src/lib.rs:1199-1201 | The missing total counts one per version a flagged summary is short of |
| `GapAudit.ToTaskAckSummaries` | celeriant_bench/src/account_workload.rs:297-306 | A listing of the ledger's entries, each key once |
| `GapAudit.KeptNeverShort` | celeriant_bench/src/lib.rs:1109-1125 | An aggregate whose log keeps every acked range is never short, whatever else it holds |
| `GapAudit.FlaggedReallyLost` | celeriant_bench/src/lib.rs:1196-1212 | In a flagged aggregate some client's range up to its acked maximum has a seq the log does not hold, whatever the log |
| `GapAudit.AuditBalance` | celeriant_bench/src/lib.rs:1109-1125 | For any number of clients and any duplicate-free log, an audited aggregate is flagged if and only if it lacks more of the acked batches than it holds others, and it is short of the difference |
| `GapAudit.AuditExact` | celeriant_bench/src/lib.rs:1196-1204 | Where the log holds only acked batches, it is flagged if and only if one of them is missing |
| `GapAudit.FlaggedAckLost` | celeriant_bench/src/lib.rs:1196-1212 | Against a log numbered per client, a flagged aggregate misses a batch the ledger was acked for |
| `GapAudit.SingleWriterExact` | celeriant_bench/src/lib.rs:1055-1062 | With one client the audit flags exactly the loss of the acked seq |
| `GapAudit.LedgerNeverFlagged` | celeriant_bench/src/lib.rs:1196-1213 | Summaries of any ledger run against logs that kept every acked batch are never flagged |
| `FillAudit.FillRunsNeverFlagged` | celeriant_bench/src/lib.rs:1141-1221 | Acks recorded by any fill runs and sampled by the ledger are never flagged against nodes that hold the replicated batches |
| `ActiveSet.SwapRemoveMeaning` | celeriant_chaos/src/cardinality_workload.rs:873-876 | `swap_remove` takes out exactly the chosen entry |
| `ActiveSet.MostDecayed` | celeriant_chaos/src/cardinality_workload.rs:871-877 | The eviction victim: the last of those due latest |
| `ActiveSet.Due` | celeriant_chaos/src/cardinality_workload.rs:949-951 | The first of the earliest entries already due, if any |
| `ActiveSet.NewbornJoins` | celeriant_chaos/src/cardinality_workload.rs:867-886 | A newborn is an aggregate the task never held |
| `ActiveSet.TasksNeverShare` | celeriant_bench/src/population.rs:133-138 | No two tasks of a deployment ever hold the same aggregate |
| `FillTask.FillTask.constructor` | celeriant_chaos/src/cardinality_workload.rs:828-865 | A new task holds nothing |
| `FillTask.FillTask.BirthArm` | celeriant_chaos/src/cardinality_workload.rs:865-889 | One entry per aggregate and the cap survive a birth; the newborn is due at once at version 0 and seq 1 with its whole budget; a full set evicts its most decayed entry; nothing is born exactly when the slice is zero milliseconds |
| `FillTask.FillTask.SampleReheat` | celeriant_chaos/src/cardinality_workload.rs:1089-1109 | The first of sixteen round-robin draws that is neither empty nor hot, of its bucket's true age while no edge wraps; none exactly when all are blocked |
| `FillTask.FillTask.ReheatArm` | celeriant_chaos/src/cardinality_workload.rs:891-946 | A reheated aggregate is acked, offered to the ledger under the caller's draw, and joins only if there is room and it is not hot |
| `FillTask.FillTask.WriteDue` | celeriant_chaos/src/cardinality_workload.rs:949-1045 | The earliest due entry is kept or retired as its write arm says; an ack of its own seq reaches the ledger, under the caller's draw, exactly when the write was acked |
| `IdempotencyCheck.CheckIdempotency` | celeriant_chaos/src/checkers.rs:98-167 | Fails exactly when a record is a second Ok or an unjustified "already applied", or anything was dropped, despite the sample cap |
| `IdempotencyCheck.ViolationMeaning` | celeriant_chaos/src/checkers.rs:120-150 | A record is a violation exactly when an earlier record accepted the same write, or it is an "already applied" of a numbered write that no earlier ack or ambiguous attempt explains |
| `IdempotencySound.InvNext` | celeriant_chaos/src/checkers.rs:87-97 | Every server step leaves a history without violations when clients send only a covered or ambiguously tried seq, or a new one with no ambiguous attempt above it |
| `IdempotencySound.NoFalseAlarm` | celeriant_chaos/src/checkers.rs:87-167 | No complete history of any number of such clients fails the check |
| `IdempotencySound.SteadyNeverFlagged` | celeriant_chaos/src/checkers.rs:87-167 | In particular none of clients that never go back to an older seq |
| `IdempotencyExact.ForbiddenIsFlagged` | celeriant_chaos/src/checkers.rs:139-150 | For any other seq some correct run with the same history answers it with a violation |
| `IdempotencyExact.LeastDiscipline` | celeriant_chaos/src/checkers.rs:87-167 | A seq is safe in every correct run with the history seen if and only if the discipline permits it |
| `SteadyClients.InvNext` | celeriant_bench/src/lib.rs:752-904 | Every step of clients that never go back keeps newest batch, acks and ambiguous attempts in order per session |
| `LateCommits.ShadowRun` | celeriant_bench/src/lib.rs:752-760 | Every run of token-free clients has a twin with the same history and log in which each lost attempt is committed or still on the network |
| `LateCommits.CommitAllLate` | celeriant_chaos/src/checkers.rs:228-249 | In that twin any set of lost attempts commits, or is overtaken, without changing the history |
| `FalseAlarms.GoingBackFalselyFlagged` | celeriant_chaos/src/checkers.rs:139-150 | A client that goes back to an older seq is falsely flagged |
| `OccCheck.CheckOcc` | celeriant_chaos/src/checkers.rs:178-226 | Passes exactly when no two acks of one aggregate name the same expected version, or the same committed one |
| `OccCheck.OwnsNext` | celeriant_chaos/src/checkers.rs:169-177 | Every step keeps each committed version owned by one call or record |
| `OccCheck.OccSurvivesDrops` | celeriant_chaos/src/checkers.rs:169-226 | Every run of a compare-and-commit server passes, on every subset of its records |
| `WalCheck.FirstPass` | celeriant_chaos/src/checkers.rs:258-278 | The first loop's maps are the acked seqs, last outcomes and smallest expected versions |
| `WalCheck.Tally` | celeriant_chaos/src/checkers.rs:280-290 | Accepted writes, ambiguous clients and baseline of each aggregate seen |
| `WalCheck.MinExpectedMeaning` | celeriant_chaos/src/checkers.rs:258-278 | The baseline is the least expected version recorded |
| `WalCheck.BoundsWeighLosses` | celeriant_chaos/src/checkers.rs:304-315 | A node is low exactly when it lost more accepted writes than it holds others, and high exactly when the others outnumber its losses and the ambiguous clients |
| `WalCheck.LossIsFlagged` | celeriant_chaos/src/checkers.rs:304-309 | Losing accepted writes is flagged unless as many ambiguous ones make up for it |
| `WalCheck.CheckWalMonotonicity` | celeriant_chaos/src/checkers.rs:250-331 | Passes exactly when no audited final read is outside [baseline+accepted, baseline+accepted+ambiguous] |
| `WalSound.InvNext` | celeriant_chaos/src/cardinality_workload.rs:1308-1388 | Every step of clients that count up past what they have seen committed keeps commits consecutive and the current seq next at the latest; those that retry until acked hold an ack for every seq below it |
| `WalSound.VersionEquation` | celeriant_chaos/src/checkers.rs:228-249 | The version is the opening version plus accepted plus owed writes |
| `Placement.InvNext` | celeriant_chaos/src/checkers.rs:228-249 | In every run each version was made by one commit, which its call, an ack or a lost attempt with that version's token explains |
| `Placement.UntoldWasTried` | celeriant_chaos/src/checkers.rs:228-249 | A committed write nobody was told of was tried without a token or with one no acked write has spent |
| `WalSound.VersionBounds` | celeriant_chaos/src/checkers.rs:292-331 | At rest the version lies between accepted plus skipped and accepted plus open writes, above the opening |
| `WalSound.UnresolvedMeaning` | celeriant_chaos/src/checkers.rs:258-278 | The unresolved writes are those tried ambiguously and never acked |
| `WalSound.SlackSuffices` | celeriant_chaos/src/checkers.rs:228-331 | A run at rest passes whenever its history is within its slack, with or without tokens, whatever became of the open writes |
| `WalSound.NoFalseAlarm` | celeriant_chaos/src/checkers.rs:228-331 | Complete histories from the opening version, with unresolved attempts last, are within their slack and pass |
| `WalExact.SettledExactly` | celeriant_chaos/src/checkers.rs:292-331 | Where every open write was skipped, with or without tokens, a run at rest passes if and only if its history is within its slack |
| `WalExact.AllCommitted` | celeriant_chaos/src/checkers.rs:228-249 | Some correct run of token-free clients with the same history committed every unresolved write |
| `WalExact.OutsideSlackIsTooHigh` | celeriant_chaos/src/checkers.rs:310-315 | A token-free history outside its slack is reported as a duplicate acceptance in some correct run |
| `WalExact.ExactlyWhenItPasses` | celeriant_chaos/src/checkers.rs:292-331 | Every correct run of token-free clients that rests with a history passes if and only if the history is within its slack |
| `WalSound.LossArmSurvivesDrops` | celeriant_chaos/src/checkers.rs:304-309 | On any subset of records whose acks carry their tokens, the "acked write lost" arm fires exactly when no such ack is retained and the baseline lies above the version |
| `FalseAlarms.InflightRetryFalselyFlagged` | celeriant_chaos/src/checkers.rs:310-315 | A lost attempt retried into "still in flight" and committed later is reported as a duplicate |
| `FalseAlarms.StaleStartFalselyFlagged` | celeriant_chaos/src/checkers.rs:231-239 | A first attempt from a stale version drags the baseline down and flags an ordinary ack |
| `FalseAlarms.SkippedWriteFalselyFlagged` | celeriant_chaos/src/cardinality_workload.rs:1361-1378 | A hot writer that finds its lost write by catch-up and goes on is reported as a duplicate acceptance |
| `FalseAlarms.RejectedAttemptReportedAsLoss` | celeriant_chaos/src/checkers.rs:304-309 | With no ack at all, one rejected attempt is reported as a lost write |
| `WatchStreams.ChainReaches` | celeriant_chaos/src/checkers.rs:454-457 | Adjacent comparisons order the whole stream when ranges are ranges |
| `WatchStreams.OrderedExact` | celeriant_chaos/src/checkers.rs:476-496 | Sorted streams chain exactly when ranges are pairwise disjoint and increase with time |
| `WatchStreams.MaxFinalMeaning` | celeriant_chaos/src/checkers.rs:519-526 | The per-aggregate maximum decides whether a delivery ran ahead of every node |
| `WatchStreams.RemovalNeverFails` | celeriant_chaos/src/checkers.rs:458-563 | Removing deliveries never turns a pass of either check into a fail |
| `WatchStreams.InvertedRangesSlipThrough` | celeriant_chaos/src/checkers.rs:476-496 | With an inverted range the scan accepts overlapping deliveries and removal can fail it |
| `WatchChecks.CheckOrdered` | celeriant_chaos/src/checkers.rs:458-500 | Passes exactly when no sorted stream has an adjacent overlap; for well-formed records exactly when streams are ordered |
| `WatchChecks.CheckDurable` | celeriant_chaos/src/checkers.rs:506-563 | Passes exactly when no delivery exceeds every final read of its aggregate |
| `EpochChains.DropsMeaning` | celeriant_chaos/src/epoch_oracle.rs:255-280 | The adjacent scan finds nothing exactly when epochs are pairwise non-decreasing |
| `EpochChains.ClashesMeaning` | celeriant_chaos/src/epoch_oracle.rs:284-304 | No clash exactly when both nodes agree on every shared sequence |
| `EpochChains.LocalChecksGiveGlobalChain` | celeriant_chaos/src/epoch_oracle.rs:114-124 | For linked windows, both checks hold exactly when the merged map is well defined and non-decreasing |
| `EpochChains.UnlinkedHidesADecrease` | celeriant_chaos/src/epoch_oracle.rs:98-124 | Any windows that are not linked admit epochs that pass both checks and decrease |
| `EpochChains.AttestsIffLinked` | celeriant_chaos/src/epoch_oracle.rs:98-124 | The two checks attest a global chain over given windows if and only if the windows are linked |
| `EpochChains.GapFreeIsLinked` | celeriant_chaos/src/epoch_oracle.rs:98-105 | Gap-free windows that share a sequence are linked |
| `EpochChains.CoveredHolesAreLinked` | celeriant_chaos/src/epoch_oracle.rs:98-105 | Windows are linked where one covers all sequences of the other, holes or not |
| `EpochOracle.CheckMonotonicity` | celeriant_chaos/src/epoch_oracle.rs:255-280 | Adds the decreases of a chain to the shared issue list, up to ten |
| `EpochOracle.CheckCrossNode` | celeriant_chaos/src/epoch_oracle.rs:284-304 | Adds the clashes of two chains to the shared issue list, up to ten |
| `EpochOracle.RunOracle` | celeriant_chaos/src/epoch_oracle.rs:72-136 | Both verdicts are exact over all shards despite the caps, and never pass with nothing checked |
| `EpochChains.AnyCheckedMeaning` | celeriant_chaos/src/epoch_oracle.rs:107-112 | A shard counts as checked exactly when one of its windows holds a block |
| `EpochChains.AllMonotoneMeaning` | celeriant_chaos/src/epoch_oracle.rs:114-116 | The first verdict is about every window of every shard |
| `EpochChains.AllUniqueMeaning` | celeriant_chaos/src/epoch_oracle.rs:118-124 | The second is about every sequence both windows of a shard hold |
| `EpochOracle.PassesGiveGlobalChains` | celeriant_chaos/src/epoch_oracle.rs:112-136 | Two passes make every shard whose windows are linked one global chain |
| `EpochOracle.GapFreeShardsAreGlobal` | celeriant_chaos/src/epoch_oracle.rs:112-136 | In particular every shard whose windows are gap-free and overlap |
| `EpochOracle.UnlinkedShardPassesWrongly` | celeriant_chaos/src/epoch_oracle.rs:112-136 | A shard whose windows are not linked can pass both verdicts while an epoch decreases |
| `EpochOracle.DisjointWindowsHideADecrease` | celeriant_chaos/src/epoch_oracle.rs:98-105 | Windows without a shared sequence pass while epochs decrease across them |
| `EpochOracle.GapsHideADecrease` | celeriant_chaos/src/epoch_oracle.rs:255-280 | A hole the other window does not cover hides a decrease even where windows overlap |
| `AvailabilityClock.InvRun` | celeriant_chaos/src/cardinality_workload.rs:404-424 | In every interleaving the largest step is in the clock or about to be |
| `AvailabilityClock.GapIsLargestStep` | celeriant_chaos/src/cardinality_workload.rs:404-415 | Once writers have widened it, the gap is the largest step up in swap order, and never more |
| `AvailabilityClock.GapIgnoresKill` | celeriant_chaos/src/cardinality_workload.rs:426-428 | Runs whose swaps landed alike report alike, whatever their kills were |
| `AvailabilityClock.OutageNeverUnderstated` | celeriant_chaos/src/cardinality_workload.rs:361-372 | An adjacent pair of swaps steps across a silence exactly when some ack before it is swapped ahead of some ack after it, and then the largest step covers it |
| `AvailabilityClock.ClockNeverUnderstates` | celeriant_chaos/src/cardinality_workload.rs:404-433 | The reported gap is at least any such silence, in every run |
| `AvailabilityClock.UnopenedSilenceMissed` | celeriant_chaos/src/cardinality_workload.rs:409-411 | Every other silence can be missed: a run swaps its two acks in reverse and reports no gap |
| `AvailabilityClock.LateAckOverstates` | celeriant_chaos/src/cardinality_workload.rs:409-411 | An ack inside a step that swaps late leaves a gap longer than any silence |
| `AvailabilityClock.ReportedGapIsSilenceIff` | celeriant_chaos/src/cardinality_workload.rs:404-415 | The largest step is a silence exactly when some step that attains it has no other ack inside |
| `AvailabilityClock.InOrderCovers` | celeriant_chaos/src/cardinality_workload.rs:361-372 | For acks in order no silence between two acks is longer |
| `AvailabilityClock.InOrderAttains` | celeriant_chaos/src/cardinality_workload.rs:361-372 | For acks in order some silence is exactly as long |
| `AvailabilityClock.GapNeverGrows` | celeriant_chaos/src/cardinality_workload.rs:437-447 | Between two reads of the anchored gap, both of which may straddle other steps, it stays defined and never grows |
| `AnchoredGap.AnchoredRun` | celeriant_chaos/src/cardinality_workload.rs:417-423 | In every interleaving around one kill time each ack is on one side of the kill, or about to be, and each watermark is the extreme of its side, or about to be |
| `AnchoredGap.WatermarksAreAcks` | celeriant_chaos/src/cardinality_workload.rs:396-424 | In every reachable state the far watermark is unset or an ack from the kill on, and the near one, once announced, is an ack |
| `AnchoredGap.GapAtRest` | celeriant_chaos/src/cardinality_workload.rs:435-447 | With no writer under way the gap is defined exactly when both sides have an ack, and runs from the newest near ack to the oldest far one |
| `AnchoredGap.GapIsSilenceAroundKill` | celeriant_chaos/src/cardinality_workload.rs:435-447 | If every ack from the kill on loads it after the mark, the gap is the last ack before the kill to the first one from it on, with none between |
| `AnchoredGap.GapOrderedIff` | celeriant_chaos/src/cardinality_workload.rs:396-400 | The difference is not negative if and only if no ack that loaded the kill too early is later than one from the kill on that loaded it in time |
| `AnchoredGap.StaleLoadInverts` | celeriant_chaos/src/cardinality_workload.rs:396-400 | Any two acks after the kill can leave the near watermark above the far one |
| `ServerMeta.ListMismatches` | celeriant/src/server_meta.rs:169-221 | Lists exactly the fields that differ |
| `ServerMeta.DataRoot.ValidateExisting` | celeriant/src/server_meta.rs:156-250 | Accepts exactly matching configurations over the pinned dictionary; refusals name their cause |
| `ServerMeta.DataRoot.ValidateOrCreate` | celeriant/src/server_meta.rs:59-153 | The decision table: when it boots, what it leaves on disk, why it refuses |
| `BootRuns.MetaNeverChanges` | celeriant/src/server_meta.rs:138-153 | Metadata once written is never rewritten by any step of any run |
| `BootRuns.SuccessIsAccepted` | celeriant/src/server_meta.rs:44-58 | Each success leaves the dictionary's hash equal to the stored one |
| `BootRuns.AcceptedFields` | celeriant/src/server_meta.rs:169-250 | A configuration is accepted exactly when every server field, the level and the dictionary name match and the dictionary has the stored hash |
| `BootRuns.SuccessfulBootsAgree` | celeriant/src/server_meta.rs:44-48 | All successful boots of a run agree on every immutable field |
| `BootRuns.RepeatSucceedsIff` | celeriant/src/server_meta.rs:93-136 | Repeating a successful boot succeeds exactly when the dictionary is intact or rehydratable |
| `BootRuns.LostBuiltInRehydrates` | celeriant/src/server_meta.rs:97-129 | A lost dictionary with a matching built-in costs nothing |
| `BootRuns.FirstBootPinsBuiltInIff` | celeriant/src/server_meta.rs:77-96 | A first boot with a built-in name pins the built-in's hash exactly when the file was absent or already had it |
| `BootRuns.SurvivesLossIff` | celeriant/src/server_meta.rs:97-129 | Losing the file later is survivable exactly then |
| `BootRuns.TornDictionaryIsAdopted` | celeriant/src/server_meta.rs:77-96 | After a crash that left any prefix of the built-in the next boot succeeds and pins the prefix, wrongly unless it has the built-in's hash |
| `BootRuns.TornRehydrationIsRefused` | celeriant/src/server_meta.rs:97-136 | In any run with a success behind it, a rehydration cut short leaves a prefix over which that boot succeeds if and only if the prefix has the built-in's hash |

## Left out

- Lease election, fencing, replication transport, WAL segments and caches: the model takes one totally ordered log per aggregate with a replicated prefix.
- Rollback in `ServerRun`: an executed batch is final there, so histories in which one client was answered from a batch that was later rolled back are not covered; `ExactlyOnce` does model rollback.
- Deletes, recreates and the delete/trim audit: no modelled workload deletes an aggregate.
- The pool, TLS, SSH and process handling, async scheduling, sleeps, backoff and jitter: only the order of atomic steps and deliveries is modelled.
- SplitMix64 and the slight bias of a modulo draw: uniformity is counted over all draw sequences.
- Floating-point sizing, payload mixes, latency curves, report text and error tallies: cosmetic or easy.
- `check_final_read_parity` compares the nodes' final batch counts per aggregate, and `check_ryw` flags a probe that both nodes read below its acked version: each is one comparison per group.
- `promotion_latency_ms` and `restart_ready_ms` subtract two observed scrape times, and `sample_aggregates` draws a deterministic sample of the epoch oracle's aggregates from a linear congruential generator: nothing is promised of them beyond the body.
- Hot writers whose first catch-up read fails start over at seq 1; where their client has written before, that lies below its opening seq, which none of the disciplines permits: nothing is claimed for them.
- Aggregate keys of the fill all share one organisation and type; the fill modules name an aggregate by its id alone.
- `Active` is a value in the task's sequence rather than an object: its two updates are functions and the task's methods reassign the sequence.
- I/O errors of the two boot files other than absence and an unparseable metadata file, and torn metadata writes: a torn metadata file may parse or not, and only the unparseable case is modelled.
- FillProgress.TwoAnswersPassTheSeq: does not count "still in flight" and unreadable answers, because a leader may repeat the first until it has replicated and the second tells the client nothing; excludes rollback, because `Rollbacks.OldRequestCostsAnAnswer` shows it false there; `Recovery.AnswersPassAfterRollbacks` gives the bound that holds.
- WalExact.ExactlyWhenItPasses: exact for clients that send no expected version, as the idempotent bench does; for the others `WalExact.SettledExactly` is exact where no open write is its client's current seq, and `WalSound.SlackSuffices` holds one way otherwise, because whether such a write can still commit depends on which tokens the rest of the history leaves free, and in what order.
- IdempotencyExact.LeastDiscipline: exact for clients that send no expected version; soundness in `IdempotencySound.NoFalseAlarm` covers all.
- GapAudit.Audit: models the per-aggregate sums without 64-bit overflow, because a sum of acked seqs cannot reach it in a run.
