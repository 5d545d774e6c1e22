# A verified model of rvc's hard core

rvc is an Ethereum validator client written in Rust, with Python operator scripts. This
project models the parts of it that carry protocol state, byte layout or arithmetic, and
proves what they promise over every input, every run and every interleaving:

- **Slashing protection** (`crates/slashing`, `crates/signer`): the EIP-3076 rule checks, the
  reserve / sign / reconcile protocol, watermarks, pruning, group commit, and the
  interchange import and export, over the signed columns the database keeps its numbers in.
  The main theorems: no run of the store signs a slashable pair of any validator, for exactly
  the sets of epochs and slots that do not reach across 2^63.
- **SSZ block containers** (`crates/beacon/src/ssz_deser.rs`): the offset-table parsers, the
  encoders and the four-offset sniff, with round trips in both directions.
- **Beacon node health** (`crates/bn-manager/src/health.rs`): the outcome window, latency
  average, score and threshold, and the lock-free re-probe counter under every interleaving.
- **The HTTP engine** (`crates/beacon/src/client.rs`, `retry.rs`, `http_caps.rs`): the retry
  loop against an arbitrary sequence of outcomes, block production, aggregate fetching.
- **The performance script** (`scripts/validator_perf.py`): concurrent endpoint failover, the
  rate limiter, the bisecting rewards fetch, window and sync-committee arithmetic, and
  accumulation over futures in any completion order.
- **The network report** (`scripts/devnet_report.py`): cumulative clamping, histogram
  quantiles, and the Prometheus label parser against its printer.

`dafny verify dfyconfig.toml` checks the whole project.

## How the model is built

Code that computes values is modelled by functions; code that updates variables or fields is
modelled by methods with loops, or by classes, and each such method is proved against a
function about which the theorems are stated. Concurrency is an event machine: one event per
lock-protected block, atomic load or compare-exchange, and `Run` over an arbitrary sequence of
events is every interleaving. The network, the clock, randomness and decoders of foreign
formats are parameters; a theorem holds for all of them. Floats are reals, integers are
unbounded except where a width matters (`u32` offsets, `u64` saturation, `i64` columns), where
the conversion is written out. Inductions are written out: automatic induction is switched off
on every lemma it would apply to.

Where a promise turned out not to hold of the code, the code is modelled as it is and the
exact condition is proved:

- Epochs and slots are `u64`, the columns are signed, and SQL compares the columns. Runs are
  safe for exactly those sets of values that stay on one side of 2^63, column by column: see
  `BlocksSafeIff`, `VotesSafeIff` and `SafeIffOneSided`, and for the failures
  `StraddlingRunIsUnsafe`, `StraddlingTargetsAreUnsafe`, `StraddlingSourcesAreUnsafe`,
  `HighTargetSurroundsUnseen` and `HighImportIsDropped`. The store, import and export theorems carry that condition.
- An exported interchange file refuses everything the store refuses, except votes and blocks
  refused only by the minimum-target (minimum-slot) rule when a watermark exists: see
  `ExportKeepsVoteRefusals`, `ExportKeepsBlockRefusals` and the counterexamples
  `ExportDropsTheGapRule` and `ExportDropsTheBlockGapRule`. The comment on `export` claims no exception.
- A label value survives printing and parsing exactly when it contains no carriage return and
  no backslash immediately followed by the letter n: see `EscapeRoundTripsIff` and
  `EscapedBackslashThenNIsNotInverted`.
- An accepted vote is slashable against history exactly when the check is lenient, the vote
  carries no signing root, and its target is already on record: see `AcceptedAttestationSlashableIff` and `LenientRootlessDoubleVote`. The same holds of blocks
  and slots: see `AcceptedBlockSlashableIff` and `LenientRootlessDoubleProposal`.
- A split rewards fetch evaluates like a direct one exactly unless the server sends ideal rows
  without a balance, which the merge drops and the evaluation refuses: see
  `BisectingPreservesMeaningIff` and the counterexample `SplitHidesARefusedAnswer`.
- The unreachable-slot error of window resolution is never raised at all, not even with an
  explicit late end epoch: see `ForcedUnsafeIffUnreachable`.

## Model

| member | source | states |
|---|---|---|
| `SlashingRules.AcceptedAttestationSlashableIff` | crates/slashing/src/rules.rs:251-369 | an accepted vote is slashable against some history row if and only if it carries no root, the check is lenient, and a row with its target exists |
| `SlashingRules.LenientRootlessDoubleVote` | crates/slashing/src/rules.rs:251-369 | the concrete lenient acceptance of a root-less second vote for a recorded target |
| `SlashingRules.AcceptedBlockSlashableIff` | crates/slashing/src/rules.rs:198-247 | an accepted block is slashable against some history row if and only if it carries no root, the check is lenient, and a row with its slot exists |
| `SlashingRules.LenientRootlessDoubleProposal` | crates/slashing/src/rules.rs:198-247 | the concrete lenient re-sign of a root-less block at a recorded slot |
| `SlashingRules.CheckAttestationExact` | crates/slashing/src/rules.rs:251-369 | a vote is accepted if and only if it clears both watermarks, is slashable against no row except a lenient root-less repeat of its target, and is not older than every recorded target |
| `SlashingRules.CheckBlockExact` | crates/slashing/src/rules.rs:198-247 | a block is accepted if and only if it is above the watermark, conflicts with no row except a lenient root-less repeat, and is not older than every recorded slot |
| `SlashingColumns.SignedColumnOrder` | crates/slashing/src/history.rs:83-135 | comparing two `u64` values through their signed columns agrees with comparing the values if and only if both are on the same side of 2^63 |
| `SlashingColumns.CastKeepsTheBits` | crates/slashing/src/history.rs:59-135 | the column of a `u64` is the signed number of the same 64 bits |
| `SlashingColumns.CheckAttAgrees` | crates/slashing/src/history.rs:59-135 | the targeted SQL queries give the verdict of the full scan for every vote, when each column stays on one side of 2^63 |
| `SlashingColumns.CheckBlkAgrees` | crates/slashing/src/history.rs:150-182 | the same for blocks, whatever the candidate slot |
| `SlashingColumns.HighTargetSurroundsUnseen` | crates/slashing/src/history.rs:83-99 | a concrete vote for target 2^63 that surrounds a recorded vote: refused by the full scan, staged by the columns |
| `SlashingColumns.SignedRaiseExact` | crates/slashing/src/db/watermarks.rs:106-131 | the SQL raise covers the new value, and keeps the old floor, if and only if it is not asked to step over 2^63 |
| `SlashingColumns.HighImportIsDropped` | crates/slashing/src/db/interchange.rs:481-585 | a concrete file whose target 2^63 leaves a floor of 5 where it was |
| `SlashingColumns.SqlPruneKeeps` | crates/slashing/src/db/watermarks.rs:220-317 | pruning the columns loses no protection: every deleted row lies under the raised floors, on one side of 2^63 |
| `SlashingColumns.SqlPruneExact` | crates/slashing/src/db/watermarks.rs:220-317 | on one side of 2^63 exactly the votes below the target floor and the blocks below the block floor are gone, those floors stay, and the source floor becomes the largest of itself and the sources of the deleted votes |
| `SlashingColumns.SqlImportKeeps` | crates/slashing/src/db/interchange.rs:481-585 | importing into the columns loses no protection and puts every imported vote and block under the floors, on one side of 2^63 |
| `SlashingColumns.RunAgrees` | crates/slashing/src/stage.rs:610-753 | on one side of 2^63 every run of the column store is the run of the machine that compares `u64` values |
| `SlashingColumns.SqlRunKeepsInv` | crates/slashing/src/stage.rs:610-753 | every run of the column store keeps the invariant that each signed or imported message is recorded or lies under the floors, on one side of 2^63 |
| `SlashingColumns.NoRunSignsASlashablePair` | crates/signer/src/core.rs:517-608 | over every run of attest, propose, release, reconcile, prune, import and watermark events, no two released votes and no two released blocks are slashable together, on one side of 2^63 |
| `SlashingExact.BlocksSafeIff` | crates/signer/src/core.rs:517-608 | for any three sets of sources, targets and slots, all runs over them keep blocks safe if and only if the slots do not reach across 2^63 |
| `SlashingExact.VotesSafeIff` | crates/signer/src/core.rs:517-608 | for any three such sets, all runs keep votes safe if and only if the targets do not reach across 2^63 or there is no source, and the sources do not or there is at most one target |
| `SlashingExact.SafeIffOneSided` | crates/signer/src/core.rs:517-608 | with one set for all three, everything is safe if and only if the set does not reach across 2^63 |
| `SlashingExact.VoteProjection` | crates/slashing/src/stage.rs:610-753 | what a run does to votes is a run of its vote events alone |
| `SlashingExact.BlockProjection` | crates/slashing/src/stage.rs:610-753 | what a run does to blocks is a run of its block events alone |
| `SlashingExact.StraddlingTargetsAreUnsafe` | crates/slashing/src/db/watermarks.rs:220-317 | for every source, and every target below and from 2^63 on, the run that prunes a signed vote and signs a second one for its target |
| `SlashingExact.StraddlingSourcesAreUnsafe` | crates/slashing/src/history.rs:83-120 | for every source below and from 2^63 on, and every two targets, the run that signs a surrounding vote |
| `SlashingExact.StraddlingRunIsUnsafe` | crates/slashing/src/db/watermarks.rs:220-317 | for every value below and every value from 2^63 on, the six-step run that signs two blocks at one slot |
| `SlashingColumns.AcceptedVoteClearsHistory` | crates/slashing/src/rules.rs:251-369 | after any run, a vote the store accepts conflicts with nothing ever signed or imported, whether or not its row was pruned since, on one side of 2^63 |
| `SlashingColumns.AcceptedBlockClearsHistory` | crates/slashing/src/rules.rs:198-247 | the same for blocks, on one side of 2^63 |
| `SlashingStore.NoStoreRunSignsASlashablePair` | crates/signer/src/core.rs:1048-1134 | over every run of group commits of many validators, failed commits, failed deletes, prunes, file imports and signer outcomes, no validator ever signs a slashable pair, on one side of 2^63 |
| `SlashingStore.StoreRunProjects` | crates/slashing/src/group_commit.rs:456-566 | seen from one pubkey, every run of the store is a run of that validator's own machine |
| `SlashingStore.BatchProjects` | crates/slashing/src/group_commit.rs:456-534 | a committed batch gives each validator exactly its own reserve step, and others nothing |
| `SlashingStore.BatchTakesEffect` | crates/slashing/src/group_commit.rs:456-566 | a batch of different validators, none in the middle of signing, moves the store to what the transaction commits, and each goes on holding exactly what it was granted |
| `SlashingMachine.ReleaseKeepsInv` | crates/signer/src/core.rs:517-608 | releasing a signature under the sign-span lock, made or only possibly made, keeps every signed message covered and every signed pair safe |
| `SlashingMachine.ReconcileKeepsInv` | crates/slashing/src/stage.rs:659-753 | deleting the reserved row of a signature that was never made keeps everything signed covered |
| `SlashingMachine.WithoutTheSignSpanLockADoubleVoteIsAccepted` | crates/signer/src/core.rs:1048-1134 | without the lock over the whole sign span, a repeat and a reconcile can interleave into an accepted double vote, so the lock is needed |
| `SlashingMachine.PruningNeedsTheSourceBound` | crates/slashing/src/db/watermarks.rs:220-317 | raising only the target watermark while pruning would let a surrounding vote through; raising the source too refuses it |
| `SlashingDatabase.GroupCommitIsSerial` | crates/slashing/src/group_commit.rs:456-534 | a batch that does not break leaves the store, and gives each member the reply, that one transaction per member in queue order would have |
| `SlashingDatabase.ReservedMembersAreRecorded` | crates/slashing/src/group_commit.rs:456-534 | every member a batch grants has its row in the store, also after the later members of the batch |
| `SlashingDatabase.SlashingDb.CommitBatch` | crates/slashing/src/group_commit.rs:456-566 | the store and every reply are those of the specified transaction: the served state or nothing at all, a granted reply only if it was persisted, and nobody granted by a failed commit; who is granted is the next four rows |
| `SlashingGroup.GrantedIff` | crates/slashing/src/group_commit.rs:466-566 | in a transaction that neither breaks nor fails to commit, a waiting member on the right chain is granted if and only if its vote (block) clears the floors, the rows and the minimum of the store the members before it leave; `inserted` if and only if no row has its target (slot), and then exactly that row is added; the refused are exactly those that do not pass or, still waiting, name another chain |
| `SlashingGroup.ClearVoteIsUnslashable` | crates/slashing/src/rules.rs:251-369 | where equal roots mean equal votes, that condition is the one of `CheckAttestationExact`: no slashable row but a lenient root-less repeat |
| `SlashingGroup.BrokenIffBreaks` | crates/slashing/src/group_commit.rs:464-513 | the transaction breaks if and only if SQLite fails under a member that is still waiting |
| `SlashingGroup.BrokenBatchTellsEveryone` | crates/slashing/src/group_commit.rs:515-566 | a broken transaction stores nothing; a refusal given before the break stands, and everybody else is told the commit failed |
| `SlashingGroup.FailedCommitTellsEveryone` | crates/slashing/src/group_commit.rs:515-566 | a commit that fails although somebody would have been granted stores nothing and tells everybody but the refused; with nobody to grant there is no commit to fail |
| `SlashingDatabase.SlashingDb.ReconcileUnsigned` | crates/slashing/src/stage.rs:659-753 | a compensating delete removes the reserved row and nothing else, a repeat owns none, and a failure retains it |
| `SlashingDatabase.SlashingDb.PruneBelowWatermarks` | crates/slashing/src/db/watermarks.rs:220-317 | every validator's history becomes its pruned history, and the call is refused if and only if no validator has a watermark |
| `SlashingDatabase.SlashingDb.ImportFile` | crates/slashing/src/db/interchange.rs:481-585 | the store becomes the fold of the file's records over it |
| `SlashingDatabase.ImportKeepsStore` | crates/slashing/src/db/interchange.rs:481-585 | importing any file keeps every validator's rows well formed, on one side of 2^63 |
| `SlashingDatabase.ImportCoversVotes` | crates/slashing/src/db/interchange.rs:481-585 | each vote of the file is under its validator's watermarks afterwards, whatever records follow it, on one side of 2^63 |
| `SlashingDatabase.ImportCoversBlocks` | crates/slashing/src/db/interchange.rs:481-585 | each block of the file is under its validator's watermark afterwards, whatever records follow it, on one side of 2^63 |
| `SlashingExport.SyntheticBounds` | crates/slashing/src/db/interchange.rs:76-106 | the nested scan for the synthetic vote computes the fixpoint `Floor` and ends on every history |
| `SlashingExport.FloorRepresents` | crates/slashing/src/db/interchange.rs:76-106 | the synthetic vote is at or above both watermarks, dominates the source of every row it replaces, and is dominated by the source of every row that is kept |
| `SlashingExport.FloorIsLeast` | crates/slashing/src/db/interchange.rs:76-106 | it is the least pair of bounds that does so |
| `SlashingExport.ExportsIff` | crates/slashing/src/db/interchange.rs:108-173 | a history exports if and only if it has no floors, or both and the least record for them has its source at or below its target; otherwise the error names that record, or the one floor there is |
| `SlashingExport.ExportedFloor` | crates/slashing/src/db/interchange.rs:108-173 | the exported votes are the synthetic one and exactly the rows above its target, none of which has a smaller source |
| `SlashingExport.SyntheticVoteIsHarmless` | crates/slashing/src/db/interchange.rs:108-173 | the synthetic vote is slashable against no exported row |
| `SlashingExport.ExportKeepsVoteRefusals` | crates/slashing/src/db/interchange.rs:331-411 | a vote the store refuses is refused by an importer of the file, if and only if it was not refused by the minimum-target rule alone in the presence of watermarks, on one side of 2^63 |
| `SlashingExport.ExportKeepsBlockRefusals` | crates/slashing/src/db/interchange.rs:331-411 | the same for blocks and the minimum-slot rule, on one side of 2^63 |
| `SlashingExport.ExportDropsTheGapRule` | crates/slashing/src/db/interchange.rs:331-411 | a concrete store and vote: refused by the store, allowed by the exported file |
| `SlashingExport.ExportDropsTheBlockGapRule` | crates/slashing/src/db/interchange.rs:331-411 | a concrete store and block: refused by the store, allowed by the exported file |
| `SlashingExport.ExportThenImportRefusesVotes` | crates/slashing/src/db/interchange.rs:374-585 | exporting and importing into any other store makes that store refuse every vote the first one refused, on one side of 2^63 |
| `SlashingExport.ExportThenImportRefusesBlocks` | crates/slashing/src/db/interchange.rs:374-585 | the same for blocks, on one side of 2^63 |
| `SlashingExport.ReexportIsStricter` | crates/slashing/src/db/interchange.rs:374-585 | importing a file into an empty store and exporting again refuses every vote the file refused, for all `u64` values |
| `SlashingExport.ReexportIsStricterForBlocks` | crates/slashing/src/db/interchange.rs:374-585 | the same for blocks |
| `Ssz.BlockFieldsOfRegion` | crates/beacon/src/ssz_deser.rs:206-254 | parsing a block inside a buffer is parsing its region alone |
| `Ssz.ProofsAndBlobsDoNotInfluenceTheBlock` | crates/beacon/src/ssz_deser.rs:53-114 | changing any byte at or past the kzg_proofs offset changes nothing about the parsed block |
| `Ssz.HeaderAgreesWithBlock` | crates/beacon/src/ssz_deser.rs:125-180 | wherever the block parses, the header extractor returns its slot and proposer |
| `Ssz.HeaderReadIff` | crates/beacon/src/ssz_deser.rs:125-153 | the header is read if and only if sixteen bytes lie behind the block offset, and is the two words there |
| `SszBlock.ParseOfBlockBytes` | crates/beacon/src/ssz_deser.rs:206-254 | parsing the SSZ encoding of any block gives back every field in its place |
| `SszBlock.BlockBytesOfParse` | crates/beacon/src/ssz_deser.rs:206-254 | encoding a parsed block reproduces the bytes if and only if its body offset was 84 |
| `Ssz.GloasRegionsTile` | crates/beacon/src/ssz_deser.rs:302-339 | the four regions concatenate to exactly the bytes from the block offset on, and the block is the parse of the first |
| `Ssz.GloasRoundTrip` | crates/beacon/src/ssz_deser.rs:302-339 | a container framed with its four offsets is recognised, fails exactly as its block does, and is cut back into the same four regions |
| `Ssz.EncodeContents` | crates/beacon/src/ssz_deser.rs:360-379 | the buffer is the three-offset frame: twelve bytes of offsets, then the three parts unchanged |
| `Ssz.WrappedOffsets` | crates/beacon/src/ssz_deser.rs:360-379 | offsets wrap at 2^32 exactly as encoding the true offset would |
| `Ssz.SerializeSignedBlock` | crates/beacon/src/ssz_deser.rs:342-357 | accepts exactly a 96-byte signature, and its own offset leads back to the block |
| `Ssz.ParseOfFittingFrame` | crates/beacon/src/ssz_deser.rs:412-453 | parsing a fitting frame accepts if and only if the bare block parses, and returns that block and both regions |
| `Ssz.ParseOfFrame` | crates/beacon/src/ssz_deser.rs:412-453 | parsing a frame gives back its parts if and only if the block parses and the last offset fits 32 bits |
| `Ssz.FrameOfParse` | crates/beacon/src/ssz_deser.rs:360-453 | framing what was parsed reproduces the input bytes if and only if the first offset was 12 |
| `Ssz.SniffedContainerFailsOnlyInTheBlock` | crates/beacon/src/ssz_deser.rs:278-331 | when the sniff says yes, every offset check passes and only the inner block can still be rejected |
| `Ssz.SniffNeverClaimsABareBlock` | crates/beacon/src/ssz_deser.rs:278-299 | no bare block with a slot below 2^36 + 16 is taken for a four-offset container |
| `Ssz.SniffBoundIsTight` | crates/beacon/src/ssz_deser.rs:278-299 | a bare block with slot 2^36 + 16 is taken for one, so the bound is exact |
| `Health.WindowIsLastOutcomes` | crates/bn-manager/src/health.rs:207-212 | over every run the window holds exactly the last 100 or fewer outcomes, in order |
| `Health.ScoreInUnitInterval` | crates/bn-manager/src/health.rs:140-155 | the score of every reachable state lies in [0, 1] |
| `Health.ScoreFalls` | crates/bn-manager/src/health.rs:140-155 | the score falls strictly with latency up to 5000 ms and is flat beyond, falls strictly with each error more in a window of one size, and is 0.8 for a fresh node |
| `Health.ThirtyFourSuccessesHeal` | crates/bn-manager/src/health.rs:140-159 | from any reachable state, any run ending in 34 successes leaves the node healthy |
| `Health.ThirtyThreeNeedNotHeal` | crates/bn-manager/src/health.rs:140-159 | a reachable state that 33 successes leave unhealthy |
| `Health.FastNodeNeverUnhealthy` | crates/bn-manager/src/health.rs:140-159 | with a latency average below 2500 ms no number of errors makes the node unhealthy |
| `Health.HundredErrorsDecide` | crates/bn-manager/src/health.rs:140-159 | after 100 errors the node is healthy if and only if its latency average is below 2500 ms |
| `Health.EmaConverges` | crates/bn-manager/src/health.rs:200-205 | n successes at one latency leave exactly 0.7^n of the average's distance to it |
| `Health.EmaWithinRange` | crates/bn-manager/src/health.rs:200-205 | over every run the average exists exactly if there was a success, and lies in the range of the recorded latencies |
| `Health.BnHealthTracker.RecordSuccess` | crates/bn-manager/src/health.rs:84-108 | the tracker's state becomes that of the run extended by one success |
| `Health.BnHealthTracker.RecordError` | crates/bn-manager/src/health.rs:110-134 | the tracker's state becomes that of the run extended by one error |
| `Health.BnHealthTracker.PushOutcome` | crates/bn-manager/src/health.rs:207-212 | the deque drops its oldest outcome exactly when full |
| `Reprobe.SkipsAreConserved` | crates/bn-manager/src/health.rs:162-194 | for any allowance and any interleaving of readers, loads, exchanges, spurious failures and marks: skips granted since the last mark plus the counter is always the allowance, and the two key sets agree |
| `Reprobe.ReturnsMatchTheCounter` | crates/bn-manager/src/health.rs:178-194 | a reader returns true if and only if it took one skip off its operation's counter, and false without any change |
| `Reprobe.MarksTakeEffect` | crates/bn-manager/src/health.rs:162-176 | with nobody reading, a mark flags the operation with the full allowance and the opposite mark clears flag and counter |
| `Reprobe.LoneReader` | crates/bn-manager/src/health.rs:178-194 | a reader left alone returns true and takes one skip if the counter is positive, and returns false without change if it is zero or the operation is not flagged |
| `Reprobe.OtherOperationsUntouched` | crates/bn-manager/src/health.rs:162-194 | a step on one operation changes neither flag nor counter of another |
| `Retry.BackoffWithinJitter` | crates/beacon/src/retry.rs:30-43 | every draw lies between the extremes, within a quarter of the base barring saturation |
| `Retry.BackoffStrictlyGrows` | crates/beacon/src/retry.rs:30-43 | below the exponent cap and barring saturation, every draw for an attempt is below every draw for the next |
| `Retry.BackoffFreezesAtCap` | crates/beacon/src/retry.rs:30-43 | from the cap on the range of draws no longer changes |
| `Retry.BackoffExact` | crates/beacon/src/retry.rs:30-43 | the delay in numbers: the initial delay doubled at most twenty times, in whole milliseconds, less a quarter, plus the draw, saturating at 2^64 - 1 ms; below 4 ms the base itself |
| `Retry.BaseSaturates` | crates/beacon/src/retry.rs:30-43 | the doubled base is exact up to the largest duration and stays there beyond it |
| `Retry.RetryAfterExact` | crates/beacon/src/retry.rs:44-56 | a header of s seconds is s seconds up to 120 and 120 beyond; without one the fallback |
| `HttpCaps.ReadBodyCapped` | crates/beacon/src/http_caps.rs:52-85 | succeeds if and only if every chunk is readable and the announced and actual lengths are within the cap, and then with the exact concatenation; an error reports the announced length, or the first chunk that broke or the total that exceeded the cap |
| `BeaconClient.ExecuteWithRetry` | crates/beacon/src/client.rs:1863-1982 | an attempt decides if it is an answer that is neither 429 nor 500 to 599, or a failure that is neither a time-out nor a refused connection: the first to decide within the retries is the last request, a run that stops early stopped on one, and otherwise all are used; the result is the deciding response, or the error of the last attempt, case by case; and the exact time slept |
| `BeaconClient.SleptWithinBudget` | crates/beacon/src/client.rs:1863-1982 | for every network and every draw the time slept is within the sum over the retries of the top backoff plus the larger of it and 120 s |
| `BeaconClient.ExecuteWithPolicy` | crates/beacon/src/client.rs:1863-1982 | an engine run under a policy sleeps at most the policy's budget over all its retries |
| `BeaconClient.DecodeProduceBlockV4` | crates/beacon/src/client.rs:729-879 | succeeds if and only if headers and capped body decode, and then every field is the response's: fork, flag, builder URL, block value and the exact body; any failure is a parse error, or the exact body size error |
| `BeaconClient.SszContentTypes` | crates/beacon/src/client.rs:745-756 | a body is taken as SSZ if and only if its content type is `application/octet-stream` followed by anything |
| `BeaconClient.CommitV4Error` | crates/beacon/src/client.rs:152-157 | the result is a parse or body-size error, and an error that already is one is unchanged |
| `BeaconClient.ProduceBlockV4` | crates/beacon/src/client.rs:677-727 | a 2xx is the last request of the call; the call succeeds, or fails with a parse or body-size error, if and only if a 2xx was received; a result has every field from that response; and the exact time slept |
| `BeaconClient.AcceptV2` | crates/beacon/src/client.rs:2042-2108 | a 2xx answer is accepted exactly as far as header, body and requested fork agree and the committee bit is set; any other stops failover |
| `BeaconClient.FetchV1` | crates/beacon/src/client.rs:1402-1425 | the first deciding attempt, or the last one, decides; success carries the body that response holds, an error means it holds none; and the exact time slept |
| `BeaconClient.AskV2` | crates/beacon/src/client.rs:1307-1385 | the version-2 attempts end at the first that decides or that is a 405 or 501, or when the retries are used up; and the exact time slept |
| `BeaconClient.FetchAggregateV2` | crates/beacon/src/client.rs:1286-1425 | success only through an agreeing version-2 answer, or what the single version-1 fallback read from its deciding response; the fallback happens if and only if the deciding version-2 answer was 405 or 501; an early end was decided; an error means nothing agreed and names the last outcome, case by case; and the exact time slept |
| `BeaconClient.CommitteeBitIsBitOfValue` | crates/beacon/src/client.rs:2076-2085 | the byte-wise test reads bit `index` of the little-endian value, for every index and length |
| `LittleEndian.ValueOfBytes` | crates/beacon/src/ssz_deser.rs:360-379 | encoding to k bytes and reading back is reduction modulo 256^k |
| `LittleEndian.BytesOfValue` | crates/beacon/src/ssz_deser.rs:267-275 | reading k bytes and encoding them again gives the same bytes |
| `Failover.TryEndpoint` | scripts/validator_perf.py:653-715 | one to three requests; each earlier outcome was retried, the last decides: a payload is an uncut JSON 2xx other than 204, no content a 204, a transport error a fatal one or a third transient one, a status error that status |
| `Failover.SteadyEndpointRequests` | scripts/validator_perf.py:566-715 | an endpoint that keeps giving one outcome is asked three times for timeouts, 429 and 503, twice for 500 and once for anything else |
| `Failover.Client.PromoteFrom` | scripts/validator_perf.py:621-645 | advances by one exactly when the failed endpoint is still current and another is left |
| `Failover.Client.SelectEndpoint` | scripts/validator_perf.py:961-981 | pins the first endpoint that names a version and is not syncing, or fails if and only if there is none |
| `Failover.GenerationCountsAdvances` | scripts/validator_perf.py:621-645 | in every interleaving after pinning, the generation is the current index minus the pinned one |
| `Failover.NextKeepsInv` | scripts/validator_perf.py:621-734 | every step moves the current index forward by at most one and keeps every worker's invariant |
| `Failover.OneAdvancePerEndpoint` | scripts/validator_perf.py:621-645 | however many workers fail on an endpoint, a run leaves it exactly once if it moved past it, and otherwise never |
| `Failover.CallRequestBound` | scripts/validator_perf.py:653-734 | under any interference a call uses strictly later endpoints each time and makes at most 3(n - i) requests from its first endpoint i |
| `Failover.ExhaustionOnlyAtTheEnd` | scripts/validator_perf.py:588-734 | exhaustion is signalled only at the last endpoint and after a promotion; a transport error or a 503 escapes a promoting call only when selection pinned the last endpoint |
| `Failover.CallsBegin` | scripts/validator_perf.py:653-675 | a call begins on the current endpoint with nothing spent, only on a thread that is in no other call, and no other thread notices |
| `Failover.RequestDecides` | scripts/validator_perf.py:566-734 | what each request does to a call, outcome by outcome: it repeats, returns, raises where it is, or, for a transport error or a 503 in a promoting call only, leaves the endpoint |
| `Failover.ReturnedMeans` | scripts/validator_perf.py:653-715 | in any state, a step that ends a call with a payload received an uncut JSON 2xx other than 204, one that ends it without content a 204, and the endpoints used stay the same |
| `Failover.FailsOver` | scripts/validator_perf.py:621-734 | a promoting call that fails on the current endpoint, left alone, starts over on the next one, and the generation counts it |
| `Failover.LastEndpointFails` | scripts/validator_perf.py:716-725 | failing on the last endpoint raises the call's own error if that endpoint was pinned, and reports exhaustion if it was promoted to |
| `Failover.CallsTerminate` | scripts/validator_perf.py:653-734 | a thread that takes 6n steps of its own has finished its call, whatever the others and the transport do |
| `RateLimiter.Limiter.AwaitSlot` | scripts/validator_perf.py:532-543 | reserves the start the schedule prescribes; a delay of zero or less reserves nothing |
| `RateLimiter.StartNotBefore` | scripts/validator_perf.py:532-543 | no reserved start is before its caller's clock reading |
| `RateLimiter.StartsAreApart` | scripts/validator_perf.py:532-543 | for any clock and any callers, a later start is at least the earlier caller's delay after it |
| `RateLimiter.StartsAreEarliest` | scripts/validator_perf.py:532-543 | no schedule that keeps order, clock and spacing starts any call earlier |
| `RateLimiter.RateBound` | scripts/validator_perf.py:532-543 | with one fixed delay an interval of length T holds at most floor(T / delay) + 1 starts |
| `Rewards.EvaluateEpoch` | scripts/validator_perf.py:1530-1587 | the loops compute the specified outcome map, whose entries and fields are `EvaluatedOutcome` |
| `Rewards.EvaluatedOutcome` | scripts/validator_perf.py:1530-1587 | a validator has an outcome if and only if a reference makes it active in the epoch and a row names it; from its last row: source and target credited iff not negative, head unknown iff leak and else credited iff positive, missed iff neither credit, the four amounts and their sum; the ideal is missing iff leak or no row of its balance, and else the sum of that row |
| `Rewards.LeakIff` | scripts/validator_perf.py:1495-1501 | a leak is reported if and only if the first row of the largest balance is all zero |
| `Rewards.DetectLeak` | scripts/validator_perf.py:1495-1501 | the loop finds the largest balance's row and whether it earns nothing |
| `RewardsFetch.EvaluateFetched` | scripts/validator_perf.py:1530-1587 | a payload evaluates to its outcomes, or to an error if and only if some ideal row cannot be read |
| `Rewards.LeakFromServer` | scripts/validator_perf.py:1495-1501 | for any answer of a server, a leak is reported if and only if the largest balance the server lists earns nothing |
| `Rewards.OutcomeMeans` | scripts/validator_perf.py:1554-1586 | a validator paid exactly its ideal is fully credited and reaches it; a negative source alone is no miss; negative source and target are one |
| `Rewards.EvaluateAtFromServer` | scripts/validator_perf.py:1530-1587 | for any answer, who gets an outcome and which one is determined by the server alone |
| `Rewards.EvaluationSeesOnlyTheServer` | scripts/validator_perf.py:1530-1587 | any two answers to the same ids, in any order and repetition, evaluate alike |
| `RewardsFetch.MergeRewards` | scripts/validator_perf.py:1615-1631 | all total rows in order, and ideal rows by balance with the last one winning in first-seen position; rows without a balance are skipped |
| `RewardsFetch.MergeCovers` | scripts/validator_perf.py:1615-1631 | merging answers to two id lists answers their concatenation up to rows without a balance, which it drops |
| `RewardsFetch.FetchEpochRewards` | scripts/validator_perf.py:1634-1661 | result, calls and budget are those of the bisection; the budget is flagged exactly when something was added |
| `RewardsFetch.FetchCoversAllIds` | scripts/validator_perf.py:1634-1661 | a successful fetch, however often split, holds every row the server has for all of the ids; a failed half never becomes missing rows |
| `RewardsFetch.BisectingPreservesMeaningIff` | scripts/validator_perf.py:1530-1661 | a fetched epoch evaluates exactly as any direct answer to all ids, errors included, if and only if the first call did not make it split over rows without a balance; otherwise the direct answer is refused and the split one evaluates |
| `RewardsFetch.SplitHidesARefusedAnswer` | scripts/validator_perf.py:1615-1661 | a faithful server and network for which, with any two ids, the split fetch succeeds and evaluates while the direct answer is refused |
| `RewardsFetch.AtMostSevenCalls` | scripts/validator_perf.py:1599-1661 | calls are at most one more than the extra, the extra at most six, calls at most seven |
| `RewardsFetch.SevenCallsAreMade` | scripts/validator_perf.py:1599-1661 | four or more ids whose every call fails with a 500 cost exactly seven calls, six of them extra, and fail with that status |
| `RewardsFetch.CallsWithinBudget` | scripts/validator_perf.py:1634-1661 | at every depth, without a transport error calls are exactly one more than the extra |
| `Windows.ForcedUnsafeIffUnreachable` | scripts/validator_perf.py:1179-1242 | in every returned window the forced flag holds if and only if the end slot is not reached, and the unreachable error is never raised |
| `Windows.ResolvesIff` | scripts/validator_perf.py:1179-1242 | a window is returned if and only if the range is ordered, non-negative, reached, and safe or forced |
| `Windows.WindowIsAsked` | scripts/validator_perf.py:1179-1242 | an explicit start or end is the window's; without an end it is the second epoch before the head, held back to the finalized one unless unfinalized epochs are allowed; without a start the requested number of epochs, 32 by default; and the slots and flags that go with it |
| `Windows.OpenWindowResolvesIff` | scripts/validator_perf.py:1179-1242 | without an explicit range n epochs resolve if and only if n of them end at the last epoch that counts |
| `Windows.RefusedBecause` | scripts/validator_perf.py:1179-1242 | which error is raised: reversed, negative, not reached, or unsafe, in that order, and unsafe only for an explicit end |
| `Windows.DefaultWindowIsLatestSettled` | scripts/validator_perf.py:1179-1242 | without an explicit range the window has the requested length, ends in a settled epoch, and no later epoch is settled |
| `Windows.SlotsPerEpochRecovered` | scripts/validator_perf.py:1776-1782 | the slots per epoch are recovered exactly from any returned window |
| `Sync.QueryEpochInWindowAndPeriod` | scripts/validator_perf.py:2010-2025 | each period's query epoch lies in the window and in that period |
| `Sync.PeriodsCoverScan` | scripts/validator_perf.py:2068-2075 | every scanned slot falls into a queried period |
| `Sync.CollectSync` | scripts/validator_perf.py:2078-2195 | for any two completion orders the result is the order-free expectation; it fails if and only if a scan was due and some slot failed |
| `Sync.ExpectedMeans` | scripts/validator_perf.py:2040-2195 | for a validator of ours in a committee of the window and no failed period: eligible counts the scanned slots of its periods that answered with rows, signed those whose last row for it pays, reward sums those last rows; otherwise everything is zero |
| `Sync.CollectSlots` | scripts/validator_perf.py:2157-2185 | the accumulator dictionary holds, per member, the sum of the slots' contributions |
| `Sync.OrderDoesNotMatter` | scripts/validator_perf.py:2157-2185 | any two orders of the same slots give the same counts |
| `Sync.OutcomeBounded` | scripts/validator_perf.py:2157-2195 | signed <= eligible <= the window slots of periods with the validator as a member |
| `Quantile.ClampCumulative` | scripts/devnet_report.py:930-942 | each count becomes the prefix maximum |
| `Quantile.PrefixMaxIsMaximum` | scripts/devnet_report.py:930-942 | that maximum bounds every finite count so far and is one of them, a non-finite first count standing for zero |
| `Quantile.ClampIdempotent` | scripts/devnet_report.py:930-942 | clamping twice is clamping once |
| `Quantile.QuantileParts` | scripts/devnet_report.py:1058-1092 | a result exists exactly for a +Inf bucket with observations and a finite q, and is the one at rank q times observations |
| `Quantile.QuantileWithinBucket` | scripts/devnet_report.py:1058-1092 | for 0 <= q <= 1 and observations, the quantile lies in the bucket it reports |
| `Quantile.QuantileMonotone` | scripts/devnet_report.py:1058-1092 | a larger q never gives a smaller quantile, and saturation persists |
| `Quantile.QuantileInvertsCounts` | scripts/devnet_report.py:1058-1092 | reading the histogram's cumulative count at the returned value gives the rank asked for |
| `Quantile.SaturatedIff` | scripts/devnet_report.py:1058-1092 | a quantile saturates if and only if no finite bucket reaches its rank, and is then the last finite bound |
| `Quantile.QuantileOfClamped` | scripts/devnet_report.py:956-1092 | clamping already clamped deltas again changes no quantile |
| `Quantile.Percentiles` | scripts/devnet_report.py:1184-1189 | the three are the parts at 0.50, 0.95 and 0.99 of the observations; p50 <= p95 <= p99, each in its bucket, saturation increasing |
| `Labels.UnescapeOfEscape` | scripts/devnet_report.py:128-129 | what printing and unescaping does to any value, character by character |
| `Labels.EscapeRoundTripsIff` | scripts/validator_perf.py:3132-3139 | a value survives if and only if it has no carriage return and no backslash directly before an n |
| `Labels.EscapedBackslashThenNIsNotInverted` | scripts/devnet_report.py:128-129 | the two-character value backslash n comes back as a line feed |
| `Labels.EscapedHasNoLineBreak` | scripts/validator_perf.py:3132-3139 | an escaped value contains no line feed and no carriage return |
| `LabelParser.ParseLabels` | scripts/devnet_report.py:146-196 | the index loop ends on every text and returns what the grammar gives, including every error |
| `LabelParser.ParsePrinted` | scripts/validator_perf.py:3148-3159 | a printed set parses to the unescaped values, or to the size error if and only if some encoding exceeds 4096 bytes |
| `LabelParser.NameCharacters` | scripts/devnet_report.py:138-144 | names start with an ASCII letter or an underscore and go on with those and digits |
| `LabelParser.Utf8LengthIs` | scripts/devnet_report.py:185-187 | the length the cap is compared with is the number of octets of the UTF-8 encoding |
| `LabelParser.OctetsDecode` | scripts/devnet_report.py:185-187 | that encoding, after section 3 of RFC 3629, gives every code point back |
| `LabelParser.ParseSpaced` | scripts/devnet_report.py:146-196 | blanks around labels and a comma after the last one change nothing: the text reads as the same pairs printed plainly |
| `LabelParser.PrintThenParseIff` | scripts/devnet_report.py:146-196 | printing and parsing gives back the same set if and only if every value is clean and fits the cap |

## Left out

- The slashing database's SQL engine, schema migrations, file permissions, pubkey normalisation and audit log; a transaction is atomic and isolated.
- The staged-guard API that predates reserve-then-sign: superseded in the source and kept there for comparison only.
- The rows a rejection reports: the queries stop at the first match in an order SQL does not fix, so only the kind of a rejection is modelled.
- Prune statistics, row order inside an exported file, and interchange metadata parsing.
- SlashingColumns.NoRunSignsASlashablePair: it assumes that a signing root identifies its message, and that an in-process signer that returned an error or timed out released no signature, since the source then deletes the row.
- RewardsFetch.BisectingPreservesMeaningIff: malformed total rows are not modelled; the merge passes them on unchanged.
- RewardsFetch.FetchEpochRewards: the bisection is specified per node of its call tree, so concurrent epochs sharing one budget are not interleaved; additions to the budget are atomic.
- Failover.CallRequestBound: requests made by the rewards re-probe after a promotion are not counted; they never promote.
- Failover.Client.SelectEndpoint: exceptions other than status and transport errors while probing are not modelled.
- Sync.CollectSync: the order of degradation entries is not modelled; the period length is taken to be at least 1, which the source does not check.
- Quantile.QuantileParts: buckets are taken as the dictionary sorts them, with strictly increasing bounds; a hand-made list with repeated +Inf bounds is not modelled.
- LabelParser.ParseLabels: splitting the text into lines and the sample-line pattern are not modelled; strings hold no lone surrogates.
- Ssz: 32-bit `usize` platforms; the decoding of a block body beyond its fixed fields.
- Health.ThirtyFourSuccessesHeal: reals stand for floats, so rounding at a threshold is not modelled.
- Reprobe.SkipsAreConserved: progress of the weak compare-exchange loop under endless spurious failure; only safety is decided by the code.
- BLS, keystores, key derivation, domains and tree hashing; HTTP, TLS, JSON, metrics and logging: foreign code, abstracted as parameters.
- The duty orchestrator, the broadcast of signed messages, request validation, and the preflight, scorecard and soak scripts are not modelled.
