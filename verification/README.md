# BigLens: a verified model of its stateful and arithmetic core

BigLens is a Go server over BigQuery and SQLite. This project models the parts
of its backend whose correctness rests on state shared by several processes or
on exact arithmetic, and proves the properties their comments promise. The
modules follow the program's components:

- **Freeze history** (`FreezeStore`, `BackfillPlan`, `FreezeCoverage`,
  `FreezeActors`, `BackfillConfirm`, `Calendar`). The hourly syncer and any
  number of backfills read the watermarks, plan from what may be a stale
  reading, fetch, and commit rows and watermarks in one transaction. The store
  must never claim a day whose events are missing. The transition system has
  atomic commits and arbitrary interleaving. The promise holds when cold starts
  that race see the same UTC day; `ColdStartsOnDifferentDaysLoseADay` shows
  that this is needed, and `ColdWindowExact` says exactly which window is safe.
- **Budget ledger** (`BudgetLedger`, `BudgetRuns`). Reserve, attach, settle and
  recover are atomic steps of any number of processes over a reservation table
  and a monthly ledger. A reservation does not count rows that expired without a
  job, so the budget can be passed; `GrantedFitsExact` and `BudgetHeldExact` say
  exactly when it is, and `RecoverFirstBound` that a recovery run to its end
  before each reservation prevents it.
- **Profile jobs** (`TokenBucket`, `ProfileJobs`). The hourly bucket, the
  per-address cache and the single flight in front of billed jobs.
- **Addresses** (`Numerals`, `Base58`, `Bech32Register`, `BitRegroup`,
  `Bech32`, `Ascii`, `ChainAddress`). Base58 and Base58Check, SegWit Bech32
  (BIP-173) and Bech32m (BIP-350), the two TRON notations, and the four address
  families. Decoding is proved against an independent reference encoder.
- **Slot commitments** (`SlotSweep`, `SlotCalculator`). Quarter-hour billing and
  the search for the cheapest commitment, proved to find a global optimum.
- **Bitcoin accounting** (`Issuance`, `BlockRollup`, `RollupRuns`, `CoinAge`,
  `CoinAgeBatch`). Issuance by halving eras, block batches that must join
  without a hole, and coin-age batches that must account for every satoshi.
- **Small exact functions** (`FormatUnits`, `ConceptIds`).

Where the program changes fields, tables or buffers step by step, the model has
a class or a method with the same loops, proved equal to a function; the
functions carry the lemmas. Where a comment promises more than the code gives,
the model follows the code:

- `chain_address.go:357` slices `data[1:len(data)-6]`, which panics on the one
  test-network address `tb1dclvmr` (`Bech32.CrashExact`). The only caller sends
  it `bc1` strings, so parsing never panics (`ChainAddress.ParseNeverPanics`).
- `detectFamily` calls a Solana address that happens to begin with `bc1` Bitcoin
  (`ChainAddress.DetectExact`).
- The coverage promise of `insertStablecoinEvents` fails when two processes
  cold-start on different days; there is a concrete run and the condition under
  which it holds.
- The block rollup keeps its promises when one server uses the database, because
  `btcBQRunner` runs a job at most once at a time (`RollupRuns.OneServerKeepsPromises`).
  The flag is per process: two servers on one database can leave a hole or
  rewrite a stored block. Both concrete runs need two server processes, since no
  command-line mode runs this job; `NoHoles` and `MetadataNeverChanges` give the
  exact conditions.

Verify with `dafny verify dfyconfig.toml`. Days are day numbers, instants are
seconds (hours in the token bucket), months are consecutive integers, and money,
slots and prices are exact reals.

## Model

| member | source | states |
|---|---|---|
| FreezeCoverage.NoRunClaimsAMissingDay | backend/address_risk_store.go:362-419 | in every interleaving of any number of syncers (read the watermarks, then probe the export) and backfills (probe, then read), planning from stale readings and committing batch by batch, if racing cold starts see the same UTC day, `[coverage_from, cursor]` never claims a day with a missing event, and neither does `[coverage_from, cursor]` of a late token |
| FreezeCoverage.WatermarksOnlyWiden | backend/address_risk_store.go:362-419 | in every run at all, cursor never decreases, no coverage start ever increases, and no stored row is lost or rewritten |
| FreezeCoverage.NextWindowAttaches | backend/address_risk_backfill.go:128-162 | however stale its reading, an actor's next window touches what the store already claims and ends where the export has reached, so committing it opens no gap |
| FreezeCoverage.CommitKeeps | backend/address_risk_store.go:379-419 | one commit by any actor keeps the whole invariant, for the committer's remaining plan and for every bystander's |
| FreezeCoverage.ColdStartsOnDifferentDaysLoseADay | backend/address_risk_stablecoin_sync.go:136-160 | without the assumption the promise fails: a concrete run in which cold starts of days 100 and 103 end with day 100 claimed and never fetched |
| FreezeStore.ColdWindowExact | backend/address_risk_store.go:400-409 | a window that moves both watermarks claims nothing but its own days exactly when it touches the claimed range |
| FreezeStore.InsertWindowKeepsCoverage | backend/address_risk_store.go:362-419 | one transaction keeps the coverage promise for every window that attaches and was fetched completely |
| FreezeStore.InsertWindowKeepsToken | backend/address_risk_store.go:421-453 | late-token coverage is gap-free, is first set only by a window that reaches the cursor, is extended only through touching windows, and never starts before the table's own coverage |
| FreezeStore.ExtendTokensAt | backend/address_risk_store.go:421-453 | each late token is decided on its own, from its own coverage start |
| FreezeStore.InsertOrIgnoreHolds | backend/address_risk_store.go:379-400 | ignoring rows whose (tx_hash, log_index) exists loses nothing when that key identifies an event: the whole batch is stored |
| FreezeStore.InsertWindowWidens | backend/address_risk_store.go:362-419 | a commit only widens the watermarks and never changes a stored row |
| FreezeStore.RiskStore.InsertStablecoinWindow | backend/address_risk_store.go:379-419 | rows, both watermarks and token coverage move together, to the state the transaction specification gives |
| FreezeStore.RiskStore.ExtendTokenCoverage | backend/address_risk_store.go:421-453 | the loop over late tokens, against the same specification |
| FreezeCoverage.SafeEndIsExported | backend/address_risk_stablecoin_sync.go:39-76 | a batch never ends after the first day the export has not finished, and ends today or yesterday |
| FreezeCoverage.SafeEndIsLatest | backend/address_risk_stablecoin_sync.go:56-76 | a batch ends at the latest day that is final, exported and not behind its start, and at none exactly when there is none |
| FreezeCoverage.SyncCatchesUp | backend/address_risk_stablecoin_sync.go:131-200 | once the export holds yesterday and it is past 00:30, a tick fetches every day up to yesterday, unless there are none or more than 31 |
| BackfillPlan.PlanBackfill | backend/address_risk_backfill.go:127-162 | the planner's two loops terminate and compute the plan the lemmas are about |
| BackfillPlan.Chunks | backend/address_risk_backfill.go:150-154 | the forward loop, in chunks of at most 31 days |
| BackfillPlan.AppendYears | backend/address_risk_backfill.go:156-160 | the backward loop, year by year |
| BackfillPlan.PlanTiles | backend/address_risk_backfill.go:127-162 | each day of `[since, end)` outside current coverage, and each day of the forward gap, is in exactly one batch, and no other day is in any |
| BackfillPlan.PlanShape | backend/address_risk_backfill.go:127-162 | batches are nonempty; forward chunks span at most 31 days and other batches lie in the calendar year they are labelled with |
| BackfillPlan.PlanResumes | backend/address_risk_backfill.go:304-328 | after any prefix of the batches, planning again gives exactly the batches not yet committed |
| FreezeActors.StablecoinSyncer.Sync | backend/address_risk_stablecoin_sync.go:131-200 | when a tick ends in each of its outcomes, exactly; a healthy one with a gap of at most 31 days fetches from the day after the cursor and leaves it at yesterday, and a healthy cold start claims exactly the configured days before today; what it bills, stores and waits for |
| FreezeActors.EstimateBackfill | backend/address_risk_backfill.go:214-250 | the end comes from the export, the batches from the stored watermarks, the total from free dry runs; a failed block check, an export that lags and a failed dry run are its three errors |
| FreezeActors.RunBackfill | backend/address_risk_backfill.go:252-334 | how a run ends, exactly: refused by its estimate or limit, nothing to do, unconfirmed, failed at the first batch whose fetch or store fails, or complete; the store gains exactly the batches before that, every fetch made is billed, and the bill is at most 1.1 times the estimate plus 64 MiB a batch |
| FreezeActors.BackfillResumes | backend/address_risk_backfill.go:304-328 | a stopped backfill resumes with exactly the batches it had not committed |
| FreezeActors.CompleteBackfillCoversTokens | backend/address_risk_store.go:421-453 | a backfill that runs to its end, on an empty store or forced, takes the coverage of every late token back to `since` |
| FreezeActors.ForcedPlanTiles | backend/address_risk_backfill.go:222-236 | forcing fetches every day of `[since, end)` once again, covered or not; without it only owed days are fetched |
| FreezeActors.BatchCapExact | backend/address_risk_backfill.go:308-308 | a batch may bill its dry run and a tenth, to the byte, and never less than 64 MiB |
| FreezeActors.ConfirmedBackfill | backend/address_risk_backfill.go:545-600 | an HTTP run from confirmation to end: it runs as RunBackfill says under the cap of the estimate that was shown, and bills at most 1.1 times that cap plus 64 MiB a batch; a refused confirmation bills and stores nothing |
| BackfillConfirm.EveryRunWasConfirmed | backend/address_risk_backfill.go:485-642 | over interleaved requests at most one HTTP-started run is active, each run used up its own token, and that token came from an estimate of the same mode at most 15 minutes old whose size caps the run |
| BackfillConfirm.EstimateConfirmsOnce | backend/address_risk_backfill.go:550-580 | a fresh estimate can be confirmed, and only once, even after its run has ended |
| BackfillConfirm.ConfirmExact | backend/address_risk_backfill.go:523-560 | which confirmation starts a run and which refusal each other gets |
| BackfillConfirm.EstimateStartsExactly | backend/address_risk_backfill.go:523-545 | an estimate is let in exactly when confirming it at once would start a run |
| BackfillConfirm.ConfirmedCapExact | backend/address_risk_backfill.go:563-563 | the cap is the estimate and a tenth, to the byte, and never zero |
| BackfillConfirm.BackfillService.ConfirmRun | backend/address_risk_backfill.go:523-580 | the confirm critical section; a refusal leaves the pending estimate in place, a start uses it up and takes its size plus a tenth as cap |
| BackfillConfirm.BackfillService.FinishEstimate | backend/address_risk_backfill.go:626-634 | recording an estimate re-checks, under the lock again, that no run started meanwhile |
| BackfillConfirm.BackfillService.RunFinished | backend/address_risk_backfill.go:582-586 | the end of a run frees the guard and nothing else |
| BudgetRuns.ExposureBound | backend/opendata_bitcoin_bq.go:246-330 | over every run and for each month, settled bytes plus all outstanding reservations made in the month are at most the budget, plus the most any one reserve of the month failed to count because it had expired unattached, plus what was billed beyond reservations |
| BudgetLedger.GrantedFitsExact | backend/opendata_bitcoin_bq.go:295-329 | exactly when a granted reservation leaves its month within the budget: what it skipped as expired and unattached fits into what it left over plus the rows of other months it counted |
| BudgetLedger.GrantedExactly | backend/opendata_bitcoin_bq.go:246-330 | a request is granted exactly when it is under its own cap, is no baseline while one is in flight or too recent, and fits what is left; a grant adds one row, a refusal nothing |
| BudgetLedger.AttachAppends | backend/opendata_bitcoin_bq.go:332-346 | a row keeps every job id attached to it, in order, and nothing else changes |
| BudgetRuns.BudgetHeldExact | backend/opendata_bitcoin_bq.go:246-330 | if bills stay within reservations, a run keeps a month within the budget all along exactly when every reservation granted in it fits |
| BudgetRuns.RecoveryLeavesNothingSkipped | backend/opendata_bitcoin_bq.go:404-456 | a recovery that any process began and ran to its end at one instant, its steps interleaved with those of other processes, leaves no expired row without a job |
| BudgetRuns.RecoverFirstBound | backend/opendata_bitcoin_bq.go:404-456 | when the steps of some recovery, from reading the expired rows to handling the last of them, precede every reserve at the same instant, the bound is exactly the budget, whatever other processes do in between |
| BudgetRuns.WithoutRecoveryOverBudget | backend/opendata_bitcoin_bq.go:302-312 | the recovery is needed: a concrete run that exposes a month to 120 against a budget of 100 |
| BudgetRuns.SettledExactlyOnce | backend/opendata_bitcoin_bq.go:348-397 | under concurrent settle and recover, each reservation is outstanding or charged, never both, a charge never changes, goes to the month of creation, and an id keeps naming one reservation |
| BudgetRuns.LedgerIsSumOfCharges | backend/opendata_bitcoin_bq.go:363-397 | the ledger of each month is exactly the sum of the settled reservations created in it |
| BudgetRuns.UnattachedPaysInFull | backend/opendata_bitcoin_bq.go:404-456 | an expired row without a job is charged its full reserved bytes |
| BudgetRuns.OneBaselineAtATime | backend/opendata_bitcoin_bq.go:268-278 | at most one baseline reservation is unexpired at any time |
| BudgetRuns.RecoverLeavesNothingSkipped | backend/opendata_bitcoin_bq.go:404-456 | a recovery in one go that reports no error leaves no expired row without a job |
| BudgetRuns.RecoveryCharges | backend/opendata_bitcoin_bq.go:404-456 | what a recovery does to the byte: up to the first settlement the database refuses it charges each expired unattached row what it reserved and each expired attached row what its finished job billed, to the month of creation, and leaves unexpired and undone rows alone; it reports success exactly when nothing owed is refused |
| BudgetRuns.RecoveryIsItsSteps | backend/opendata_bitcoin_bq.go:436-455 | a recovery in one go does what its interleavable steps do one by one, so the results about runs apply to it |
| BudgetRuns.BtcBudget.ReserveWithOpts | backend/opendata_bitcoin_bq.go:246-330 | one reserve transaction with its three refusals, to the specified tables |
| BudgetRuns.BtcBudget.AttachJob | backend/opendata_bitcoin_bq.go:332-346 | attaching appends the job id to the row, if it is still there |
| BudgetRuns.BtcBudget.SettleRow | backend/opendata_bitcoin_bq.go:348-397 | settling removes the row and charges its creation month; a missing row charges nothing |
| BudgetRuns.BtcBudget.RecoverStale | backend/opendata_bitcoin_bq.go:404-456 | the loop over stale rows settles each as specified, skipping jobs that are not done, up to the first settlement the database refuses |
| BudgetLedger.ReserveExposure | backend/opendata_bitcoin_bq.go:295-329 | a successful reserve leaves its month at most at the budget plus what it did not count, and other months untouched |
| BudgetLedger.SettleExposure | backend/opendata_bitcoin_bq.go:363-397 | settling for what was reserved moves bytes from outstanding to charged without changing their sum |
| BudgetLedger.FittingReservationGranted | backend/opendata_bitcoin_bq.go:254-329 | a request that fits beside everything charged and outstanding is granted, and a refusal changes nothing |
| BudgetLedger.UpsertTotal | backend/opendata_bitcoin_bq.go:388-394 | the ledger upsert adds the billed bytes to that month and to no other |
| BudgetLedger.UpsertKeepsUnique | backend/opendata_bitcoin_bq.go:95-100 | (month, job) stays a key of the ledger |
| Calendar.MonthOfExact | backend/opendata_bitcoin_bq.go:260-260 | two instants share a month number exactly when they share year and month of the calendar |
| TokenBucket.HourlyBucket.Allow | backend/address_risk_bqprofile.go:273-285 | one call keeps 0 <= tokens <= cap and refills, then takes at most one token |
| TokenBucket.AdmittedBound | backend/address_risk_bqprofile.go:260-285 | the calls of any interval of length d hours, in any order, let at most cap * (1 + d) through |
| TokenBucket.BurstAllowed | backend/address_risk_bqprofile.go:273-285 | a bucket with k tokens lets k calls through at once |
| TokenBucket.IdleHourFills | backend/address_risk_bqprofile.go:260-285 | an hour without calls fills the bucket |
| TokenBucket.RefillIsEven | backend/address_risk_bqprofile.go:273-280 | until it is full a bucket gains its cap an hour, evenly, and nothing from a clock that goes back |
| ProfileJobs.JobsPerInterval | backend/address_risk_bqprofile.go:354-400 | through cache and single flight, any interval of d hours starts at most cap * (1 + d) jobs and bills at most that many times the per-job limit |
| ProfileJobs.NoRepeatedJob | backend/address_risk_bqprofile.go:300-400 | two jobs of one address never overlap, and none starts while the answer of an earlier one is cached |
| ProfileJobs.LastingAnswersKept | backend/address_risk_bqprofile.go:335-350 | with at most 600 jobs an hour, none of which outlives its two-minute timeout, the cache always has room: an answer is kept exactly when it is lasting |
| ProfileJobs.NeverBilledTwice | backend/address_risk_bqprofile.go:300-400 | under those limits, after a job with a lasting answer no other of its address starts, so none is billed, for ten minutes |
| ProfileJobs.ServedExactly | backend/address_risk_bqprofile.go:352-366 | a lookup starts a flight exactly when there is no cached answer and no flight, and a flight starts a job exactly when there is still none and the bucket has a token |
| ProfileJobs.ProfileCache.Store | backend/address_risk_bqprofile.go:335-350 | a full cache drops what has expired and refuses the entry if it is still full |
| ProfileJobs.ProfileCache.Cached | backend/address_risk_bqprofile.go:325-333 | an entry is served up to and including its expiry |
| Base58.Base58Decode | backend/chain_address.go:157-181 | the decode loop computes one zero byte per leading '1' and then the shortest base-256 numeral, and rejects empty or foreign input |
| Base58.Base58Encode | backend/chain_address.go:183-203 | the encode loops, with the in-place reversal, compute one '1' per leading zero byte and then the shortest base-58 numeral |
| Base58.ReverseInPlace | backend/chain_address.go:199-201 | the swap loop reverses |
| Base58.AlphabetSpelled | backend/chain_address.go:144-155 | the index table is the inverse of the alphabet literal |
| Base58.DecodeEncode | backend/chain_address.go:157-203 | decoding what was encoded gives every nonempty byte string back, leading zeros included |
| Base58.EncodeDecode | backend/chain_address.go:157-203 | encoding what was decoded gives every valid string back, leading '1's included |
| Base58.CheckDecodeExact | backend/chain_address.go:205-230 | Base58Check accepts exactly the strings it encodes, each under one version and payload, for any checksum function |
| Base58.EncodedLengthBound | backend/chain_address.go:183-203 | a byte string takes between one character a byte and eleven for every eight |
| Bech32Register.Bech32Polymod | backend/chain_address.go:281-294 | the checksum loop folds the symbols into the register |
| Bech32Register.PolyStepXor | backend/chain_address.go:284-292 | the register is linear over GF(2) |
| Bech32Register.ChecksumExact | backend/chain_address.go:281-294 | after any symbols exactly one six-symbol suffix reaches a given constant |
| Bech32Register.BurstChangesPolymod | backend/chain_address.go:281-294 | every change confined to six adjacent symbols changes the checksum word |
| BitRegroup.RegroupSymbols | backend/chain_address.go:357-371 | the unmasked 32-bit accumulator emits exactly the octets of the bit string and rejects long or nonzero padding |
| BitRegroup.RegroupExact | backend/chain_address.go:357-371 | regrouping accepts exactly the symbols that zero-padding some octets produces, and returns those octets |
| Bech32.Bech32Decode | backend/chain_address.go:296-379 | the whole decoder, branch by branch, including the slice that panics |
| Bech32.CheckData | backend/chain_address.go:335-378 | its checksum, version, padding and length checks |
| Bech32.DecodeExact | backend/chain_address.go:296-379 | the decoder accepts exactly the addresses BIP-173 and BIP-350 define for a valid witness program, in either case but not both |
| Bech32.DecodeInjective | backend/chain_address.go:296-379 | two accepted strings with the same prefix, version and program differ at most in letter case |
| Bech32.BurstRejected | backend/chain_address.go:344-355 | a change confined to six adjacent data symbols is rejected, unless it moves the version symbol to or from zero |
| Bech32.CrashExact | backend/chain_address.go:357-357 | the slice at this line is out of range for exactly one address, tb1dclvmr, and for no "bc" address |
| Bech32.CharsetSpelled | backend/chain_address.go:264-279 | the symbol table spells the character set literal |
| ChainAddress.FamiliesDisjoint | backend/chain_address.go:28-100 | no string is an address of two families |
| ChainAddress.CanonicalIsFixed | backend/chain_address.go:24-100 | parsing a canonical address returns it unchanged and without a warning |
| ChainAddress.EvmExact | backend/chain_address.go:28-43 | an EVM address is 0x and forty hexadecimal digits; the canonical form is lower case |
| ChainAddress.EvmWarnsExact | backend/chain_address.go:35-43 | the warning means both letter cases and the wrong casing |
| ChainAddress.ChecksumCasingUnique | backend/address_risk_address.go:23-42 | each address has one casing that passes the EIP-55 checksum |
| ChainAddress.TronExact | backend/chain_address.go:45-53 | TRON accepts exactly the Base58Check encodings of 20 bytes under version 0x41: its length and letter tests refuse none of them |
| ChainAddress.BtcExact | backend/chain_address.go:55-87 | Bitcoin accepts exactly the SegWit addresses of 20 or 32 bytes under version 0 and 32 under version 1, and the encodings of 20 bytes under versions 0 and 5 |
| ChainAddress.SolExact | backend/chain_address.go:89-97 | Solana accepts exactly the Base58 encodings of 32 bytes |
| ChainAddress.ChainExact | backend/chain_address.go:28-100 | each chain name accepts exactly its family's spellings, the four Ethereum chains the same ones, and only a name outside the registry is refused as unknown |
| ChainAddress.ParseNeverPanics | backend/chain_address.go:59-63 | the Bitcoin branch never reaches the decoder's panic |
| ChainAddress.NormalizeListAddress | backend/address_risk_lists.go:28-35 | the first-match loop over four chains |
| ChainAddress.OrderDoesNotMatter | backend/address_risk_lists.go:25-35 | trying the same chains in another order gives the same answer |
| ChainAddress.TronShape | backend/chain_address.go:222-248 | every 0x41-versioned 25-byte body encodes to 34 characters starting with T |
| ChainAddress.HexRoundTrip | backend/chain_address.go:232-262 | hexadecimal to Base58 and back gives the bare digits in lower case, whatever prefix they came with |
| ChainAddress.PrefixesAgree | backend/chain_address.go:234-241 | forty digits read the same bare, behind 0x, 0X or both in that order, and with the version byte 41 in between; 0X before 0x is refused for its length |
| ChainAddress.TronRoundTrip | backend/chain_address.go:232-262 | Base58 to hexadecimal and back gives the address |
| ChainAddress.DetectExact | backend/chain_address.go:102-142 | the shape hint names the family of every acceptable address except a Solana one that begins with bc1, which it calls Bitcoin |
| ChainAddress.SolanaTakenForBitcoin | backend/chain_address.go:112-114 | such a Solana address |
| SlotCalculator.TimeToBucketIsNearest | backend/calculator.go:344-352 | a clock time is at most seven minutes from its quarter-hour bucket, around midnight |
| SlotCalculator.TimeIsValid | backend/calculator.go:344-352 | the times with a bucket are 00:00 to 23:59 and 24:00 |
| SlotCalculator.WindowMask | backend/calculator.go:354-364 | the wrap-around loop ends and marks exactly the buckets from start up to end, none when they are equal |
| SlotCalculator.WindowAndReverse | backend/calculator.go:354-364 | a window and its reverse split the day between them |
| SlotCalculator.BuildProfile | backend/calculator.go:465-487 | demand at each bucket is the baseline plus every open window |
| SlotCalculator.DemandConserves | backend/calculator.go:465-487 | over the day every window asks for its slots exactly as long as it lasts, on top of the baseline |
| SlotCalculator.PlanRules | backend/calculator.go:373-400 | Standard takes neither baseline nor commitment and is cut at 1600 slots; the others take both in increments of 50, uncut |
| SlotCalculator.DiscountedExact | backend/calculator.go:103-105 | a discount takes exactly its share off, and at most everything |
| SlotCalculator.RoundUpIsLeast | backend/calculator.go:366-371 | rounding gives the least non-negative multiple of 50 that is enough |
| SlotCalculator.CostProfile | backend/calculator.go:489-532 | the bill field by field: committed and uncommitted-baseline costs of 24 hours at their rates, autoscaled cost of the slots billed above the floor, each hour the sum of its four buckets, the day of all 96, the month a fixed multiple, average, peak and utilization |
| SlotCalculator.DaySplits | backend/calculator.go:508-515 | over any buckets, what each kind of slot costs, said of the slots billed |
| SlotCalculator.PaygIdentity | backend/calculator.go:499-518 | with no cap, on-demand slots of a bucket are max(0, max(baseline, demand rounded up) - committed) |
| SlotCalculator.BilledIsMax | backend/calculator.go:500-506 | a bucket bills the largest of baseline, commitment and rounded demand, cut at the edition's cap |
| SlotCalculator.BilledSplits | backend/calculator.go:500-518 | billed slots are committed plus on-demand ones, exactly unless the cap lies below the floor |
| SlotCalculator.PaygCharge | backend/calculator.go:508-518 | the on-demand charge is the on-demand slot-hours at the rate, and the total is committed plus on-demand |
| SlotCalculator.UtilizationAtMostOne | backend/calculator.go:517-530 | no more committed hours are used than were bought |
| SlotCalculator.UsedAndIdle | backend/calculator.go:517-530 | committed hours used and idle add up to those bought |
| SlotCalculator.MonthlyTotal | backend/calculator.go:492-532 | the month's total is a fixed multiple of commit * buckets * c + payg * sum of max(0, level - c) |
| SlotSweep.CornerIsEnough | backend/calculator.go:432-434 | for every commitment some demand level (or zero) costs no more, and one that costs the same is no larger |
| SlotCalculator.SweepCandidates | backend/calculator.go:432-463 | the candidates are exactly the uniform steps, the ends, the floors and the demand levels rounded up, sorted, in [0, top] |
| SlotCalculator.SweepIsShort | backend/calculator.go:432-449 | the uniform steps number at most 400 above zero |
| SlotCalculator.Sweep | backend/calculator.go:417-428 | the sweep keeps the first of the cheapest candidates |
| SlotCalculator.SlotsEstimate | backend/calculator.go:373-430 | the bill is the request's bill, and BestCommit is a global optimum: no non-negative multiple of 50 is cheaper, and none as cheap is smaller; editions without commitments get none |
| Issuance.ScheduledIssuance | backend/opendata_bitcoin.go:583-595 | the loop over halving eras equals the block-by-block sum for every range |
| Issuance.FitsInt64 | backend/opendata_bitcoin.go:589-593 | no intermediate value of the loop overflows 64 bits as long as an era fits above maxH: the product and the heights are small, and the running sum stays below the supply cap |
| Issuance.IssuedAdditive | backend/opendata_bitcoin.go:583-595 | issuance over adjacent ranges adds up |
| Issuance.SupplyMonotone | backend/opendata_bitcoin.go:597-600 | supply never decreases with height |
| Issuance.SupplyCap | backend/opendata_bitcoin.go:572-600 | supply is at most 2,099,999,997,690,000 satoshis, and exactly the heights from 6,929,999 on reach it |
| Issuance.NothingAfter33Eras | backend/opendata_bitcoin.go:576-580 | blocks from 6,930,000 on issue nothing, so the cut-off at 64 halvings changes no value |
| Issuance.HalvingIsNext | backend/opendata_bitcoin.go:602-629 | the subsidy stands until the announced height and is halved there |
| RollupRuns.NoHoles | backend/opendata_bitcoin_bq_rollup.go:359-429 | for every run of any number of servers on one database: in no state is a height between the fixed coverage start and the last accepted in-window maximum missing, exactly when each commit joined what was stored when it was made |
| RollupRuns.CommitHoleFreeExact | backend/opendata_bitcoin_bq_rollup_store.go:49-97 | from a store without holes a commit, however stale its validation, leaves none exactly when stored heights and its own rows cover everything from the first unclaimed height to the batch's maximum |
| RollupRuns.AgreeingStartJoins | backend/opendata_bitcoin_bq_rollup.go:415-425 | only a batch validated before there was a coverage start can fail to join, and only if another start was stored since |
| RollupRuns.StoreOnlyGrows | backend/opendata_bitcoin_bq_rollup_store.go:52-97 | once set the coverage start is fixed, and no stored height is lost, whatever interleaves |
| RollupRuns.MetadataNeverChanges | backend/opendata_bitcoin_bq_rollup.go:380-394 | for every run: no stored height's day, bits or subsidy ever changes exactly when each commit agreed with the store it was made on |
| RollupRuns.UpsertMetadataExact | backend/opendata_bitcoin_bq_rollup_store.go:76-97 | the upsert leaves stored day, bits and subsidy alone exactly when its rows agree with the store |
| RollupRuns.OneServerKeepsPromises | backend/opendata_bitcoin_bq_runner.go:497-514 | with one server on the database the running flag suffices: whatever scheduled and manual runs start, are turned away, fail or crash, there is never a hole and stored metadata never changes |
| RollupRuns.FlagIsExact | backend/opendata_bitcoin_bq_runner.go:497-514 | a server's flag is set exactly while it has a sync under way, of which it never has two |
| RollupRuns.RacingColdStartsLeaveAHole | backend/opendata_bitcoin_bq_rollup_store.go:62-74 | a concrete run of two servers that both started on an empty store and leave a claimed hole |
| RollupRuns.RacingServersChangeMetadata | backend/opendata_bitcoin_bq_rollup_store.go:76-97 | a concrete run of two servers whose cold starts agree and in which the second rewrites the bits the first stored |
| BlockRollup.HeightBounds | backend/opendata_bitcoin_bq_rollup.go:339-357 | the loaded range spans the batch's heights, stretched down to the coverage start |
| BlockRollup.ValidateBlocks | backend/opendata_bitcoin_bq_rollup.go:359-429 | a batch is accepted exactly when its heights are distinct, agree with the store and join it without a hole; a refusal names the first offending row or the lowest missing height |
| BlockRollup.FirstHole | backend/opendata_bitcoin_bq_rollup.go:419-425 | the contiguity loop finds the first missing height |
| BlockRollup.LoadedIsEnough | backend/opendata_bitcoin_bq_rollup.go:276-294 | the loaded range decides acceptance as the whole store would |
| BlockRollup.BlockStore.ApplyBatch | backend/opendata_bitcoin_bq_rollup_store.go:49-143 | one transaction: the coverage start is written once, block rows and day rows are upserted, the first synced day is kept once set and the cursor is replaced |
| BlockRollup.UpsertDaysExact | backend/opendata_bitcoin_bq_rollup_store.go:99-120 | after a window's batch each of its days has its own row, and every other day the row it had |
| BlockRollup.BuildDays | backend/opendata_bitcoin_bq_rollup.go:470-614 | each day's guards are tried in order and the first failure refuses the batch |
| BlockRollup.DaysFromExact | backend/opendata_bitcoin_bq_rollup.go:470-614 | the days are built exactly when every day of the window meets its guards, each with the last transactions row of its own day |
| BlockRollup.RowsOfDayExact | backend/opendata_bitcoin_bq_rollup.go:470-500 | a day's blocks are the batch's blocks of that day, no other |
| BlockRollup.ValidBitsExact | backend/opendata_bitcoin.go:632-642 | bits are accepted exactly when they are eight hexadecimal digits whose 24-bit mantissa is not zero |
| BlockRollup.EffectiveExact | backend/opendata_bitcoin_bq_rollup.go:305-312 | thresholds of zero or less become 100,000, others stand |
| BlockRollup.DaysConserve | backend/opendata_bitcoin_bq_rollup.go:470-614 | one row a day; together they hold every in-window block and all its scheduled satoshis, and coinbases equal blocks |
| BlockRollup.Run | backend/opendata_bitcoin_bq_rollup.go:265-329 | how a run ends, exactly: a query that fails, rows the store cannot take, a cap used up by the first query, a day that misses its guards, or the fetched rows with one row a day; the two queries bill at most the cap together if each respects its own |
| CoinAge.AgeBandExact | backend/opendata_bitcoin_bq_coinage.go:49-79 | the twelve bands cover every age once |
| CoinAge.SumByRemove | backend/opendata_bitcoin_bq_coinage.go:428-452 | sums over the spent map do not depend on the order it is visited in |
| CoinAge.CoinageMetrics | backend/opendata_bitcoin_bq_coinage.go:415-543 | the two loops over the map, in any order, compute the day's sums, shares and ratios |
| CoinAge.OneCoin | backend/opendata_bitcoin_bq_coinage.go:415-543 | for one coin, every metric: coin-days are satoshis times days held, the revived thresholds, its one band, and each ratio the price now over the price then, ADJUSTED from a day, SHORT_TERM below 155 days; a coin dated after its spend counts as new |
| CoinAge.CoinsAdd | backend/opendata_bitcoin_bq_coinage.go:428-452 | coins of another creation day add to every sum what they would amount to alone |
| CoinAge.AgeRanges | backend/opendata_bitcoin_bq_coinage.go:492-525 | which coins each ratio counts |
| CoinAge.ProfitAtOnePrice | backend/opendata_bitcoin_bq_coinage.go:509-529 | coins all created at price p have the ratio of the day's price to p |
| CoinAge.ProfitSide | backend/opendata_bitcoin_bq_coinage.go:486-541 | a ratio exists exactly when a coin of its ages has a price; it is above one when all of them gained, below one when all lost |
| CoinAge.BandsConserve | backend/opendata_bitcoin_bq_coinage.go:451-461 | every spent satoshi is in exactly one band |
| CoinAge.SharesAddUp | backend/opendata_bitcoin_bq_coinage.go:454-461 | on a day with spends the band shares add up to 100 |
| CoinAge.RevivedNest | backend/opendata_bitcoin_bq_coinage.go:441-450 | revived supply nests: 5y within 2y within 1y within the total |
| CoinAge.ProfitBetweenTerms | backend/opendata_bitcoin_bq_coinage.go:486-541 | SOPR lies between its short-term and long-term values when both exist, and is the one that exists otherwise |
| CoinAgeBatch.BuildPayload | backend/opendata_bitcoin_bq_coinage.go:254-413 | the first failing guard refuses the batch; otherwise each day is built from its own rows |
| CoinAgeBatch.BuildDay | backend/opendata_bitcoin_bq_coinage.go:309-406 | one day: guards, sorted matrix, metrics and the largest whales |
| CoinAgeBatch.DayErrorExact | backend/opendata_bitcoin_bq_coinage.go:309-367 | which days are accepted, and which guard refuses each other |
| CoinAgeBatch.FirstErrorExact | backend/opendata_bitcoin_bq_coinage.go:309-367 | a batch is refused exactly when some day is, for the first such day |
| CoinAgeBatch.TotalsForExact | backend/opendata_bitcoin_bq_coinage.go:265-269 | a day's totals are its last totals row |
| CoinAgeBatch.CellsForExact | backend/opendata_bitcoin_bq_coinage.go:270-271 | a day's cells are its matrix rows and nothing else |
| CoinAgeBatch.MatchedExact | backend/opendata_bitcoin_bq_coinage.go:323-351 | the matrix rows of an accepted day are its cells with a creation day |
| CoinAgeBatch.WhalesForExact | backend/opendata_bitcoin_bq_coinage.go:272-299 | a day's whales are its named, dated whale rows that are large enough and at least a year old |
| CoinAgeBatch.SpendExact | backend/opendata_bitcoin_bq_coinage.go:380-384 | the metrics see, for each creation day of the matrix and no other, what its satoshis add up to |
| CoinAgeBatch.DayConserves | backend/opendata_bitcoin_bq_coinage.go:319-367 | an accepted day's matrix plus its unmatched inputs equals the totals row in inputs and satoshis, at most one input in ten thousand is unmatched, and the metrics' total is the matrix's |
| CoinAgeBatch.TopWhalesAreLargest | backend/opendata_bitcoin_bq_coinage.go:386-405 | the whales shown are sorted and none left out is larger than one shown |
| CoinAgeBatch.Sort | backend/opendata_bitcoin_bq_coinage.go:369-401 | sorting permutes |
| FormatUnits.FormatExact | backend/address_risk_association.go:81-93 | reading the rendering back and scaling gives the magnitude exactly |
| FormatUnits.FormatInjective | backend/address_risk_association.go:81-93 | different non-negative amounts never render alike, and only zero renders as "0" |
| FormatUnits.NoNeedlessZeros | backend/address_risk_association.go:81-93 | the fraction has no trailing zero and the whole part no leading one |
| ConceptIds.UniqueId | backend/catalog_dataplex.go:369-377 | the search ends and gives the smallest free suffix |
| ConceptIds.SafeConceptId | backend/catalog_dataplex.go:351-367 | reserved and taken ids are adjusted, and each adjustment is counted |
| ConceptIds.ReservedExact | backend/catalog_dataplex.go:358-361 | exactly the paths whose last element is index or log name reserved files |
| ConceptIds.SafeIdIsSafe | backend/catalog_dataplex.go:351-367 | the id is unused and not reserved, and changed only if it had to be |
| ConceptIds.AssignIds | backend/catalog_dataplex.go:172-179 | the import loop; the collision count is the number of adjustments, one for a reserved name and one for a taken one, and zero exactly when every id is kept |
| ConceptIds.AssignedAreSafe | backend/catalog_dataplex.go:172-179 | ids of any entry list are pairwise distinct and none is reserved |
| ConceptIds.LongestPrefixIn | backend/catalog_dataplex.go:753-764 | the containment parent is the longest proper path prefix in the set |
| ConceptIds.ParentsFormAForest | backend/catalog_dataplex.go:181-188 | parent links never return to an id |
| ConceptIds.ParentIsUnique | backend/catalog_dataplex.go:181-188 | an id has one containment parent |

## Left out

- FreezeCoverage.NoRunClaimsAMissingDay: assumes that a fetch answers completely for exported days, that (tx_hash, log_index) identifies an event, and that processes share one clock; these are assumptions about BigQuery, the chain and the hosts, not about this code.
- FreezeActors.StablecoinSyncer.Sync: runs alone from reading to commit, because a method body is sequential; interleaving with other actors is modelled in `FreezeCoverage`.
- FreezeActors.RunBackfill: the same, and it does not model the progress metadata or the status report.
- FreezeStore.RiskStore.InsertStablecoinWindow: does not model the last_ok_at, last_error and row_count columns, which no decision of the modelled code reads.
- BudgetRuns.BtcBudget.RecoverStale: a failed job lookup is modelled as a job that is not done, as the code treats both alike.
- BudgetRuns.ExposureBound: expiry and creation are compared at the resolution of the stored timestamps, seconds.
- ProfileJobs.NeverBilledTwice: takes the two-minute job timeout as given, as a property of the query call.
- ProfileJobs.JobsPerInterval: requires a clock that never runs backwards across the profiler; a single bucket call tolerates one that does.
- ChainAddress.EvmWarnsExact: Keccak-256 is a parameter of which only the length of the result is used.
- Base58.CheckDecodeExact: the double SHA-256 is a parameter of which only its four-byte length is used.
- ChainAddress.OrderDoesNotMatter: strings are sequences of Unicode characters, so input that is not valid UTF-8 is not modelled.
- SlotCalculator.SlotsEstimate: exact reals instead of float64, times as hour and minute numbers instead of text, and no warning texts.
- CoinAge.CoinageMetrics: exact reals instead of float64, and creation days as day numbers; the age of zero the code gives a creation day it cannot parse is not modelled, because the batch refuses such days before.
- CoinAgeBatch.DayConserves: the equality of the metrics' total with the matrix needs amounts that are not negative, as the metrics loop skips negative ones.
- BlockRollup.BuildDays: difficulty, hashrate, fee percentiles and shares of a day are copied or computed in floating point and are not modelled.
- BlockRollup.BlockStore.ApplyBatch: does not model the last_ok_at, last_error and row_count columns and the timestamp of a day row.
- RollupRuns.OneServerKeepsPromises: the stop flag, the cooldown and the budget, which also turn runs away, are part of the freedom to start no run; which window a run asks for is arbitrary.
- RollupRuns.MetadataNeverChanges: the warning about timestamp inversions is not modelled; it changes nothing.
- ConceptIds.AssignIds: how an entry's base path is made from its name is not part of this model; the ids are given.
- SQL text, SQLite and BigQuery drivers, HTTP handlers, JSON, logging, configuration and files: input and output around the modelled decisions.
- The budget's status report, stop flags and failure policies: they read or gate the modelled state but add no invariant of their own.
- The storage calculator: single-expression formulas.
- The Ed25519 curve test and program-derived addresses of Solana, the UTXO holder engine, catalog slugs and lineage matching: not part of this model.
