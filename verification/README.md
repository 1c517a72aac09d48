# A verified model of Longtail's rewards, prices, ingestion and snapshots

This project models five parts of the Longtail repository and proves what they keep over every input,
every run and every interleaving. `dafny verify dfyconfig.toml` checks all of it.

| component | source | modules |
|---|---|---|
| Leo, the liquidity-rewards contract | `pkg/leo/src/lib.rs`, `pkg/leo/src/maths.rs` | `LeoState`, `LeoContract`, `LeoVersions`, `LeoRuns`, `LeoLedger`, `LeoRewards`, `LeoCalls`, `LeoLiquidity` (with `Words`, `Sums`) |
| Concentrated-liquidity arithmetic | `lib/math/concentrated-liq.go` | `FixedPoint`, `TickMath`, `TickAccuracy`, `TickValues`, `TickOrder`, `LiquidityAmounts` (with `Powers`, `Outcomes`) |
| Checkpointed log ingestion | `cmd/ingestor.logs.ethereum` | `Ingestor`, `IngestorRuns` |
| Snapshot fan-out | `cmd/snapshot.ethereum` | `Batching`, `FanOut`, `PositionKeys`, `Snapshot`, `SnapshotRuns` |
| Packed event words | `pkg/leo/src/events.rs`, `lib/events/leo/leo.go` | `EventWords` |

## How to read it

**Leo.** `LeoContract.Leo` is the contract as an object with its storage fields; every entry point is a
method proved against the functions of `LeoState`, and `Run` ties a whole run of calls to
`LeoRuns.Exec`, about which the run theorems speak. A call that returns an error or panics leaves the
storage as it was, as on chain. Unsigned 256-bit `+`, `-` and `*` wrap around, as the `ruint`
operators the contract uses do. So conservation is stated modulo 2^256 for all runs, and then exactly,
with the condition under which no wrap occurs. The division `_mul_div` is modelled by its contract: floor
of `a * b / c`, failing on a zero divisor and on a quotient wider than 256 bits. Answers of Seawater
and of the NFT manager are parameters of the call. Block time is positive and never decreases, and nobody
signs for address zero, which the contract uses as its "no owner" mark.

**Initial owners.** `create_campaign` compares the stored owner of a campaign balance with the sender
before it writes it (`pkg/leo/src/lib.rs:194-195`), and nothing else ever writes an owner. The model
therefore lets the owners in the initial storage be arbitrary. `LeoRuns.UnownedCampaignsStayEmpty`
proves the consequence: a storage that starts all zero can never hold a campaign.

**Prices.** `big.Int` values are unbounded integers and `big.Rat` values are exact, so integers and reals
model them without loss. Panics of Go's division are modelled as `Panic`. The references are
equation 2.2 in section 2 and section 6.1 of the Uniswap v3 Core whitepaper.

**Ingestion.** The chain is an append-only sequence of final blocks. The node returns, in any order,
exactly the logs of the asked blocks that exist and match the topic filter. Page sizes may change from
poll to poll; any insert, the checkpoint write or the commit may fail, which rolls the transaction back and
ends the process, and the next poll is the restarted process. Block numbers stay below 2^64.

**Snapshot.** Every meeting on an unbuffered channel and every server answer is one step, and steps
interleave freely. The server answers a batch with one response per request in any order, or the worker
fails at any point. Addresses are ASCII text. Stored amounts are integers; the source prints them in
decimal.

**Event words.** Both languages are modelled on integers with their shifts, the bitwise or and every width
conversion written out, so a signed tick goes through the contract's cast to `u32` and the indexer's
conversions to `int64` and `int32`.

**Where code and comments disagree**, the model follows the code. `update_campaign` says a zero rate may
be given, but the code rejects it (`pkg/leo/src/lib.rs:270`). `collect_lp_rewards` says it moves
positions on to the latest version, but offsets are never written. `decodeId` tests for 40 characters but
slices 42, so keys of 40 and 41 characters panic (`cmd/snapshot.ethereum/rpc.go:215-218`). The
remainder test that should round the price up runs after the shift (`lib/math/concentrated-liq.go:149-153`).

## Properties that turned out false, and when they hold

- What is owed from a campaign is what `distributed` records, and stays below what was funded: false. The
  cap is tested after an addition that wraps, so a reward that wraps `distributed` passes it.
  `LeoLedger.WrappedRewardEscapesCap` gives five accepted transactions with funding of ten whose last
  collect owes 2^256 - 1 while `distributed` goes from 9 to 8. It holds exactly when no collect wraps:
  `LeoRewards.CollectIsExact` and `LeoRewards.CollectPaysExactly` for one call, in the details,
  the counter and the position read before it; `LeoRewards.LedgerExact` and `LeoRewards.OwedBelowFunding`
  for whole runs.
- The recorded `distributed` stays zero or below `maximum`: false once funding wraps around
  (`LeoLedger.WrappedFundingBreaksCap` gives four transactions). `LeoLedger.StepKeepsCap` says exactly which
  transactions keep it, and `LeoLedger.DistributedStaysBelowMaximum` that runs whose accepted funding fits a
  word do.
- Pool counters equal the vested liquidity pool by pool: false when an accepted divest names another pool
  (`LeoLiquidity.MisnamedPoolBreaksBooks` gives three transactions). `LeoLiquidity.DivestPoolBalanced`
  proves that naming the vested pool is exactly the condition for one divest, and
  `LeoLiquidity.PoolCountersBalanceExactly` for every moment of a run.
- Every poll advances the checkpoint: false when a page holds no log. `IngestorRuns.PollAdvances` has
  the exact condition, and `IngestorRuns.WideGapStalls` shows that a page without logs stalls all later polls.
  A known log that does not decode is never passed at all (`IngestorRuns.NeverPassesUndecodable`).
- Keys are injective across addresses of any two lengths: false. `PositionKeys.LengthsThatCollide` proves
  that positions with 64-bit ids can collide exactly when the lengths differ by one to sixteen, and builds a
  collision for each such pair of lengths.
- The price conversion succeeds on every tick: false. `TickOrder.PanicsExactly` proves that it panics exactly
  on the ticks above 1774545.

## Model

| member | source | states |
|---|---|---|
| `LeoContract.Leo.constructor` | pkg/leo/src/lib.rs:40-117 | A fresh contract has all-zero storage except for the arbitrary owners of its campaign balances. |
| `LeoContract.Leo.Setup` | pkg/leo/src/lib.rs:121-127 | The one-time setup enables the contract and records the council; a second call fails and changes nothing. |
| `LeoContract.Leo.VestPosition` | pkg/leo/src/lib.rs:132-159 | The whole storage after vesting, and each of its failures, as the reply function says; a failure changes nothing. |
| `LeoContract.Leo.CreateCampaign` | pkg/leo/src/lib.rs:164-243 | The whole storage after creating a campaign, and the order of its failures, including that the list grown before the owner test is undone. |
| `LeoContract.Leo.UpdateCampaign` | pkg/leo/src/lib.rs:252-320 | Closing the last version and appending a new one together supersede it; the extra maximum is added; failures change nothing. |
| `LeoContract.Leo.CancelCampaign` | pkg/leo/src/lib.rs:322-344 | Cancelling closes the last version and appends an empty one. |
| `LeoContract.ScanVersions` | pkg/leo/src/lib.rs:440-494 | The scanning loop terminates and finds what the recursive scan over the version list finds, for any list and any stored offset. |
| `LeoContract.Leo.CollectCampaign` | pkg/leo/src/lib.rs:420-534 | The storage and the reward after one campaign of a collect call, with the empty-maximum, division and cap failures. |
| `LeoContract.Leo.CollectLpRewards` | pkg/leo/src/lib.rs:397-537 | The loop over any list of campaigns, repeats included, pays them one after the other; if any fails, nothing has changed. |
| `LeoContract.Leo.DivestPosition` | pkg/leo/src/lib.rs:541-563 | Divesting collects, clears the owner and takes the liquidity off the named pool; a failure, also of the last transfer, changes nothing. |
| `LeoContract.Leo.Execute` | pkg/leo/src/lib.rs:119-563 | Every entry point meets the step relation the run theorems use. |
| `LeoContract.Leo.Run` | pkg/leo/src/lib.rs:119-563 | Any run of calls against the object ends in the storage of the abstract run. |
| `LeoCalls.AcceptedExactly` | pkg/leo/src/lib.rs:119-563 | On every run, for every call: exactly when it is accepted, in what can be read before it, and that a refusal names a true reason; a vest or divest whose NFT transfer fails is refused. |
| `LeoCalls.SetUpOnce` | pkg/leo/src/lib.rs:121-127 | On every run exactly the first setup is accepted, the contract is enabled from then on and not before, and the council is the one it named. |
| `LeoCalls.TokenOnRun` | pkg/leo/src/lib.rs:212-214 | On every run a campaign pays in the token its last accepted create named (the initial one if there is none); no other call changes it. |
| `LeoCalls.OwedInNamedToken` | pkg/leo/src/lib.rs:426-428 | On every run each reward is owed in the token that the last accepted create of its campaign named. |
| `LeoCalls.DetailsOnRun` | pkg/leo/src/lib.rs:350-371 | On every run the reported details are the last version, the named token, all rewards owed and all funding accepted, both modulo the word. |
| `LeoState.CollectFrame` | pkg/leo/src/lib.rs:397-537 | A collect call changes nothing but campaign balances and the claim time of its own position, which becomes now if any campaign was listed. |
| `LeoState.BaseRewardIsFloor` | pkg/leo/src/maths.rs:5-24 | The base reward q satisfies q * ours <= pool * rate < (q + 1) * ours, and it is undefined exactly when no 256-bit q does. |
| `LeoVersions.SupersedeInOrder` | pkg/leo/src/lib.rs:266-298 | Closing the last version now and appending one that does not pay before now keeps the version list in order. |
| `LeoVersions.WindowsDisjoint` | pkg/leo/src/lib.rs:266-298 | In an ordered list no moment lies in the paying windows of two versions. |
| `LeoVersions.ScanIsLookup` | pkg/leo/src/lib.rs:350-371 | On an ordered list the scan finds exactly what the reported version alone says. |
| `LeoRuns.RunKeepsOrder` | pkg/leo/src/lib.rs:266-341 | On every run, for every campaign, closed versions ended in list order and not in the future, and later paying versions start no earlier than all endings before. |
| `LeoRuns.StepContinues` | pkg/leo/src/lib.rs:164-344 | Every call leaves the version list of a campaign as it was, starts it, or closes its last version and appends the requested or the empty one; accepted create, update and cancel calls do change it. |
| `LeoRuns.HistoryIsKept` | pkg/leo/src/lib.rs:245-298 | Between any two moments of any run a version list only grows, and nothing but the ending of the version then last changes. |
| `LeoRuns.PayingWindowsDisjoint` | pkg/leo/src/lib.rs:266-341 | On every run the paying windows of a campaign's versions are pairwise disjoint. |
| `LeoRuns.ScanAgreesWithDetails` | pkg/leo/src/lib.rs:440-494 | In every reachable state the scan from a position's stored offset agrees with inspecting only the version that campaign_details reports. |
| `LeoRuns.RewardExactlyWhenOpen` | pkg/leo/src/lib.rs:440-524 | In every reachable state an accepted collect pushes a reward for a campaign exactly when the reported version has started before now, has not ended and contains the position's ticks, and which reward it is. |
| `LeoRewards.CollectByDetails` | pkg/leo/src/lib.rs:420-534 | For any list of campaigns, repeats included: the list is paid if and only if each campaign has a maximum, a defined reward and room for all its rewards so far, in values read before the call; the rewards are those of the open campaigns, in order, and a failure is that of the first unpayable campaign. |
| `LeoRewards.CollectCallByDetails` | pkg/leo/src/lib.rs:397-537 | In every reachable state, exactly when a whole collect call is accepted and which rewards it returns. |
| `LeoRuns.StepAdvances` | pkg/leo/src/lib.rs:132-159 | Every call moves a position at most one stage on, only a vest or the owner's divest moves it, a vest records the sender and Seawater's answers, and liquidity of tracked positions stays positive. |
| `LeoRuns.StagesNeverFall` | pkg/leo/src/lib.rs:134-153 | Along every run a position goes only unvested, vested, divested; while vested its owner, pool, ticks and liquidity never change. |
| `LeoRuns.DivestedIsFinal` | pkg/leo/src/lib.rs:550-556 | After every run a divested position cannot be vested again, collect or be divested: every such call reverts. |
| `LeoRuns.CollectorHasLiquidity` | pkg/leo/src/lib.rs:404-413 | After every run whoever may collect owns a vested position with non-zero liquidity, so the reward division has a non-zero divisor. |
| `LeoRuns.OwnersNeverChange` | pkg/leo/src/lib.rs:193-216 | No run ever changes the owner of a campaign balance. |
| `LeoRuns.OnlyOwnersManage` | pkg/leo/src/lib.rs:252-341 | On every run only the initial owner of a campaign balance creates, updates or cancels its campaigns. |
| `LeoRuns.UnownedCampaignsStayEmpty` | pkg/leo/src/lib.rs:193-195 | A campaign balance that starts unowned never gets a campaign, on any run. |
| `LeoLedger.CollectPays` | pkg/leo/src/lib.rs:420-534 | Over any list of campaigns, repeats included, each campaign's distributed grows by exactly the rewards owed from it, modulo the word. |
| `LeoLedger.CollectPaysToken` | pkg/leo/src/lib.rs:417-537 | The rewards owed in a token add up to the increase of distributed over the campaigns paying in it, modulo the word. |
| `LeoRewards.CollectIsExact` | pkg/leo/src/lib.rs:509-533 | A collect owes from a campaign its reward times its occurrences in the list, and records exactly that if and only if, added to distributed, it fits the word. |
| `LeoRewards.CollectPaysExactly` | pkg/leo/src/lib.rs:417-537 | What a call owes in a token is at least what the campaigns paying in it record, and equal if and only if the rewards of each of them fit the word. |
| `LeoLedger.FailureChangesNothing` | pkg/leo/src/lib.rs:420-537 | An owner's collect reverts exactly when some campaign of the list fails after the earlier ones were paid, and then no ledger has changed. |
| `LeoLedger.LedgerConserved` | pkg/leo/src/lib.rs:216-219 | On every run distributed is the sum of all rewards ever owed and maximum the sum of all accepted funding, modulo the word, for every campaign. |
| `LeoRewards.LedgerExact` | pkg/leo/src/lib.rs:300-304 | On every run the two sums hold exactly if and only if no transaction wrapped them, each judged by values readable before it. |
| `LeoRewards.OwedBelowFunding` | pkg/leo/src/lib.rs:509-533 | On every run whose funding fits the word, what was ever owed is zero or below the funding if and only if no collect wrapped distributed. |
| `LeoLedger.StepKeepsCap` | pkg/leo/src/lib.rs:509-533 | A transaction keeps the recorded distributed zero or below maximum if and only if its funding does not wrap the maximum to distributed or below. |
| `LeoLedger.DistributedStaysBelowMaximum` | pkg/leo/src/lib.rs:509-533 | On every run whose accepted funding fits the word, the recorded distributed is zero or strictly below maximum. |
| `LeoLedger.WrappedFundingBreaksCap` | pkg/leo/src/lib.rs:300-304 | A concrete run whose funding wraps ends with distributed above maximum. |
| `LeoLedger.WrappedRewardEscapesCap` | pkg/leo/src/lib.rs:509-520 | A concrete run of accepted calls with funding of ten after which 2^256 + 8 has been owed and distributed is 8. |
| `LeoLiquidity.CountersBalance` | pkg/leo/src/lib.rs:145-157 | On every run, whatever pools are named, all pool counters together equal all vested liquidity, modulo the word. |
| `LeoLiquidity.DivestPoolBalanced` | pkg/leo/src/lib.rs:555-560 | A divest keeps every pool's counter equal to its vested liquidity if and only if it names the pool the position was vested with. |
| `LeoLiquidity.PoolCountersBalance` | pkg/leo/src/lib.rs:145-157 | On every run whose accepted divests name the vested pools, every pool's counter is its vested liquidity, modulo the word. |
| `LeoLiquidity.PoolCountersBalanceExactly` | pkg/leo/src/lib.rs:145-157 | The counters agree pool by pool at every moment of a run if and only if every accepted divest names the vested pool. |
| `LeoLiquidity.MisnamedPoolBreaksBooks` | pkg/leo/src/lib.rs:555-560 | A concrete run of accepted calls whose divest names another pool and leaves the counters wrong. |
| `LeoLiquidity.DivestNeverUnderflows` | pkg/leo/src/lib.rs:557-560 | On such runs, while a pool's vested liquidity fits the word, the counter is that liquidity and the subtraction of a vested position never borrows. |
| `FixedPoint.PowerBrackets` | lib/math/concentrated-liq.go:131-141 | For every scale, ratio, start and exponent the truncating square-and-multiply never exceeds the exact power and loses at most one unit per factor. |
| `FixedPoint.SetBitsOnlyLower` | lib/math/concentrated-liq.go:131-141 | Setting more bits of the exponent never raises the result, so the all-ones exponent bounds it from below. |
| `FixedPoint.HighBitZeroes` | lib/math/concentrated-liq.go:131-141 | Once repeated squaring has vanished, every exponent with a bit that high gives zero. |
| `TickMath.GetSqrtRatioAtTick` | lib/math/concentrated-liq.go:118-155 | The loop over mutable result, ratio and bits computes the specified value for every integer tick, with the division panic. |
| `TickMath.MagnitudeStaysInWords` | lib/math/concentrated-liq.go:118-141 | For every tick all intermediate values stay within 2^128 and all products below 2^256. |
| `TickMath.MagnitudeBrackets` | lib/math/concentrated-liq.go:118-141 | For every tick with n = abs(t) div 2: res * 2^(128n) <= start * C^n <= (res + n) * 2^(128n). |
| `TickMath.TickRange` | lib/math/concentrated-liq.go:142-148 | The value divided by is positive on every tick below 2^20 in size, so on the whole named range; from 2^21 on it is zero and the conversion panics (TickOrder.PanicsExactly has the ticks between). |
| `TickMath.PriceIsPositive` | lib/math/concentrated-liq.go:118-155 | On every tick below 2^20 in size the resulting price is positive. |
| `TickOrder.RoundsAfterShift` | lib/math/concentrated-liq.go:142-154 | On every tick with a price: the price is the shifted Q128 value or one more, and the shifted value itself exactly if that is a multiple of 2^32. |
| `TickOrder.PriceOfTickZero` | lib/math/concentrated-liq.go:118-155 | Tick zero has the price 2^96 exactly. |
| `TickOrder.PanicsExactly` | lib/math/concentrated-liq.go:142-148 | On every integer tick: the conversion panics if and only if the tick is above 1774545. |
| `TickOrder.UpperHalf` | lib/math/concentrated-liq.go:131-141 | From 2^20 on the magnitude is that of the rest of the tick times the ratio squared nineteen times. |
| `TickOrder.PriceOrder` | lib/math/concentrated-liq.go:118-155 | On all ticks below 2^20 in size the price rises strictly with the tick. |
| `TickOrder.NamedRange` | lib/math/concentrated-liq.go:14-27 | The named ticks are exactly those whose price lies between the two named ratios, which are met only at the ends. |
| `TickOrder.PositiveTickIsPriceRoot` | lib/math/concentrated-liq.go:142-154 | For 0 < t <= 887272 the result is the square root of the price 1.0001^t in Q96, to one unit and one part in 2^44. |
| `TickMath.OppositeTicks` | lib/math/concentrated-liq.go:142-155 | For 0 < t <= 887272 the results u at t and d at -t satisfy abs(u*d - 2^192) <= u + d + 1. |
| `TickAccuracy.ConstantsAreRoots` | lib/math/concentrated-liq.go:120-126 | The two constants are 1/1.0001 and its square root to a Q128 unit. |
| `TickAccuracy.MagnitudeIsGeometric` | lib/math/concentrated-liq.go:118-141 | For every tick the loop is within n units of the true geometric progression of 1/1.0001. |
| `TickAccuracy.MagnitudeIsPriceRoot` | lib/math/concentrated-liq.go:118-141 | For every tick, even or odd, the square of the loop's value brackets the Q128 price within n + 1 units on the root. |
| `TickAccuracy.NegativeTickIsPriceRoot` | lib/math/concentrated-liq.go:149-154 | The Q96 result for a tick at or below zero brackets the square root of the price 1.0001^t, after the shift and the rounding as written. |
| `LiquidityAmounts.BoundOrder` | lib/math/concentrated-liq.go:41-49 | The amounts do not depend on the order of the two bounds, at any price, nil or not. |
| `LiquidityAmounts.Holding` | lib/math/concentrated-liq.go:50-65 | The three branches are one formula in the price clamped to the range. |
| `LiquidityAmounts.DefinedExactly` | lib/math/concentrated-liq.go:36-66 | Nil arguments give zero amounts, and otherwise the amounts are undefined exactly when a division by a zero price is due. |
| `LiquidityAmounts.NegatedLiquidity` | lib/math/concentrated-liq.go:82-115 | Negating the liquidity negates both amounts, the integer division truncating towards zero. |
| `LiquidityAmounts.Amount0IsExact` | lib/math/concentrated-liq.go:82-91 | The token 0 amount falls short of the exact hyperbola by less than one part in the lower price. |
| `LiquidityAmounts.AmountsOnCurve` | lib/math/concentrated-liq.go:36-116 | At every price, in and out of range, the shifted amounts multiply to the squared liquidity, short by at most L / 2^96. |
| `LiquidityAmounts.SplitRange` | lib/math/concentrated-liq.go:36-116 | Splitting a range at any point keeps token 1 exactly, token 0 within 2/lo, and token 0 exactly once the price has reached the split. |
| `Ingestor.Connection.GetLastBlockCheckpointed` | cmd/ingestor.logs.ethereum/polling-db.go:15-22 | An empty checkpoint table reads as block zero, otherwise as the stored block. |
| `Ingestor.Connection.UpdateCheckpoint` | cmd/ingestor.logs.ethereum/polling-db.go:24-29 | The one checkpoint row is overwritten, or on failure left alone. |
| `Ingestor.Connection.HandleLog` | cmd/ingestor.logs.ethereum/func.go:135-311 | A log is refused, ignored or stored as one row in the table of its topic. |
| `Ingestor.Connection.IngestBlockRange` | cmd/ingestor.logs.ethereum/func.go:94-127 | One page either commits its rows together with the checkpoint at its highest block, or leaves the database as it was. |
| `Ingestor.Connection.Poll` | cmd/ingestor.logs.ethereum/func.go:65-88 | A turn of the loop ingests the page after the checkpoint in 64-bit arithmetic; a page size of zero or less is refused. |
| `IngestorRuns.Replay` | cmd/ingestor.logs.ethereum/func.go:65-88 | Any legal run of polls against the connection object, with the chain growing in between, ends in the database of the abstract run. |
| `IngestorRuns.DecideStoresAccepted` | cmd/ingestor.logs.ethereum/func.go:187-310 | A log with a known topic is stored exactly if it decodes and comes from the contract its topic belongs to, in that topic's table. |
| `IngestorRuns.DecidesExactly` | cmd/ingestor.logs.ethereum/func.go:267-310 | A log is refused exactly if its topic is unknown or it does not decode; of the others exactly those from a foreign contract are ignored. |
| `IngestorRuns.TablesDiffer` | cmd/ingestor.logs.ethereum/func.go:187-266 | Rows of different topics go to different tables. |
| `IngestorRuns.PollCommitsExactly` | cmd/ingestor.logs.ethereum/func.go:94-127 | A poll without database faults commits if and only if every log of its page decodes, whoever emitted it. |
| `IngestorRuns.NeverPassesUndecodable` | cmd/ingestor.logs.ethereum/func.go:106-126 | No run, whatever its pages and failures, moves the checkpoint to the block of a known log that does not decode. |
| `IngestorRuns.OrderIrrelevant` | cmd/ingestor.logs.ethereum/func.go:106-115 | The stored rows do not depend on the order in which the node returns the logs. |
| `IngestorRuns.HighestIsMaximum` | cmd/ingestor.logs.ethereum/func.go:104-115 | The running maximum is the highest block of the page, and the flag says whether there is any log. |
| `IngestorRuns.ExactlyOnce` | cmd/ingestor.logs.ethereum/func.go:65-127 | Over every run of polls, failures, restarts and growth the rows added are exactly those of the accepted logs above the starting checkpoint and at or below the current one. |
| `IngestorRuns.FreshDatabase` | cmd/ingestor.logs.ethereum/polling-db.go:15-29 | From an empty database a run stores the accepted logs from block one up to the block in the checkpoint row, and nothing as long as there is none. |
| `IngestorRuns.RowStoredOnce` | cmd/ingestor.logs.ethereum/func.go:94-127 | The same row by row: a row is stored as often as its log occurs on the chain if the log is accepted and lies in that range, and not at all otherwise. |
| `IngestorRuns.PollAdvances` | cmd/ingestor.logs.ethereum/func.go:104-121 | A committed poll moves the checkpoint if and only if its page holds a log-bearing block, and then onto one. |
| `IngestorRuns.ReachesLastLog` | cmd/ingestor.logs.ethereum/func.go:69-121 | If log-bearing blocks are never more than a page apart, all logs decode and the database does not fail, the last is reached within as many polls as there are log-bearing blocks to go. |
| `IngestorRuns.WideGapStalls` | cmd/ingestor.logs.ethereum/func.go:104-121 | After a full page of blocks without logs no run with pages of that size ever moves the checkpoint. |
| `Batching.BatchesPartition` | cmd/snapshot.ethereum/rpc.go:157-190 | For every list and limit the batches concatenate to the list in order, none is empty and all but the last are full. |
| `Batching.EmitBatches` | cmd/snapshot.ethereum/rpc.go:157-190 | The loop over the reused buffer sends exactly these batches, and the arrays already sent still hold them after every later write to the buffer. |
| `FanOut.StepInv` | cmd/snapshot.ethereum/rpc.go:106-212 | Every step in every interleaving keeps each request accounted for exactly once: pending, with a worker, or collected. |
| `FanOut.ReturnedIsComplete` | cmd/snapshot.ethereum/rpc.go:191-212 | Under every interleaving a successful call returns a permutation of the server's answers to all requests, with nothing pending and every worker idle. |
| `FanOut.MeasureFalls` | cmd/snapshot.ethereum/rpc.go:106-210 | Every step of a call without trouble lowers a measure. |
| `FanOut.NeverStuck` | cmd/snapshot.ethereum/rpc.go:106-210 | Until the call returns, some step is enabled, whatever the workers are doing. |
| `FanOut.SmoothRunsReturn` | cmd/snapshot.ethereum/rpc.go:91-212 | A call without trouble takes at most three steps per request, and as long as it has not returned it can go on. |
| `PositionKeys.DecodeEncode` | cmd/snapshot.ethereum/rpc.go:214-230 | Decoding inverts encoding up to lower case for every 42-character address and every 64-bit id; wider ids are refused. |
| `PositionKeys.LowerMeaning` | lib/types/types.go:214-219 | Lower case keeps the length, turns every capital into its small letter and leaves the rest alone. |
| `PositionKeys.PrintsInOrder` | cmd/snapshot.ethereum/rpc.go:228-230 | Among prints of one length the smaller number comes first; with the sixteen characters of a plain print this leaves each digit only one. |
| `PositionKeys.CaseBlind` | cmd/snapshot.ethereum/rpc.go:220-223 | Upper-case and lower-case digits parse alike. |
| `PositionKeys.MagnitudeDefined` | cmd/snapshot.ethereum/rpc.go:220-223 | A text stands for a magnitude exactly if it is a non-empty run of hexadecimal digits. |
| `PositionKeys.LeadingZero` | cmd/snapshot.ethereum/rpc.go:220-223 | Leading zeros do not change the parsed number. |
| `PositionKeys.ParsedExactly` | cmd/snapshot.ethereum/rpc.go:220-223 | Which signed texts parse, with the 64-bit range, and for which number. |
| `PositionKeys.DecodedExactly` | cmd/snapshot.ethereum/rpc.go:214-226 | Keys of 40 and 41 characters panic, and a key decodes exactly if it has 42 characters and the rest parses. |
| `PositionKeys.KeyInjective` | cmd/snapshot.ethereum/rpc.go:228-230 | Among addresses of one length two keys agree if and only if the lower-cased addresses and the ids agree. |
| `PositionKeys.LengthsThatCollide` | cmd/snapshot.ethereum/rpc.go:228-230 | For 64-bit ids, addresses of lengths m and n never share a key across different positions if and only if the lengths are equal or more than sixteen apart. |
| `PositionKeys.EncodeDecode` | cmd/snapshot.ethereum/rpc.go:214-230 | Printing a decoded key decodes to the same pair, and gives the same text if and only if the text was in printed form. |
| `Snapshot.IndexPositions` | cmd/snapshot.ethereum/main.go:76-79 | The loop builds the map of every position under its key. |
| `Snapshot.PositionMapMeaning` | cmd/snapshot.ethereum/main.go:76-79 | Under a key stands the last position that has it, and no key is made up. |
| `Snapshot.IndexPools` | cmd/snapshot.ethereum/main.go:64-72 | The loop builds the prices of all pools, or panics with the first conversion that does. |
| `Snapshot.PoolPricesMeaning` | cmd/snapshot.ethereum/main.go:64-72 | Under an address stands the price at the final tick of the last pool that has it in lower case, and no address is made up. |
| `Snapshot.PackRpcPosData` | cmd/snapshot.ethereum/rpc.go:61-81 | In whatever order the map is walked, there is exactly one request per key. |
| `Snapshot.ComputeRow` | cmd/snapshot.ethereum/main.go:102-130 | The row of one position as the reconciliation writes it, with every panic passed on. |
| `Snapshot.Reconcile` | cmd/snapshot.ethereum/main.go:87-147 | The loop panics if and only if a conversion does or there are more rows than array places; otherwise entry k of the four arrays, up to the shared index, is row k. |
| `SnapshotRuns.RowOnCurve` | cmd/snapshot.ethereum/main.go:102-130 | For every position with its lower tick below its upper one, every reported liquidity and every pool list that has the pool, the stored amounts (none: zero) are, rounded down, the point on the curve of equation 2.2 at the price of the pool's final tick, and a row of nothing is not stored. |
| `SnapshotRuns.NoPriceNoRow` | cmd/snapshot.ethereum/main.go:107-130 | A position whose pool is not in the list gets no row. |
| `SnapshotRuns.NegatedRow` | cmd/snapshot.ethereum/main.go:172-175 | A negative liquidity gives the negated amounts, truncated towards zero. |
| `SnapshotRuns.RowsFit` | cmd/snapshot.ethereum/main.go:76-136 | Under every interleaving a returned fan-out answers every key exactly once, and the loop never has more rows than array places. |
| `SnapshotRuns.PricesPanicExactly` | cmd/snapshot.ethereum/main.go:64-72 | The pool prices panic exactly when some final tick is above the last convertible one. |
| `SnapshotRuns.SnapshotIsExact` | cmd/snapshot.ethereum/main.go:73-147 | With 42-character addresses and ticks in range a snapshot never panics, its rows are exactly those of the answered positions that hold something, and no position is stored twice. |
| `SnapshotRuns.InterleavingIrrelevant` | cmd/snapshot.ethereum/main.go:83-136 | Two returned fan-outs with the same answers store the same rows, whatever the interleaving, the batch limit and the number of workers. |
| `EventWords.ConversionsAreCongruent` | lib/events/leo/leo.go:105-124 | The cast and both signed conversions keep a number up to a multiple of their range, so they are two's complement. |
| `EventWords.DetailsIsSum` | pkg/leo/src/events.rs:30-36 | The details word is lower * 2^192 + upper * 2^160 + owner. |
| `EventWords.TimesIsSum` | pkg/leo/src/events.rs:38-40 | The times word is starting * 2^64 + ending. |
| `EventWords.ExtrasIsSum` | pkg/leo/src/events.rs:59-64 | The extras word is lower * 2^160 + upper * 2^128 + starting * 2^64 + ending. |
| `EventWords.TickRoundTrip` | lib/events/leo/leo.go:106-107 | A signed tick cast to 32 unsigned bits is read back by the two signed conversions, whatever lies above it in the word. |
| `EventWords.DetailsRoundTrip` | pkg/leo/src/events.rs:30-36 | Packing then unpacking the details word returns both signed ticks and the owner. |
| `EventWords.TimesRoundTrip` | pkg/leo/src/events.rs:38-40 | Packing then unpacking the times word returns both times. |
| `EventWords.ExtrasRoundTrip` | pkg/leo/src/events.rs:59-64 | Packing then unpacking the extras word returns both signed ticks and both times. |
| `EventWords.DetailsWords` | lib/events/leo/leo.go:105-110 | Unpacking then packing returns a details word if and only if it uses no bit above 224. |
| `EventWords.TimesWords` | lib/events/leo/leo.go:112-116 | Unpacking then packing returns a times word if and only if it uses no bit above 128. |
| `EventWords.ExtrasWords` | lib/events/leo/leo.go:118-124 | Unpacking then packing returns an extras word if and only if it uses no bit above 192. |

## Left out

- Generated GraphQL code, resolvers, the faucet, `web/`, configuration, heartbeat and features: plumbing over SQL, HTTP and the UI.
- The Seawater AMM: its sources other than the parts above are not part of this model; Leo sees its liquidity, ticks and NFT transfers as arbitrary answers.
- `pkg/leo/src/erc20.rs`: stubs that do nothing, so `maximum` and `distributed` are ledger entries, not token balances.
- The 512-bit limb division inside `_mul_div`: a foreign routine, used by its contract.
- The testing-only entry points of Leo and `collect_pool_rewards`, which only passes a call on.
- Fair-share and at-most-once accrual of rewards: the code counts from the start of the version at every claim, and the model states the arithmetic as written.
- Exact agreement with Uniswap's final rounding: the remainder test runs after the shift, so agreement is claimed only to within the roundings.
- `GetPriceAtSqrtRatio`: one squaring and one division.
- ABI decoding, and the campaign identifier, which the indexer cuts to five bytes; a log is known by its topic and by whether it decodes.
- Calldata bytes, JSON and HTTP; a request is known by its key. The decimals passed to `mulRatToInt` are ignored there and so are not modelled.
- The endless draining of goroutines after an error: the model stops workers after an error but claims nothing about when.
- FanOut.SmoothRunsReturn: speaks of runs without errors, cancellation or a server that answers a batch with too few responses; on the last the source waits for ever.
- Errors of the node and of reading the checkpoint end the process before any transaction, which is a run without that poll.
- `storePositions`: formatting of one SQL statement from the four columns.
