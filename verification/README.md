# Rein: verified model

Rein is a reverse proxy in front of LLM providers. It gives every virtual key brakes (rate
limits, slots, budgets) and keeps the books (spend, token usage, prices, key life cycle).
This project models those parts in Dafny and proves what they promise, over every input,
every run and every interleaving of the atomic steps.

`dafny verify dfyconfig.toml` checks everything. The files group by component:

| files | component |
|---|---|
| `Rates`, `RatesLog`, `RatesBounds`, `RatesWorstCase`, `RatesRetry` | sliding-window rate limiter |
| `Admission`, `AdmissionBudget`, `AdmissionWorstCase`, `Concurrency` | admission pipeline as a step machine, and the slot counters |
| `Lines`, `Stream` | streaming meter |
| `Wrappers`, `Text`, `Timestamps`, `Keys`, `KeysSqlite`, `KeyHistories`, `KeySweep` | key stores, expiry order, revocation, sweeper |
| `Cipher`, `Rotation` | field encryption and key rotation |
| `Meter`, `Pricing`, `PricingCost` | spend meter, price tables, reload |
| `UnknownModels` | throttled warning log |

## How the model is built

- Code that updates fields in place is a class whose methods are proved against a function
  (`Rates.AllowStep`, `Stream.ReadStep`, `Keys.StoreStep`, `Meter.Total`, ...). What the
  program promises is then proved about runs of that function.
- Concurrent code is a step machine with one event per atomic operation, lock section, SQL
  statement or committed transaction. `Step` is total, and an event that does not apply
  changes nothing, so a sequence of events is an arbitrary interleaving of any number of
  requests.
- Money is `real`. Time in the limiter and the log throttle is an integer number of
  nanoseconds; in the key table it is a UTC civil tuple for years 0 to 9999; in the meter it
  is a day number in a calendar whose months all have 31 slots, which keeps the order of
  days and makes the month of a day a division.
- A byte is a character. JSON decoding, white-space trimming, base64 and AES-GCM are
  arbitrary functions; the last two obey only the law that opening undoes sealing. `Library`,
  `Cipher`, `Aead` and `Base64` hold them as fields.
- A clock reading, a nonce, what an upstream `Read` returns, whether the deadline has passed
  and where a database call fails are parameters.

## Clock assumptions of the rate limiter

`now` is read before the lock is taken (internal/rates/memory.go:56-58), so readings can
reach the critical section out of order: a call can read behind the start of the window that
is stored when it gets there. Each result says how far behind a reading may be. `W` is the
size of the gate's window, `L` the largest limit in force, `d` the most an admitted call reads
behind.

| result | condition | exact? |
|---|---|---|
| the counters are true to the log | d = 0 | if and only if (`RatesLog.RefinementExact`) |
| an aligned window admits at most L | d <= W, or L = 0, or L = 1 per minute | if and only if (`RatesWorstCase.CapExactly`) |
| any rolling window admits at most 2L | d <= W | sufficient (`RatesBounds.RollingTwice`) |
| the boundary burst, L + ceil(A*e/W) | L*d < W, or L = 1 per minute | if and only if (`RatesWorstCase.BurstExactly`) |
| the sharp rolling bound, 2L - floor(2L/W) | L*d < W | sufficient (`RatesBounds.RollingBound`) |
| the arithmetic fits an int64 | L*(W + d) <= 2^63 - 1, with d over all calls | if and only if (`RatesWorstCase.ArithmeticExactly`) |
| the wait of a Retry-After reaches the next window | the call reads at most 59 seconds behind on the per-second gate, and not behind on the per-minute gate | if and only if (`RatesRetry.WaitReachesNext`) |
| a rejected call is invisible | the later calls do not read behind | sufficient; `RatesLog.BackwardClockBreaksInvisibility` shows one that does |
| no counter exceeds L; the counters never fall short of the log | none | (`RatesBounds.CountersBounded`, `RatesLog.CountersCoverLog`) |

A clock that never goes back meets all of them (`RatesLog.OrderedIsNotBehind`,
`RatesLog.OrderedIsOnTime`). A limit of zero or less switches a gate off; calls may switch
gates on and off at any time, and a gate's log holds what was admitted while it was on.

## Where code and documentation part

- docs/admin-api.md:384-387 promises about 1.1 times the limit in any rolling window. The
  largest number of admissions in a rolling window is exactly `2L - floor(2L/W)` for limit L
  and window W nanoseconds, which is `2L` for every L below W/2
  (`RatesBounds.RollingBound`, `RatesWorstCase.RollingBoundAttained`). It exceeds 1.1 times the
  limit for every limit (`RatesWorstCase.DocumentedFactorExceeded`). A rolling window that ends
  e nanoseconds past a boundary keeps within 1.1 times the limit in all runs if and only if
  ten times `ceil(L*e/W)` is at most L (`RatesWorstCase.DocumentedFactorExactly`), that is, if
  `L*e` is at most W times `L/10` rounded down (`RatesWorstCase.TenthInTime`). For a limit under
  ten this is the boundary nanosecond alone.
- internal/concurrency/concurrency.go:21-22 has Acquire answer false if the limit has been
  reached. It answers false exactly when held slots and pending undos together have reached
  it (`AdmissionSlots.RefusedExactly`), so a request can be refused with no slot held
  (`AdmissionSlots.PendingUndoRefuses`).
- README.md:206 of the repository bounds the budget overshoot by `max_concurrent` times the
  largest request cost. Check runs before Acquire, so requests between the two when the cap
  is reached come on top, and so do requests let through later by a meter error. The bound
  with these extra terms is `AdmissionBudget.BudgetOvershoot`; no smaller one holds
  (`AdmissionWorstCase.BoundIsTight`), and the documented one holds exactly when there are no
  such requests (`AdmissionWorstCase.DocumentedOvershootExactly`), for day and month budgets.
- The SQL expiry scan compares trimmed fractional-second text. It agrees with time order
  except inside one second when the earlier fraction's digits begin the later one's
  (`Timestamps.TextOrderExact`, `KeyHistories.SqlScanExact`).
- A sweep of the SQLite store can therefore revoke a key up to a second early. No client can
  tell that a sweep ran if and only if it revokes no such key
  (`KeySweep.SqliteSweepInvisibleExactly`); the in-memory store has none.
- One expired, unrevoked row that the SQLite store cannot decrypt stops every sweep that would
  list it (`KeySweep.UnreadableStopsSweeps`), and such a row is made by creating a key whose
  upstream key starts with the ciphertext tag while encryption is off (`KeysSqlite.CiphersOpen`,
  `KeysSqlite.CreatedReadsBack`).
- A caller that waits the advised Retry-After passes the gate that turned it away if and only
  if what the window still shows by then is below the limit (`RatesRetry.RetryAfterExact`).
  It can be refused again after a limit was lowered (`RatesRetry.LoweredLimitExample`). As long
  as limits are not lowered one case is left: a minute window filled and rejected at its first
  nanosecond, retried after exactly the clamped 60 seconds (`RatesRetry.RetryAfterSuffices`,
  `RatesRetry.ClampExample`).
- A price reload overtaken by a newer one can swap last. The older version then stays, and
  polling does not repair it, because the newer modification time is on record
  (`PricingReload.OvertakenReloadStays`).
- An operator's price for an undated model name does not reach a dated name that the
  embedded table lists itself (`PricingCost.ResolveMerged`).

## Model

| member | source | states |
|---|---|---|
| Rates.WindowCounter.EstimateCount | internal/rates/memory.go:93-108 | the in-place update leaves the advanced window and returns its estimate |
| Rates.KeyState.Decide | internal/rates/memory.go:61-88 | the critical section is one `AllowStep`: both gates, both counters, the Retry-After value |
| Rates.Memory.Allow | internal/rates/memory.go:48-89 | one key takes its step and every other key keeps its state |
| Rates.StepGate | internal/rates/memory.go:61-88 | on each gate: an admission passed the gate and adds one; a rejection leaves the window as it was or merely advanced |
| RatesLog.AdvanceTwice | internal/rates/memory.go:93-105 | advancing to t1 and then to any t2 not behind the window reached is advancing straight to t2 |
| RatesLog.AdmissionExact | internal/rates/memory.go:93-108 | an admission keeps the counters true to the log if and only if its reading is not behind the stored windowStart |
| RatesLog.RefinementExact | internal/rates/memory.go:56-88 | the counters are true to the log after every prefix of a run if and only if no admitted call of it reads behind |
| RatesLog.CountersRefineLog | internal/rates/memory.go:36-45 | for every run in which no admitted call reads behind, the two counters are the admissions of the previous and current aligned window, and windowStart is aligned; the gate may be off for some calls |
| RatesLog.CountersCoverLog | internal/rates/memory.go:93-108 | on any clock the current counter covers the admissions of its window, and both counters together those of both windows |
| RatesLog.OrderedIsNotBehind | internal/rates/memory.go:56-58 | on a clock that never goes back no call reads behind |
| RatesLog.DecisionRefinesLog | internal/rates/memory.go:48-89 | the limiter admits exactly when a limiter that remembers every admission of each gate would, gates being switched on and off freely |
| RatesLog.RejectedIsInvisible | internal/rates/memory.go:61-88 | deleting a rejected call changes no later decision, whatever its reading and whatever limits come later, if the later calls are on time |
| RatesLog.RejectedIsInvisibleInOrder | internal/rates/memory.go:61-88 | the same for every run on a clock that never goes back |
| RatesLog.BackwardClockBreaksInvisibility | internal/rates/memory.go:56-58 | a call that reads behind a rejected one can tell that it took place |
| RatesBounds.CountersBounded | internal/rates/memory.go:93-108 | neither counter exceeds the largest limit in force, on any clock |
| RatesBounds.NoOverflow | internal/rates/memory.go:107 | product and estimate of a call that reads at most d behind fit an int64 if L*(W + d) does, whatever the clock did before |
| RatesWorstCase.ArithmeticExactly | internal/rates/memory.go:107 | the arithmetic of all runs that read at most d behind fits an int64 if and only if L*(W + d) does |
| RatesWorstCase.SafeLimit | internal/rates/memory.go:107 | per minute, on time, the largest safe limit is 153722867; at that limit 109 nanoseconds behind are safe and 110 are not |
| RatesBounds.AlignedCap | internal/rates/memory.go:61-88 | no aligned window admits more than the limit in a run that reads at most a whole window behind |
| RatesWorstCase.CapExactly | internal/rates/memory.go:56-88 | all runs that read at most d behind keep that cap if and only if d <= W, or L = 0, or L = 1 on the per-minute gate |
| RatesBounds.RollingTwice | internal/rates/memory.go:61-88 | then any rolling window admits at most 2L |
| RatesBounds.OneAMinute | internal/rates/memory.go:70-79 | under one request a minute no reading from behind is let through once anything was counted |
| RatesBounds.BoundaryBurst | internal/rates/memory.go:61-88 | if L*d < W, an aligned window with A admissions plus the first e nanoseconds of the next admit at most L + ceil(A*e/W) |
| RatesWorstCase.BurstExactly | internal/rates/memory.go:56-88 | all runs that read at most d behind keep that bound if and only if L*d < W, or L = 1 on the per-minute gate |
| RatesWorstCase.BoundaryBurstAttained | internal/rates/memory.go:61-88 | for every limit, gate and e a run on a forward clock reaches L + ceil(L*e/W) |
| RatesBounds.RollingBound | internal/rates/memory.go:61-88 | if L*d < W, any rolling window of any run admits at most 2L - floor(2L/W) |
| RatesWorstCase.RollingBoundAttained | internal/rates/memory.go:61-88 | for every limit and both gates a run on a forward clock reaches exactly that number |
| RatesWorstCase.DocumentedFactorExceeded | docs/admin-api.md:384-387 | the documented factor 1.1 is exceeded for every limit, on both gates |
| RatesWorstCase.DocumentedFactorExactly | docs/admin-api.md:384-387 | all ordered runs keep the rolling window that ends e nanoseconds past a boundary within 1.1 L if and only if 10 * ceil(L*e/W) <= L |
| RatesWorstCase.TenthInTime | docs/admin-api.md:384-387 | that condition is L*e <= W * floor(L/10) |
| RatesRetry.WaitReachesNext | internal/rates/rates.go:42-50 | the clamped wait reaches the next window if and only if the call reads at most 59 seconds behind on the per-second gate, and not behind on the per-minute gate |
| RatesRetry.WaitIsLeast | internal/rates/memory.go:65-77 | the wait is the least number of whole seconds that ends past the boundary, within 1 to 60 |
| RatesRetry.RejectionTellsLeastWait | internal/rates/memory.go:62-79 | a rejected call is told r seconds if and only if r is that least wait at the gate that turns it away, the per-second gate being asked first |
| RatesRetry.WindowRetry | internal/rates/memory.go:62-79 | then a window left alone for the returned seconds passes if and only if the visible share of what it held is below the limit or out of view |
| RatesRetry.RetryAfterExact | internal/rates/memory.go:62-79 | from any state, a rejected caller within that slack that waits as told, with only rejections in between, passes that gate if and only if the window it was turned away from is no longer full to it |
| RatesRetry.RetryAfterSuffices | internal/rates/memory.go:62-79 | after any run whose limits on the gate never exceeded the present one, the clamped case is the only exception |
| RatesRetry.LoweredLimitExample | internal/rates/memory.go:62-68 | after a limit is lowered from two to one a caller told to wait a second is refused after it |
| RatesRetry.BackwardClockBreaksRetryAfter | internal/rates/rates.go:42-50 | on the per-minute gate a rejected call that read behind is refused after the 60 seconds it was told |
| RatesRetry.ClampExample | internal/rates/rates.go:42-50 | the clamped case is reachable |
| AdmissionSlots.StepKeepsInv | internal/concurrency/memory.go:33-55 | every atomic step of any request keeps: counter = held slots + pending undos; one counter per key, never replaced |
| AdmissionSlots.SlotSafety | internal/concurrency/memory.go:33-55 | the same over every interleaving |
| AdmissionSlots.GrantRespectsLimit | internal/concurrency/memory.go:38-42 | a grant under limit l leaves at most l slots of the key held at that instant, whatever limits others carry |
| AdmissionSlots.RefusedExactly | internal/concurrency/memory.go:38-42 | in every reachable state an add is refused if and only if held slots and pending undos together have reached the limit |
| AdmissionSlots.SlotExactly | internal/proxy/proxy.go:264-271 | from every reachable state an admitted request runs if and only if its key has no slot limit or fewer slots and pending undos than that |
| AdmissionSlots.AdmissionExactly | internal/proxy/proxy.go:232-271 | from every reachable state a request that no one gets in between reaches the upstream if and only if no budget is used up or the check breaks, the limiter lets it through, and a slot is to be had; a refusal leaves ledger and other requests alone |
| AdmissionSlots.RefusalEnds | internal/concurrency/memory.go:38-41 | an undone add ends the request, and a request that is over stays over |
| AdmissionSlots.BillingExactly | internal/proxy/proxy.go:264-271 | a running request leaves one entry of its positive cost for the day its Record reads, or none if that fails, and gives back its one slot |
| AdmissionSlots.PendingUndoRefuses | internal/concurrency/concurrency.go:21-22 | a run in which a request for one slot is refused while no slot is held |
| AdmissionSlots.QuiescentCounterIsZero | internal/proxy/proxy.go:264-271 | once all requests of a key are over its counter is 0, even if the limit was patched in between |
| AdmissionSlots.ReleaseFindsCounter | internal/concurrency/memory.go:46-55 | the release of a granted request always finds its counter |
| AdmissionBudget.LedgerStep | internal/meter/meter.go:65-75 | only Record moves a bucket, by at most one request's cost, and only the bucket of its clock reading |
| AdmissionBudget.PotentialStep | internal/proxy/proxy.go:232-271 | once a bucket is full, spend plus what is still in flight grows only by one cost for each broken check |
| AdmissionBudget.HoldingStep | internal/concurrency/memory.go:33-43 | a key never holds more slots than its fixed limit |
| AdmissionBudget.Crossing | internal/proxy/proxy.go:232-271 | at the step that fills the bucket, all that can still bill it are the other slots and the requests in the gap |
| AdmissionBudget.BudgetOvershoot | internal/proxy/proxy.go:232-271 | in every interleaving a day or month bucket stays below D + (K + G + F) * C, with G requests in the gap at the crossing and F checks that break after it; midnight straddlers and failed Records included |
| AdmissionWorstCase.WorstRunReaches | internal/proxy/proxy.go:232-271 | a concrete run ends at the full price of every slot and every request in the gap |
| AdmissionWorstCase.BoundIsTight | internal/proxy/proxy.go:232-271 | for every day or month bucket, cap, K, C, G and margin a run without meter errors comes within the margin of D + (K + G) * C |
| AdmissionWorstCase.DocumentedOvershootExactly | README.md:206 | for day and month budgets, the documented bound D + K * C holds for all runs with G requests caught in the gap or let in by broken checks if and only if G = 0 |
| Concurrency.Memory.LoadOrCreate | internal/concurrency/memory.go:67-73 | a key's counter is found or made once; no count changes |
| Concurrency.Memory.Acquire | internal/concurrency/memory.go:33-43 | grants exactly below the limit, adds one exactly on a counted grant, leaves other keys alone |
| Concurrency.Memory.Release | internal/concurrency/memory.go:46-55 | gives back one for a counted key, and only for that key |
| Lines.SplitThenJoin | internal/proxy/stream.go:128-139 | complete lines and rest put together are the stream |
| Lines.JoinThenSplit | internal/proxy/stream.go:128-139 | any newline-free lines put together are found again |
| Lines.SplitConcat | internal/proxy/stream.go:128-139 | splitting two chunks in turn finds the lines of the whole |
| Stream.FeedTwice | internal/proxy/stream.go:128-139 | feeding two chunks is feeding their concatenation |
| Stream.ChunkingIndependence | internal/proxy/stream.go:128-139 | however a stream is cut into reads, model, tokens and partial line end as after one read |
| Stream.WholeStream | internal/proxy/stream.go:128-215 | that result is the per-line update folded over the newline-terminated lines only |
| Stream.DataLine | internal/proxy/stream.go:142-157 | a line "data: " plus rest changes the usage as its trimmed, decoded payload says; an empty payload, the end marker and an undecodable one change nothing |
| Stream.OtherLine | internal/proxy/stream.go:143-146 | a line without that prefix changes nothing |
| Stream.ChunkCounts | internal/proxy/stream.go:128-157 | a chunk sent as one line, with any number of CR before its LF, is counted |
| Stream.OpenAIChunkMeaning | internal/proxy/stream.go:159-177 | the first model named stays, every usage object replaces both counts |
| Stream.AnthropicEventMeaning | internal/proxy/stream.go:179-215 | message_start sets model and both counts, message_delta a positive output count, nothing else counts |
| Stream.OpenAIUsage | internal/proxy/stream.go:159-177 | an OpenAI stream is billed to the first model named for the last usage sent |
| Stream.AnthropicUsage | internal/proxy/stream.go:179-215 | an Anthropic stream is billed to the last started model, the last started input count and the last announced output count |
| Stream.TrailerIsIgnored | internal/proxy/stream.go:102-113 | a line parser at the start of a line is unchanged by the timeout trailer |
| Stream.TrailerExamples | internal/proxy/stream.go:108-113 | the trailer with and without a number of seconds |
| Stream.DecimalValue | internal/proxy/stream.go:108-113 | the digits written are those of the number, without leading zeros |
| Stream.StreamMeter.Consume | internal/proxy/stream.go:128-139 | the loop over the partial buffer computes the fold |
| Stream.StreamMeter.ParseLineInto | internal/proxy/stream.go:142-177 | one line's in-place update is `ParseLine` |
| Stream.StreamMeter.ParseAnthropicInto | internal/proxy/stream.go:179-215 | one Anthropic chunk's in-place update is `ParseAnthropic` |
| Stream.StreamMeter.Read | internal/proxy/stream.go:67-100 | one Read is one `ReadStep` and reports nothing |
| Stream.StreamMeter.Close | internal/proxy/stream.go:117-125 | one Close is one `CloseStep` |
| StreamTee.TrailerDrains | internal/proxy/stream.go:67-75 | a pending trailer is handed out in order under any buffer sizes, EOF with its last byte |
| StreamTee.TeeCorrect | internal/proxy/stream.go:67-100 | for every body and buffers, a caller that stops at the first error has the upstream bytes and the error, or past the deadline the bytes, one trailer and EOF; usage is that of the upstream bytes alone |
| StreamTee.WholeTrailerOnce | internal/proxy/stream.go:67-113 | with room in the buffers the whole trailer arrives exactly once |
| StreamTee.ReportOnce | internal/proxy/stream.go:117-125 | over any mix of Read and Close usage is reported at most once, at the first Close, and exactly when a token was counted |
| Timestamps.SecondOrder | internal/keys/sqlite.go:187-190 | the 19 characters of the whole second order as the seconds do |
| Timestamps.FractionOrder | internal/keys/sqlite.go:187-190 | within a second the text order fails exactly when the earlier digits begin the later ones |
| Timestamps.TextOrderExact | internal/keys/sqlite.go:187-190 | for all instants of years 0 to 9999: text order is time order if and only if the pair is not misordered in that sense |
| Timestamps.FormatInjective | internal/keys/sqlite.go:187-199 | equal texts are equal instants |
| Timestamps.FieldsReadBack | internal/keys/sqlite.go:403-425 | every field stands in its columns, so parsing the text gives the instant back, fraction included |
| Timestamps.TextAtMostExact | internal/keys/sqlite.go:353-361 | the SQL comparison, exactly, in terms of time |
| Timestamps.MisorderedExample | internal/keys/sqlite.go:353-361 | a whole second and its half: the comparison goes wrong in both directions |
| Keys.KeyPatch.ApplyTo | internal/keys/keys.go:113-145 | a patch touches no identity, secret or stamp |
| Keys.PatchReflects | internal/keys/keys.go:113-145 | every field given reads back as given, every other one keeps its value, a cleared expiry is gone |
| Keys.ReflectsUnique | internal/keys/keys.go:113-145 | and only the patched key does that |
| Keys.CreateReadsBack | internal/keys/keys.go:188-235 | a created key reads back under id and token; it is rejected if and only if a field is missing, the upstream unknown, or id or token in use |
| Keys.UpdateReadsBack | internal/keys/keys.go:302-315 | after a PATCH the key reads back field by field as patched; revoked and missing keys are refused and nothing changes |
| Keys.RevokeReadsBack | internal/keys/keys.go:250-279 | a revocation sets the stamp, by the rules of each store, and nothing else of the key |
| Keys.OthersStay | internal/keys/keys.go:172-315 | no operation touches another key |
| Keys.StepWellFormed | internal/keys/keys.go:172-315 | every operation keeps ids and tokens unique |
| Keys.MemoryStore.Indexed | internal/keys/keys.go:172-176 | both maps always index the same records |
| Keys.MemoryStore.Create | internal/keys/keys.go:188-211 | creation is the specified step, with its refusals |
| Keys.MemoryStore.GetByToken | internal/keys/keys.go:214-223 | finds the one key with the token |
| Keys.MemoryStore.GetByID | internal/keys/keys.go:226-235 | finds the key with the ID |
| Keys.MemoryStore.Revoke | internal/keys/keys.go:250-260 | stamps now, also over an earlier stamp |
| Keys.MemoryStore.RevokeAt | internal/keys/keys.go:266-279 | stamps the given time unless already stamped |
| Keys.MemoryStore.ListExpiring | internal/keys/keys.go:283-298 | returns every due unrevoked key once and no other |
| Keys.MemoryStore.Update | internal/keys/keys.go:302-315 | patches an unrevoked key, through both indexes |
| KeysSqlite.SqlRefines | internal/keys/sqlite.go:173-427 | on readable rows every operation, seen through decryption, is the specified one; a failed encryption rejects the key |
| KeysSqlite.SqlWellFormed | internal/keys/sqlite.go:173-350 | ids and tokens stay unique, rows being readable or not |
| KeysSqlite.CreatedReadsBack | internal/keys/sqlite.go:173-236 | a created key reads back as it was, unrevoked, if and only if the cipher opens what it wrote |
| KeysSqlite.UpdatedReadsBack | internal/keys/sqlite.go:287-326 | a PATCH of a readable row reads back field by field |
| KeysSqlite.UnreadableRow | internal/keys/sqlite.go:382-407 | a row under another cipher is an error to every read and PATCH, and can be revoked once |
| KeysSqlite.CiphersOpen | internal/keys/cipher.go:36-107 | AES-GCM always does; without encryption exactly the keys that do not start with the tag |
| KeysSqlite.SqliteStore.Create | internal/keys/sqlite.go:173-203 | the INSERT, after its checks; a failed encryption or a taken id or token writes nothing |
| KeysSqlite.SqliteStore.GetByToken | internal/keys/sqlite.go:206-236 | finds the one row with the token; an unreadable one is an error |
| KeysSqlite.SqliteStore.GetByID | internal/keys/sqlite.go:211-236 | finds the row with the id; an unreadable one is an error |
| KeysSqlite.SqliteStore.Revoke | internal/keys/sqlite.go:265-283 | stamps now unless already stamped, and tells missing, revoked and unreadable rows apart |
| KeysSqlite.SqliteStore.RevokeAt | internal/keys/sqlite.go:333-350 | stamps the given time unless already stamped, and tells the same rows apart |
| KeysSqlite.SqliteStore.WriteColumns | internal/keys/sqlite.go:301-324 | the guarded UPDATE writes the mutable columns of an unrevoked row and counts it |
| KeysSqlite.SqliteStore.Update | internal/keys/sqlite.go:287-326 | without interference SELECT then UPDATE writes the patched columns; missing, unreadable and revoked rows are refused |
| KeysSqlite.SqliteStore.ListExpiring | internal/keys/sqlite.go:353-378 | fails exactly if a row that the text comparison selects is unreadable, and else returns each selected row once, decrypted |
| KeyHistories.StoresStepAlike | internal/keys/sqlite.go:173-427 | one operation keeps the two stores alike and its two outcomes agree |
| KeyHistories.TwoStoresOneSpecification | internal/keys/keys.go:188-315 | on every sequential history of keys created unrevoked the stores agree, but for the stamp of a repeated Revoke and same-second expiry listings |
| KeyHistories.SqlRunRefines | internal/keys/sqlite.go:173-427 | every run of the statements on encrypted rows is a run of the SQLite specification, seen through decryption |
| KeyHistories.StampsPart | internal/keys/keys.go:250-260 | the two stores write different tables if and only if a revoked key is revoked by hand at another time |
| KeyHistories.SqlScanExact | internal/keys/sqlite.go:353-361 | which keys the SQL scan lists, if and only if |
| KeyHistories.SqlScanAcrossSeconds | internal/keys/sqlite.go:353-361 | it lists every unrevoked key that expired in an earlier second and none of a later one |
| KeyRevocation.RevocationIsFinal | internal/keys/sqlite.go:265-350 | with PATCH split into SELECT and UPDATE and freely interleaved, a revoked row never changes again |
| KeyRevocation.UpdatesPrecedeRevocation | internal/keys/sqlite.go:287-326 | in every interleaving a PATCH that succeeds finds its row unrevoked at its UPDATE and at every earlier moment, and leaves it so |
| KeyRevocation.RevokedMeanwhileIsRefused | internal/keys/sqlite.go:321-324 | a PATCH whose key was revoked after its SELECT is refused, however late it writes |
| KeyRevocation.StatementsAgree | internal/keys/sqlite.go:265-350 | the two statements of a PATCH without others in between are the store's Update, and the stamping statement its revocation |
| KeyRevocation.InsertAgrees | internal/keys/sqlite.go:190-198 | the INSERT is the store's Create, without a stamp |
| KeySweep.SweepOnce | internal/keys/sweeper.go:37-57 | list-then-revoke over the in-memory store is the sweep of the whole table |
| KeySweep.SweepOnceSqlite | internal/keys/sweeper.go:37-57 | the same over the SQLite store: nothing if a row to be listed is unreadable, and revocations that fail are passed over |
| KeySweep.UnreadableStopsSweeps | internal/keys/sweeper.go:38-42 | one unreadable, expired, unrevoked row stops every later sweep |
| KeySweep.SweepLeavesNothingDue | internal/keys/sweeper.go:37-57 | nothing the store lists stays, but for failed revocations; new stamps equal the expiry; earlier stamps stay |
| KeySweep.NothingExpiredStays | internal/keys/sweeper.go:37-57 | over the in-memory store no expired key stays unrevoked |
| KeySweep.ExpiryIsTheBoundary | internal/proxy/proxy.go:212-227 | an unrevoked key is accepted before its expiry and refused from that instant on, a revoked one is refused |
| KeySweep.UnknownTokenIsUnknown | internal/proxy/proxy.go:316-319 | a token that no key carries is not accepted |
| KeySweep.SweepInvisibleExactly | internal/proxy/proxy.go:212-227 | over either store, a sweep at s changes no verdict in any later run without PATCHes that revive a swept key, if and only if every key it revokes has expired by s |
| KeySweep.MemorySweepIsInvisible | internal/keys/keys.go:283-298 | over the in-memory store it never shows |
| KeySweep.SqliteSweepInvisibleExactly | internal/keys/sqlite.go:353-378 | over the SQLite store it shows if and only if it revokes an unrevoked key whose expiry text comes before that of an earlier instant of its second |
| KeySweep.PatchTellsSweepsApart | internal/keys/keys.go:302-315 | why only reviving PATCHes are excluded: one of a swept key always changes the verdict on the next request |
| KeySweep.InterleavedSweepIsInvisible | internal/keys/sweeper.go:43-57 | a sweep can make its revocations at any later moments with any operations in between: no verdict from s on depends on any of them, unless a PATCH revives a listed key |
| KeySweep.PatchInBetweenIsLost | internal/keys/sweeper.go:43-51 | a reviving PATCH between listing and revocation is lost: the key is refused before its new expiry |
| Cipher.EnvelopeRoundTrip | internal/keys/cipher.go:76-107 | tag, base64, nonce split: decryption undoes encryption |
| Cipher.AesGcmLawful | internal/keys/cipher.go:76-107 | the envelope over a lawful AEAD is a lawful cipher |
| Cipher.TagsKeepApart | internal/keys/cipher.go:40-107 | neither cipher opens what the other wrote, up to plain values that carry the tag |
| Rotation.Plan | internal/keys/rotate.go:100-141 | the plan succeeds exactly when every row can be carried over, and covers exactly the rows the old cipher opens |
| Rotation.Database.Apply | internal/keys/rotate.go:148-193 | the transaction commits all planned rows or none, and succeeds if and only if no call of it fails and the first row reads back |
| Rotation.RowAfter | internal/keys/rotate.go:148-193 | every row, planned or not, stands for the same plaintext afterwards |
| Rotation.Database.RotateEncryption | internal/keys/rotate.go:43-85 | all or nothing and meaning-preserving; succeeds if and only if no call fails and every row can be carried over; rotated is the number of rows the old cipher opens and skipped the rest |
| Rotation.RotateTwice | internal/keys/rotate.go:43-85 | if the old cipher opens nothing the new one wrote, a second run rotates 0 rows |
| Meter.SpendConserved | internal/meter/meter.go:64-75 | for every history a month's total is the sum of its days |
| Meter.ComposeInjective | internal/meter/meter.go:77-94 | no two (key, period) pairs share a map key, whatever the key IDs hold |
| Meter.PeriodsAreDates | internal/meter/meter.go:77-87 | bucket names are the UTC date and month of the instant's own text |
| Meter.DaysInOrder | internal/meter/meter.go:77-87 | day numbers keep the order of time and determine date and month |
| Meter.MemoryMeter.Check | internal/meter/meter.go:48-62 | the verdict of the ledger of accepted records |
| Meter.MemoryMeter.Record | internal/meter/meter.go:65-75 | appends exactly one entry of positive cost to both buckets |
| Meter.MemoryMeter.Conserved | internal/meter/meter.go:64-75 | the stored day buckets add up to the stored month bucket |
| Meter.SqliteMeter.Scan | internal/meter/sqlite.go:109-122 | the row loop reads both amounts, in any row order and with absent rows as zero |
| Meter.SqliteMeter.Check | internal/meter/sqlite.go:93-134 | the verdict of the ledger of committed records, or an error if a cap is set and the query or its rows fail |
| Meter.SqliteMeter.Record | internal/meter/sqlite.go:140-168 | a failure at any call, also between the upserts, leaves table and ledger as they were |
| Meter.SqliteMeter.Conserved | internal/meter/sqlite.go:136-168 | the stored day rows add up to the stored month row at every point of every run |
| Meter.ReplayBoth | internal/meter/sqlite.go:93-168 | both meters give the same answers on every history |
| Pricing.Pricer.Len | internal/meter/pricing.go:56-62 | counts the priced (upstream, model) pairs |
| Pricing.Validate | internal/meter/loader.go:94-114 | accepts exactly the files without a negative price |
| Pricing.AcceptableExactly | internal/meter/loader.go:80-114 | a file is acceptable if and only if its version is empty or 1 and every price is zero or more |
| Pricing.CopyTables | internal/meter/loader.go:119-126 | fresh tables, one for each upstream, equal to the base's |
| Pricing.Override | internal/meter/loader.go:133-140 | the inner loop overrides, and counts hits and misses |
| Pricing.OverrideOne | internal/meter/loader.go:130-140 | merging one upstream leaves every other table as it was |
| Pricing.OverrideAll | internal/meter/loader.go:127-141 | the nested loops compute the merge and count overridden and added pairs |
| Pricing.LoadConfigFile | internal/meter/loader.go:66-150 | loads exactly the acceptable files; the result is the base overridden by the file, in new tables; the base is not written |
| Pricing.MergeLooksUp | internal/meter/loader.go:115-141 | a pair is priced by the file if the file has it, else by the base, and no other pair is |
| Pricing.MergedSize | internal/meter/loader.go:127-149 | merged size is base size plus added entries |
| PricingReload.SnapshotConsistency | internal/meter/loader.go:189-222 | under any interleaving of signal and poll reloads and file writes, every snapshot is the initial one or the base overridden by one single file version, and the base never changes |
| PricingReload.NewestReadStays | internal/meter/loader.go:189-222 | once all reloads are done the newest version read stays if and only if no other reload was in flight when it was swapped in |
| PricingReload.OvertakenReloadStays | internal/meter/poll.go:66-70 | an overtaken reload can leave the older version in place, and later ticks do not repair it |
| PricingReload.BadFileInstallsNothing | internal/meter/loader.go:94-114 | while the file is unacceptable no reload fetches anything, and the prices stay but for reloads in flight before |
| PricingReload.SnapshotsAreSane | internal/meter/loader.go:94-114 | readers never find a negative price |
| PricingReload.TryReload | internal/meter/loader.go:189-222 | swaps on success only, and to exactly the outcome of the version read |
| PricingReload.PollLoop | internal/meter/poll.go:44-71 | a tick reloads exactly when its stat succeeds and differs from the last one that did |
| PricingCost.UndatedExact | internal/meter/pricing.go:48-51 | the fallback drops exactly one date suffix of either form |
| PricingCost.CompactForm | internal/meter/pricing.go:51 | the first form is a dash and eight digits |
| PricingCost.DashedForm | internal/meter/pricing.go:51 | the second is a dash, four digits, and two dashed pairs of digits |
| PricingCost.UndatedExamples | internal/meter/pricing.go:48-51 | one dated name of each form, and one without a date |
| PricingCost.Cost | internal/meter/pricing.go:64-83 | the exact entry prices a response, else the undated one, else nothing does; a million times the cost is input tokens times input price plus output tokens times output price |
| PricingCost.BillMeaning | internal/meter/pricing.go:20-25 | a million input tokens cost the input price, a million output tokens the output price, and bills add up |
| PricingCost.ResolveMerged | internal/meter/pricing.go:66-83 | after a reload the order is: file dated, base dated, file undated, base undated |
| PricingCost.NoNegativeBill | internal/meter/pricing.go:21-25 | whatever files come and go no response is billed a negative amount |
| UnknownModels.Logger.ShouldLog | internal/proxy/unknown_model_logger.go:55-82 | one occurrence of one pair; other pairs keep their state |
| UnknownModels.PairsAreIndependent | internal/proxy/unknown_model_logger.go:34-42 | a pair fares as if it were alone |
| UnknownModels.StateIsHistory | internal/proxy/unknown_model_logger.go:39-42 | the stored state is the first sighting and the last log of the pair |
| UnknownModels.LoggedExactly | internal/proxy/unknown_model_logger.go:63-81 | when a call is logged, if and only if, from the history alone |
| UnknownModels.LateLogsAreApart | internal/proxy/unknown_model_logger.go:75-80 | after the burst window two logs of a pair are a steady interval apart |
| UnknownModels.LateLogsInSpan | internal/proxy/unknown_model_logger.go:75-80 | late logs within a span T number at most T / steadyInterval + 1 |

## Left out

- AdmissionBudget.BudgetOvershoot: takes the cap, the slots and the largest cost of the key as fixed; the clock read by Check and Record does not go back.
- AdmissionBudget.Crossing: same fixed terms as BudgetOvershoot.
- RatesBounds.NoOverflow: what the limiter does after an int64 has wrapped is not modelled; counters are unbounded integers.
- KeySweep.SweepOnce: runs alone; a sweep with other operations in between is a matter of verdicts only (`KeySweep.InterleavedSweepIsInvisible`), and a PATCH of a listed key in between has no guarantee from the code.
- KeysSqlite.SqliteStore.Update: two PATCHes of one key that overlap write whole rows over each other; only what concerns revocation is claimed for them.
- KeysSqlite.SqliteStore.GetByID: times that do not parse and database errors are not modelled.
- Rotation.Database.RotateEncryption: the nil and empty-path refusals and the duration figure are not part of the model; the rows are read and written with no one else connected, as the source demands.
- Pricing.LoadConfigFile: the nil-base refusal, the zero-price count and log lines are not modelled; reading and decoding the file is one step that yields a config or nothing.
- PricingReload.PollLoop: is the loop over a finite sequence of stat results; the ticker and the context that ends it are outside.
- Stream.TrailerIsIgnored: says nothing of a stream cut in mid-line, where the trailer ends up inside the unfinished line.
- Stream.StreamMeter.Read: one reader at a time, as the source has it; negative token counts from a provider are passed on as they come.
- Keys.MemoryStore.ListExpiring: order of the result is not specified; likewise ORDER BY in the SQL scan. The two List methods only copy the table out and appear as a specified operation without a method.
- KeysSqlite.SqliteStore.Create: instants outside years 0 to 9999, whose text has another width, are not modelled; the nil key is ruled out by the type.
- The admin API, its validation, error responses and the configuration: each settled one branch at a time.
- The provider adapters: assumed only to record at most once for each request and before its Release.
- Base-URL checking: rests on URL parsing and name lookup.
- Cryptography, base64, randomness and the SQLite engine: abstract, used through their laws.
- Signals, flags and wiring of the commands, the kill switch and the drain flag.
- Rounding of floating-point money: `real` is exact.
