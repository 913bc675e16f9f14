# Zaps kernels in Dafny

A model of the small stateful kernels of Zaps, the Stellar payments application, with proofs of
what they promise over whole runs. Database tables, Redis sorted sets and the phone's secure store
are values that statements change; each SQL statement, Redis script and stretch of TypeScript
between two awaits is one atomic step.

Check everything with `dafny verify dfyconfig.toml`.

| file | kernel |
|---|---|
| `AuthLimiter`, `AuthLimiterSafety`, `RedisLimiter` | the sliding-window limiter of the auth routes: the full-history rule, the pruned in-process log, the Redis script, and what they guarantee |
| `Bits`, `Crc16`, `Base32`, `StellarAddress`, `StellarTypos` | address decoding: checksum as polynomial division, Base32 as regrouping of a bit stream (section 6 of RFC 4648), the accepted strings exactly (StrKey, SEP-0023), the mistypings that are caught |
| `KeyRotation`, `KeyRotationSafety` | two-slot rotation of stored tokens, stopped anywhere |
| `TokenRefresh`, `TokenSpending` | single-flight refresh of the dashboard's access token, and when a refresh token is spent twice |
| `PayoutBatch`, `PayoutUploads`, `PayoutCounters`, `PayoutSafety` | payout uploads, reconciliation webhooks, counters, rounding of amounts |
| `YieldLedger` | deposits, withdrawals and sweeps as transactions |
| `BridgeStatus` | status requests and poller racing on a bridge row |
| `TokenBucket` | the global request limiter |
| `CsvExport`, `CsvUpload`, `CsvUploadInverse`, `Text`, `LikePattern`, `JsonSearch` | text formats: CSV writers and reader, LIKE escaping, recursive JSON search |

Each mutable object of the source is a class whose methods are proved against a function on values;
the lemmas are about runs of those functions. Machine words (`u16`, `u32`, `u8`) in the address
code are bit sequences with the shifts, masks and casts written out, so bits that leave a word are lost.

## Assumptions

- Limiters: requests take the lock in the order of their times. The source reads the clock at
  `backend/src/api/auth.rs:138`, before it takes the lock at line 175, so a request can be late;
  `ClockBoundIff` shows that nothing weaker will do. Durations are whole milliseconds, and both
  limiters compare one clock. Members of the sorted set are unique per request. An expired Redis key
  may be dropped at any moment from its deadline on.
- Rotation: reads of the secure store succeed, and operations on it do not overlap. A rotation may
  stop before any write and any deletion may fail silently.
- Payout webhooks: none for the terminal transition. Counters, and the absence of stuck batches, need
  webhooks that change no outcome outside the batch they recount; a webhook that matches one row is
  such. `CountersExactIff` shows that this is exact, `SharedPaymentIdMiscounts` where it fails.
- Bridge: upstream never leaves a terminal answer, where a lemma says so. `AnswersStickyIff` gives the
  condition on its replies, including the "not found" that is reported as PENDING.
- Amounts in uploads are exact decimals, positive as the validation before them guarantees.

## Where the code and its comments differ

The model follows the code.

- `backend/src/db/yield.rs:31` says a deposit decreases the available balance; it does not
  (`Conservation`, `AvailableIsNetWithdrawals`).
- `mobileapp/app/biometric.tsx:226` calls stale data in the old slot benign; it can bring a deleted
  token back (`StaysDeletedIff`, `InterruptedRotationResurrects`).
- `backend/src/api/auth.rs:743` says the format check ensures valid Base32; its cast to a byte also
  admits characters beyond ASCII (`ValidDecodesIffAscii`, `NonAsciiPassesFormatCheck`).
- The address decoder ignores up to seven leftover bits, so a 57-symbol string is also accepted
  (`AcceptedExactly`, `TrailingSymbolAccepted`).

## Model

| member | source | states |
|---|---|---|
| AuthLimiter.AuthRateLimiter.CheckLocal | backend/src/api/auth.rs:174-202 | one check, with pruning, popping and recording, for any clock value: the new logs and the decision |
| AuthLimiter.AuthRateLimiter.PopOld | backend/src/api/auth.rs:186-191 | the popping loop leaves the log from its first young entry on |
| AuthLimiter.StepRefines | backend/src/api/auth.rs:174-202 | one check on logs that agree with the admitted history decides like the full-history rule and keeps the agreement |
| AuthLimiter.LocalRefinesRule | backend/src/api/auth.rs:174-202 | over every monotone run the logs decide "allowed iff fewer than the limit of this key's admitted requests are younger than the window"; every log stays sorted and within the limit |
| AuthLimiterSafety.SlidingWindowBound | backend/src/api/auth.rs:28-32 | no half-open interval of one window contains more admissions of a key than the limit, across interleavings of keys and prunings |
| AuthLimiterSafety.AllowedIffRoom | backend/src/api/auth.rs:174-202 | after every monotone run a request is allowed if and only if fewer than the limit of the key's admissions lie in the window that ends at it |
| AuthLimiterSafety.TenPerMinute | backend/src/api/auth.rs:25-35 | with the constants of the auth routes, at most ten requests of a key pass in any minute |
| AuthLimiterSafety.PruningIsInvisible | backend/src/api/auth.rs:177-183 | the pruning threshold never changes a decision |
| AuthLimiterSafety.RetryAfterIsExact | backend/src/api/auth.rs:193-201 | without an admission in between, a retry is allowed if and only if the advertised time has passed |
| AuthLimiterSafety.RetryHeaderIsLeast | backend/src/api/auth.rs:250-252 | the header is the least whole number of seconds after which a retry passes |
| AuthLimiterSafety.ClockBoundIff | backend/src/api/auth.rs:138-202 | for every configuration, all runs whose times step back by at most d keep the bound if and only if d is zero (or the window is empty) |
| AuthLimiterSafety.BackwardClockBreaksBound | backend/src/api/auth.rs:185-194 | for every limit from two on and every threshold, one request a millisecond out of order lets one too many into a window, through popping alone |
| AuthLimiterSafety.PruningBreaksBound | backend/src/api/auth.rs:177-183 | with any limit, hence also one, pruning can drop a log that a late request still needs |
| RedisLimiter.RedisServer.EvalSlidingWindow | backend/src/api/auth.rs:50-67 | the script's effect on the sorted set and its answer |
| RedisLimiter.RedisServer.OldestScore | backend/src/api/auth.rs:60-67 | the lowest score of the sorted set, over its members in any order |
| RedisLimiter.RedisRefinesRule | backend/src/api/auth.rs:50-67 | over every run the script decides like the full-history rule, whenever expired keys are dropped |
| RedisLimiter.RedisAndLocalAgree | backend/src/api/auth.rs:141-202 | script and in-process log give the same decisions and waiting times at every step |
| Crc16.Crc16 | backend/src/api/auth.rs:733-741 | the nibble-folded loop computes the bit-by-bit remainder, for every message |
| Crc16.FoldIsEightShifts | backend/src/api/auth.rs:736-738 | one loop body equals eight division steps |
| Crc16.CrcIsRemainder | backend/src/api/auth.rs:733-741 | a register is the checksum if and only if message times x^16 is a multiple of x^16+x^12+x^5+1 plus that register |
| Crc16.CrcLinear | backend/src/api/auth.rs:733-741 | linear over exclusive or of equal-length messages |
| Crc16.BurstDetected | backend/src/api/auth.rs:692-696 | equal-length messages differing only within one 16-bit window have different checksums |
| Base32.DecodeBase32 | backend/src/api/auth.rs:711-731 | the accumulator loop decodes to the whole bytes of the five-bit stream, or to nothing on a foreign byte |
| Base32.AddSymbol | backend/src/api/auth.rs:723-728 | the wrapping word keeps "bytes so far, then leftover bits" equal to the unbounded stream |
| Base32.DecodeEncode | backend/src/api/auth.rs:711-731 | decoding is a left inverse of the unpadded encoder, for every byte string |
| Base32.EncodeDecode | backend/src/api/auth.rs:711-731 | on whole groups of eight symbols encoding undoes decoding |
| Base32.StandardAlphabet | backend/src/api/auth.rs:711-722 | the symbols are those of table 3 of RFC 4648, in its order |
| StellarAddress.DecodeAddress | backend/src/api/auth.rs:677-698 | the checks before signature verification, with their early exits |
| StellarAddress.AcceptedExactly | backend/src/api/auth.rs:677-698 | a string yields a key if and only if it is the encoding of 0x30, key and little-endian checksum, plus at most one more symbol |
| StellarAddress.AddressUnique | backend/src/api/auth.rs:677-698 | with 56 symbols, equal keys mean equal addresses |
| StellarAddress.TrailingSymbolAccepted | backend/src/api/auth.rs:682-684 | every accepted address stays accepted with any symbol appended |
| StellarAddress.ValidAsciiIff | backend/src/api/auth.rs:743-750 | of ASCII strings the format check admits exactly 56 Base32 symbols that start with G |
| StellarTypos.TypoRejectedIff | backend/src/api/auth.rs:692-696 | for every accepted address and every window of three symbols, all changes inside it are rejected if and only if the window does not start at the 51st or 53rd symbol |
| StellarTypos.TypoRejected | backend/src/api/auth.rs:692-696 | changing up to three neighbouring symbols among the first 52 is always rejected |
| StellarTypos.EndTypoRejected | backend/src/api/auth.rs:692-696 | so it is in the windows from the 52nd and the 54th symbol on |
| StellarTypos.EndTypoAccepted | backend/src/api/auth.rs:692-696 | every accepted address has undetected changes in the windows from the 51st and the 53rd symbol on |
| StellarAddress.ValidDecodesIffAscii | backend/src/api/auth.rs:743-750 | an address that passes the format check decodes if and only if it is ASCII |
| StellarAddress.AcceptedIsValid | backend/src/api/auth.rs:743-750 | every 56-byte address that yields a key passes the format check |
| StellarAddress.NonAsciiPassesFormatCheck | backend/src/api/auth.rs:747-749 | a string that passes the format check and does not decode |
| KeyRotation.SecureStorage.GetRotatedToken | mobileapp/app/biometric.tsx:129-144 | active slot first, then the bare entry |
| KeyRotation.SecureStorage.SetRotatedToken | mobileapp/app/biometric.tsx:152-160 | writes the active slot and nothing else |
| KeyRotation.SecureStorage.DeleteRotatedToken | mobileapp/app/biometric.tsx:165-170 | removes active and bare entries, each as far as its deletion succeeds |
| KeyRotation.SecureStorage.CopyTokens | mobileapp/app/biometric.tsx:209-216 | writes the copies in order, up to where it stops |
| KeyRotation.SecureStorage.DeleteOldSlot | mobileapp/app/biometric.tsx:226-233 | performs the best-effort deletions in order, up to where it stops |
| KeyRotation.SecureStorage.RotateSecureStorageKey | mobileapp/app/biometric.tsx:186-246 | the store after any number of writes of the planned rotation, and success exactly when all were made |
| KeyRotationSafety.ReadAfterRotation | mobileapp/app/biometric.tsx:178-182 | for every stopping point and failing deletions, what each token reads as afterwards; a readable token never changes |
| KeyRotationSafety.RunServes | mobileapp/app/biometric.tsx:129-246 | over every run with interruptions, a token set and not deleted since is read back |
| KeyRotationSafety.FullRotationCleans | mobileapp/app/biometric.tsx:226-233 | a completed rotation leaves the inactive slot and the bare entries empty |
| KeyRotationSafety.RunMirrors | mobileapp/app/biometric.tsx:129-246 | when every deletion and rotation completes, the store is a plain map on which rotation is the identity |
| KeyRotationSafety.LegacyTokenServes | mobileapp/app/biometric.tsx:121-141 | a token from before rotation existed reads back with its value over every run that does not set or delete it |
| KeyRotationSafety.FirstRotation | mobileapp/app/biometric.tsx:107-160 | from an empty store the first token goes to slot 0, and the first completed rotation moves it to slot 1 and leaves nothing behind |
| KeyRotationSafety.StaysDeletedIff | mobileapp/app/biometric.tsx:210-216 | a deleted token stays unreadable over every run that does not set it again, interruptions included, if and only if its inactive slot was empty |
| KeyRotationSafety.InterruptedRotationResurrects | mobileapp/app/biometric.tsx:226-233 | a rotation stopped after the flip, a deletion and a completed rotation restore any token that was in the active slot |
| KeyRotationSafety.NamesDistinct | mobileapp/app/biometric.tsx:92-108 | different entries have different key names, none the pointer's |
| KeyRotationSafety.DocumentedNames | mobileapp/app/biometric.tsx:100-108 | the documented examples of entry names |
| TokenRefresh.ApiClient.StoreTokens | dashboard/lib/api.ts:25-30 | the access token is replaced, the refresh token only by a non-empty one |
| TokenRefresh.ApiClient.ClearTokens | dashboard/lib/api.ts:32-38 | both tokens are removed |
| TokenRefresh.ApiClient.StartRequest | dashboard/lib/api.ts:123-128 | the original request carries the access token stored at that moment |
| TokenRefresh.ApiClient.RefreshAccessToken | dashboard/lib/api.ts:58-71 | up to its first await: join, give up, or submit the stored token |
| TokenRefresh.ApiClient.OnAnswer | dashboard/lib/api.ts:128-131 | anything but a 401 ends the request; a 401 joins or starts a refresh |
| TokenRefresh.ApiClient.OnRefreshReply | dashboard/lib/api.ts:72-97 | lost, rejected, empty and accepted replies, with the cleared in-flight marker |
| TokenRefresh.ApiClient.OnRefreshed | dashboard/lib/api.ts:131-134 | a joiner replays with the promised token or surfaces its first response |
| TokenRefresh.ApiClient.OnReplayed | dashboard/lib/api.ts:134 | the replay's response ends the request, whatever it is: nothing more is sent |
| TokenRefresh.SingleFlight | dashboard/lib/api.ts:40-49 | over every interleaving at most one refresh call is outstanding, and the wire carries exactly the recorded calls |
| TokenRefresh.SentAtMostTwice | dashboard/lib/api.ts:115-134 | each request is sent at most twice; a second time if and only if the call it joined produced a token, and with that token |
| TokenRefresh.JoinersAgree | dashboard/lib/api.ts:40-49 | joiners of one call all replay with the same token or all give up |
| TokenRefresh.NobodyStranded | dashboard/lib/api.ts:94-99 | a waiting request waits for the outstanding call or can go on |
| TokenRefresh.StoredIsLastIssued | dashboard/lib/api.ts:24-97 | over every run the stored tokens are the last ones issued since the last logout, rejection or reply without an access token; a login or reply without a refresh token keeps the stored one |
| TokenRefresh.CallsAreAnswered | dashboard/lib/api.ts:63-99 | over every run the k-th reply resolves the k-th refresh call, with its access token if it brought one, else with nothing |
| TokenRefresh.SessionWhole | dashboard/lib/api.ts:24-38 | over every run a stored refresh token comes with an access token |
| TokenRefresh.NewRequestsUseRefreshed | dashboard/lib/api.ts:88-90 | until the session changes again, new requests carry the token the joiners replay with |
| TokenRefresh.LogoutHoldsIff | dashboard/lib/api.ts:32-38 | after a logout the session stays empty in every continuation without a login if and only if no refresh call was outstanding |
| TokenRefresh.LateReplyLogsIn | dashboard/lib/api.ts:88-90 | a run from a new client: the reply to a refresh started before the logout logs the user in again |
| TokenSpending.RespentIffLeftBehind | dashboard/lib/api.ts:43-97 | for every run with fresh tokens, logins and logouts included, no refresh token is submitted twice if and only if no 401 starts a refresh while a token spent by a lost or non-rotating reply is still stored |
| TokenSpending.NeverSpentTwice | dashboard/lib/api.ts:43-47 | in particular none is when no reply is lost or accepted without rotation |
| TokenSpending.LostReplyRespends | dashboard/lib/api.ts:87-93 | two runs from a new client: after a lost reply, and after one without a new refresh token, the next 401 submits the same token again |
| PayoutBatch.PayoutStore.PersistBatch | backend/src/api/bridge.rs:473-532 | batch row with the rounded total first, then recipients until one is refused or the process stops; success exactly when all are stored |
| PayoutBatch.PayoutStore.UpdateRecipients | backend/src/api/payouts.rs:443-504 | the three update statements over all rows, and some updated row |
| PayoutBatch.PayoutStore.CountStatus | backend/src/api/payouts.rs:559-560 | the counting sub-select |
| PayoutBatch.PayoutStore.ReconcileParent | backend/src/api/payouts.rs:556-587 | recount under the table's check, then the guarded terminal transition |
| PayoutBatch.PayoutStore.SdpReconciliationWebhook | backend/src/api/payouts.rs:443-587 | one uninterrupted webhook, or no change when no row matches |
| PayoutSafety.TerminalIsForever | backend/src/api/payouts.rs:579-580 | no event of any interleaving changes a terminal batch status |
| PayoutSafety.StoppedNeverTerminal | backend/src/api/bridge.rs:508-529 | a batch whose insert loop stopped early never becomes terminal |
| PayoutSafety.CheckNeverFails | backend/migrations/20260725000000_payout_batches.sql:42-44 | the counter check of the table is satisfied by every recount |
| PayoutCounters.StepCountedIff | backend/src/api/payouts.rs:443-567 | one step of any interleaving keeps the counters exact if and only if it changes no outcome in a batch that nobody is about to recount |
| PayoutCounters.CountersExactIff | backend/src/api/payouts.rs:443-567 | over every interleaving the counters are exact at every moment at which no webhook is half-way through the batch, if and only if every step is harmless in that sense |
| PayoutCounters.ServeExactIff | backend/src/api/payouts.rs:443-567 | after one uninterrupted webhook all counters are exact again if and only if each matched row outside the recounted batch keeps its outcome |
| PayoutCounters.SharedPaymentIdMiscounts | backend/src/api/payouts.rs:453 | a run from the empty database: a payment id shared by two batches leaves one batch's counters behind for good |
| PayoutSafety.TerminalOnlyWhenSettled | backend/src/api/payouts.rs:556-587 | in every interleaving, with no assumption, a terminal batch was non-empty, complete and settled at some moment, and its status tells the outcomes its recipients had then |
| PayoutSafety.SettledWhenQuiet | backend/src/api/payouts.rs:569-587 | a batch becomes terminal only at the end of a webhook, and in a harmless run with no other half-way it is settled that way at that very moment |
| PayoutSafety.TerminalWhilePending | backend/src/api/payouts.rs:556-587 | a run of two racing webhooks in which a batch turns completed while its recipient is back at pending |
| PayoutSafety.NeverStuck | backend/src/api/payouts.rs:569-587 | in every harmless run an open batch that is non-empty, complete and settled still has a webhook under way |
| PayoutSafety.WebhookOutcome | backend/src/api/payouts.rs:443-587 | after one uninterrupted webhook, whatever rows it matches, the counters it recounts are exact and that open batch is terminal if and only if non-empty, complete and settled, with a status that tells its recipients' outcomes |
| PayoutUploads.UploadStores | backend/src/api/bridge.rs:478-529 | whatever the upload, stop or refusal: one new open batch with count and rounded total, and as new rows the first records in order, each with its destination and rounded amount, pending, without payment id; where they end, the process stopped or a constraint refuses |
| PayoutUploads.UploadCompletesIff | backend/src/api/bridge.rs:508-529 | an upload is stored in full if and only if the process lives, destinations fit and differ, and every amount is at least half a micro-unit |
| PayoutUploads.RowIsLastReport | backend/src/api/payouts.rs:443-504 | over every interleaving a recipient's row holds the last status reported for it by recipient or payment id, and the last payment id given with a recipient id |
| PayoutUploads.RowIsKept | backend/src/api/payouts.rs:443-504 | over every run a row keeps its batch, destination and amount |
| PayoutUploads.TotalWithinRounding | backend/src/api/bridge.rs:478-529 | the stored batch total and the sum of its n stored recipient rows differ by at most (n+1)/2 micro-units |
| PayoutUploads.TotalExact | backend/src/api/bridge.rs:478-529 | with at most six decimals they are equal, and equal the exact sum |
| YieldLedger.YieldStore.ProcessYieldDeposit | backend/src/db/yield.rs:32-83 | commit of ledger row and upsert, or rollback with the error |
| YieldLedger.YieldStore.ProcessYieldWithdrawal | backend/src/db/yield.rs:86-138 | commit of ledger row and move, or rollback with the error |
| YieldLedger.YieldStore.ProcessInternalSweepDeposit | backend/src/db/yield.rs:294-336 | commit of ledger row and sweep, or rollback, also when no row qualifies |
| YieldLedger.YieldStore.GetOrCreateYieldBalance | backend/src/db/yield.rs:6-29 | creates a zero row or changes no balance |
| YieldLedger.CommitsIff | backend/src/db/yield.rs:6-336 | each of the four operations commits if and only if its hash is new and at most 64 characters, the user is known, a sweep is covered by an existing row, and the resulting balances fit; a withdrawal without a row commits |
| YieldLedger.LedgerIsCommitted | backend/src/db/yield.rs:32-336 | over every run the ledger grows by exactly the rows of the operations that satisfy that condition by then, in order |
| YieldLedger.RefusedWith | backend/src/db/yield.rs:6-336 | for every operation on every database, which error comes back, if any |
| YieldLedger.RunSound | backend/migrations/20260625000000_create_yield_tables.sql:2-17 | over every run one balance row per user, no balance negative or out of range, hashes unique |
| YieldLedger.Conservation | backend/src/db/yield.rs:477-528 | over every run a user's balances add up to that user's deposits, and platform totals to all deposits |
| YieldLedger.AvailableIsNetWithdrawals | backend/src/db/yield.rs:85-138 | available is withdrawals minus sweeps minus what was withdrawn without a balance row |
| YieldLedger.AppliedAtMostOnce | backend/src/db/yield.rs:53-64 | after a hash has committed, any later operation with it changes nothing |
| BridgeStatus.BridgeStore.SubmitBridgeTx | backend/src/api/bridge.rs:148-155 | a new row is pending, an existing one keeps its status and confirmations |
| BridgeStatus.BridgeStore.GetBridgeStatus | backend/src/api/bridge.rs:191-264 | one status request: terminal rows are not polled, others take the answer and the larger confirmations |
| BridgeStatus.BridgeStore.PollerTick | backend/src/api/bridge.rs:306-356 | one tick writes exactly the loaded rows for which something changed |
| BridgeStatus.TerminalIsUpstreams | backend/src/api/bridge.rs:191-357 | over every interleaving, with a sticky upstream, a stored terminal status is upstream's |
| BridgeStatus.ResubmitKeepsRow | backend/src/api/bridge.rs:147-155 | re-submission never changes a row |
| BridgeStatus.TerminalLostIffStale | backend/src/api/bridge.rs:231-251 | a terminal row can be lost if and only if an agent is on its way to write PENDING back |
| BridgeStatus.OvertakenRequestLoses | backend/src/api/bridge.rs:231-245 | a run from the start in which two overlapping status requests reach that state and lose the terminal row |
| BridgeStatus.SerialIsTurns | backend/src/api/bridge.rs:231-245 | a run of uninterrupted read-poll-writes is the fold of single turns over the row |
| BridgeStatus.SerializedIsMonotone | backend/src/api/bridge.rs:231-245 | in serialized runs terminal rows never change and confirmations never decrease |
| BridgeStatus.SerialOutcome | backend/src/api/bridge.rs:231-345 | a serialized run ends with the first terminal answer heard, else PENDING, and with the most confirmations heard up to then, whoever asked |
| BridgeStatus.DeliveryIsStored | backend/src/services/allbridge.rs:131-150 | the first serialized turn that hears a reply stores SUCCESS if and only if the receiving leg is there and no leg failed, FAILED if and only if one failed |
| BridgeStatus.AnswerCounts | backend/src/services/allbridge.rs:119-129 | an answer's confirmations are the larger of the two legs', at least zero, when they fit 31 bits |
| BridgeStatus.AnswersStickyIff | backend/src/services/allbridge.rs:131-150 | with progressing legs, upstream is sticky in an interleaving if and only if no reply after a terminal one is "not found" or reports a failure after delivery |
| TokenBucket.RateLimiter.CheckRate | backend/src/main.rs:110-129 | one check: the new buckets and the answer |
| TokenBucket.TokensInRange | backend/src/main.rs:110-129 | tokens stay between zero and the maximum over every run |
| TokenBucket.AdmittedSinceFirst | backend/src/main.rs:110-129 | admissions since a key's first request are at most the maximum plus one refill per whole second |
| TokenBucket.AdmittedInSpan | backend/src/main.rs:110-129 | over any interval, fewer admissions than the maximum plus one refill per whole second plus one |
| TokenBucket.SpanBoundAttained | backend/src/main.rs:110-129 | for every number of whole seconds some monotone run reaches that bound, when one refill fits the maximum |
| TokenBucket.RefillRestartsClock | backend/src/main.rs:115-121 | fractions of a second are lost: after a refill is spent, nothing passes for a whole second from the request that triggered it |
| CsvExport.ExportBatch | backend/src/api/payouts.rs:284-318 | a quote-aware reader returns the four named columns and, row by row, each recipient's value under its name, empty where missing |
| CsvExport.FeedCsvField | backend/src/api/payouts.rs:312-318 | an exported field reads back as exactly its value |
| CsvExport.PlainIffHarmless | backend/src/api/payouts.rs:312-318 | a field is written as it is if and only if it has no comma, quote or line break |
| CsvExport.TransactionsRead | dashboard/lib/utils.ts:5-16 | reading the dashboard export returns the eight named columns with each transaction's values, empty where missing |
| CsvExport.EveryCellQuoted | dashboard/lib/utils.ts:11-12 | every cell is quoted, with inner quotes doubled |
| CsvUpload.ParseCsv | backend/src/api/bridge.rs:405-451 | header row, column positions, skipped blank lines, error cases, records |
| CsvUpload.ColumnsAreNamed | backend/src/api/bridge.rs:413-424 | the columns used are the first named destination, amount and memo in any letter case; without one of the first two, which error |
| CsvUploadInverse.ParseInvertsWrite | backend/src/api/bridge.rs:405-451 | reading a written file gives row by row the cells under those columns, for every column order, white space around cells, short rows, blank lines, either line ending, closed or not, and commas in the last column |
| CsvUploadInverse.ParseRefuses | backend/src/api/bridge.rs:416-423 | a file is refused for a missing column if and only if its header lacks it, whatever follows |
| CsvUploadInverse.ParseEmpty | backend/src/api/bridge.rs:406-412 | the other two errors are text that is not UTF-8 and the empty file, and nothing else |
| LikePattern.EscapeLikePattern | backend/src/api/user.rs:159-168 | the escaped term followed by % matches exactly the strings that start with the term |
| LikePattern.EscapedIsLiteral | backend/src/api/user.rs:156-158 | before any further pattern, an escaped term consumes exactly itself |
| LikePattern.UsernamePrefix | backend/src/api/user.rs:284-298 | for every lower-casing of characters beyond ASCII, the pattern matches exactly the stored names that start with the lower-cased term |
| LikePattern.AsciiUsernamePrefix | backend/src/api/user.rs:284-298 | for an ASCII term, these are the names with that prefix, letter case aside |
| LikePattern.KelvinFindsK | backend/src/api/user.rs:284-285 | beyond ASCII it is not: the Kelvin sign finds the names that start with k |
| JsonSearch.FindIsFirstOccurrence | backend/src/indexer/parser.rs:210-241 | the search returns exactly the first convertible value of the pre-order enumeration, nothing if none converts |
| JsonSearch.NestedStringIff | backend/src/indexer/parser.rs:210-226 | a text is found if and only if it is the first occurrence that is a string or number |
| JsonSearch.NestedI64Iff | backend/src/indexer/parser.rs:228-241 | an integer is found if and only if it is the first occurrence that is a 64-bit number or the text of one |
| JsonSearch.ParseIff | backend/src/indexer/parser.rs:234 | a text is read if and only if it is an optional sign and digits whose value fits 64 bits |
| JsonSearch.TxHashIsFirst | backend/src/indexer/parser.rs:243-248 | the hash is the first textual occurrence under the three spellings, else "unknown" |
| JsonSearch.ParsePrinted | backend/src/indexer/parser.rs:228-237 | a printed integer is read back if and only if it fits 64 bits |

## Left out

- HTTP handlers, routing, health probes, image and storage code, tracing, user interface: input and output.
- Ed25519, HMAC, JWT and JWKS verification: only the address decoding before the signature check is modelled.
- The switch from Redis to the in-process limiter when Redis fails: the two are compared on full runs only.
- Overlapping operations on the secure store, and reads of it that fail.
- TokenSpending.NeverSpentTwice: a lost reply and a reply without rotation leave the spent token stored; RespentIffLeftBehind says exactly when it is submitted again.
- `disbursement_worker` and other code that changes batches: `Open` stands for PENDING and PROCESSING, and CANCELLED does not arise.
- Status text of webhooks and of bridge legs: lookup tables from words to the statuses used here.
- Validation of upload records, and amounts as binary floating point, including not-a-number, overflow and saturation.
- The order in which the poller picks at most 100 rows: its tick is proved for any choice of pending rows.
- Timestamps, audit rows, error details and transaction hashes of recipients.
- TokenBucket.RateLimiter.CheckRate: tokens are unbounded integers; the source's 64-bit product cannot overflow within the life of a process.
- LikePattern.UsernamePrefix: lower-casing goes character by character; the two forms of the Greek small sigma, which depend on the context, are not told apart.
- CsvUpload.ParseCsv: header names are lower-cased in ASCII, which decides the three comparisons the source makes.
- Yield rates, snapshots and sweep back-off: plain queries.
