# Verified model of the x402 payment path and the facilitator client

This project models the state machines, ledgers, arithmetic and text codecs by which the SDK decides
what to pay, signs for it, keeps track of what it spent, and protects itself from a slow, failing or
lying facilitator. XDR, the RPC, HMAC, the network and the clock are parameters of the model; every
theorem ranges over all their answers, and over every interleaving where the source awaits.

Each module follows one part of the source:

- `CircuitBreaker` holds the four variables of the breaker. They are proved to be what the *history*
  of starts, completions, state reads and resets demands, and the theorems are about all histories.
- `PaymentSelection`, `PaymentSigning`: the guards over a 402 challenge, the check of an
  authorization entry, the signing loop over the auth array and `fetch` around it.
- `PaymentSettlement`: what a settle header is evidence of, and the paying client that retries on that
  evidence under a session ceiling, compared with what the chain really moved.
- `BudgetRules`: attribute budgets, checked before and recorded after the payment.
- `SpendLedgers`: receipts, the session budget and the settled-spend ledger as two classes, proved
  against one specification each, and the two specifications against each other.
- `RateLimiting`: the token bucket against a reference that knows no tokens, only windows of time.
- `PromiseQueue`, `SharedTracker`: the promise-chain mutex, and the store-backed tracker it guards.
- `RequestAuth`, `ReplayGuard`: signed requests and the two replay guards.
- `KeyRotation`, `IdempotentSubmission`: protocols cut at their awaits.
- `SignatureMap`, `TransactionPolling`: the order of the smart-wallet signature map; the polling loop.
- `Decimal`, `TokenAmounts`, `Base64`: codecs, with their round trips. `Prelude` has `Option`,
  `Result` and the like.

Where the code does less than its documentation says, the model follows the code and a theorem says
exactly when the documentation holds:

- The breaker can be wedged half-open exactly when it is configured without trial calls (and some outcome
  counts as a failure).
- Sequential payments stay within a period ceiling, and concurrent ones within the bound for their number,
  exactly when time windows cannot move a request between a rule with a ceiling and anything else, no rule
  included: the client matches the rule again, with a new clock, when it records.
- `stroopsToXlm` is the seven-decimals printer except on negative amounts with a fraction.
- The session budget and the settled-spend ledger agree exactly on covered operations.
- The store-backed tracker reports like the in-memory one exactly when no two rules share a key.
- Key rotation leaves a key behind exactly when a mint succeeds over another key than the one its rotation
  started from, or fails after having put a key on the wallet.
- A key whose revocation failed stays valid for ever as far as rotation goes, not until the next successful
  rotation, as the comment has it.
- The advice to retry with a fresh key after a definite network failure is safe exactly for a failure
  of the first attempt.
- The evicting replay guard accepts what a guard that never forgets accepts exactly in the runs in which no
  nonce comes back, in time, more than the maximal age after it was first presented in time. A challenge with
  its timestamp unchanged does so exactly if that was ahead of the clock, one with the default timestamp as
  soon as the entry has expired.
- The signature map ascends exactly when the policies are distinct and, if there are any, the signer
  is an Ed25519 key.
- The waiting time of the bucket suffices exactly when a token fits into it at all.
- The signature lifetime stays within the server's window, and within the client's own cap, except
  where the three-ledger minimum overrides them.
- The session ceiling of the paying client bounds the money moved exactly when no payment settles
  behind an error status or a lost response; such a payment is not recorded. (The ledger's comment
  says that only confirmed settlements are recorded; the code also records those in doubt.)
- A settlement that `fetch` reports is a confirmed one exactly when its hash is well formed and the
  facilitator did not say that it failed (`ReportedSettlementIsConfirmed`).
- Polling ends exactly when the interval is positive or the first deadline check fails already.
- A canonical request string determines request, timestamp and nonce, among all there are, exactly when
  none of them holds a newline, the body included. Under the timestamp and nonce signed, it determines the
  request exactly when newline, timestamp, newline, nonce, newline occurs only where it separates path and
  body.
- The preference selector and the selection of the client agree on well-formed options in several assets
  exactly when the cheapest number happens to be in the preferred asset.
- `maxAmount` bounds each transfer that one `fetch` signs for. Their sum is the price times the number of
  entries that the RPC presents for the payer.

## Model

| member | source | states |
|---|---|---|
| CircuitBreaker.Breaker.ReadState | src/circuit-breaker.ts:120-127 | the lazy getter: the state after it is the one the history demands, and it is not open once the cooldown has passed since the latest failure |
| CircuitBreaker.Breaker.Execute | src/circuit-breaker.ts:134-148 | a call is admitted exactly as the history demands, on one reading of the clock if that finds the breaker open and on two otherwise |
| CircuitBreaker.Breaker.Complete | src/circuit-breaker.ts:97-117 | a call may settle in any later state; without a custom test a resolved call, or a rejection with `undefined`, closes the breaker and any other rejection is one failure more; the variables still are what the extended history demands |
| CircuitBreaker.ResolvedCallsNeverTrip | src/circuit-breaker.ts:109-117 | without a custom test, a run whose calls all resolve never leaves the closed state |
| CircuitBreaker.RejectionsInARowTrip | src/circuit-breaker.ts:97-117 | without a custom test, `failureThreshold` rejections in a row open the breaker, in every interleaving, and it is closed at no time after that |
| CircuitBreaker.CustomTestDecides | src/circuit-breaker.ts:109-114 | with a custom test, exactly the outcomes it says `true` to extend the failures in a row, and all others end them |
| CircuitBreaker.Breaker.ResetBreaker | src/circuit-breaker.ts:131-133 | a reset closes the breaker, and the calls still running are accounted for afterwards |
| CircuitBreaker.HalfOpenTrialsAreRunning | src/circuit-breaker.ts:134-148 | in every run a half-open breaker has used at most `halfOpenMaxCalls` trials, and each of them is still in flight |
| CircuitBreaker.HalfOpenEpisodeIsLimited | src/circuit-breaker.ts:97-148 | in every run, as long as the breaker stays half-open nothing completes and at most `halfOpenMaxCalls` calls run: whatever completes first, also a call admitted long before, ends it |
| CircuitBreaker.WedgedOnlyWithoutTrials | src/circuit-breaker.ts:134-148 | some run leaves the breaker half-open with nothing in flight and every call refused if and only if `halfOpenMaxCalls` is not positive and some outcome counts as a failure |
| CircuitBreaker.CooldownIsRespected | src/circuit-breaker.ts:120-148 | while tripped, no call runs before `openDurationMs` have passed since every failure seen so far, late ones included |
| CircuitBreaker.OutageLoadIsBounded | src/circuit-breaker.ts:79-157 | during an outage, in every interleaving, at most `halfOpenMaxCalls` calls per full cooldown reach the failing service |
| PaymentSelection.SelectsFirstCheapest | src/x402-guards.ts:101-151 | the selection succeeds with an option if and only if that is the first cheapest of the exact, on-network, sponsored, allowed options, all of these well formed, and within the limit |
| PaymentSelection.SelectFailsOnAmounts | src/x402-guards.ts:142-149 | the over-limit error means exactly that there are eligible options, all well formed and all dearer than the limit; the malformed-amount error exactly that an eligible one is malformed |
| PaymentSelection.SelectFailsOnOptions | src/x402-guards.ts:107-137 | exactly when each of the three refusals that precede the amounts is given |
| PaymentSelection.IneligibleOptionsDoNotMatter | src/x402-guards.ts:107-133 | options outside the eligible set, inserted anywhere, never change a successful choice |
| PaymentSelection.CreatePaymentGuardMeans | src/x402-client.ts:263-271 | the guards accept exactly an allowed asset and an amount of digits within the limit, and refuse all else for the first reason |
| PaymentSelection.CreatePaymentAcceptsSelection | src/x402-client.ts:263-271 | the guards that `createPayment` applies again accept whatever was selected |
| PaymentSelection.GroupByAsset | contrib/x402-multi-asset/multi-asset-selector.ts:56-62 | the grouping loop files every option under its asset, in order, and nothing else |
| PaymentSelection.ChosenAsset | contrib/x402-multi-asset/multi-asset-selector.ts:82-87 | the first preferred asset that is offered, or none if none is |
| PaymentSelection.SelectWithAssetPreference | contrib/x402-multi-asset/multi-asset-selector.ts:47-93 | pays the cheapest option of the only asset or of the first preferred one that is offered, and refuses otherwise |
| PaymentSelection.ReduceFindsFirstCheapest | contrib/x402-multi-asset/multi-asset-selector.ts:100-104 | the reduce yields the first cheapest option, or fails because one of several is malformed |
| PaymentSelection.SelectorsAgree | contrib/x402-multi-asset/multi-asset-selector.ts:66-70 | where the eligible options lie in one asset, the selection is what the preference selector picks among them, under the caller's limit, refusals included |
| PaymentSelection.SelectorsAgreeAcrossAssetsIff | contrib/x402-multi-asset/multi-asset-selector.ts:72-87 | where well-formed eligible options lie in several assets, the two decide the same, refusals included, if and only if the first cheapest option of all happens to be in the first preferred asset on offer |
| PaymentSelection.SelectorsOnMalformed | contrib/x402-multi-asset/multi-asset-selector.ts:82-87 | a malformed option in any asset makes the selection refuse; the preference selector refuses for that reason exactly if the chosen asset has one |
| PaymentSigning.CheckAcceptsExactlyTheTransfer | src/x402-auth-entry.ts:80-137 | the check passes exactly the entries that authorize a SEP-41 transfer from payer to payee of the expected amount, with nothing underneath |
| PaymentSigning.MismatchNamesFirstField | src/x402-auth-entry.ts:86-136 | the mismatch names the first field that is not as intended |
| PaymentSigning.AmountIsComparedAfterDecoding | src/x402-auth-entry.ts:119-127 | the type of the amount is not checked: any value that decodes to the amount passes, and of the i128 values only the amount itself |
| PaymentSigning.ExpirationStaysInWindowIff | src/x402-client.ts:131-141 | when the signature lifetime stays within the server's window, within the tolerated window and within the client's ceiling; exact conditions |
| PaymentSigning.ExpirationIsGreatest | src/x402-client.ts:131-141 | above the minimum of three, the lifetime is the greatest that stays two ledgers of five seconds below the timeout and within the ceiling, with the defaults of 120 seconds and 58 ledgers |
| PaymentSigning.SignEntry | src/x402-client.ts:226-241 | an entry of somebody else stays as it is; one of the payer is checked, then handed to the signer, and it is known which of the two failed |
| PaymentSigning.SignEntries | src/x402-client.ts:221-245 | the loop signs in place exactly the entries credentialed to the payer, each of them checked first, and leaves the others as they are; it says which entry stopped it and what had been signed, and fails if there was none to sign |
| PaymentSigning.BuildSignedPayment | src/x402-client.ts:211-257 | every entry handed to the signer is exactly the intended transfer; success if and only if all entries of the payer are signable and there is one |
| PaymentSigning.PayFor | src/x402-client.ts:176-257 | the result is that of the first obstacle: an unknown network, the budget, the simulation, the entry that cannot be signed or their lack, or else the answer to the payment |
| PaymentSigning.Fetch | src/x402-client.ts:276-330 | unpaid exactly without a 402, and for a 402 the result of the first obstacle; whatever server and RPC answer, only transfers of an allowed asset, each of at most `maxAmount`, to the payee selected, reach the signer; together they authorize the price once for each entry of the payer, which is within `maxAmount` exactly if that product is; a header is sent only with something signed; paid exactly when nothing stood in the way and the retry was accepted |
| PaymentSettlement.ClassificationMeans | src/x402-guards.ts:235-331 | not spent, and retryable, exactly for `success: false` without a transaction; settled exactly with a hash of 64 hexadecimal digits and no word of failure; all else is in doubt, no header included |
| PaymentSettlement.Payer.Pay | packages/mcp-x402-payer/src/payer.ts:275-392 | a call that signs nothing says why, in the order of the checks; one that signs does so again exactly after a header with `success: false` and no transaction, up to three times; then it debits exactly an answer below status 400, which is a payment if the header says so and uncertain otherwise; the ledger after a call is the specified one |
| PaymentSettlement.UnsignedMeans | packages/mcp-x402-payer/src/payer.ts:275-308 | why a call signs nothing: a limit that is not digits, no answer, free content, an unreadable challenge, the refusal of the selection, or the session ceiling |
| PaymentSettlement.Payer.Retry | packages/mcp-x402-payer/src/payer.ts:304-391 | the retry loop: stops at the first attempt without positive evidence of non-spend, and debits exactly a settlement confirmed or in doubt |
| PaymentSettlement.PaysAtMostOnce | packages/mcp-x402-payer/src/payer.ts:304-391 | with a facilitator truthful about non-spend, only the last of up to three signed payments can move money, and no more than the caller's limit |
| PaymentSettlement.LedgerCoversUnlessSilent | packages/mcp-x402-payer/src/payer.ts:313-368 | the ledger records at least what a call moved if and only if the call did not move money behind an error status or a lost response |
| PaymentSettlement.LedgerWithinCeilings | packages/mcp-x402-payer/src/ledger.ts:44-80 | in every session, whatever is answered, the recorded spend stays within the ceiling of its asset |
| PaymentSettlement.LedgerCoversTheChain | packages/mcp-x402-payer/src/payer.ts:351-368 | over whole sessions the chain moved no more than the ledger says and what moved silently |
| PaymentSettlement.MoneyMovedIsBounded | packages/mcp-x402-payer/src/payer.ts:297-368 | in every session of a truthful facilitator the money moved exceeds the ceiling by at most what moved silently |
| PaymentSettlement.CeilingHoldsIffNeverSilent | packages/mcp-x402-payer/src/payer.ts:297-368 | the session ceiling bounds the money moved in all sessions if and only if payments cannot settle silently (or the asset cannot be paid in) |
| BudgetRules.MatchingRule | src/x402-budget-attributes.ts:206-216 | the first matching rule: it matches, and none before it does |
| BudgetRules.MatchesMeans | src/x402-budget-attributes.ts:181-216 | a rule with hours of a day matches exactly a request to its merchant or any, with its category or any, on a listed day, at an hour that comes no later than the end hour when going round the clock from the start hour |
| BudgetRules.ClockMeans | src/x402-budget-attributes.ts:186-191 | the hour of day and the day of week of every time, counted from a Thursday, day 4 |
| BudgetRules.BudgetedClient.BeginPayment | src/x402-budget-attributes.ts:250-272 | denied exactly if no rule is meant for the request, in the terms of `MatchesMeans`, or if it is above the per-payment ceiling of the first one that is; otherwise in flight with the spend read for that rule |
| BudgetRules.BudgetedClient.DecidePayment | src/x402-budget-attributes.ts:273-280 | cleared exactly if the spend that was read leaves room under the period ceiling |
| BudgetRules.BudgetedClient.AcceptPayment | src/x402-client.ts:319-327 | records on the rule that matches at the time of recording, if it has a period ceiling, and nothing else |
| BudgetRules.CommittedSpendIsBounded | src/x402-budget-attributes.ts:250-301 | with at most k payments on a period rule in flight, recorded plus committed spend never exceeds the period ceiling by more than k - 1 of the largest payments, in every interleaving, and what was accepted under the rule is what was recorded, as long as recording finds the rule that was checked |
| BudgetRules.BoundIsReached | src/x402-budget-attributes.ts:271-280 | for any rules, every rule with a ceiling that some request matches, and every k, some run accepts and records exactly that bound |
| BudgetRules.ConcurrentUseIsBoundedIffSteady | src/x402-client.ts:319-327 | in all runs with at most k payments per rule the payments accepted under each rule stay within that bound if and only if time windows cannot move a request between a rule with a ceiling and another rule or none |
| BudgetRules.SequentialUseIsSafeIffSteady | src/x402-client.ts:319-327 | one payment at a time keeps the payments accepted under every rule within its ceiling for ever under exactly that condition |
| BudgetRules.RecordedTotalsAreSafeIffClockStable | src/x402-budget-attributes.ts:291-301 | the recorded totals alone, which miss payments accepted and not recorded, stay within the ceilings if and only if time windows cannot move a request to another rule with a ceiling |
| SpendLedgers.ReportsReadBack | contrib/issue-507-510-515/upto-settlement-receipt.ts:145-153 | an amount is read from a report exactly if that is the number itself, a safe integer and not negative, or digits that stand for it |
| SpendLedgers.ReceiptIsSound | contrib/issue-507-510-515/upto-settlement-receipt.ts:163-201 | an amount reported within the ceiling is charged, one above it is clamped, and without a readable amount the ceiling is charged, each named as such; charge and unused part add up to the ceiling; only a negative ceiling is refused |
| SpendLedgers.SessionBudget.ReserveAmount | contrib/issue-507-510-515/upto-settlement-receipt.ts:384-392 | reserving in place is the flooring specification, errors included; a refusal changes nothing |
| SpendLedgers.SessionBudget.SettleReceipt | contrib/issue-507-510-515/upto-settlement-receipt.ts:394-400 | drops the ceiling held and debits the settled amount |
| SpendLedgers.SessionBudget.ReleaseAmount | contrib/issue-507-510-515/upto-settlement-receipt.ts:402-405 | drops the ceiling held and debits nothing |
| SpendLedgers.SettledSpendLedger.ReserveAmount | contrib/mcp-payer-wave-511/settled-spend-ledger.ts:31-47 | reserving in place is the strict specification, errors and their order included |
| SpendLedgers.SettledSpendLedger.SettleAmount | contrib/mcp-payer-wave-511/settled-spend-ledger.ts:49-64 | settles exactly what is reserved, or refuses and changes nothing |
| SpendLedgers.SettledSpendLedger.ReleaseAmount | contrib/mcp-payer-wave-511/settled-spend-ledger.ts:66-76 | releases exactly what is reserved, or refuses and changes nothing |
| SpendLedgers.LedgersAgreeIffCovered | contrib/mcp-payer-wave-511/settled-spend-ledger.ts:30-76 | on every sequence of operations the two ledgers give the same answers, errors included, and keep the same books all along if and only if no amount was negative and every settle and release was covered by what was reserved |
| SpendLedgers.BudgetIsConserved | contrib/issue-507-510-515/upto-settlement-receipt.ts:383-405 | in every run where a settle or release ends its own reservation: reserved is the sum of the open reservations, spent the sum charged, together within the ceiling, per asset; no such settle or release is refused, and the strict ledger answers the same |
| SpendLedgers.BothLedgersKeepTheBook | contrib/mcp-payer-wave-511/settled-spend-ledger.ts:30-76 | fed the calls of such a run, both ledgers end with the same book |
| SpendLedgers.RemainingIsExact | contrib/issue-507-510-515/upto-settlement-receipt.ts:407-410 | the remaining budget is the ceiling less everything charged and held; an asset without a ceiling is refused |
| SpendLedgers.SpendIsNotUnderstated | contrib/issue-507-510-515/upto-settlement-receipt.ts:394-400 | with an honest facilitator the budget never counts less than the chain moved |
| SpendLedgers.DebitIsSafe | contrib/issue-507-510-515/upto-settlement-receipt.ts:450-469 | the debit lies between what moved and the ceiling, and exactly when it is what moved |
| SpendLedgers.FlooringMeans | contrib/issue-507-510-515/upto-settlement-receipt.ts:364-405 | what the session budget refuses and, otherwise, the reserved and spent figures of every asset afterwards; it never drops more than is reserved |
| SpendLedgers.StrictMeans | contrib/mcp-payer-wave-511/settled-spend-ledger.ts:24-76 | what the settled-spend ledger refuses, in which order, and the figures of every asset afterwards |
| RateLimiting.TokenBucket.TryConsume | contrib/rpc-agent-wave-422-425/rpc-token-bucket.ts:30-44 | a call is admitted if and only if every window of time ending with it has room for it |
| RateLimiting.TokenBucket.MsUntilNextToken | contrib/rpc-agent-wave-422-425/rpc-token-bucket.ts:46-53 | the least whole wait after which a call would be admitted; a bucket smaller than a token never admits one |
| RateLimiting.TokensAreTheLeastRoom | src/tx-rpc.ts:80-85 | the tokens are the room left in the tightest window |
| RateLimiting.RateIsBounded | src/tx-rpc.ts:57-86 | on a clock that does not run backwards, the calls admitted in any window cost at most the capacity plus what the window refills |
| PromiseQueue.Queue.Run | contrib/x402-wave-403-414/x402-budget-attributes-shared.ts:40-50 | a new task is chained after all earlier ones, and the queue stays serial |
| PromiseQueue.Queue.Begin | contrib/issue-509-upto-buyer/upto-buyer.ts:194-198 | whatever the earlier tasks threw, the task does run, and only after all of them have ended |
| PromiseQueue.Queue.End | contrib/issue-509-upto-buyer/upto-buyer.ts:194-198 | whoever queued a task gets its own result, a rejection if it threw |
| PromiseQueue.Queue.NeverStalls | contrib/x402-wave-403-414/x402-budget-attributes-shared.ts:43-47 | while a task has not ended, one is running or some reaction is due |
| PromiseQueue.SerialMeansOneAtATime | contrib/issue-509-upto-buyer/upto-buyer.ts:191-199 | at no time are two tasks running |
| SharedTracker.KeysDistinguish | contrib/x402-wave-403-414/x402-budget-attributes-shared.ts:67-70 | two valid rules share a store key if and only if their merchant and category (omitted meaning any) coincide |
| SharedTracker.NamespacesDistinguish | contrib/x402-wave-403-414/x402-budget-attributes-shared.ts:63-70 | trackers whose prefixes or periods differ share no key, if those hold no colon |
| SharedTracker.StoreTracker.ReadSettled | contrib/x402-wave-403-414/x402-budget-attributes-shared.ts:89-114 | a report is the number stored, a missing entry is 0, and a store failure or unreadable entry ends the call in error |
| SharedTracker.StoreTracker.WriteSettled | contrib/x402-wave-403-414/x402-budget-attributes-shared.ts:115-117 | the sum of the number read and the amount is written back as a numeral; a failed write may have taken effect |
| SharedTracker.CallsTakeEffectInOrder | contrib/x402-wave-403-414/x402-budget-attributes-shared.ts:89-117 | in every run whose calls begin and end in a log that the mutex allows (`PromiseQueue.Serial`), store failures included, no record is lost: the store holds its start value plus everything written, and a report is what the calls before it wrote |
| SharedTracker.OverlapLosesARecord | contrib/x402-wave-403-414/x402-budget-attributes-shared.ts:102-117 | without the mutex, for every rule and any two amounts, two successful records on a reliable store can leave only the second |
| SharedTracker.TakesTurnsStep | contrib/x402-wave-403-414/x402-budget-attributes-shared.ts:40-50 | a run has such a log exactly if each of its calls begins when all calls before it are done |
| SharedTracker.ReportsAsMemoryIffKeysDistinct | contrib/x402-wave-403-414/x402-budget-attributes-shared.ts:88-117 | on a reliable store every run whose calls take turns reports what the in-memory tracker would if and only if no two rules share a key |
| RequestAuth.CanonicalReadsBack | src/x402-request-auth.ts:114-128 | the signed fields can be read back from the canonical string if and only if those before the body hold no newline |
| RequestAuth.OmittedBodyIsEmpty | src/x402-request-auth.ts:154-162 | an omitted body is signed like an empty one |
| RequestAuth.CanonicalIsInjective | src/x402-request-auth.ts:114-128 | for such fields the string is injective up to the case of the method; the body is arbitrary |
| RequestAuth.UnambiguousIffPlain | src/x402-request-auth.ts:121-127 | the canonical string is shared with no other request, timestamp or nonce whatsoever if and only if no field holds a newline, the body included |
| RequestAuth.PinnedIffSeparated | src/x402-request-auth.ts:121-127 | for one timestamp and nonce, the string is shared with no other request if and only if newline, timestamp, newline, nonce, newline occurs only between path and body |
| RequestAuth.SignMeans | src/x402-request-auth.ts:130-180 | signing refuses exactly a blank key id and an empty secret; the headers carry key id and nonce as given, the time in whole seconds, and algorithm and digest |
| RequestAuth.TimingSafeEqual | src/x402-request-auth.ts:238-245 | the accumulating comparison answers equality |
| RequestAuth.VerifyRequest | src/x402-request-auth.ts:192-235 | decides what `VerifyMeans` characterizes |
| RequestAuth.VerifyMeans | src/x402-request-auth.ts:204-234 | verification succeeds if and only if the timestamp is fresh and the header carries the digest, alone or followed by a space and anything |
| RequestAuth.SignedRequestVerifies | src/x402-request-auth.ts:145-235 | a signed request, presented with any request, verifies if and only if the clocks are within the tolerance and the digests of the two canonical strings coincide; the strings do for the request signed and, if the separator occurs only once in it, for no other |
| RequestAuth.SignatureBindsIffSeparated | src/x402-request-auth.ts:145-235 | collisions of the hash apart, the headers verify for no other request if and only if the separator occurs only once in the request signed |
| RequestAuth.ReplayWindow.Finish | contrib/x402-wave-407-411/request-auth-vectors.ts:131-145 | an attempt is accepted if and only if it verifies and no attempt that verified before had its nonce |
| RequestAuth.NonceAcceptedOnce | contrib/x402-wave-407-411/request-auth-vectors.ts:141-144 | in every order of completion a nonce is accepted exactly once if any request with it verifies, and never otherwise |
| ReplayGuard.ChallengeReplayGuard.Cleanup | contrib/examples/challenge-replay-guard/challenge-replay-guard.ts:26-32 | the pruning loop keeps exactly the entries that have not expired |
| ReplayGuard.ChallengeReplayGuard.CheckAndRecord | contrib/examples/challenge-replay-guard/challenge-replay-guard.ts:10-24 | the table always is the one the attempts so far demand, and the answer is the one it demands |
| ReplayGuard.EvictionIsInvisibleIff | contrib/examples/challenge-replay-guard/challenge-replay-guard.ts:10-32 | in every run on a clock that does not run backwards, the guard accepts exactly what a guard that never forgets accepts if and only if no nonce is presented in time more than the maximal age after it was first presented in time |
| ReplayGuard.EvictionIsInvisible | contrib/examples/challenge-replay-guard/challenge-replay-guard.ts:10-32 | that is so if every nonce keeps one timestamp that is never ahead of the clock |
| ReplayGuard.ReplayableUnchangedIffFromTheFuture | contrib/examples/challenge-replay-guard/challenge-replay-guard.ts:14-23 | an accepted challenge is accepted again with the same timestamp at some later time if and only if that timestamp was ahead of the clock |
| ReplayGuard.ReplayableByDefaultIffExpired | contrib/examples/challenge-replay-guard/challenge-replay-guard.ts:10-23 | with the default timestamp an accepted nonce is accepted again at a later time if and only if its entry has expired by then |
| KeyRotation.Connector.MintSettled | src/passkeykit-connector.ts:174-189 | the mint overwrites the active key whatever happened meanwhile, and turns to the key found at the start; one that fails, before or after having put a key on the wallet, ends the rotation |
| KeyRotation.Connector.RevokeSettled | src/passkeykit-connector.ts:190-198 | a revocation may fail before or after it took effect, and is never repeated |
| KeyRotation.ActiveKeyIsNeverRevoked | src/passkeykit-connector.ts:171-199 | in every interleaving of reconnects with failing mints and revocations the active key is not revoked, nor about to be |
| KeyRotation.ValidKeysAreAccountedFor | src/passkeykit-connector.ts:171-199 | without overlap the keys still valid are exactly the active one, the one being revoked, those whose revocation failed, those of failed mints, and the empty key |
| KeyRotation.KeysAreTrackedIffMintsUpToDate | src/passkeykit-connector.ts:171-199 | in every interleaving, every valid key is the active one, being revoked or known to have failed, all along, if and only if every mint still finds active the key its rotation started from and none fails after taking effect |
| KeyRotation.FailedKeysStayValid | src/passkeykit-connector.ts:190-198 | in such runs a key whose revocation failed stays valid for ever, and no later rotation is aimed at it |
| KeyRotation.StaleMintLosesKey | src/passkeykit-connector.ts:172-189 | a mint over another key leaves that key valid and tracked by nobody |
| KeyRotation.OverlapLeavesAKeyBehind | src/passkeykit-connector.ts:172-189 | a run in which that happens |
| IdempotentSubmission.Submit | contrib/idempotency-key/idempotency-key.ts:100-132 | at most three attempts, all under one key, every one but the last in doubt; the last decides the outcome |
| IdempotentSubmission.AnswerMeans | contrib/idempotency-key/idempotency-key.ts:105-128 | an answer ends the attempt with the session, with a definite failure, or, if in doubt, with another attempt up to the third |
| IdempotentSubmission.LateAnswerIsIgnored | contrib/idempotency-key/idempotency-key.ts:105-128 | an answer to an attempt that was given up, or after the end, changes nothing |
| IdempotentSubmission.NetworkMeans | contrib/idempotency-key/idempotency-key.ts:28-31 | a request may be lost; the first one under its key is processed, and any other is answered with the session stored, or with an error while there is none |
| IdempotentSubmission.ClientRunsTheLoop | contrib/idempotency-key/idempotency-key.ts:105-129 | in every run of the protocol each submission is where the retry loop is after its attempts ended as they did |
| IdempotentSubmission.SubmissionIsIdempotent | contrib/idempotency-key/idempotency-key.ts:19-35 | over a network that loses and delays, a submission creates at most one wallet, and a session it returns is the one stored for its key |
| IdempotentSubmission.FreshKeyIsSafeIffFirstAttempt | contrib/idempotency-key/idempotency-key.ts:64-75 | a definite failure rules out that the wallet exists if and only if it is the failure of the first attempt |
| SignatureMap.ComparePolicyAddresses | src/x402-signer.ts:198-206 | the byte loop is a three-way comparison in the lexicographic order |
| SignatureMap.LessIsTransitive | src/x402-signer.ts:198-206 | the order is transitive |
| SignatureMap.LessIsTotal | src/x402-signer.ts:198-206 | any two different addresses are ordered |
| SignatureMap.LessIsAsymmetric | src/x402-signer.ts:198-206 | and in one way only |
| SignatureMap.SortedIsUnique | src/x402-signer.ts:187-189 | hence a sorted arrangement is the only one of its elements |
| SignatureMap.SetSignatureMap | src/x402-signer.ts:179-195 | the map is the signer followed by the sorted policies; it ascends strictly if and only if the policies are distinct and, if there are any, the signer is an Ed25519 key |
| SignatureMap.MapIgnoresConfiguredOrder | src/x402-signer.ts:187-189 | permuting the configured policies gives the same map |
| SignatureMap.MapHoldsSignerAndPolicies | src/x402-signer.ts:185-189 | the map holds the signer and all policies and nothing else |
| TransactionPolling.WaitForTransaction | src/tx-status.ts:26-53 | whenever it returns: a final status is the first one read, a timeout means that no read was final and time is up, and it stopped at the first opportunity; with a positive interval after at most `timeout / interval + 1` reads |
| TransactionPolling.PollingEndsIff | src/tx-status.ts:34-52 | polling ends whatever it meets if and only if the interval is positive or the first deadline check fails already |
| TokenAmounts.ParseOfFormat | src/balances.ts:89-100 | parsing a formatted amount gives the amount back if and only if it is positive, for all decimals; decimals that cannot be formatted for cannot be parsed for |
| TokenAmounts.PrintOfParse | src/payments.ts:20-36 | printing an accepted amount gives the input without surrounding white space, leading whole zeros and trailing fraction zeros |
| TokenAmounts.TrimMeans | src/payments.ts:24 | trimming takes white space from both ends, all of it, and nothing else |
| TokenAmounts.SameAmountIffSameCanonical | src/payments.ts:20-36 | two accepted inputs mean the same amount if and only if their canonical forms coincide |
| TokenAmounts.ParsersAgree | contrib/try-parse-token-amount.ts:29-64 | the non-throwing parser accepts the same strings with the same values |
| TokenAmounts.RefusalsMean | contrib/try-parse-token-amount.ts:33-61 | exactly when each reason of a refusal is given, by the non-throwing parser and by the other: bad decimals, empty, negative, not one or more digits with an optional dot and digits, too many decimals, zero |
| TokenAmounts.StroopsToXlmIsPrint | src/policy-types.ts:85-90 | equals the seven-decimals printer if and only if the amount is not negative or is whole |
| Base64.Decode | contrib/issue-507-510-515/upto-settlement-receipt.ts:284-297 | the decoding loops compute the specified octets, and fail exactly on a character outside the alphabet |
| Base64.DecodeOfEncode | contrib/issue-507-510-515/upto-settlement-receipt.ts:287-296 | every byte string comes back from its encoding by section 4 of RFC 4648, padded or not, whatever its length |
| Decimal.DecimalRoundTrip | src/x402-guards.ts:84-91 | the numeral of a number is digits only and reads back as the number |

## Left out

- SharedTracker.CallsTakeEffectInOrder: does not model `runExclusively` around other tracker calls; nested use waits for itself.
- KeyRotation.KeysAreTrackedIffMintsUpToDate: minted keys are not empty, as public keys are not; the code reads an empty key as none, and `ValidKeysAreAccountedFor` covers it for rotations that do not overlap.
- RequestAuth.UnambiguousIffPlain: the method signed holds no newline, since its upper case is the platform's; `PinnedIffSeparated` asks that of the other methods too.
- RateLimiting.RateIsBounded: tokens are reals; the rounding of doubles is not modelled.
- CircuitBreaker.Breaker.Complete: a custom `isFailure` is a total function of outcome and error; one that throws, and so is called twice, is not modelled.
- PaymentSigning.Fetch: the tracker behind `budgetAllows` is a parameter here; its interplay with recording is `BudgetRules`. Request signing, bodies and headers other than the payment are not part of it.
- PaymentSelection.SelectWithAssetPreference: its error texts are not distinguished.
- PaymentSettlement.Payer.Pay: quotes, response bodies and the selection tripwire of the signer are not modelled; an exception from signing or the network is a missing response.
- RequestAuth.SignedRequestVerifies: text encoding is not modelled; the hash is an arbitrary function from texts to non-empty byte strings.
- IdempotentSubmission.SubmissionIsIdempotent: keys do not expire, and the backoff between attempts takes no modelled time.
- SignatureMap.SetSignatureMap: addresses are their bytes; the sorting algorithm is an insertion sort in place of the platform's, which `SortedIsUnique` shows to be immaterial.
- TokenAmounts.PrintOfParse: `decimals` is an integer; the check for fractional values of it is not modelled.
- Base64.Decode: the final decoding of bytes as UTF-8 and the branch that uses the platform's `atob` are not modelled.
- The upto payload builder repeats the signing loop with an eight-argument check; it would add only a variant of `PaymentSigning`.
- The code behind the `try` of both signers, which cannot be reached, and capability checking.
- `src/x402-untrusted.ts`, whose content is regular expressions over Unicode classes.
- XDR decoding, transaction simulation, WebAuthn, HMAC and HTTP plumbing: foreign libraries and thin wrappers.
- `src/session.ts` and its wrappers, metrics, rendering and command-line code: storage, timers and I/O.
