# PromoGo protocols in Dafny

PromoGo keeps loyalty points for shops. This project models the parts of it whose safety rests on locks,
idempotency keys, leases, expiring keys and exact arithmetic, and proves what they promise.

| files | what they model |
|---|---|
| `Amounts`, `Rows`, `Ledger`, `LedgerSafety` | the points ledger: `Post`, `PostRefund`, `PostRedeemChecked` as statements over three tables, and what every run of them keeps |
| `LedgerVerdicts` | what the ledger answers to a redemption and a refund, in terms of its rows alone |
| `LedgerDebt`, `KopeckFractions` | clients in debt and what they cost the register; refunds below a kopeck |
| `LedgerLocks`, `LedgerRefinement` | the same operations one locked SQL statement at a time, any number interleaved, with lost connections and answers |
| `Money`, `LoyaltyRules`, `DecimalForm`, `Text` | 16-place rounded division, int64 conversion, the admin form's BigInt preview and its decimal strings |
| `Replay`, `Loyalty` | `Accrue`, `Redeem`, `Refund` with other requests running between any two statements, and their idempotent replay |
| `ConfigHistory`, `RuleVersions` | versioned loyalty rules, concurrent writers, and ledger rows against the rules they name |
| `Backoff`, `OutboxWorker` | leased claims of the notification outbox by many workers, and the wrapping retry delay |
| `QrTokens`, `Sessions` | one-time QR tokens, and refresh-token rotation |
| `FixedWindows`, `OtpChallenges` | Redis fixed-window counters and one-time codes |
| `OfflineQueue`, `RegisterServer` | the register's offline queue over a link that loses requests and responses, and the loyalty service as the server behind it |

How the original is represented:

- A request's amount is any positive fraction of a kopeck (`Amounts.Amount`), computed with as sent and stored as
  NUMERIC(20,2) rounds it (`Amounts.Stored`). Percents are in 1/100, rates in 1/10000. Points are unbounded integers
  except where the code converts to `int64`, which `Money.Wrap64` does explicitly.
- Where the source updates tables, keys or files in place, the model has a class with those fields and methods; each
  method is proved equal to a function, and the run-level theorems are about that function. What such a function answers
  and leaves is stated a second time in plain terms, in the method's contract or a lemma.
- A row's id is its position in commit order. Clocks, random hashes, phone lookups, link faults and what other requests
  do in the meantime are parameters, so that every theorem holds for all of them.
- An SQL transaction commits or leaves nothing; READ COMMITTED row locks last until it ends. A Redis script runs once and
  at once, and a Redis key is there through the millisecond of its expiry, when its PTTL is 0.
- The unique indexes used are those on transactions (store, type, external id), on the config history (store, version),
  on the outbox dedupe key and on the session hash.

Where the code and its own comments disagree, the model follows the code:

- `Post` says its guard never stops an accrual. A client in debt has new sales and refunds of redeems rejected until the
  debt is cleared (`LedgerDebt.DebtIsReached`), exactly as `LedgerDebt.SaleRejectedExactly` and
  `LedgerDebt.RedeemRefundRejectedExactly` say. The sale handler answers such a rejection with 500, so a register
  retries it, keeps it at the head of its queue and queues everything else behind it
  (`LedgerDebt.DebtBlocksTheRegister`).
- `PostRefund` says completing a refund takes the exact remaining points. A raw total that only rounds to the original
  amount closes the original with points left on it (`KopeckFractions.PointLeftBehind`);
  `LedgerSafety.ClosesExactly` says when, and `LedgerSafety.ProportionalRefund` what holds in whole kopecks.
- `issue` says a failed issue gives its cooldown back; the deferred check reads an outer `err` that the inner one shadows,
  so the cooldown stays (`QrTokens.QrService.Issue`).
- Reuse of a refresh token is said to revoke every session; a rotation in flight when the statement takes its snapshot
  survives it (`Sessions.RotationInFlightSurvives`), and `Sessions.RevokeAllHolds` says exactly which sessions are revoked.
- The refund share is called a floor; it is one exactly for originals below 2*10^14 rubles (`Money.ShareIsFloor`).
- The preview is said to floor like the backend; the redeem caps agree exactly while the cap fits int64
  (`DecimalForm.PreviewMatchesRedeem`).

Limits of the code that no comment denies:

- A refund below half a kopeck can take points back that an earlier one gave (`KopeckFractions.PointsTakenBack`), and
  only such a one can (`LedgerSafety.TakesNoneBackExactly`).
- A sale's points follow the amount sent, not the amount stored (`RuleVersions.SubKopeckSale`); its row alone tells them
  exactly when `LoyaltyRules.EarnsAsStored` says so.
- A refund refused because its original is not posted yet, or for a debt, can be accepted later, and an accepted untyped
  refund can be refused when sent again (`RegisterServer.NotFoundIsNotFinal`, `DebtIsNotFinal`, `AmbiguityIsReal`). Apart
  from these three the service is a server whose first verdict is its last (`RegisterServer.LoyaltyIsTheServer`).
- A QR token can outlive its issue TTL (`QrTokens.OutlivesItsTtl`), exactly by its last released claim
  (`QrTokens.OutlivesItsTtlExactly`), and for any length of time (`QrTokens.UsableForever`). A release in the very
  millisecond its claim ends gives it another 30 s (`QrTokens.ReleaseAfterClaimRestores`).
- A fixed window of the OTP counters is cut to whole seconds. For limits of two and more it therefore lets through at most
  twice its limit exactly when that cuts off no more than a millisecond (`FixedWindows.WindowKeepsItsBoundExactly`).

`dafny verify dfyconfig.toml` checks everything.

## Model

| member | source | states |
|---|---|---|
| Ledger.LedgerRepository.Post | internal/repository/postgres/ledger_repository.go:64-124 | answers the first failing check and then leaves the tables as they were, or commits balance, row and notices together |
| Ledger.LedgerRepository.PostRefund | internal/repository/postgres/ledger_repository.go:144-275 | the same for a refund: original screened and its totals updated, client and delta taken from it, all undone on a later error |
| Ledger.LedgerRepository.PostRedeemChecked | internal/repository/postgres/ledger_repository.go:284-357 | the same for a redeem, with the minimum balance and the rolling limit checked first; `LedgerVerdicts.RedemptionVerdict` says in plain terms when each error is due |
| LedgerVerdicts.RedemptionVerdict | internal/repository/postgres/ledger_repository.go:284-345 | in every reachable state a redemption meets the limit exactly if it is on, the balance is no less than the minimum and some redemptions begun after `now - window` leave no room for the debit; the balance exactly if that is below the minimum or, with room, below the debit; and is committed exactly if neither and the key is free |
| LedgerVerdicts.OldRedemptionsDoNotCount | internal/repository/postgres/ledger_repository.go:306-318 | points redeemed a window ago or earlier never stop a redemption |
| LedgerVerdicts.RecentRedemptionCounts | internal/repository/postgres/ledger_repository.go:306-318 | a single redemption inside the window counts in full |
| LedgerVerdicts.RefundVerdict | internal/repository/postgres/ledger_repository.go:155-174 | in every reachable state when the original is missing or a refund itself, when the refunds so far leave less than what is asked, when the key is taken |
| Ledger.LedgerRepository.Settle | internal/repository/postgres/ledger_repository.go:71-117 | the statements the operations share: guarded balance change, unique row, notices, or rollback to the saved tables |
| Ledger.LedgerRepository.UpdateOriginal | internal/repository/postgres/ledger_repository.go:155-216 | which original a refund may touch, in the code's order of errors, and the new totals on it |
| Ledger.LedgerRepository.InsertRow | internal/repository/postgres/ledger_repository.go:98-110 | a row is added exactly when its (store, kind, external id) is free |
| Ledger.LedgerRepository.AdjustBalance | internal/repository/postgres/ledger_repository.go:85-90 | a guarded change happens exactly when the result is not negative |
| Ledger.LedgerRepository.InsertOutboxEntries | internal/repository/postgres/ledger_repository.go:33-49 | entries are added in order and an existing dedupe key is left alone |
| LedgerSafety.InvKept | internal/repository/postgres/ledger_repository.go:64-357 | one committed request keeps the whole invariant over rows, balances, limit and outbox |
| LedgerSafety.Conservation | internal/repository/postgres/ledger_repository.go:85-111 | in every reachable state a balance is the sum of its rows, each balance_after is the prefix sum at its commit, and refund totals are sums over the refund rows |
| LedgerSafety.ProportionalRefund | internal/repository/postgres/ledger_repository.go:171-216 | any split of refunds stored as T of A on P points reverses the share of a total within half a kopeck of T, never past A, and all of P once one of them completes it; in whole kopecks the share of T itself, all of P at T = A, floor(P*T/A) below 2*10^14 rubles |
| LedgerSafety.ClosesExactly | internal/repository/postgres/ledger_repository.go:182-194 | a refund closes its original in the books exactly when at most half a kopeck is left, and reverses all its points exactly when nothing is left or too little for 16 places; in whole kopecks only the former with nothing left |
| LedgerSafety.ClosedForGood | internal/repository/postgres/ledger_repository.go:171-174 | an original closed in the books never changes again, whatever is requested |
| LedgerSafety.TakesNoneBackExactly | internal/repository/postgres/ledger_repository.go:188-194 | the refunds that on no run take back points reversed before are exactly those of half a kopeck and more |
| KopeckFractions.PointLeftBehind | internal/repository/postgres/ledger_repository.go:182-216 | a run: 99.996 of 100.00 refunded leaves one of ten points on a closed original for good |
| KopeckFractions.PointsTakenBack | internal/repository/postgres/ledger_repository.go:188-204 | a run: refunds of 0.004 and 0.001 of a redeem give 40 points back and take 30 again |
| LedgerSafety.RefundReverses | internal/repository/postgres/ledger_repository.go:194-260 | a refund row stored with an amount undoes a non-negative part of an earlier original of the same client and store, records the total then, and is marked as completing it only if that is all of it, in whole kopecks exactly if |
| LedgerSafety.DebtBounded | internal/repository/postgres/ledger_repository.go:196-238 | a debt never exceeds points redeemed minus points given back |
| LedgerSafety.DebtComesFromAccrualRefund | internal/repository/postgres/ledger_repository.go:196-238 | a negative balance means the client's last row refunds an accrual |
| LedgerSafety.FullyRefundedIsZero | internal/repository/postgres/ledger_repository.go:182-194 | a client of whose operations nothing is left, each completed by a refund or in whole kopecks refunded in full, has balance 0 |
| LedgerSafety.RollingLimit | internal/repository/postgres/ledger_repository.go:306-318 | redemptions begun in any window (s, s+window] stay within the limit, in whatever order they committed |
| LedgerSafety.AtMostOneRow | internal/domain/transaction.go:23-28 | at most one row per store, type and external id |
| LedgerSafety.NoticesMatchRows | internal/repository/postgres/ledger_repository.go:113-117 | every notifying row has its outbox entry and every entry that is no invite has exactly one row |
| LedgerSafety.InvitesAfter | internal/service/loyalty.go:340-345 | an accrual that commits leaves the invite it carries in the outbox, and no commit adds any other |
| LedgerSafety.LedgerKeyIsFresh | internal/repository/postgres/ledger_repository.go:27-49 | the dedupe key of an admitted request is never in the outbox yet, so nothing is dropped |
| LedgerDebt.SaleRejectedExactly | internal/repository/postgres/ledger_repository.go:85-90 | in every reachable state a new sale is rejected for its balance exactly when balance plus points is negative, and then the client's last row refunds an accrual; otherwise it is admitted exactly on a free key |
| LedgerDebt.RedeemRefundRejectedExactly | internal/repository/postgres/ledger_repository.go:229-238 | the same for the refund of a redeem and the points it returns |
| LedgerDebt.DebtIsReached | internal/repository/postgres/ledger_repository.go:196-201 | a run to a balance of -10 on which a sale worth 5 and half the redeem's refund are rejected |
| LedgerDebt.DebtIsTransientForSales | internal/httpserver/transactions.go:76-83 | a new sale is answered 5xx exactly while the debt lasts, a refund rejected for it 4xx |
| LedgerDebt.DebtBlocksTheRegister | cmd/possim/queue.go:129-148 | while every attempt at the sale at the head is lost or finds its client in debt, under whatever rules, the register delivers nothing and queues everything behind it |
| LedgerRefinement.Serializable | internal/repository/postgres/ledger_repository.go:64-357 | every interleaving of locked statements with lost transactions has the committed tables and the answers of running the answered requests one by one; open and lost ones left nothing |
| LedgerRefinement.CommitsAtomically | internal/repository/postgres/ledger_repository.go:119-121 | what a transaction gathered statement by statement commits as one atomic step on the tables of that moment |
| LedgerRefinement.RejectsAtomically | internal/repository/postgres/ledger_repository.go:302-317 | a statement that fails mid-way fails with the error the atomic check gives at that moment |
| LedgerRefinement.CommitKeepsOther | internal/repository/postgres/ledger_repository.go:277-300 | a commit changes nothing another open transaction has read under its locks |
| LedgerRefinement.RollingLimitUnderConcurrency | internal/repository/postgres/ledger_repository.go:296-336 | the rolling limit on every interleaving although rows are dated by transaction start |
| LedgerRefinement.NoDeadlock | internal/repository/postgres/ledger_repository.go:155-266 | while a transaction is open some open one has a next statement to run, is not blocked, and advancing it runs that statement |
| Rows.DedupeKeyInjective | internal/service/loyalty.go:25-27 | the dedupe key determines store, type and external id, separators inside ids included |
| Rows.DedupeKeyNotInvite | internal/service/loyalty.go:344 | no ledger dedupe key is an invite key |
| Money.FloorOfQuotientExactly | internal/repository/postgres/ledger_repository.go:189-192 | when rounding to 16 places before the floor raises the integer part, for all dividends and divisors |
| Money.FloorOfQuotientSafeDivisors | internal/service/loyalty.go:417 | the divisors for which it never does: exactly those below 2*10^16 |
| Money.ShareMonotone | internal/repository/postgres/ledger_repository.go:182-194 | more refunded never reverses fewer points in total, nor more than the original's |
| Money.ShareIsFloor | internal/repository/postgres/ledger_repository.go:182-193 | the share is the exact floor for all points and totals if and only if the original is below 2*10^14 rubles |
| Money.AccruedExact | internal/mechanic/points/points.go:31-38 | the accrual is the exact floor of amount times percent and never wraps, for all columns' values |
| Money.RedeemCapExact | internal/service/loyalty.go:416-421 | two rounded divisions and int64 give the exact floor if and only if that floor fits int64 |
| Money.RedeemCapLargest | internal/service/loyalty.go:416-421 | the cap is the largest k with k*rate within the allowed part of the purchase |
| LoyaltyRules.AccrualPointsExact | internal/mechanic/points/points.go:31-38 | for any amount valid rules give a non-negative, unwrapped floored share, nothing below the minimum purchase, and one point more exactly when the share is too close below a whole number for 16 places |
| LoyaltyRules.WholeAccrual | internal/mechanic/points/points.go:31-38 | in whole kopecks the exact floor of the stored amount's share |
| LoyaltyRules.EarnsAsStoredExactly | internal/mechanic/points/points.go:31-38 | the mechanic gives the sent amount what it gives the stored one if and only if EarnsAsStored, a condition on minimum purchase, rounding gap and remainder |
| LoyaltyRules.CapExactly | internal/service/loyalty.go:416-421 | for every amount the cap is the whole points that fit or, exactly when the two roundings lift it, one more, wrapped to int64 |
| LoyaltyRules.CapIsFloorExactly | internal/service/loyalty.go:416-421 | a cap that fits int64 is the exact floor if and only if it is not lifted |
| LoyaltyRules.CappedPointsLargest | internal/service/loyalty.go:411-421 | a capped redemption is then the largest one asked for and allowed |
| LoyaltyRules.WholeCappedPointsLargest | internal/service/loyalty.go:411-421 | in whole kopecks it is so whenever the cap fits int64 |
| Loyalty.TakesTheDebit | internal/service/loyalty.go:415-421 | without a cap a redemption takes all that is asked for, with one the smaller of that and the cap; in whole kopecks the largest amount that fits |
| Loyalty.BuiltExactly | internal/service/loyalty.go:407-424 | a redemption is turned away before the ledger exactly if the balance is below the minimum, nothing may be taken, or the balance is less than what would be |
| DecimalForm.PreviewMatchesRedeem | web/admin/src/pages/loyalty/decimal.ts:49-54 | the preview's cap equals the server's if and only if the cap fits int64 |
| DecimalForm.PreviewMatchesMechanic | web/admin/src/pages/loyalty/decimal.ts:39-42 | the preview's accrual equals the mechanic's |
| DecimalForm.FormAcceptsWhatServerAccepts | web/admin/src/pages/loyalty/decimal.ts:17-22 | the form accepts a string exactly when it is a decimal of at most `scale` places the server's column check accepts |
| DecimalForm.FormRulesAreValid | internal/httpserver/admin_loyaltyconfig.go:89-101 | rules whose strings pass the column check are in range exactly with percents up to 100, a minimum balance not below 0 and a positive rate, and valid with the one mechanic there is |
| DecimalForm.PointsValueRoundTrip | web/admin/src/pages/loyalty/decimal.ts:57-62 | reading back the printed value of p points gives p times the rate, for every p and readable rate |
| DecimalForm.StripLeadingZeros | web/admin/src/pages/loyalty/decimal.ts:21 | dropping leading zeros keeps the value and one digit, and leaves no superfluous zero |
| Replay.AccrualFingerprintInjective | internal/service/loyalty.go:131-133 | equal fingerprints exactly for equal client and equally stored amount |
| Replay.RedeemFingerprintInjective | internal/service/loyalty.go:458-460 | equal fingerprints exactly for equal client, equally stored amount and equal requested points |
| Replay.RefundFingerprintInjective | internal/service/loyalty.go:512-514 | equal fingerprints exactly for equal original and equally stored amount |
| Replay.SaleReplays | internal/service/loyalty.go:242-265 | after its commit a sale sent again gets the stored result if and only if the phone matches and the amount is stored alike, else a conflict, whatever was posted since |
| Replay.RedemptionReplays | internal/service/loyalty.go:466-480 | the same for a redemption and its client, amount and requested points |
| Replay.RefundReplays | internal/service/loyalty.go:615-636 | the same for a refund of the same original row |
| Replay.ResolutionStable | internal/service/loyalty.go:578-609 | a resolved reference stays for good, except an untyped one exactly when the other kind takes the id |
| Replay.ResolutionExactly | internal/service/loyalty.go:578-609 | missing exactly if no row has the id and a kind the request may mean, ambiguous exactly if both kinds have it, else such a row |
| Loyalty.LoyaltyService.Accrue | internal/service/loyalty.go:138-227 | with others between all statements: a taken key changes nothing and gets the replay; every result is backed by one row earned under rules once live; every rejection is the ledger's on this very request; there is always a result or an error; a new sale of a client this call registered leaves the invite, no other sale does, and undisturbed the client is registered exactly if unknown |
| Loyalty.LoyaltyService.Redeem | internal/service/loyalty.go:369-452 | the same for a redemption; unknown exactly for a client of another store; a balance too little in plain terms or missing rules are the only rejections before the ledger's; undisturbed, a redemption that balance, minimum and limit allow takes exactly its debit |
| Loyalty.LoyaltyService.Refund | internal/service/loyalty.go:522-571 | the same for a refund of a row the request may mean; ambiguous and missing only when the rows are |
| Loyalty.LoyaltyService.CheckAccrueReplay | internal/service/loyalty.go:242-265 | nothing exactly for a free key, otherwise the replay on the rows at its end, posting nothing itself |
| Loyalty.LoyaltyService.ResolveOrCreateClient | internal/service/loyalty.go:270-289 | one client per store and phone, also when the registration is lost to another request |
| Loyalty.LoyaltyService.Resolve | internal/service/loyalty.go:578-609 | two unlocked reads name a row the reference means; missing and ambiguous only when they are true of the rows |
| ConfigHistory.LoyaltyConfigRepository.Upsert | internal/repository/postgres/loyalty_config_repository.go:51-106 | conflict exactly on a stale expected version, else the next version becomes live and is appended |
| ConfigHistory.LoyaltyConfigRepository.ListHistory | internal/repository/postgres/loyalty_config_repository.go:108-137 | all versions n..1, newest first |
| ConfigHistory.LoyaltyConfigRepository.Put | internal/httpserver/admin_loyaltyconfig.go:120-174 | invalid rules, an unknown mechanic and a stale expected version are told apart in that order; anything else is exactly one new entry |
| ConfigHistory.LoyaltyConfigRepository.Rollback | internal/httpserver/admin_loyaltyconfig.go:235-290 | goes forward: the old entry's rules become a new version; a version below 1 is invalid, an unknown one not found |
| ConfigHistory.SaveAppends | internal/repository/postgres/loyalty_config_repository.go:58-99 | a write succeeds exactly at the version it read and keeps the table's invariant |
| ConfigHistory.WriteIsNotLost | internal/repository/postgres/loyalty_config_repository.go:64-99 | a concurrent write that goes through was made against the current version and appends exactly its entry |
| ConfigHistory.OnlyFirstWriteIsLate | internal/repository/postgres/loyalty_config_repository.go:58-99 | a writer that has read an existing version goes through and finds it unchanged; only a store's first-ever write can lose to another after its read |
| ConfigHistory.HistoryKept | internal/repository/postgres/loyalty_config_repository.go:46-106 | under any interleaving of writers and losses the history is append-only |
| ConfigHistory.HistoryContiguous | internal/domain/loyalty_config.go:102-111 | a store's versions are exactly 1..n and its live rules are entry n |
| RuleVersions.AccrualReconstructible | internal/service/loyalty.go:200-205 | every accrual row is what the history entry it names gives for the amount its sale was sent with, and for the row's own amount if and only if EarnsAsStored, always in whole kopecks, whatever was written between reading rules and posting or since |
| RuleVersions.SubKopeckSale | internal/service/loyalty.go:200-205 | a run: rules of 1% saved, a sale of 99.999 built and posted, a row of 100.00 worth nothing while its version gives 100.00 a point |
| RuleVersions.NoRulesNoPoints | internal/service/loyalty.go:387-392 | a store without rules has only zero rows and zero balances, which justifies the early rejection |
| Backoff.BackoffIsCappedDoubling | internal/service/outbox_worker.go:187-193 | the wrapping shift with its test is min(base*2^(n-1), max) for every n, for any base m*2^z with m*max below 2^63 |
| Backoff.WorkerBackoff | internal/app/app.go:187-188 | so it is for the configured 5 s and 5 min |
| Backoff.SafeBackoff | internal/service/outbox_worker.go:187-193 | for every such base the delay after n failures is min(base*2^(n-1), max) |
| OutboxWorker.NotificationOutbox.ClaimBatch | internal/repository/postgres/notification_outbox_repository.go:43-78 | the oldest due unlocked entries, no more than the limit and no fewer than there are, leased; nothing else touched |
| OutboxWorker.NotificationOutbox.Oldest | internal/repository/postgres/notification_outbox_repository.go:50 | some entry with the earliest next attempt |
| OutboxWorker.NotificationOutbox.Deliver | internal/service/outbox_worker.go:144-171 | sent: delivered, with the same attempts; failed: one attempt more, pending again at now + min(base*2^attempts, max), or dead at the last attempt |
| OutboxWorker.NotificationOutbox.PollOnce | internal/service/outbox_worker.go:110-139 | every claimed entry is resolved so according to its own delivery, nothing else changes |
| OutboxWorker.LeasesAreExclusive | internal/service/outbox_worker.go:83-171 | any workers, crashes and lost marks: one holder per entry, final entries stay final, attempts below the maximum until dead-lettered at exactly the maximum |
| OutboxWorker.DeliveredExactly | internal/service/outbox_worker.go:144-171 | on every run an entry is delivered exactly if its holder marked a successful send |
| OutboxWorker.AttemptsAreFailures | internal/service/outbox_worker.go:144-171 | on every run its attempts are the failed sends its holders marked, and it is dead exactly after maxAttempts of them |
| OutboxWorker.NeverStranded | internal/repository/postgres/notification_outbox_repository.go:27-57 | after any run of crashes and lost marks, once a lease, a poll and the longest backoff have passed nobody holds an open entry and it can be claimed |
| OutboxWorker.OverlongPoll | internal/repository/postgres/notification_outbox_repository.go:27-31 | a run with two holders whenever a poll may last as long as its lease |
| OutboxWorker.ExclusiveExactlyWhenLeaseIsLonger | internal/service/outbox_worker.go:92-104 | no run has two holders if and only if the lease is longer than the poll timeout |
| QrTokens.QrService.Issue | internal/service/qr_store.go:81-118 | issued exactly when the token was stored outside a running cooldown; a failed issue stores no token and keeps the cooldown |
| QrTokens.QrService.ResolveQr | internal/service/qr.go:99-185 | after a claim exactly one of finalize and release; identified exactly with a usable account whose client and balance were read, gone exactly if not held or the account is missing or blocked, released exactly on a fault; only then is the token active again; other tokens are untouched |
| QrTokens.NextKeeps | internal/service/qr_store.go:152-183 | each step of any resolver keeps: one holder, no active key while held or after a success, keys name the account issued to |
| QrTokens.OneTimeUse | internal/service/qr_store.go:152-244 | under every interleaving, expiry, crash and lost command a token has at most one holder and one success |
| QrTokens.ResolvedIsSpent | internal/service/qr_store.go:185-193 | a token resolved once is never active, held or resolved again |
| QrTokens.FinishedTokens | internal/service/qr.go:131-168 | on every run a token whose resolve found everything, no account or a blocked one is never active, held or resolved again; one that met a fault is active again if its claim still lasts and the command arrived |
| QrTokens.ResolveInTheMachine | internal/service/qr.go:99-185 | an uninterrupted resolve in the interleaving machine is what the service does |
| QrTokens.ReleaseAfterClaimRestores | internal/service/qr_store.go:169-183 | a release revives the token until its claim would have expired, in that very millisecond for another 30 s, later not at all |
| QrTokens.OutlivesItsTtlExactly | internal/service/qr_store.go:169-193 | on every run an active key ends with the issue TTL if never claimed, else 30 s after its last claim, or 60 s if released in the claim's last millisecond; it is prolonged exactly when that is later |
| QrTokens.OutlivesItsTtl | internal/service/qr_store.go:169-193 | a run in which a token issued for 1 s can be claimed after 30 s |
| QrTokens.UsableForever | internal/service/qr_store.go:169-193 | for any length of time a run at whose end a token issued for 1 ms can still be claimed |
| Sessions.CustomerAuthService.ClaimForRotation | internal/repository/postgres/customer_session_repository.go:69-112 | missing, reused before expired, clash, or the old session revoked now and replaced by one new session of the same account with the given hash and expiry, all others as they were |
| Sessions.CustomerAuthService.RevokeAllForAccount | internal/repository/postgres/customer_session_repository.go:124-132 | revokes the live sessions of the account its snapshot holds, keeping earlier revocation times and every other session |
| Sessions.CustomerAuthService.Refresh | internal/service/customerauth.go:272-331 | tokens exactly for a live, unexpired token of an active account and a free new hash, which spend it for a session with the given expiry; invalid exactly for a token not live or expired; reuse or a blocked account costs every session the account had; with others running in between |
| Sessions.AnswersExactly | internal/repository/postgres/customer_session_repository.go:77-109 | which of the four answers a token gets, in terms of its session being live, unexpired or revoked and of the new hash being free |
| Sessions.CustomerAuthService.Logout | internal/service/customerauth.go:335-352 | revokes the token's session; unknown tokens change nothing |
| Sessions.CustomerAuthService.LogoutAll | internal/service/customerauth.go:355-361 | no session the account had is live afterwards |
| Sessions.RunKeeps | internal/repository/postgres/customer_session_repository.go:69-132 | on every run replacements are newer sessions of the same account with one predecessor, replaced means revoked, and a revoked session never changes |
| Sessions.ReplacedInTime | internal/repository/postgres/customer_session_repository.go:88-109 | on every run no session is replaced after its expiry |
| Sessions.RevokedTokenIsReused | internal/repository/postgres/customer_session_repository.go:86-88 | a revoked token is answered as reused ever after |
| Sessions.RotatedOnce | internal/service/customerauth.go:263-271 | of two refreshes with one token at most one ever rotates it |
| Sessions.OneLiveSessionPerLogin | internal/repository/postgres/customer_session_repository.go:92-109 | of all sessions descending from one login only the newest can be live |
| Sessions.LoginStays | internal/repository/postgres/customer_session_repository.go:92-109 | no step moves a session to another login, and a rotation continues the presented token's |
| Sessions.RevokeAllHolds | internal/repository/postgres/customer_session_repository.go:124-132 | what a revoke-all saw is revoked for good; the account has a live session afterwards exactly if the snapshot missed one |
| Sessions.RotationInFlightSurvives | internal/service/customerauth.go:287-296 | from a login and a rotation: a replacement created during the answer to a reuse stays live |
| FixedWindows.Limiter.Allow | internal/ratelimit/limiter.go:47-67 | allowed exactly up to the limit of the key's life; a rejected caller is told when the life ends; other keys untouched |
| FixedWindows.ScriptsAgree | internal/ratelimit/limiter.go:21-29 | the HTTP and OTP scripts differ exactly on a present key without TTL, which the HTTP one heals |
| FixedWindows.OneLife | internal/ratelimit/limiter.go:21-29 | one life of a key admits exactly its first `limit` requests |
| FixedWindows.SpanOfOneLife | internal/ratelimit/limiter.go:47-67 | any span of one life and a millisecond admits at most twice the limit, for both scripts and every run |
| FixedWindows.WindowKeepsItsBoundExactly | internal/service/otp_store.go:135-141 | a configured window keeps that bound on every run if and only if the limit is 0, or the key gets a life at all and the limit is 1 or the life is at most a millisecond short of the window |
| FixedWindows.WindowsThatKeepTheBound | internal/service/otp_store.go:135-141 | for limits of two and more: the HTTP limiter with any positive window, the OTP store with whole seconds or a millisecond over |
| OtpChallenges.OtpStore.CheckRateLimit | internal/service/otp_store.go:120-133 | allowed exactly within both limits, and both counters count the request either way |
| OtpChallenges.OtpStore.Store | internal/service/otp_store.go:175-183 | a new code replaces the challenge and its attempts |
| OtpChallenges.OtpStore.Verify | internal/service/otp_store.go:192-210 | the script's answer and what it leaves of the challenge |
| OtpChallenges.AcceptedExactly | internal/service/otp_store.go:67-90 | accepted exactly for the first right guess, in time, among the first maxAttempts guesses |
| OtpChallenges.WrongExactly | internal/service/otp_store.go:67-90 | a guess is answered wrong exactly if it and all before it are wrong, in time and fewer than maxAttempts |
| OtpChallenges.LockedExactly | internal/service/otp_store.go:67-90 | locked exactly by the maxAttempts-th wrong guess in time, or by the first when no attempts are allowed |
| OtpChallenges.GuessesAreBounded | internal/service/otp_store.go:67-90 | at most maxAttempts guesses are ever compared with a code |
| OtpChallenges.ClosedStaysClosed | internal/service/otp_store.go:67-90 | once accepted or locked out a code is not found until another is stored |
| OfflineQueue.EffectivelyOnceInOrder | cmd/possim/queue.go:116-155 | after any commands over any link acceptances are in till order, one per transaction id, and every operation made is accepted, refused or queued |
| OfflineQueue.DrainsExactly | cmd/possim/queue.go:123-155 | a replay empties the queue exactly when the file works and each operation is answered on one of its first three attempts; then everything made is accepted or refused |
| OfflineQueue.DeliversExactly | cmd/possim/client.go:75-104 | a delivery fails transiently exactly when none of its first three attempts is answered |
| OfflineQueue.LeftExactly | cmd/possim/queue.go:129-148 | a pass leaves exactly the operations from the first unanswered one on |
| OfflineQueue.HeadLeavesAll | cmd/possim/queue.go:139-148 | the whole queue is left and nothing else counted exactly when its head is unanswered |
| OfflineQueue.HeadBlocksTheRegister | cmd/possim/main.go:133-207 | while the head keeps failing without effect everything made queues behind it, in order |
| OfflineQueue.RunKeeps | cmd/possim/main.go:133-207 | every command keeps: the queue is the newest operations made and the server has settled a prefix of them that reaches it |
| OfflineQueue.Replay | cmd/possim/queue.go:112-155 | delivered, replayed, rejected and left add up to the operations of the pass |
| OfflineQueue.ReplayCounts | cmd/possim/queue.go:129-154 | delivered are the first acceptances the register was answered, replayed the answered repeats of an accepted operation, rejected the answered refusals |
| OfflineQueue.Process | internal/service/loyalty.go:135-156 | the server as the register pictures it: an answer it gives is its standing verdict, one per operation |
| OfflineQueue.RunIsItsTrace | cmd/possim/queue.go:123-155 | all a run does to the server is what its attempts do, in their order |
| RegisterServer.NewSale | internal/service/loyalty.go:138-227 | a new sale is accepted, or answered 500 and left alone exactly while the client's debt exceeds its points |
| RegisterServer.NewRefund | internal/service/loyalty.go:522-571 | a new refund is accepted, or refused for a reason that stays: an ambiguous reference or too much refunded |
| RegisterServer.Arrives | internal/service/loyalty.go:135-137 | every answer but three is that of the server the register pictures, which keeps standing for the ledger: accepted means posted with a matching fingerprint, in row order, refused means refused for good |
| RegisterServer.LoyaltyIsTheServer | internal/service/loyalty.go:135-137 | so it is on every run of attempts, faults, other requests, registrations and rule changes without those three |
| RegisterServer.RowsInTillOrder | cmd/possim/queue.go:116-122 | commands and ledger composed: what the register made has its row, is refused for good or still queued, and the rows are in till order |
| RegisterServer.NotFoundIsNotFinal | internal/service/loyalty.go:522-529 | first exception: a refund refused before its sale is posted is accepted after |
| RegisterServer.DebtIsNotFinal | internal/repository/postgres/ledger_repository.go:229-234 | second exception: a refund refused for a debt is accepted once a sale clears it |
| RegisterServer.AmbiguityIsReal | internal/service/loyalty.go:599-601 | third exception: an accepted untyped refund is refused once the other kind has the id |
| OfflineQueue.Register.Do | cmd/possim/client.go:75-104 | up to three attempts with one operation, ended by the first answer that is not transient |
| OfflineQueue.Register.SendInOrder | cmd/possim/queue.go:129-154 | the loop stops at the first transient failure with the tally and server of the pass |
| OfflineQueue.Register.ReplayQueue | cmd/possim/queue.go:123-155 | the file holds what was not reached, or is unchanged when it cannot be written, which is reported |
| OfflineQueue.Register.DrainFirst | cmd/possim/main.go:133-142 | online exactly when the queue was read, settled and emptied |
| OfflineQueue.OnlineExactly | cmd/possim/main.go:133-142 | online exactly if the file was read and is empty, or could be written with each operation answered on one of three attempts |
| OfflineQueue.Register.Checkout | cmd/possim/main.go:193-207 | live exactly if not offline, the queue empty or drained and an attempt answered; else queued last; an answer shown is the server's verdict |

## Left out

- HTTP handlers, JSON, authentication, logging, metrics, message texts, FCM and SMS: transport and formatting.
- Currencies other than rubles: the tables hold RUB only. Amounts that round to 10^18 rubles or more: the column refuses them.
- Phone normalisation and the invite's own conditions (daily cap, app detection): one flag says whether a new client may be invited.
- A replayed refund's stored totals: the read path does not select them, so only client, points and balance are claimed.
- Which error the loser of two concurrent identical requests gets: a balance, limit or over-refund error may come before the conflict.
- Database and connection failures inside the service's reads: the call ends without effect; lost transactions are in `LedgerLocks`.
- OutboxWorker.LeasesAreExclusive: a claim in the many-worker machine takes any due entries; that a batch is the oldest ones is proved for `ClaimBatch` alone.
- Parallel sends inside one poll: entries of a batch are independent, so `PollOnce` resolves them one after the other.
- Clock differences between application and database: one clock.
- The QR consume cooldown and the OTP resend cooldown: each is a single SET NX.
- Malformed QR payloads and corrupt key values: rejected before or without touching a token's state.
- `LastErr` and `QueuedAt` of queued operations: shown to the cashier only.
- Live redemptions of the register: they never enter the queue.
- OfflineQueue.EffectivelyOnceInOrder: not for partly written queue lines, failed appends, or a crash between a failed live send and its enqueue, which the queue file cannot cover. It assumes a 4xx is final; the service's exceptions are in `RegisterServer`, refusals before it (a revoked key) are not modelled.
- RegisterServer.LoyaltyIsTheServer: each attempt is served at once (interference inside a call is in `Loyalty`), and an id names one operation of the register and of nobody else.
- One-time codes' own TTL and a counter's key are given to Redis by a client library that cuts them to whole seconds; the code TTL is taken as Redis gets it.
- Client libraries that resend a Redis script by themselves: each script runs once per call.
