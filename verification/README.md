# Wallet transaction engine, modelled in Dafny

This project models the transaction and ledger engine of a multi-currency
wallet web application. Users own wallets (one currency each) and submit
deposit, withdrawal and transfer requests. A request of at most 100000 units
is approved on the spot. A larger one is parked as PENDING and its amount is
frozen on the wallet (and, for a transfer, the converted amount on the
target) until a manager approves or rejects it. Every save of a transaction
runs a post-save handler. The handler applies an approved transaction's
balance change and writes its ledger rows if none exist yet. It credits a
rejected transaction's amount to its source. It also runs two fraud rules:
high value, and many transactions from one wallet in ten minutes. Both rules
are deduplicated on (user, transaction, reason).

The model is a sequential state machine over an immutable store of wallets,
transactions, ledger entries and fraud flags. Amounts are whole cents, since
every money column has two decimal places. Each request is one
all-or-nothing step: `Ok(store)` is the committed state, and `Err(failure)`
means the atomic block rolled back and nothing persisted. The handler works
on the very wallet objects the saving view holds. It is modelled as a
function from the store and the saved instance, together with its cached
wallet objects, to the new store and instance. So stale and aliased objects
behave as they do in the application.

Modules, in dependency order:
- `Common`: options, results and failures, identifiers, and the amount constants.
- `Models`: wallets, currencies, transactions, ledger rows and fraud flags, with the wallet's hold arithmetic.
- `Rates`: the conversion table and half-even rounding to cents.
- `Forms`: the request forms' choices and clean steps.
- `Store`: the store and its invariant, hold conservation and ledger replay.
- `Signals`: the post-save handler and the fraud rules.
- `Views`: the request and approval views.
- `Invariants`: what each committed step preserves.
- `Divergences`: where the code, as written, breaks the rules the engine is meant to keep.
- `Scenarios`: one worked example with concrete amounts.

The invariant `Store.Valid` has five parts:
- Every reference resolves.
- Every parked transaction has a positive amount. A parked transfer also has a distinct target and a non-negative converted amount.
- Each wallet's frozen amount is exactly the sum of the holds of its pending transactions.
- No two fraud flags share a key.
- The approval's own fraud flag sits only on settled transactions.

`Models.AvailableBalance` (balance minus frozen amount) and `Models.IsHighRisk`
(a withdrawal strictly above 500000) are plain definitions, stated once and
used by the contracts of `Models.Freeze`, `Models.UnfreezeReleasesAtMost`,
`Divergences.WithdrawOverHeldFunds` and `Divergences.ApprovalAtLimit`.
`Invariants.AvailableIsUnheld` and `Invariants.ApprovalFlagIffHighRisk`
relate them to the holds and to the approval's flag.

`Store.BooksKept(s, t)` says that every wallet's balance moved by exactly the
signed sum of the ledger rows the step added.

### Where the code breaks its own rules

The model follows the code. Each disagreement is proved, for all inputs of
the path concerned, in `Divergences`:
- An immediate transfer is applied twice. The handler debits and credits, and then the view debits and credits the same objects again. Only one ledger row is written per leg (`TransferDeltas`, `TransferAppliedTwice`, `TransferRequestBooks`).
- A rejection leaves the balance higher. A rejection is meant only to release the hold. In the code, the save of the rejected row credits the amount to the source (`RejectCreditsSource`).
- Only withdrawals can be approved. The deposit and transfer branches call `unfreeze` without its amount, which raises and rolls back (`OnlyWithdrawalsApprove`).
- The balance checks compare with the full balance, not the available one (`WithdrawOverHeldFunds`).
- At exactly 500000 the rules disagree. The handler's high-value rule uses "at least", while the approval's own rule and `is_high_risk` use "above" (`ApprovalAtLimit`).
- Approving or rejecting a transaction that is not pending answers "not found" (HTTP 404), not an invalid-state error (`Views.Approve`, `Views.Reject`, `Invariants.ApproveOnce`, `Invariants.RejectOnce`).

## Model

| member | source | states |
|---|---|---|
| Models.DisplayName | wallet/models.py:9-14 | a code has a display name exactly when it is one of the four currency choices |
| Models.SaveCurrency | wallet/models.py:68-71 | an empty name is filled from the code's display name, or with the code itself when it has none; a non-empty name and the code are kept |
| Models.SaveCurrencyIdempotent | wallet/models.py:68-71 | saving a currency twice gives what saving it once gives |
| Models.SaveWallet | wallet/models.py:87-91 | a wallet without an account number gets the drawn identifier; a wallet with one is left exactly as it was |
| Models.AccountNumberStable | wallet/models.py:87-91 | once a wallet has an account number, any run of later saves leaves the wallet unchanged |
| Models.FirstSaveAssigns | wallet/models.py:87-91 | across a run of saves, the account number of a wallet that had none is the first identifier drawn |
| Models.Freeze | wallet/models.py:93-96 | the hold grows by exactly the amount, the frozen flag is set, the balance is untouched and the available balance drops by the amount |
| Models.Unfreeze | wallet/models.py:98-102 | the hold becomes frozen minus the amount, floored at zero, so it is never negative; the flag is cleared exactly when nothing stays held and is otherwise kept; the balance is untouched |
| Models.UnfreezeReleasesAtMost | wallet/models.py:98-106 | releasing never raises the available balance by more than the amount, and raises it by exactly the amount when at least that much was held |
| Models.FreezeThenUnfreeze | wallet/models.py:93-102 | freezing and then unfreezing the same amount restores a non-negative hold and the balance, and the flag then says whether anything is held |
| Rates.ConversionRate | wallet/utils.py:1-9 | the lookup is total and every rate it returns is strictly positive |
| Rates.ListedRates | wallet/utils.py:3-8 | each of the four listed ordered pairs returns its own table rate |
| Rates.FallbackRate | wallet/utils.py:9 | an unlisted pair, a currency paired with itself and every pair involving EUR all get rate 1 |
| Rates.NotReciprocal | wallet/utils.py:3-8 | the two directions between INR and USD are independent entries whose product is not 1 |
| Rates.RoundHalfEven | wallet/views.py:143 | the result is within half a unit of x/d, and on a tie it is even |
| Rates.RoundingUnique | wallet/views.py:143 | at most one integer rounds x/d half-even, so the rounding is determined by the quotient alone |
| Rates.ConvertAtRateOne | wallet/utils.py:9 | at the fallback rate an amount converts to itself |
| Rates.ConvertNonNegative | wallet/views.py:139-143 | a positive rate never turns a non-negative amount negative |
| Forms.SourceChoices | wallet/forms.py:83 | a wallet may be picked as source exactly when it exists and the requesting user owns it |
| Forms.TargetChoicesAreAllWallets | wallet/forms.py:142 | the union of foreign wallets and the user's own covers every wallet, so any wallet, the source included, may be a target |
| Forms.WithdrawClean | wallet/forms.py:99-104 | the only possible error is on the amount, and it is raised exactly when a wallet and a non-zero amount were given and the balance is below the amount |
| Forms.TransferClean | wallet/forms.py:144-163 | the target gets an error exactly when source and target have the same id; the amount gets an error exactly when the withdrawal form's check fails |
| Forms.TransferFormErrors | wallet/forms.py:141-163 | the source field errs exactly when the user does not own the source; the target field errs exactly when the target id names no wallet or, with an owned source, names the source itself; the amount field errs exactly when an owned source's balance is below a non-zero amount; no other field errs |
| Forms.TransferCleanIgnoresCurrency | wallet/forms.py:158-161 | distinct wallets with enough balance pass whatever their currencies, and the amount check agrees with the withdrawal form's |
| Forms.RegisterClean | wallet/forms.py:50-59 | the account number gets an error exactly when the role is user and the number is missing or empty; a manager's number is cleared and any other is kept |
| Forms.RegistrationOutcome | wallet/forms.py:50-59 | a user registration that passes carries a non-empty account number; a manager registration always passes and carries none |
| Store.InitialValid | wallet/models.py:79-85 | wallets with nothing frozen and no history satisfy the engine invariant |
| Store.FrozenNonNegative | wallet/models.py:98-99 | under the invariant no wallet's frozen amount is ever negative |
| Store.ReconciledStep | wallet/models.py:131-137 | a step that keeps the books keeps the balances equal to the base plus the ledger replay |
| Signals.CreditedAmount | wallet/signals.py:62 | a transfer credits its converted amount, or its requested amount when the converted one is missing or zero |
| Signals.ApplyApproved | wallet/signals.py:24-71 | a deposit adds the amount and writes one credit row with the new balance; a withdrawal subtracts it and writes one debit row; a transfer debits the source with one row and, when it has a target, credits the target's object with the credited amount and a second row; no transaction or flag changes |
| Signals.CreditRejected | wallet/signals.py:99-101 | the source object gains the amount and is written back; nothing else changes and no ledger row is written |
| Signals.GetOrCreate | wallet/signals.py:116-120 | afterwards a flag with the key is on file; the log grows by that one flag exactly when no flag with the key was there; distinct keys stay distinct |
| Signals.GetOrCreateIdempotent | wallet/signals.py:116-120 | asking for the same flag twice gives what asking once gives |
| Signals.CountRecent | wallet/signals.py:135-139 | the velocity count never exceeds the number of transactions on file |
| Signals.CountRecentCounts | wallet/signals.py:135-139 | the velocity count is the number of the wallet's transactions created at or after the window start |
| Signals.FlagHighValue | wallet/signals.py:115-120 | a transaction of at least the limit ends with a high-value flag on file; below the limit nothing changes; only that flag can be added |
| Signals.FlagVelocity | wallet/signals.py:135-146 | with at least three recent transactions a flag naming the count is on file; with fewer nothing changes; only that flag can be added |
| Signals.FlagFraud | wallet/signals.py:115-146 | both rules' flags are on file when their conditions hold; the only flags added are this user's, on this transaction, for a rule that fired, so nothing is added when neither fires; balances, transactions and ledger are untouched |
| Signals.FlagFraudIdempotent | wallet/signals.py:115-146 | running both fraud rules again at the same moment adds no flag |
| Signals.HandleSave | wallet/signals.py:19-146 | the transaction list and the instance's identity are kept; a newly created pending save adds no flag; otherwise each rule's flag is on file whenever its condition holds and the only flags added are this transaction's for a rule that fired; keys stay distinct |
| Signals.SaveCreatedPending | wallet/signals.py:20-21 | a newly created pending transaction changes no balance, writes no row and adds no flag |
| Signals.SavePendingAgain | wallet/signals.py:24 | saving a pending transaction again moves no balance and writes no row |
| Signals.SaveApprovedAgain | wallet/signals.py:24 | an approved transaction that already has ledger rows moves no balance and writes no row |
| Signals.SaveFirstApproval | wallet/signals.py:24-47 | the first save of an approved deposit or withdrawal moves the source by the signed amount and writes exactly one row carrying the new balance |
| Signals.SaveFirstTransfer | wallet/signals.py:49-71 | the first save of an approved transfer writes a debit row for the source and, with a target, credits the target's object and writes a credit row with the target's new balance |
| Signals.SaveRejected | wallet/signals.py:99-101 | every save of a rejected transaction adds the amount to the source and writes no row |
| Signals.ResaveApproved | wallet/signals.py:24-146 | saving an approved transaction again on the objects the first save left behind changes nothing at all |
| Views.NewTx | wallet/views.py:51-60 | a new row is approved with its processing time set when it is auto-approved, and pending with no processing time otherwise |
| Views.Submit | wallet/views.py:51-60 | above the threshold the amount is frozen, the row is parked and the balance, ledger and flags are untouched; at or below it the row is approved, the balance moves by the signed amount, one row records it, only this user's flags on this row are added, each for a rule that fired, and with at least three recent transactions of the wallet the velocity flag naming the count is on file; other wallets are untouched |
| Views.SubmitHeld | wallet/views.py:51-54 | a parked submission appends a pending row, freezes the amount on the wallet and writes no ledger row and no flag |
| Views.SubmitNow | wallet/views.py:56-59 | an immediate submission appends an approved row, moves the wallet by the signed amount with one ledger row carrying the new balance, adds only this user's flags on this row, each for a rule that fired, and files the velocity flag once the wallet has at least three recent transactions |
| Views.DepositRequest | wallet/views.py:39-68 | a deposit fails exactly when the user does not own the wallet; otherwise it commits the shared deposit step |
| Views.WithdrawRequest | wallet/views.py:88-119 | an owned wallet's withdrawal fails exactly when its balance is below the amount, with no change: the form refuses a nonzero amount over the balance on the amount field, and the view's own check refuses a zero amount from a negative balance; otherwise it commits the shared step |
| Views.ConvertedAmount | wallet/views.py:137-148 | between wallets of one currency the amount is kept; otherwise it is the amount times the table rate, rounded half-even to cents; it is never negative for a non-negative amount |
| Views.TransferRequest | wallet/views.py:125-183 | every form error is reported at once, as the transfer form computes them; the request commits exactly when the user owns the source, the target exists and differs from it, and the balance covers the amount; a committed request parks above the threshold and applies at once at or below it |
| Views.TransferHold | wallet/views.py:154-160 | a parked transfer freezes the amount on the source and the converted amount on the target, and writes no row and no flag |
| Views.TransferNow | wallet/views.py:161-172 | the source loses twice the amount, the target gains the credited amount plus the converted amount, and the ledger gets one debit row and one credit row; the high-value flag is on file at the limit or above, and the velocity flag once the source has at least three recent transactions; no other flag is added |
| Views.TransferFirstSave | wallet/views.py:161-165 | the handler's save of the new approved transfer debits the source object once and credits the target object with the credited amount, writes the two matching rows, and files the high-value and velocity flags exactly when their rules fire |
| Views.SaveTransfer | wallet/views.py:165 | the save of an auto-approved transfer debits the source object and credits the target object, with matching rows; the high-value and velocity flags are on file when their rules fire, and no other flag is added |
| Views.Approve | wallet/views.py:244-315 | a non-manager is refused; a missing or non-pending transaction is not found; a pending deposit or transfer fails; approval commits exactly for a pending withdrawal, and what it commits is the withdrawal approval's store |
| Views.ApproveWithdrawal | wallet/views.py:266-283 | the row becomes approved with approver and time; the balance drops by the amount and the hold is released by it, floored at zero; one debit row carries the new balance; above the limit the approval's own flag is on file, at the limit or above the high-value flag is, and with at least three recent transactions of the wallet the velocity flag is; beyond the approval's own flag, only flags of rules that fired are added |
| Views.Reject | wallet/views.py:320-337 | a non-manager is refused; a missing or non-pending transaction is not found; otherwise the rejection commits, except for a transfer whose target has no converted amount; what it commits is the transfer rejection's store for a transfer with a target and the source rejection's otherwise |
| Views.RejectSource | wallet/views.py:321-333 | the row becomes rejected with approver and time; no ledger row is written; the source's hold is released and its balance ends higher by the amount; the high-value and velocity flags are on file when their rules fire, and no other flag is added |
| Views.RejectTransfer | wallet/views.py:321-333 | as for the source, and the target also releases the converted amount; the same two flags are on file when their rules fire, and no other flag is added |
| Views.RejectSave | wallet/views.py:333 | saving the rejected row credits the amount to the cached source object and writes no row; the high-value and velocity flags are on file when their rules fire, and no other flag is added |
| Views.CheckLargeWithdrawals | wallet/views.py:71-84 | the check fails exactly when the wallet's approved withdrawals processed in the last day total more than the limit, and otherwise changes nothing |
| Invariants.AppendStepValid | wallet/views.py:51-60 | a step that appends a row whose holds are exactly what it froze keeps the invariant |
| Invariants.SettleStepValid | wallet/views.py:244-337 | a step that settles a pending row and releases exactly its holds keeps the invariant |
| Invariants.SubmitValid | wallet/views.py:51-60 | the shared deposit and withdrawal step keeps the invariant |
| Invariants.DepositValid | wallet/views.py:39-68 | a committed deposit keeps the invariant |
| Invariants.WithdrawValid | wallet/views.py:88-119 | a committed withdrawal keeps the invariant |
| Invariants.TransferHoldValid | wallet/views.py:154-160 | a parked transfer keeps the invariant: its two holds are the parked row's two holds |
| Invariants.TransferNowValid | wallet/views.py:161-172 | an immediate transfer keeps the invariant, since it holds nothing |
| Invariants.TransferValid | wallet/views.py:125-183 | a committed transfer keeps the invariant in both branches |
| Invariants.PendingCovered | wallet/views.py:327-330 | a pending transaction's hold is covered by its wallet's frozen amount, and a pending transfer's converted amount by its target's |
| Invariants.AvailableIsUnheld | wallet/models.py:104-106 | under the invariant a wallet's available balance is its balance less the holds of its pending transactions |
| Invariants.ApprovalFlagIffHighRisk | wallet/models.py:125-126 | the approval's own flag lands on an approved withdrawal exactly when the withdrawal is high-risk |
| Invariants.ApproveValid | wallet/views.py:244-315 | a committed approval keeps the invariant |
| Invariants.RejectValid | wallet/views.py:320-337 | a committed rejection keeps the invariant |
| Invariants.RejectSourceValid | wallet/views.py:327 | rejecting a pending deposit or withdrawal keeps the invariant |
| Invariants.RejectTransferValid | wallet/views.py:327-330 | rejecting a pending transfer with a target keeps the invariant |
| Invariants.ApproveOnce | wallet/views.py:245 | once approved, a transaction can be neither approved nor rejected again |
| Invariants.RejectOnce | wallet/views.py:321 | once rejected, a transaction can be neither approved nor rejected again |
| Invariants.SubmitKeepsBooks | wallet/views.py:51-60 | a deposit or withdrawal moves each balance by exactly its new ledger rows |
| Invariants.DepositReconciled | wallet/views.py:39-68 | a committed deposit keeps the balances equal to the base plus the ledger replay |
| Invariants.WithdrawReconciled | wallet/views.py:88-119 | a committed withdrawal keeps the balances equal to the base plus the ledger replay |
| Invariants.TransferHoldKeepsBooks | wallet/views.py:154-160 | a parked transfer moves no balance and writes no row |
| Invariants.ApproveKeepsBooks | wallet/views.py:266-276 | a committed approval moves each balance by exactly its ledger rows |
| Invariants.ApproveReleases | wallet/views.py:266-276 | approving a covered pending withdrawal lowers balance and hold by the amount and appends one debit row with the new balance |
| Invariants.ParkWithdrawal | wallet/views.py:101-105 | a withdrawal above the threshold is parked as pending, freezes its amount and leaves balance and ledger alone |
| Invariants.ParkThenApprove | wallet/views.py:266-276 | parking a withdrawal and approving it lowers the balance by the amount and leaves the hold as it was before |
| Invariants.ParkThenApproveLedger | wallet/views.py:266-276 | parking a withdrawal and approving it writes exactly one debit row with the balance after |
| Invariants.ParkThenReject | wallet/views.py:321-333 | parking a withdrawal and rejecting it restores the hold, writes no row, and leaves the balance higher by the amount |
| Divergences.ConvertZero | wallet/views.py:137-148 | a transfer of nothing converts to nothing, at any rate |
| Divergences.TransferDeltas | wallet/views.py:161-172 | the ledger moves the source by minus the amount but its balance drops by twice the amount; the ledger moves the target by the credit but its balance gains the credit plus the converted amount |
| Divergences.NothingMoved | wallet/views.py:161-172 | an immediate transfer of zero that converts to zero moves every balance by exactly its ledger rows |
| Divergences.TransferAppliedTwice | wallet/views.py:161-172 | an immediate transfer keeps the books exactly when both its amount and its converted amount are zero |
| Divergences.TransferRequestBooks | wallet/views.py:161-172 | an immediate transfer request keeps the books exactly when its amount is zero |
| Divergences.RejectCreditsSource | wallet/signals.py:99-101 | under the invariant, every committed rejection raises the source balance by the amount with no ledger row, so it never keeps the books |
| Divergences.OnlyWithdrawalsApprove | wallet/views.py:254-293 | a pending transaction can be approved exactly when it is a withdrawal; any other kind fails |
| Divergences.WithdrawOverHeldFunds | wallet/views.py:95-97 | a withdrawal that the balance covers but the available balance does not commits, and leaves the available balance negative: at or below the threshold the balance drops by the amount, above it the hold grows by the amount |
| Divergences.ApprovalAtLimit | wallet/views.py:278 | a withdrawal of exactly the limit is not high-risk and gets no approval flag, yet the handler flags it as high value |
| Scenarios.TransferScenario | wallet/views.py:125-172 | user 1 moving 50,000 INR from a wallet of 1,000,000 INR to user 2's empty INR wallet commits, and leaves 900,000 and 100,000, with ledger rows of 50,000 each, so the books are not kept |
| Scenarios.TransferScenarioCommits | wallet/views.py:125-165 | the example's request passes every check and commits an immediate transfer with the amount itself as converted amount |
| Scenarios.TransferScenarioOutcome | wallet/views.py:161-172 | in any store where the two wallets hold 1,000,000 and nothing, the immediate transfer leaves 900,000 and 100,000 with rows of 50,000 each, and does not keep the books |

## Left out

- Rendering and list views (dashboard, ledger, pending list, manager dashboard and histories): queries and templates only.
- Registration, OTP and login views, the TOTP methods and the login/logout signal handlers: they rely on sessions, request metadata and one-time-password libraries.
- Email notifications from the views and the handler: fire-and-forget I/O with no effect on the store, so they are left out.
- Rate limiting, `select_for_update` and the atomic blocks: each request is one sequential all-or-nothing step, and an `Err` result stands for the rollback.
- Login and manager-only redirects: a non-manager's approval or rejection is `Forbidden`, and login checks are not modelled.
- Field-level form parsing (required fields, decimal parsing, `max_digits=12`): amounts arrive as parsed cents, and the column width is not enforced.
- The password checks of the registration form: library code, not part of this model.
- Wall-clock time and UUID generation: both are parameters (`now`, and the drawn identifier of `SaveWallet`).
- The URL routing and the admin registration: no behaviour.
- No request checks that the amount is positive, so the model has no such check either. A parked row's amount is positive only because it exceeds the threshold.
- Views.ConvertedAmount: rounds the exact product of the amount and the decimal literal of the rate. The application first turns a float into a decimal, and that float's binary error is not modelled.
- Views.CheckLargeWithdrawals: the helper is never called, and its flag insertion lacks the required transaction, so it is modelled as the sum test ending in `IntegrityError`. Its rate-limit decorator is not modelled.
- Signals.HandleSave: its own contract states only the parts common to every case. The effect of each case on balances and ledger is stated by the `Save…` lemmas next to it.
- The fraud flags' reason texts and timestamps are modelled as a reason datatype (high value, velocity with its count, withdrawal above the limit). Deduplication compares that datatype.
- Wallet writes inside the engine (freeze, unfreeze, and the balance updates of the views and the handler) are plain writes that do not go through `Models.SaveWallet`. Every one of them keeps the account number, and `SaveWallet` leaves a wallet that has one unchanged, so `Store.Valid` does not also require a non-empty account number.
- The approved-transfer branch of the approval view is unreachable because of the missing `unfreeze` argument. Its balance updates are therefore modelled only through `Views.Approve` failing.
