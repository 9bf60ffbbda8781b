/** The request handlers that move money: deposit, withdrawal and transfer
    requests, and the manager's approval and rejection of parked ones. Each
    request is one all-or-nothing step: `Ok` carries the committed store,
    `Err` means nothing persisted. Every transaction save runs the post-save
    handler on the objects the view holds. */
module Views {
  import opened Common
  import opened Models
  import opened Rates
  import opened Forms
  import opened Store
  import opened Signals

  /** The window of the unused large-withdrawal check: 24 hours. */
  const DayWindow: Time := 24 * 60 * 60

  /** The new transaction row of a request. */
  function NewTx(wid: WalletId, target: Option<WalletId>, kind: TxType, amount: Cents,
                 converted: Option<Cents>, approved: bool, now: Time, note: string): (t: Transaction)
    ensures t.status == (if approved then Approved else Pending)
    ensures t.processedAt == (if approved then Some(now) else None)
  {
    Transaction(wid, target, kind, amount, converted,
                if approved then Approved else Pending, now,
                if approved then Some(now) else None, None, note)
  }

  /** The atomic part shared by deposits and withdrawals, once the request
      has passed its checks: above the threshold the amount is frozen and the
      transaction parked; otherwise it is saved as approved and the handler
      applies it. */
  function Submit(s: Store, wid: WalletId, kind: TxType, amount: Cents, note: string, now: Time): (r: Store)
    requires WellFormed(s) && wid in s.wallets && kind != Transfer
    ensures r.txs == s.txs + [NewTx(wid, None, kind, amount, None, amount <= TransactionThreshold, now, note)]
    ensures amount > TransactionThreshold ==>
      && r.wallets == s.wallets[wid := Freeze(s.wallets[wid], amount)]
      && r.ledger == s.ledger && r.frauds == s.frauds
    ensures amount <= TransactionThreshold ==>
      var w := s.wallets[wid];
      var sign := if kind == Deposit then 1 else -1;
      && r.wallets == s.wallets[wid := w.(balance := w.balance + sign * amount)]
      && r.ledger == s.ledger + [LedgerEntry(|s.txs|, wid, if kind == Deposit then Credit else Debit,
                                             amount, w.balance + sign * amount, now)]
      && AddsOnly(s.frauds, r.frauds, w.user, |s.txs|,
                  FiredReasons(amount, CountRecent(r.txs, wid, now - FraudWindow)))
    ensures amount <= TransactionThreshold ==>
      var n := CountRecent(r.txs, wid, now - FraudWindow);
      n >= FraudTxnCount ==> HasFlag(r.frauds, (s.wallets[wid].user, |s.txs|, Velocity(n)))
    ensures FlagsDistinct(s.frauds) ==> FlagsDistinct(r.frauds)
  {
    if amount > TransactionThreshold then SubmitHeld(s, wid, kind, amount, note, now)
    else SubmitNow(s, wid, kind, amount, note, now)
  }

  /** The parked branch of a submission: the amount is frozen and the row
      is created pending, which the handler leaves alone. */
  function SubmitHeld(s: Store, wid: WalletId, kind: TxType, amount: Cents, note: string, now: Time): (r: Store)
    requires WellFormed(s) && wid in s.wallets && kind != Transfer && amount > TransactionThreshold
    ensures r.txs == s.txs + [NewTx(wid, None, kind, amount, None, false, now, note)]
    ensures r.wallets == s.wallets[wid := Freeze(s.wallets[wid], amount)]
    ensures r.ledger == s.ledger && r.frauds == s.frauds
  {
    var held := Freeze(s.wallets[wid], amount);
    var tx := NewTx(wid, None, kind, amount, None, false, now, note);
    var s1 := AppendTx(PutWallet(s, wid, held), tx);
    SaveCreatedPending(s1, Instance(|s.txs|, tx, held, None), now);
    HandleSave(s1, Instance(|s.txs|, tx, held, None), true, now).store
  }

  /** The immediate branch of a submission: the row is created approved
      and its save moves the balance, writes the ledger row and runs the
      fraud rules. */
  function SubmitNow(s: Store, wid: WalletId, kind: TxType, amount: Cents, note: string, now: Time): (r: Store)
    requires WellFormed(s) && wid in s.wallets && kind != Transfer && amount <= TransactionThreshold
    ensures r.txs == s.txs + [NewTx(wid, None, kind, amount, None, true, now, note)]
    ensures var w := s.wallets[wid];
      var sign := if kind == Deposit then 1 else -1;
      && r.wallets == s.wallets[wid := w.(balance := w.balance + sign * amount)]
      && r.ledger == s.ledger + [LedgerEntry(|s.txs|, wid, if kind == Deposit then Credit else Debit,
                                             amount, w.balance + sign * amount, now)]
      && AddsOnly(s.frauds, r.frauds, w.user, |s.txs|,
                  FiredReasons(amount, CountRecent(r.txs, wid, now - FraudWindow)))
    ensures var n := CountRecent(r.txs, wid, now - FraudWindow);
      n >= FraudTxnCount ==> HasFlag(r.frauds, (s.wallets[wid].user, |s.txs|, Velocity(n)))
    ensures FlagsDistinct(s.frauds) ==> FlagsDistinct(r.frauds)
  {
    var w := s.wallets[wid];
    var id := |s.txs|;
    var tx := NewTx(wid, None, kind, amount, None, true, now, note);
    var s1 := AppendTx(s, tx);
    assert !HasLedger(s1.ledger, id);
    SaveFirstApproval(s1, Instance(id, tx, w, None), true, now);
    HandleSave(s1, Instance(id, tx, w, None), true, now).store
  }

  /** A deposit request into wallet `wid` by `user`. */
  function DepositRequest(s: Store, user: UserId, wid: WalletId, amount: Cents, note: string, now: Time): (r: Result<Store>)
    requires WellFormed(s)
    ensures r.Err? <==> wid !in SourceChoices(s.wallets, user)
    ensures r.Err? ==> r.failure == FormInvalid({WalletField})
    ensures r.Ok? ==> r.value == Submit(s, wid, Deposit, amount, note, now)
  {
    if wid !in SourceChoices(s.wallets, user) then Err(FormInvalid({WalletField}))
    else Ok(Submit(s, wid, Deposit, amount, note, now))
  }

  /** A withdrawal request from wallet `wid` by `user`. The form and then
      the view compare the amount with the full balance, not the available
      one. */
  function WithdrawRequest(s: Store, user: UserId, wid: WalletId, amount: Cents, note: string, now: Time): (r: Result<Store>)
    requires WellFormed(s)
    ensures wid !in SourceChoices(s.wallets, user) ==> r == Err(FormInvalid({WalletField}))
    ensures wid in SourceChoices(s.wallets, user) ==>
      (r.Err? <==> s.wallets[wid].balance < amount)
    // the form refuses a nonzero amount over the balance; the view's own check catches only a zero one
    ensures wid in SourceChoices(s.wallets, user) && amount != 0 && s.wallets[wid].balance < amount ==>
      r == Err(FormInvalid({AmountField}))
    ensures wid in SourceChoices(s.wallets, user) && amount == 0 && s.wallets[wid].balance < 0 ==>
      r == Err(InsufficientBalance)
    ensures r.Ok? ==> wid in s.wallets && r.value == Submit(s, wid, Withdraw, amount, note, now)
  {
    if wid !in SourceChoices(s.wallets, user) then Err(FormInvalid({WalletField}))
    else
      var w := s.wallets[wid];
      var errors := WithdrawClean(Some(w), Some(amount));
      if errors != {} then Err(FormInvalid(errors))
      else if w.balance < amount then Err(InsufficientBalance)
      else Ok(Submit(s, wid, Withdraw, amount, note, now))
  }

  /** The amount a transfer will credit: the amount itself between wallets
      of one currency, else the amount at the table rate, rounded to cents. */
  function ConvertedAmount(w: Wallet, t: Wallet, amount: Cents): (r: Cents)
    ensures w.currency == t.currency ==> r == amount
    ensures w.currency != t.currency ==>
      RoundsHalfEven(amount * ConversionRate(w.currency, t.currency).num,
                     ConversionRate(w.currency, t.currency).den, r)
    ensures amount >= 0 ==> r >= 0
  {
    if w.currency != t.currency then
      var r := Convert(amount, ConversionRate(w.currency, t.currency));
      (if amount >= 0 then ConvertNonNegative(amount, ConversionRate(w.currency, t.currency)); r else r)
    else amount
  }

  /** A transfer request from `wid` to `target` by `user`. The form
      reports every field error at once; the view then checks the balance
      again and dereferences the target, which raises when none was given. */
  function TransferRequest(s: Store, user: UserId, wid: WalletId, target: Option<WalletId>,
                           amount: Cents, note: string, now: Time): (r: Result<Store>)
    requires WellFormed(s)
    ensures var errors := TransferFormErrors(s.wallets, user, wid, target, amount);
      errors != {} ==> r == Err(FormInvalid(errors))
    ensures wid !in SourceChoices(s.wallets, user) ==> r.Err? && r.failure.FormInvalid? && WalletField in r.failure.fields
    ensures target.Some? && target.value !in s.wallets ==> r.Err?
    ensures target == Some(wid) ==> r.Err?
    ensures wid in s.wallets && s.wallets[wid].balance < amount ==> r.Err?
    ensures target.None? ==> r.Err?
    ensures r.Ok? <==>
      && wid in SourceChoices(s.wallets, user) && target.Some? && target.value in s.wallets
      && target.value != wid && s.wallets[wid].balance >= amount
    ensures r.Ok? ==>
      var c := ConvertedAmount(s.wallets[wid], s.wallets[target.value], amount);
      && (amount > TransactionThreshold ==> r.value == TransferHold(s, wid, target.value, amount, c, note, now))
      && (amount <= TransactionThreshold ==> r.value == TransferNow(s, wid, target.value, amount, c, note, now))
  {
    var errors := TransferFormErrors(s.wallets, user, wid, target, amount);
    if errors != {} then Err(FormInvalid(errors))
    else
      var w := s.wallets[wid];
      if w.balance < amount then Err(InsufficientBalance)
      else if target.None? then Err(ServerError)  // the currency comparison dereferences a missing target
      else
        var c := ConvertedAmount(w, s.wallets[target.value], amount);
        if amount > TransactionThreshold then Ok(TransferHold(s, wid, target.value, amount, c, note, now))
        else Ok(TransferNow(s, wid, target.value, amount, c, note, now))
  }

  /** The atomic part of a transfer above the threshold, given the
      converted amount `c`: both legs are frozen and the transaction is
      parked. */
  function TransferHold(s: Store, wid: WalletId, tid: WalletId, amount: Cents, c: Cents, note: string, now: Time): (r: Store)
    requires WellFormed(s) && wid in s.wallets && tid in s.wallets && wid != tid
    requires amount > TransactionThreshold
    ensures r.txs == s.txs + [NewTx(wid, Some(tid), Transfer, amount, Some(c), false, now, note)]
    ensures r.wallets == s.wallets[wid := Freeze(s.wallets[wid], amount)][tid := Freeze(s.wallets[tid], c)]
    ensures r.ledger == s.ledger && r.frauds == s.frauds
  {
    var w, t := s.wallets[wid], s.wallets[tid];
    var s2 := PutWallet(PutWallet(s, wid, Freeze(w, amount)), tid, Freeze(t, c));
    var tx := NewTx(wid, Some(tid), Transfer, amount, Some(c), false, now, note);
    var inst := Instance(|s.txs|, tx, s2.wallets[wid], Some(s2.wallets[tid]));
    SaveCreatedPending(AppendTx(s2, tx), inst, now);
    HandleSave(AppendTx(s2, tx), inst, true, now).store
  }

  /** The atomic part of a transfer at or below the threshold, given the
      converted amount `c`: the transaction is saved as approved, the handler
      applies both legs with their ledger rows, and the view then applies
      both legs a second time on the same wallet objects. */
  function TransferNow(s: Store, wid: WalletId, tid: WalletId, amount: Cents, c: Cents, note: string, now: Time): (r: Store)
    requires WellFormed(s) && wid in s.wallets && tid in s.wallets && wid != tid
    ensures r.txs == s.txs + [NewTx(wid, Some(tid), Transfer, amount, Some(c), true, now, note)]
    ensures var w, t := s.wallets[wid], s.wallets[tid];
      var credited := if c != 0 then c else amount;
      r.wallets == s.wallets[wid := w.(balance := w.balance - 2 * amount)]
                            [tid := t.(balance := t.balance + credited + c)]
    ensures var w, t := s.wallets[wid], s.wallets[tid];
      var credited := if c != 0 then c else amount;
      r.ledger == s.ledger + [
        LedgerEntry(|s.txs|, wid, Debit, amount, w.balance - amount, now),
        LedgerEntry(|s.txs|, tid, Credit, credited, t.balance + credited, now)]
    ensures AddsOnly(s.frauds, r.frauds, s.wallets[wid].user, |s.txs|,
                     FiredReasons(amount, CountRecent(r.txs, wid, now - FraudWindow)))
    ensures amount >= FraudAmountLimit ==> HasFlag(r.frauds, (s.wallets[wid].user, |s.txs|, HighValue))
    ensures var n := CountRecent(r.txs, wid, now - FraudWindow);
      n >= FraudTxnCount ==> HasFlag(r.frauds, (s.wallets[wid].user, |s.txs|, Velocity(n)))
    ensures FlagsDistinct(s.frauds) ==> FlagsDistinct(r.frauds)
  {
    var h := TransferFirstSave(s, wid, tid, amount, c, note, now);
    // the view's own second application, on the objects the handler updated
    var w2 := h.inst.src.(balance := h.inst.src.balance - amount);
    var t2 := h.inst.tgt.value.(balance := h.inst.tgt.value.balance + c);
    RewriteTwo(s.wallets, wid, tid, h.inst.src, h.inst.tgt.value, w2, t2);
    PutWallet(PutWallet(h.store, wid, w2), tid, t2)
  }

  /** The handler's save of a new approved transfer row from `wid` to `tid`,
      stated on the store before the row was added. */
  function TransferFirstSave(s: Store, wid: WalletId, tid: WalletId, amount: Cents, c: Cents, note: string, now: Time): (r: Saved)
    requires WellFormed(s) && wid in s.wallets && tid in s.wallets && wid != tid
    ensures r.store.txs == s.txs + [NewTx(wid, Some(tid), Transfer, amount, Some(c), true, now, note)]
    ensures var w, t := s.wallets[wid], s.wallets[tid];
      var credited := if c != 0 then c else amount;
      && r.inst.src == w.(balance := w.balance - amount)
      && r.inst.tgt == Some(t.(balance := t.balance + credited))
      && r.store.wallets == s.wallets[wid := r.inst.src][tid := r.inst.tgt.value]
      && r.store.ledger == s.ledger + [
           LedgerEntry(|s.txs|, wid, Debit, amount, w.balance - amount, now),
           LedgerEntry(|s.txs|, tid, Credit, credited, t.balance + credited, now)]
    ensures AddsOnly(s.frauds, r.store.frauds, s.wallets[wid].user, |s.txs|,
                     FiredReasons(amount, CountRecent(r.store.txs, wid, now - FraudWindow)))
    ensures amount >= FraudAmountLimit ==> HasFlag(r.store.frauds, (s.wallets[wid].user, |s.txs|, HighValue))
    ensures var n := CountRecent(r.store.txs, wid, now - FraudWindow);
      n >= FraudTxnCount ==> HasFlag(r.store.frauds, (s.wallets[wid].user, |s.txs|, Velocity(n)))
    ensures FlagsDistinct(s.frauds) ==> FlagsDistinct(r.store.frauds)
  {
    var w, t := s.wallets[wid], s.wallets[tid];
    var tx := NewTx(wid, Some(tid), Transfer, amount, Some(c), true, now, note);
    var s1 := AppendTx(s, tx);
    assert !HasLedger(s1.ledger, |s.txs|);
    var h := SaveTransfer(s1, Instance(|s.txs|, tx, w, Some(t)), now);
    assert CreditedAmount(tx) == if c != 0 then c else amount;
    assert h.store.txs == s1.txs;
    h
  }

  /** The first save of an approved transfer whose target object is cached:
      the handler debits the source object and credits the target object,
      with one row each, and runs the fraud rules. */
  function SaveTransfer(s: Store, inst: Instance, now: Time): (r: Saved)
    requires inst.tx.status == Approved && inst.tx.kind == Transfer && !HasLedger(s.ledger, inst.id)
    requires inst.tx.target.Some? && inst.tgt.Some?
    ensures r.store.txs == s.txs
    ensures r.inst.src == inst.src.(balance := inst.src.balance - inst.tx.amount)
    ensures r.inst.tgt == Some(inst.tgt.value.(balance := inst.tgt.value.balance + CreditedAmount(inst.tx)))
    ensures r.store.wallets == s.wallets[inst.tx.wallet := r.inst.src][inst.tx.target.value := r.inst.tgt.value]
    ensures r.store.ledger == s.ledger + [
      LedgerEntry(inst.id, inst.tx.wallet, Debit, inst.tx.amount, r.inst.src.balance, now),
      LedgerEntry(inst.id, inst.tx.target.value, Credit, CreditedAmount(inst.tx), r.inst.tgt.value.balance, now)]
    ensures AddsOnly(s.frauds, r.store.frauds, inst.src.user, inst.id,
                     FiredReasons(inst.tx.amount, CountRecent(s.txs, inst.tx.wallet, now - FraudWindow)))
    ensures inst.tx.amount >= FraudAmountLimit ==> HasFlag(r.store.frauds, (inst.src.user, inst.id, HighValue))
    ensures var n := CountRecent(s.txs, inst.tx.wallet, now - FraudWindow);
      n >= FraudTxnCount ==> HasFlag(r.store.frauds, (inst.src.user, inst.id, Velocity(n)))
    ensures FlagsDistinct(s.frauds) ==> FlagsDistinct(r.store.frauds)
  {
    SaveFirstTransfer(s, inst, true, now);
    HandleSave(s, inst, true, now)
  }

  /** The manager's approval of transaction `id`. Only a pending
      transaction can be approved. The deposit and transfer branches call
      `unfreeze` without its amount, which raises, so the whole approval rolls
      back. */
  function Approve(s: Store, manager: User, id: TxId, now: Time): (r: Result<Store>)
    requires WellFormed(s)
    ensures !IsManager(manager) ==> r == Err(Forbidden)
    ensures IsManager(manager) && (id >= |s.txs| || s.txs[id].status != Pending) ==> r == Err(NotFound)
    ensures IsManager(manager) && id < |s.txs| && s.txs[id].status == Pending && s.txs[id].kind != Withdraw ==>
      r == Err(ServerError)
    ensures r.Ok? <==> IsManager(manager) && id < |s.txs| && s.txs[id].status == Pending && s.txs[id].kind == Withdraw
    ensures r.Ok? ==> r.value == ApproveWithdrawal(s, manager, id, now)
  {
    if !IsManager(manager) then Err(Forbidden)
    else if id >= |s.txs| || s.txs[id].status != Pending then Err(NotFound)
    else
      match s.txs[id].kind
      case Deposit => Err(ServerError)
      case Transfer => Err(ServerError)
      case Withdraw => Ok(ApproveWithdrawal(s, manager, id, now))
  }

  /** The withdrawal branch of an approval: the wallet is debited and its
      hold released, one debit row is written, a withdrawal strictly above
      the fraud limit gets the approval's own flag, and the save then runs the
      handler, which finds the row and only applies the fraud rules. */
  function ApproveWithdrawal(s: Store, manager: User, id: TxId, now: Time): (r: Store)
    requires WellFormed(s) && id < |s.txs| && s.txs[id].status == Pending && s.txs[id].kind == Withdraw
    ensures var tx := s.txs[id];
      var w := s.wallets[tx.wallet];
      && r.txs == s.txs[id := tx.(status := Approved, approvedBy := Some(manager.id), processedAt := Some(now))]
      && r.wallets == s.wallets[tx.wallet := Unfreeze(w.(balance := w.balance - tx.amount), tx.amount)]
      && r.ledger == s.ledger + [LedgerEntry(id, tx.wallet, Debit, tx.amount, w.balance - tx.amount, now)]
      && var base := if tx.amount > FraudAmountLimit
                     then s.frauds + [FraudLog(w.user, id, WithdrawAboveLimit, now)] else s.frauds;
         && AddsOnly(base, r.frauds, w.user, id,
                     FiredReasons(tx.amount, CountRecent(r.txs, tx.wallet, now - FraudWindow)))
         && (FlagsDistinct(base) ==> FlagsDistinct(r.frauds))
    ensures var tx := s.txs[id];
      var user := s.wallets[tx.wallet].user;
      && (tx.amount > FraudAmountLimit ==> HasFlag(r.frauds, (user, id, WithdrawAboveLimit)))
      && (tx.amount >= FraudAmountLimit ==> HasFlag(r.frauds, (user, id, HighValue)))
      && var n := CountRecent(r.txs, tx.wallet, now - FraudWindow);
         n >= FraudTxnCount ==> HasFlag(r.frauds, (user, id, Velocity(n)))
  {
    var tx := s.txs[id];
    var done := tx.(status := Approved, approvedBy := Some(manager.id), processedAt := Some(now));
    var w := s.wallets[tx.wallet];
    var w2 := Unfreeze(w.(balance := w.balance - tx.amount), tx.amount);
    var s1 := AddEntry(PutWallet(s, tx.wallet, w2), LedgerEntry(id, tx.wallet, Debit, tx.amount, w2.balance, now));
    var s2 := if tx.amount > FraudAmountLimit then AddFlag(s1, FraudLog(w.user, id, WithdrawAboveLimit, now)) else s1;
    var s3 := SetTx(s2, id, done);
    assert s3.wallets == s.wallets[tx.wallet := w2];
    assert s3.ledger == s.ledger + [LedgerEntry(id, tx.wallet, Debit, tx.amount, w.balance - tx.amount, now)];
    assert s3.ledger[|s.ledger|].tx == id;
    assert HasLedger(s3.ledger, id);
    assert s3.frauds == if tx.amount > FraudAmountLimit
                        then s.frauds + [FraudLog(w.user, id, WithdrawAboveLimit, now)] else s.frauds;
    assert tx.amount > FraudAmountLimit ==> FlagKey(s3.frauds[|s.frauds|]) == (w.user, id, WithdrawAboveLimit);
    // the handler is given the wallet object loaded before the update
    var inst := Instance(id, done, w, None);
    SaveApprovedAgain(s3, inst, false, now);
    var h := HandleSave(s3, inst, false, now);
    HasFlagKept(s3.frauds, h.store.frauds, (w.user, id, WithdrawAboveLimit));
    h.store
  }

  /** The manager's rejection of transaction `id`. Only a pending
      transaction can be rejected. */
  function Reject(s: Store, manager: User, id: TxId, now: Time): (r: Result<Store>)
    requires WellFormed(s)
    ensures !IsManager(manager) ==> r == Err(Forbidden)
    ensures IsManager(manager) && (id >= |s.txs| || s.txs[id].status != Pending) ==> r == Err(NotFound)
    ensures r.Ok? <==>
      && IsManager(manager) && id < |s.txs| && s.txs[id].status == Pending
      && !(s.txs[id].kind == Transfer && s.txs[id].target.Some? && s.txs[id].converted.None?)
    ensures r.Ok? ==>
      r.value == if s.txs[id].kind == Transfer && s.txs[id].target.Some?
                 then RejectTransfer(s, manager, id, now) else RejectSource(s, manager, id, now)
  {
    if !IsManager(manager) then Err(Forbidden)
    else if id >= |s.txs| || s.txs[id].status != Pending then Err(NotFound)
    else
      var tx := s.txs[id];
      if tx.kind == Transfer && tx.target.Some? then
        // unfreezing the target by a missing converted amount raises
        if tx.converted.None? then Err(ServerError)
        else Ok(RejectTransfer(s, manager, id, now))
      else Ok(RejectSource(s, manager, id, now))
  }

  /** The rejection of a pending deposit or withdrawal: the source
      releases the amount; no ledger row is written, but the save lets the
      handler credit the amount to the source. */
  function RejectSource(s: Store, manager: User, id: TxId, now: Time): (r: Store)
    requires WellFormed(s) && id < |s.txs| && s.txs[id].status == Pending
    requires !(s.txs[id].kind == Transfer && s.txs[id].target.Some?)
    ensures var tx := s.txs[id];
      var w := s.wallets[tx.wallet];
      && r.txs == s.txs[id := tx.(status := Rejected, approvedBy := Some(manager.id), processedAt := Some(now))]
      && r.ledger == s.ledger
      && r.wallets == s.wallets[tx.wallet := Unfreeze(w, tx.amount).(balance := w.balance + tx.amount)]
      && AddsOnly(s.frauds, r.frauds, w.user, id,
                  FiredReasons(tx.amount, CountRecent(r.txs, tx.wallet, now - FraudWindow)))
    ensures var tx := s.txs[id];
      var user := s.wallets[tx.wallet].user;
      && (tx.amount >= FraudAmountLimit ==> HasFlag(r.frauds, (user, id, HighValue)))
      && var n := CountRecent(r.txs, tx.wallet, now - FraudWindow);
         n >= FraudTxnCount ==> HasFlag(r.frauds, (user, id, Velocity(n)))
    ensures FlagsDistinct(s.frauds) ==> FlagsDistinct(r.frauds)
  {
    var tx := s.txs[id];
    var done := tx.(status := Rejected, approvedBy := Some(manager.id), processedAt := Some(now));
    var a := Unfreeze(s.wallets[tx.wallet], tx.amount);
    var s1 := PutWallet(s, tx.wallet, a);
    var r := RejectSave(SetTx(s1, id, done), Instance(id, done, a, None), now);
    RewriteOne(s.wallets, tx.wallet, a, a.(balance := a.balance + tx.amount));
    r
  }

  /** The rejection of a pending transfer with a target: the source
      releases the amount and the target the converted amount; no ledger
      row is written, but the save lets the handler credit the amount to the
      source. */
  function RejectTransfer(s: Store, manager: User, id: TxId, now: Time): (r: Store)
    requires WellFormed(s) && id < |s.txs| && s.txs[id].status == Pending
    requires s.txs[id].kind == Transfer && s.txs[id].target.Some? && s.txs[id].converted.Some?
    ensures var tx := s.txs[id];
      var w := s.wallets[tx.wallet];
      && r.txs == s.txs[id := tx.(status := Rejected, approvedBy := Some(manager.id), processedAt := Some(now))]
      && r.ledger == s.ledger
      && r.wallets == s.wallets[tx.target.value := Unfreeze(s.wallets[tx.target.value], tx.converted.value)]
                               [tx.wallet := Unfreeze(w, tx.amount).(balance := w.balance + tx.amount)]
      && AddsOnly(s.frauds, r.frauds, w.user, id,
                  FiredReasons(tx.amount, CountRecent(r.txs, tx.wallet, now - FraudWindow)))
    ensures var tx := s.txs[id];
      var user := s.wallets[tx.wallet].user;
      && (tx.amount >= FraudAmountLimit ==> HasFlag(r.frauds, (user, id, HighValue)))
      && var n := CountRecent(r.txs, tx.wallet, now - FraudWindow);
         n >= FraudTxnCount ==> HasFlag(r.frauds, (user, id, Velocity(n)))
    ensures FlagsDistinct(s.frauds) ==> FlagsDistinct(r.frauds)
  {
    var tx := s.txs[id];
    var done := tx.(status := Rejected, approvedBy := Some(manager.id), processedAt := Some(now));
    var a := Unfreeze(s.wallets[tx.wallet], tx.amount);
    var s1 := PutWallet(s, tx.wallet, a);
    // the target object is loaded after the source was saved
    var t := Unfreeze(s1.wallets[tx.target.value], tx.converted.value);
    var s2 := PutWallet(PutWallet(s1, tx.target.value, t), tx.wallet, a);
    var r := RejectSave(SetTx(s2, id, done), Instance(id, done, a, Some(t)), now);
    assert r.wallets == s2.wallets[tx.wallet := a.(balance := a.balance + tx.amount)];
    assert a.user == s.wallets[tx.wallet].user && r.txs == s.txs[id := done];
    r
  }

  /** The save of a rejected row: the handler credits the amount to the
      cached source object and runs the fraud rules. */
  function RejectSave(s: Store, inst: Instance, now: Time): (r: Store)
    requires inst.tx.status == Rejected && Loadable(s, inst)
    ensures r.txs == s.txs && r.ledger == s.ledger
    ensures r.wallets == s.wallets[inst.tx.wallet := inst.src.(balance := inst.src.balance + inst.tx.amount)]
    ensures AddsOnly(s.frauds, r.frauds, inst.src.user, inst.id,
                     FiredReasons(inst.tx.amount, CountRecent(s.txs, inst.tx.wallet, now - FraudWindow)))
    ensures inst.tx.amount >= FraudAmountLimit ==> HasFlag(r.frauds, (inst.src.user, inst.id, HighValue))
    ensures var n := CountRecent(s.txs, inst.tx.wallet, now - FraudWindow);
      n >= FraudTxnCount ==> HasFlag(r.frauds, (inst.src.user, inst.id, Velocity(n)))
    ensures FlagsDistinct(s.frauds) ==> FlagsDistinct(r.frauds)
  {
    SaveRejected(s, inst, false, now);
    HandleSave(s, inst, false, now).store
  }

  /** The total of approved withdrawals of wallet `w` processed at or after
      `since`. */
  function WithdrawnSince(txs: seq<Transaction>, w: WalletId, since: Time): Cents
    decreases |txs|
  {
    if |txs| == 0 then 0
    else
      var t := txs[|txs| - 1];
      WithdrawnSince(txs[..|txs| - 1], w, since) +
      (if t.wallet == w && t.kind == Withdraw && t.status == Approved && t.processedAt.Some? && t.processedAt.value >= since
       then t.amount else 0)
  }

  /** The large-withdrawal check no request calls: past the fraud limit in
      the last day it inserts a flag without a transaction, which the
      non-null transaction column refuses. */
  function CheckLargeWithdrawals(s: Store, w: WalletId, now: Time): (r: Result<Store>)
    ensures r.Ok? ==> r.value == s
    ensures r.Err? <==> WithdrawnSince(s.txs, w, now - DayWindow) > FraudAmountLimit
  {
    if WithdrawnSince(s.txs, w, now - DayWindow) > FraudAmountLimit then Err(IntegrityError) else Ok(s)
  }
}
