/** The engine's invariant across requests: every request that commits
    keeps foreign keys resolved, pending rows well shaped, each wallet's hold
    equal to what its pending transactions hold, fraud flags unique, and the
    approval flag on settled rows only. Separately, which steps keep the
    books (balance moves match the ledger rows written) and which do not. */
module Invariants {
  import opened Common
  import opened Models
  import opened Rates
  import opened Store
  import opened Signals
  import opened Views

  /** `r`'s ledger is `s`'s followed only by rows of transaction `id` on
      wallets of `s`. */
  predicate LedgerGrows(s: Store, r: Store, id: TxId) {
    && |s.ledger| <= |r.ledger| && r.ledger[..|s.ledger|] == s.ledger
    && forall i :: |s.ledger| <= i < |r.ledger| ==> r.ledger[i].tx == id && r.ledger[i].wallet in s.wallets
  }

  // ---------------------------------------------------------------------
  // Two shapes of step

  /** A step that appends transaction `t`. */
  lemma AppendStepValid(s: Store, r: Store, t: Transaction, user: UserId, reasons: set<Reason>)
    requires Valid(s)
    requires r.txs == s.txs + [t] && r.wallets.Keys == s.wallets.Keys
    requires TxRefs(s.wallets, t) && PendingShaped(t)
    requires forall k :: k in s.wallets ==> r.wallets[k].frozen == s.wallets[k].frozen + Hold(t, k)
    requires LedgerGrows(s, r, |s.txs|)
    requires AddsOnly(s.frauds, r.frauds, user, |s.txs|, reasons) && WithdrawAboveLimit !in reasons
    requires FlagsDistinct(r.frauds)
    ensures Valid(r)
  {
    forall k | k in r.wallets
      ensures r.wallets[k].frozen == Holds(r.txs, k)
    {
      HoldsAppend(s.txs, t, k);
    }
    forall i | 0 <= i < |r.ledger|
      ensures r.ledger[i].tx < |r.txs| && r.ledger[i].wallet in r.wallets
    {
      if i < |s.ledger| {
        assert r.ledger[i] == s.ledger[i];
      }
    }
    forall i | 0 <= i < |r.frauds|
      ensures r.frauds[i].tx < |r.txs|
      ensures r.frauds[i].reason == WithdrawAboveLimit ==> r.txs[r.frauds[i].tx].status != Pending
    {
      if i < |s.frauds| {
        assert r.frauds[i] == s.frauds[i];
        assert r.txs[s.frauds[i].tx] == s.txs[s.frauds[i].tx];
      }
    }
    forall i | 0 <= i < |r.txs|
      ensures TxRefs(r.wallets, r.txs[i]) && PendingShaped(r.txs[i])
    {
      if i < |s.txs| {
        assert r.txs[i] == s.txs[i];
      }
    }
  }

  /** A step that replaces transaction `id`, which was pending, by `t`; the
      fraud log may first receive one flag on `id` (giving `base`). */
  lemma SettleStepValid(s: Store, r: Store, id: TxId, t: Transaction, base: seq<FraudLog>,
                                           user: UserId, reasons: set<Reason>)
    requires Valid(s) && id < |s.txs| && s.txs[id].status == Pending
    requires r.txs == s.txs[id := t] && r.wallets.Keys == s.wallets.Keys
    requires TxRefs(s.wallets, t) && t.status != Pending
    requires forall k :: k in s.wallets ==> r.wallets[k].frozen == s.wallets[k].frozen - Hold(s.txs[id], k)
    requires LedgerGrows(s, r, id)
    requires |s.frauds| <= |base| <= |s.frauds| + 1 && base[..|s.frauds|] == s.frauds
    requires |base| > |s.frauds| ==> base[|s.frauds|].tx == id
    requires AddsOnly(base, r.frauds, user, id, reasons) && WithdrawAboveLimit !in reasons
    requires FlagsDistinct(r.frauds)
    ensures Valid(r)
  {
    forall k | k in r.wallets
      ensures r.wallets[k].frozen == Holds(r.txs, k)
    {
      HoldsUpdate(s.txs, id, t, k);
    }
    forall i | 0 <= i < |r.ledger|
      ensures r.ledger[i].tx < |r.txs| && r.ledger[i].wallet in r.wallets
    {
      if i < |s.ledger| {
        assert r.ledger[i] == s.ledger[i];
      }
    }
    forall i | 0 <= i < |r.frauds|
      ensures r.frauds[i].tx < |r.txs|
      ensures r.frauds[i].reason == WithdrawAboveLimit ==> r.txs[r.frauds[i].tx].status != Pending
    {
      if i < |s.frauds| {
        assert r.frauds[i] == base[i] == s.frauds[i];
        if s.frauds[i].reason == WithdrawAboveLimit {
          // a settled row is not the pending one being settled
          assert s.frauds[i].tx != id;
        }
      } else if i < |base| {
        assert r.frauds[i] == base[i];
      }
    }
    forall i | 0 <= i < |r.txs|
      ensures TxRefs(r.wallets, r.txs[i]) && PendingShaped(r.txs[i])
    {
      if i != id {
        assert r.txs[i] == s.txs[i];
      }
    }
  }

  // ---------------------------------------------------------------------
  // The requests

  /** A deposit or withdrawal past its checks keeps the invariant. */
  lemma SubmitValid(s: Store, wid: WalletId, kind: TxType, amount: Cents, note: string, now: Time)
    requires Valid(s) && wid in s.wallets && kind != Transfer
    ensures Valid(Submit(s, wid, kind, amount, note, now))
  {
    var r := Submit(s, wid, kind, amount, note, now);
    var t := NewTx(wid, None, kind, amount, None, amount <= TransactionThreshold, now, note);
    if amount > TransactionThreshold {
      assert AddsOnly(s.frauds, r.frauds, 0, |s.txs|, {});
      assert r.ledger[..|s.ledger|] == s.ledger;
      AppendStepValid(s, r, t, 0, {});
    } else {
      var w := s.wallets[wid];
      var reasons := FiredReasons(amount, CountRecent(r.txs, wid, now - FraudWindow));
      assert AddsOnly(s.frauds, r.frauds, w.user, |s.txs|, reasons);
      AppendStepValid(s, r, t, w.user, reasons);
    }
  }

  /** A committed deposit request keeps the invariant. */
  lemma DepositValid(s: Store, user: UserId, wid: WalletId, amount: Cents, note: string, now: Time)
    requires Valid(s)
    ensures DepositRequest(s, user, wid, amount, note, now).Ok? ==>
      Valid(DepositRequest(s, user, wid, amount, note, now).value)
  {
    if DepositRequest(s, user, wid, amount, note, now).Ok? {
      SubmitValid(s, wid, Deposit, amount, note, now);
    }
  }

  /** A committed withdrawal request keeps the invariant. */
  lemma WithdrawValid(s: Store, user: UserId, wid: WalletId, amount: Cents, note: string, now: Time)
    requires Valid(s)
    ensures WithdrawRequest(s, user, wid, amount, note, now).Ok? ==>
      Valid(WithdrawRequest(s, user, wid, amount, note, now).value)
  {
    if WithdrawRequest(s, user, wid, amount, note, now).Ok? {
      SubmitValid(s, wid, Withdraw, amount, note, now);
    }
  }

  /** A transfer above the threshold keeps the invariant: the two holds it
      places are the two holds of the parked row. */
  lemma TransferHoldValid(s: Store, wid: WalletId, tid: WalletId, amount: Cents, c: Cents, note: string, now: Time)
    requires Valid(s) && wid in s.wallets && tid in s.wallets && wid != tid
    requires amount > TransactionThreshold && c >= 0
    ensures Valid(TransferHold(s, wid, tid, amount, c, note, now))
  {
    var r := TransferHold(s, wid, tid, amount, c, note, now);
    var t := NewTx(wid, Some(tid), Transfer, amount, Some(c), false, now, note);
    assert AddsOnly(s.frauds, r.frauds, 0, |s.txs|, {});
    assert r.ledger[..|s.ledger|] == s.ledger;
    AppendStepValid(s, r, t, 0, {});
  }

  /** A transfer at or below the threshold keeps the invariant (it holds
      nothing, whatever it does to the balances). */
  lemma TransferNowValid(s: Store, wid: WalletId, tid: WalletId, amount: Cents, c: Cents, note: string, now: Time)
    requires Valid(s) && wid in s.wallets && tid in s.wallets && wid != tid
    ensures Valid(TransferNow(s, wid, tid, amount, c, note, now))
  {
    var r := TransferNow(s, wid, tid, amount, c, note, now);
    var w := s.wallets[wid];
    var t := NewTx(wid, Some(tid), Transfer, amount, Some(c), true, now, note);
    var reasons := FiredReasons(amount, CountRecent(r.txs, wid, now - FraudWindow));
    assert AddsOnly(s.frauds, r.frauds, w.user, |s.txs|, reasons);
    AppendStepValid(s, r, t, w.user, reasons);
  }

  /** A committed transfer request keeps the invariant, in both branches. */
  lemma TransferValid(s: Store, user: UserId, wid: WalletId, target: Option<WalletId>,
                      amount: Cents, note: string, now: Time)
    requires Valid(s)
    ensures TransferRequest(s, user, wid, target, amount, note, now).Ok? ==>
      Valid(TransferRequest(s, user, wid, target, amount, note, now).value)
  {
    if TransferRequest(s, user, wid, target, amount, note, now).Ok? {
      var c := ConvertedAmount(s.wallets[wid], s.wallets[target.value], amount);
      if amount > TransactionThreshold {
        TransferHoldValid(s, wid, target.value, amount, c, note, now);
      } else {
        TransferNowValid(s, wid, target.value, amount, c, note, now);
      }
    }
  }

  /** Under the invariant a pending transaction's source holds at least its
      amount, and a pending transfer's target at least its converted
      amount. */
  lemma PendingCovered(s: Store, id: TxId)
    requires Valid(s) && id < |s.txs| && s.txs[id].status == Pending
    ensures s.wallets[s.txs[id].wallet].frozen >= s.txs[id].amount
    ensures s.txs[id].kind == Transfer ==>
      s.wallets[s.txs[id].target.value].frozen >= s.txs[id].converted.value
  {
    var tx := s.txs[id];
    HoldsCover(s.txs, id, tx.wallet);
    if tx.kind == Transfer {
      HoldsCover(s.txs, id, tx.target.value);
    }
  }

  /** Under the invariant a wallet's available balance is its balance less
      what its pending transactions hold. */
  lemma AvailableIsUnheld(s: Store, k: WalletId)
    requires Valid(s) && k in s.wallets
    ensures AvailableBalance(s.wallets[k]) == s.wallets[k].balance - Holds(s.txs, k)
  {
  }

  /** The approval's own flag lands on the approved withdrawal exactly when
      the withdrawal is high-risk: the approval's inline amount test and the
      risk predicate are the same rule. */
  lemma ApprovalFlagIffHighRisk(s: Store, manager: User, id: TxId, now: Time)
    requires Valid(s) && id < |s.txs| && s.txs[id].status == Pending && s.txs[id].kind == Withdraw
    ensures var r := ApproveWithdrawal(s, manager, id, now);
      HasFlag(r.frauds, (s.wallets[s.txs[id].wallet].user, id, WithdrawAboveLimit)) <==> IsHighRisk(s.txs[id])
  {
    var tx := s.txs[id];
    var w := s.wallets[tx.wallet];
    var r := ApproveWithdrawal(s, manager, id, now);
    if !IsHighRisk(tx) {
      var reasons := FiredReasons(tx.amount, CountRecent(r.txs, tx.wallet, now - FraudWindow));
      assert AddsOnly(s.frauds, r.frauds, w.user, id, reasons);
      forall i | 0 <= i < |r.frauds|
        ensures FlagKey(r.frauds[i]) != (w.user, id, WithdrawAboveLimit)
      {
        if i < |s.frauds| {
          // flags already on file with this reason sit on settled rows
          assert r.frauds[i] == s.frauds[i];
        }
      }
    }
  }

  /** A committed approval keeps the invariant: the hold it releases is
      exactly the one the pending withdrawal placed. */
  lemma ApproveValid(s: Store, manager: User, id: TxId, now: Time)
    requires Valid(s)
    ensures Approve(s, manager, id, now).Ok? ==> Valid(Approve(s, manager, id, now).value)
  {
    if Approve(s, manager, id, now).Ok? {
      var r := ApproveWithdrawal(s, manager, id, now);
      var tx := s.txs[id];
      ApprovedStep(s, r, id, manager.id, now, s.wallets[tx.wallet].user,
                   FiredReasons(tx.amount, CountRecent(r.txs, tx.wallet, now - FraudWindow)));
    }
  }

  /** The step of ApproveValid, stated on the approval's effects. */
  lemma ApprovedStep(s: Store, r: Store, id: TxId, approver: UserId, now: Time, user: UserId, reasons: set<Reason>)
    requires Valid(s) && id < |s.txs| && s.txs[id].status == Pending && s.txs[id].kind == Withdraw
    requires user == s.wallets[s.txs[id].wallet].user
    requires var tx := s.txs[id];
      var w := s.wallets[tx.wallet];
      && r.txs == s.txs[id := tx.(status := Approved, approvedBy := Some(approver), processedAt := Some(now))]
      && r.wallets == s.wallets[tx.wallet := Unfreeze(w.(balance := w.balance - tx.amount), tx.amount)]
      && r.ledger == s.ledger + [LedgerEntry(id, tx.wallet, Debit, tx.amount, w.balance - tx.amount, now)]
      && var base := if tx.amount > FraudAmountLimit
                     then s.frauds + [FraudLog(user, id, WithdrawAboveLimit, now)] else s.frauds;
         && AddsOnly(base, r.frauds, user, id, reasons) && WithdrawAboveLimit !in reasons
         && (FlagsDistinct(base) ==> FlagsDistinct(r.frauds))
    ensures Valid(r)
  {
    var tx := s.txs[id];
    var done := tx.(status := Approved, approvedBy := Some(approver), processedAt := Some(now));
    PendingCovered(s, id);
    var f := FraudLog(user, id, WithdrawAboveLimit, now);
    var base := if tx.amount > FraudAmountLimit then s.frauds + [f] else s.frauds;
    if tx.amount > FraudAmountLimit {
      forall i, j | 0 <= i < j < |base|
        ensures FlagKey(base[i]) != FlagKey(base[j])
      {
        if j == |s.frauds| {
          // the approval flag is only ever on settled rows, and this one was pending
          assert base[i] == s.frauds[i];
        }
      }
    }
    assert base[..|s.frauds|] == s.frauds;
    assert r.ledger[..|s.ledger|] == s.ledger;
    SettleStepValid(s, r, id, done, base, user, reasons);
  }

  /** A committed rejection keeps the invariant: it releases the source's
      and the target's holds in full. */
  lemma RejectValid(s: Store, manager: User, id: TxId, now: Time)
    requires Valid(s)
    ensures Reject(s, manager, id, now).Ok? ==> Valid(Reject(s, manager, id, now).value)
  {
    if Reject(s, manager, id, now).Ok? {
      if s.txs[id].kind == Transfer && s.txs[id].target.Some? {
        RejectTransferValid(s, manager, id, now);
      } else {
        RejectSourceValid(s, manager, id, now);
      }
    }
  }

  /** Rejecting a pending deposit or withdrawal keeps the invariant. */
  lemma RejectSourceValid(s: Store, manager: User, id: TxId, now: Time)
    requires Valid(s) && id < |s.txs| && s.txs[id].status == Pending
    requires !(s.txs[id].kind == Transfer && s.txs[id].target.Some?)
    ensures Valid(RejectSource(s, manager, id, now))
  {
    var r := RejectSource(s, manager, id, now);
    var tx := s.txs[id];
    RejectedSourceStep(s, r, id, manager.id, now, s.wallets[tx.wallet].user,
                       FiredReasons(tx.amount, CountRecent(r.txs, tx.wallet, now - FraudWindow)));
  }

  /** The step of RejectSourceValid, stated on the rejection's effects. */
  lemma RejectedSourceStep(s: Store, r: Store, id: TxId, approver: UserId, now: Time, user: UserId, reasons: set<Reason>)
    requires Valid(s) && id < |s.txs| && s.txs[id].status == Pending
    requires !(s.txs[id].kind == Transfer && s.txs[id].target.Some?)
    requires var tx := s.txs[id];
      var w := s.wallets[tx.wallet];
      && r.txs == s.txs[id := tx.(status := Rejected, approvedBy := Some(approver), processedAt := Some(now))]
      && r.ledger == s.ledger
      && r.wallets == s.wallets[tx.wallet := Unfreeze(w, tx.amount).(balance := w.balance + tx.amount)]
    requires AddsOnly(s.frauds, r.frauds, user, id, reasons) && WithdrawAboveLimit !in reasons
    requires FlagsDistinct(r.frauds)
    ensures Valid(r)
  {
    var tx := s.txs[id];
    var done := tx.(status := Rejected, approvedBy := Some(approver), processedAt := Some(now));
    PendingCovered(s, id);
    assert r.ledger[..|s.ledger|] == s.ledger;
    assert s.frauds[..|s.frauds|] == s.frauds;
    SettleStepValid(s, r, id, done, s.frauds, user, reasons);
  }

  /** Rejecting a pending transfer with a target keeps the invariant. */
  lemma RejectTransferValid(s: Store, manager: User, id: TxId, now: Time)
    requires Valid(s) && id < |s.txs| && s.txs[id].status == Pending
    requires s.txs[id].kind == Transfer && s.txs[id].target.Some? && s.txs[id].converted.Some?
    ensures Valid(RejectTransfer(s, manager, id, now))
  {
    var r := RejectTransfer(s, manager, id, now);
    var tx := s.txs[id];
    RejectedTransferStep(s, r, id, manager.id, now, s.wallets[tx.wallet].user,
                         FiredReasons(tx.amount, CountRecent(r.txs, tx.wallet, now - FraudWindow)));
  }

  /** The step of RejectTransferValid, stated on the rejection's effects. */
  lemma RejectedTransferStep(s: Store, r: Store, id: TxId, approver: UserId, now: Time, user: UserId, reasons: set<Reason>)
    requires Valid(s) && id < |s.txs| && s.txs[id].status == Pending
    requires s.txs[id].kind == Transfer && s.txs[id].target.Some? && s.txs[id].converted.Some?
    requires var tx := s.txs[id];
      var w := s.wallets[tx.wallet];
      && r.txs == s.txs[id := tx.(status := Rejected, approvedBy := Some(approver), processedAt := Some(now))]
      && r.ledger == s.ledger
      && r.wallets == s.wallets[tx.target.value := Unfreeze(s.wallets[tx.target.value], tx.converted.value)]
                               [tx.wallet := Unfreeze(w, tx.amount).(balance := w.balance + tx.amount)]
    requires AddsOnly(s.frauds, r.frauds, user, id, reasons) && WithdrawAboveLimit !in reasons
    requires FlagsDistinct(r.frauds)
    ensures Valid(r)
  {
    var tx := s.txs[id];
    var done := tx.(status := Rejected, approvedBy := Some(approver), processedAt := Some(now));
    PendingCovered(s, id);
    assert r.ledger[..|s.ledger|] == s.ledger;
    assert s.frauds[..|s.frauds|] == s.frauds;
    SettleStepValid(s, r, id, done, s.frauds, user, reasons);
  }

  // ---------------------------------------------------------------------
  // Approve and reject act once

  /** Once approved, a transaction is neither approved nor rejected again. */
  lemma ApproveOnce(s: Store, manager: User, id: TxId, now: Time, later: Time)
    requires Valid(s) && Approve(s, manager, id, now).Ok?
    ensures WellFormed(Approve(s, manager, id, now).value)
    ensures Approve(Approve(s, manager, id, now).value, manager, id, later) == Err(NotFound)
    ensures Reject(Approve(s, manager, id, now).value, manager, id, later) == Err(NotFound)
  {
    ApproveValid(s, manager, id, now);
  }

  /** Once rejected, a transaction is neither approved nor rejected again. */
  lemma RejectOnce(s: Store, manager: User, id: TxId, now: Time, later: Time)
    requires Valid(s) && Reject(s, manager, id, now).Ok?
    ensures WellFormed(Reject(s, manager, id, now).value)
    ensures Approve(Reject(s, manager, id, now).value, manager, id, later) == Err(NotFound)
    ensures Reject(Reject(s, manager, id, now).value, manager, id, later) == Err(NotFound)
  {
    RejectValid(s, manager, id, now);
  }

  // ---------------------------------------------------------------------
  // Books

  /** A deposit or withdrawal keeps the books: parked, it moves no balance
      and writes no row; applied, its one row is the balance move. */
  lemma SubmitKeepsBooks(s: Store, wid: WalletId, kind: TxType, amount: Cents, note: string, now: Time)
    requires WellFormed(s) && wid in s.wallets && kind != Transfer
    ensures BooksKept(s, Submit(s, wid, kind, amount, note, now))
  {
    var r := Submit(s, wid, kind, amount, note, now);
    if amount <= TransactionThreshold {
      var w := s.wallets[wid];
      var sign := if kind == Deposit then 1 else -1;
      var e := LedgerEntry(|s.txs|, wid, if kind == Deposit then Credit else Debit,
                           amount, w.balance + sign * amount, now);
      forall k | k in s.wallets
        ensures r.wallets[k].balance - s.wallets[k].balance == Replay(r.ledger, k) - Replay(s.ledger, k)
      {
        ReplayAppend(s.ledger, e, k);
      }
    }
  }

  /** A committed deposit keeps a reconciled store reconciled. */
  lemma DepositReconciled(base: map<WalletId, Cents>, s: Store, user: UserId, wid: WalletId,
                          amount: Cents, note: string, now: Time)
    requires WellFormed(s) && Reconciled(base, s) && DepositRequest(s, user, wid, amount, note, now).Ok?
    ensures Reconciled(base, DepositRequest(s, user, wid, amount, note, now).value)
  {
    SubmitKeepsBooks(s, wid, Deposit, amount, note, now);
    ReconciledStep(base, s, DepositRequest(s, user, wid, amount, note, now).value);
  }

  /** A committed withdrawal keeps a reconciled store reconciled. */
  lemma WithdrawReconciled(base: map<WalletId, Cents>, s: Store, user: UserId, wid: WalletId,
                           amount: Cents, note: string, now: Time)
    requires WellFormed(s) && Reconciled(base, s) && WithdrawRequest(s, user, wid, amount, note, now).Ok?
    ensures Reconciled(base, WithdrawRequest(s, user, wid, amount, note, now).value)
  {
    SubmitKeepsBooks(s, wid, Withdraw, amount, note, now);
    ReconciledStep(base, s, WithdrawRequest(s, user, wid, amount, note, now).value);
  }

  /** A parked transfer moves no balance and writes no row. */
  lemma TransferHoldKeepsBooks(s: Store, wid: WalletId, tid: WalletId, amount: Cents, c: Cents, note: string, now: Time)
    requires WellFormed(s) && wid in s.wallets && tid in s.wallets && wid != tid
    requires amount > TransactionThreshold
    ensures BooksKept(s, TransferHold(s, wid, tid, amount, c, note, now))
  {
  }

  /** A committed approval keeps the books: the debit row it writes is the
      balance move, and the handler adds nothing more. */
  lemma ApproveKeepsBooks(s: Store, manager: User, id: TxId, now: Time)
    requires WellFormed(s) && Approve(s, manager, id, now).Ok?
    ensures BooksKept(s, Approve(s, manager, id, now).value)
  {
    var r := ApproveWithdrawal(s, manager, id, now);
    var tx := s.txs[id];
    var w := s.wallets[tx.wallet];
    var e := LedgerEntry(id, tx.wallet, Debit, tx.amount, w.balance - tx.amount, now);
    forall k | k in s.wallets
      ensures r.wallets[k].balance - s.wallets[k].balance == Replay(r.ledger, k) - Replay(s.ledger, k)
    {
      ReplayAppend(s.ledger, e, k);
    }
  }

  // ---------------------------------------------------------------------
  // A parked withdrawal, settled

  /** Approving a pending withdrawal of `amount` from `wid`, whose balance
      is `b` and hold `f`, takes the amount from the balance, releases
      exactly its hold and appends one debit row to `ledger`. */
  lemma ApproveReleases(p: Store, manager: User, id: TxId, wid: WalletId, amount: Cents, later: Time,
                        ledger: seq<LedgerEntry>, b: Cents, f: Cents)
    requires WellFormed(p) && id < |p.txs|
    requires p.txs[id].status == Pending && p.txs[id].kind == Withdraw
    requires p.txs[id].wallet == wid && p.txs[id].amount == amount
    requires p.ledger == ledger && p.wallets[wid].balance == b && p.wallets[wid].frozen == f && f >= amount
    ensures var r := ApproveWithdrawal(p, manager, id, later);
      && r.wallets[wid].balance == b - amount
      && r.wallets[wid].frozen == f - amount
      && r.ledger == ledger + [LedgerEntry(id, wid, Debit, amount, b - amount, later)]
  {
    var w := p.wallets[wid];
    var r := ApproveWithdrawal(p, manager, id, later);
    var u := Unfreeze(w.(balance := w.balance - amount), amount);
    assert r.wallets == p.wallets[wid := u];
    assert u.balance == b - amount && u.frozen == f - amount;
  }

  /** A withdrawal above the threshold is parked: a pending row that holds
      its amount on the wallet, and no ledger row. */
  lemma ParkWithdrawal(s: Store, wid: WalletId, amount: Cents, note: string, now: Time)
    requires Valid(s) && wid in s.wallets && amount > TransactionThreshold
    ensures var p := Submit(s, wid, Withdraw, amount, note, now);
      && WellFormed(p) && |s.txs| < |p.txs|
      && p.txs[|s.txs|].status == Pending && p.txs[|s.txs|].kind == Withdraw
      && p.txs[|s.txs|].wallet == wid && p.txs[|s.txs|].amount == amount
      && p.wallets[wid] == Freeze(s.wallets[wid], amount) && p.ledger == s.ledger
      && p.wallets[wid].balance == s.wallets[wid].balance
      && p.wallets[wid].frozen == s.wallets[wid].frozen + amount
  {
    SubmitValid(s, wid, Withdraw, amount, note, now);
  }

  /** Parking a withdrawal and approving it has the effect of an immediate
      withdrawal on the wallet: the balance drops by the amount and the hold
      it placed is released. */
  lemma ParkThenApprove(s: Store, wid: WalletId, amount: Cents, note: string, now: Time,
                        manager: User, later: Time)
    requires Valid(s) && wid in s.wallets && amount > TransactionThreshold && IsManager(manager)
    ensures var p := Submit(s, wid, Withdraw, amount, note, now);
      && WellFormed(p) && Approve(p, manager, |s.txs|, later).Ok?
      && var r := Approve(p, manager, |s.txs|, later).value;
         && r.wallets[wid].balance == s.wallets[wid].balance - amount
         && r.wallets[wid].frozen == s.wallets[wid].frozen
  {
    ParkWithdrawal(s, wid, amount, note, now);
    FrozenNonNegative(s, wid);
    var w := s.wallets[wid];
    var p := Submit(s, wid, Withdraw, amount, note, now);
    ApproveReleases(p, manager, |s.txs|, wid, amount, later, s.ledger, w.balance, w.frozen + amount);
    assert Approve(p, manager, |s.txs|, later) == Ok(ApproveWithdrawal(p, manager, |s.txs|, later));
  }

  /** Parking a withdrawal and approving it writes exactly the one debit
      row an immediate withdrawal writes. */
  lemma ParkThenApproveLedger(s: Store, wid: WalletId, amount: Cents, note: string, now: Time,
                              manager: User, later: Time)
    requires Valid(s) && wid in s.wallets && amount > TransactionThreshold && IsManager(manager)
    ensures var p := Submit(s, wid, Withdraw, amount, note, now);
      && WellFormed(p) && Approve(p, manager, |s.txs|, later).Ok?
      && Approve(p, manager, |s.txs|, later).value.ledger ==
         s.ledger + [LedgerEntry(|s.txs|, wid, Debit, amount, s.wallets[wid].balance - amount, later)]
  {
    ParkWithdrawal(s, wid, amount, note, now);
    FrozenNonNegative(s, wid);
    var w := s.wallets[wid];
    var p := Submit(s, wid, Withdraw, amount, note, now);
    ApproveReleases(p, manager, |s.txs|, wid, amount, later, s.ledger, w.balance, w.frozen + amount);
    assert Approve(p, manager, |s.txs|, later) == Ok(ApproveWithdrawal(p, manager, |s.txs|, later));
  }

  /** Parking a withdrawal and rejecting it releases the hold but, through
      the handler's credit, leaves the balance higher by the amount. */
  lemma ParkThenReject(s: Store, wid: WalletId, amount: Cents, note: string, now: Time,
                       manager: User, later: Time)
    requires Valid(s) && wid in s.wallets && amount > TransactionThreshold && IsManager(manager)
    ensures var p := Submit(s, wid, Withdraw, amount, note, now);
      && WellFormed(p) && Reject(p, manager, |s.txs|, later).Ok?
      && var r := Reject(p, manager, |s.txs|, later).value;
         var w := s.wallets[wid];
         && r.wallets[wid].balance == w.balance + amount
         && r.wallets[wid].frozen == w.frozen
         && r.ledger == s.ledger
  {
    ParkWithdrawal(s, wid, amount, note, now);
    FrozenNonNegative(s, wid);
  }
}
