/** Where the engine, as written, breaks rules it is meant to keep (a
    transfer moves its amount once, a rejection only releases its hold, one
    fraud limit means one thing): each lemma states exactly what happens
    instead, for all inputs of the path concerned. */
module Divergences {
  import opened Common
  import opened Models
  import opened Rates
  import opened Forms
  import opened Store
  import opened Signals
  import opened Views
  import opened Invariants

  /** Converting nothing gives nothing, at any rate. */
  lemma ConvertZero(w: Wallet, t: Wallet)
    ensures ConvertedAmount(w, t, 0) == 0
  {
    if w.currency != t.currency {
      var rate := ConversionRate(w.currency, t.currency);
      RoundingUnique(0, rate.den, 0);
    }
  }

  /** Replaying two more rows. */
  lemma ReplayTwo(ledger: seq<LedgerEntry>, d: LedgerEntry, e: LedgerEntry, k: WalletId)
    ensures Replay(ledger + [d, e], k) - Replay(ledger, k) ==
      (if d.wallet == k then Signed(d) else 0) + (if e.wallet == k then Signed(e) else 0)
  {
    assert ledger + [d, e] == (ledger + [d]) + [e];
    ReplayAppend(ledger, d, k);
    ReplayAppend(ledger + [d], e, k);
  }

  /** An immediate transfer is applied twice on the same wallet objects: the
      source loses twice the amount and the target gains the credit plus the
      converted amount, while the ledger shows one row per leg, of the
      amount and of the credit. */
  lemma TransferDeltas(s: Store, wid: WalletId, tid: WalletId, amount: Cents, c: Cents, note: string, now: Time)
    requires WellFormed(s) && wid in s.wallets && tid in s.wallets && wid != tid
    ensures var r := TransferNow(s, wid, tid, amount, c, note, now);
      var credited := if c != 0 then c else amount;
      && Replay(r.ledger, wid) - Replay(s.ledger, wid) == -amount
      && r.wallets[wid].balance - s.wallets[wid].balance == -2 * amount
      && Replay(r.ledger, tid) - Replay(s.ledger, tid) == credited
      && r.wallets[tid].balance - s.wallets[tid].balance == credited + c
  {
    TransferReplays(s, wid, tid, amount, c, note, now);
  }

  /** What the ledger rows of an immediate transfer say of the two wallets. */
  lemma TransferReplays(s: Store, wid: WalletId, tid: WalletId, amount: Cents, c: Cents, note: string, now: Time)
    requires WellFormed(s) && wid in s.wallets && tid in s.wallets && wid != tid
    ensures var r := TransferNow(s, wid, tid, amount, c, note, now);
      && Replay(r.ledger, wid) - Replay(s.ledger, wid) == -amount
      && Replay(r.ledger, tid) - Replay(s.ledger, tid) == if c != 0 then c else amount
  {
    var r := TransferNow(s, wid, tid, amount, c, note, now);
    var w, t := s.wallets[wid], s.wallets[tid];
    var credited := if c != 0 then c else amount;
    DebitThenCredit(s.ledger, r.ledger, LedgerEntry(|s.txs|, wid, Debit, amount, w.balance - amount, now),
                    LedgerEntry(|s.txs|, tid, Credit, credited, t.balance + credited, now));
  }

  /** Replaying a debit row of one wallet and then a credit row of another. */
  lemma DebitThenCredit(ledger: seq<LedgerEntry>, after: seq<LedgerEntry>, d: LedgerEntry, e: LedgerEntry)
    requires |after| == |ledger| + 2 && after[..|ledger|] == ledger
    requires after[|ledger|] == d && after[|ledger| + 1] == e
    requires d.wallet != e.wallet && d.kind == Debit && e.kind == Credit
    ensures Replay(after, d.wallet) - Replay(ledger, d.wallet) == -d.amount
    ensures Replay(after, e.wallet) - Replay(ledger, e.wallet) == e.amount
  {
    assert after == ledger + [d, e];
    ReplayTwo(ledger, d, e, d.wallet);
    ReplayTwo(ledger, d, e, e.wallet);
  }

  /** An immediate transfer of nothing that converts to nothing leaves
      every balance and every replay where they were. */
  lemma NothingMoved(s: Store, wid: WalletId, tid: WalletId, note: string, now: Time)
    requires WellFormed(s) && wid in s.wallets && tid in s.wallets && wid != tid
    ensures BooksKept(s, TransferNow(s, wid, tid, 0, 0, note, now))
  {
    TransferDeltas(s, wid, tid, 0, 0, note, now);
    var r := TransferNow(s, wid, tid, 0, 0, note, now);
    var w, t := s.wallets[wid], s.wallets[tid];
    var d := LedgerEntry(|s.txs|, wid, Debit, 0, w.balance, now);
    var e := LedgerEntry(|s.txs|, tid, Credit, 0, t.balance, now);
    assert r.ledger == s.ledger + [d, e];
    forall k | k in s.wallets && k != wid && k != tid
      ensures r.wallets[k].balance - s.wallets[k].balance == Replay(r.ledger, k) - Replay(s.ledger, k)
    {
      ReplayTwo(s.ledger, d, e, k);
    }
  }

  /** So an immediate transfer keeps the books only when it moves nothing
      and converts to nothing. */
  lemma TransferAppliedTwice(s: Store, wid: WalletId, tid: WalletId, amount: Cents, c: Cents, note: string, now: Time)
    requires WellFormed(s) && wid in s.wallets && tid in s.wallets && wid != tid
    ensures BooksKept(s, TransferNow(s, wid, tid, amount, c, note, now)) <==> amount == 0 && c == 0
  {
    TransferDeltas(s, wid, tid, amount, c, note, now);
    if amount == 0 && c == 0 {
      NothingMoved(s, wid, tid, note, now);
    }
  }

  /** The transfer request's own converted amount is zero for a transfer of
      zero, so an immediate transfer request keeps the books exactly when it
      moves nothing. */
  lemma TransferRequestBooks(s: Store, user: UserId, wid: WalletId, target: Option<WalletId>,
                             amount: Cents, note: string, now: Time)
    requires WellFormed(s) && TransferRequest(s, user, wid, target, amount, note, now).Ok?
    requires amount <= TransactionThreshold
    ensures BooksKept(s, TransferRequest(s, user, wid, target, amount, note, now).value) <==> amount == 0
  {
    var c := ConvertedAmount(s.wallets[wid], s.wallets[target.value], amount);
    TransferAppliedTwice(s, wid, target.value, amount, c, note, now);
    if amount == 0 {
      ConvertZero(s.wallets[wid], s.wallets[target.value]);
    }
  }

  /** A rejection puts the amount back on the source, as if it had been
      taken, although a parked transaction never moved the balance; the
      ledger is untouched. Under the invariant the amount is positive, so
      every rejection breaks the books. */
  lemma RejectCreditsSource(s: Store, manager: User, id: TxId, now: Time)
    requires Valid(s) && Reject(s, manager, id, now).Ok?
    ensures var tx := s.txs[id];
      var r := Reject(s, manager, id, now).value;
      && r.wallets[tx.wallet].balance == s.wallets[tx.wallet].balance + tx.amount
      && r.ledger == s.ledger
    ensures !BooksKept(s, Reject(s, manager, id, now).value)
  {
    var tx := s.txs[id];
    assert PendingShaped(tx);
    var r := Reject(s, manager, id, now).value;
    assert r.wallets[tx.wallet].balance - s.wallets[tx.wallet].balance != Replay(r.ledger, tx.wallet) - Replay(s.ledger, tx.wallet);
  }

  /** A pending deposit or transfer can never be approved: the approval
      always fails and leaves the store as it was, so such a transaction
      stays parked, with its hold, until it is rejected. */
  lemma OnlyWithdrawalsApprove(s: Store, manager: User, id: TxId, now: Time)
    requires WellFormed(s) && IsManager(manager) && id < |s.txs| && s.txs[id].status == Pending
    ensures Approve(s, manager, id, now).Ok? <==> s.txs[id].kind == Withdraw
    ensures s.txs[id].kind != Withdraw ==> Approve(s, manager, id, now) == Err(ServerError)
  {
  }

  /** The balance checks look at the full balance, not the available one: a
      withdrawal that the balance covers but the available balance does not
      goes through and leaves the wallet holding more than it has, whether
      it is applied at once (the balance drops) or parked (the hold grows). */
  lemma WithdrawOverHeldFunds(s: Store, user: UserId, wid: WalletId, amount: Cents, note: string, now: Time)
    requires WellFormed(s) && wid in s.wallets && s.wallets[wid].user == user
    requires AvailableBalance(s.wallets[wid]) < amount <= s.wallets[wid].balance
    ensures WithdrawRequest(s, user, wid, amount, note, now).Ok?
    ensures AvailableBalance(WithdrawRequest(s, user, wid, amount, note, now).value.wallets[wid]) < 0
    ensures var w := s.wallets[wid];
      var after := WithdrawRequest(s, user, wid, amount, note, now).value.wallets[wid];
      && (amount <= TransactionThreshold ==> after.balance == w.balance - amount && after.frozen == w.frozen)
      && (amount > TransactionThreshold ==> after.balance == w.balance && after.frozen == w.frozen + amount)
  {
  }

  /** At exactly the fraud limit the two rules disagree: the handler's
      high-value rule (at least the limit) flags the approved withdrawal,
      but the approval's own rule and the risk predicate (above the limit)
      do not. */
  lemma ApprovalAtLimit(s: Store, manager: User, id: TxId, now: Time)
    requires Valid(s) && id < |s.txs| && s.txs[id].status == Pending && s.txs[id].kind == Withdraw
    requires s.txs[id].amount == FraudAmountLimit
    ensures !IsHighRisk(s.txs[id])
    ensures var user := s.wallets[s.txs[id].wallet].user;
      var r := ApproveWithdrawal(s, manager, id, now);
      && HasFlag(r.frauds, (user, id, HighValue))
      && !HasFlag(r.frauds, (user, id, WithdrawAboveLimit))
  {
    ApprovalFlagIffHighRisk(s, manager, id, now);
  }
}
