/** The post-save handler on transactions. It runs synchronously inside
    every transaction save, on the very wallet objects the saving view holds,
    so it is modelled as a function from the store and the saved instance
    (with its cached wallet objects) to the new store and instance. */
module Signals {
  import opened Common
  import opened Models
  import opened Store

  /** The velocity rule fires at this many recent transactions. */
  const FraudTxnCount: nat := 3

  /** The velocity window: ten minutes, in seconds. */
  const FraudWindow: Time := 10 * 60

  /** A saved transaction as the handler sees it: its id, its fields, the
      cached source wallet object and, when already loaded, the cached
      target wallet object. */
  datatype Instance = Instance(id: TxId, tx: Transaction, src: Wallet, tgt: Option<Wallet>)

  datatype Saved = Saved(store: Store, inst: Instance)

  /** The target can be reached: it is cached, or it can be loaded. */
  predicate Loadable(s: Store, inst: Instance) {
    inst.tx.target.Some? && inst.tgt.None? ==> inst.tx.target.value in s.wallets
  }

  /** The target wallet object: the cached one, else a fresh load. */
  function TargetObject(s: Store, inst: Instance): Wallet
    requires inst.tx.target.Some? && Loadable(s, inst)
  {
    if inst.tgt.Some? then inst.tgt.value else s.wallets[inst.tx.target.value]
  }

  /** What a transfer credits its target: the converted amount, unless it
      is missing or zero, in which case the requested amount. */
  function CreditedAmount(t: Transaction): (r: Cents)
    ensures t.converted.Some? && t.converted.value != 0 ==> r == t.converted.value
    ensures t.converted.None? || t.converted == Some(0) ==> r == t.amount
  {
    if t.converted.Some? && t.converted.value != 0 then t.converted.value else t.amount
  }

  /** The balance mutation and ledger rows of an approved transaction. */
  function ApplyApproved(s: Store, inst: Instance, now: Time): (r: Saved)
    requires Loadable(s, inst)
    ensures r.store.txs == s.txs && r.store.frauds == s.frauds
    ensures r.inst.id == inst.id && r.inst.tx == inst.tx
    ensures inst.tx.kind == Deposit ==>
      && r.inst.src == inst.src.(balance := inst.src.balance + inst.tx.amount)
      && r.store.wallets == s.wallets[inst.tx.wallet := r.inst.src]
      && r.store.ledger == s.ledger + [LedgerEntry(inst.id, inst.tx.wallet, Credit, inst.tx.amount, r.inst.src.balance, now)]
    ensures inst.tx.kind == Withdraw ==>
      && r.inst.src == inst.src.(balance := inst.src.balance - inst.tx.amount)
      && r.store.wallets == s.wallets[inst.tx.wallet := r.inst.src]
      && r.store.ledger == s.ledger + [LedgerEntry(inst.id, inst.tx.wallet, Debit, inst.tx.amount, r.inst.src.balance, now)]
    ensures inst.tx.kind == Transfer ==>
      && r.inst.src == inst.src.(balance := inst.src.balance - inst.tx.amount)
      && var debit := LedgerEntry(inst.id, inst.tx.wallet, Debit, inst.tx.amount, r.inst.src.balance, now);
         if inst.tx.target.None? then
           && r.store.wallets == s.wallets[inst.tx.wallet := r.inst.src]
           && r.store.ledger == s.ledger + [debit]
           && r.inst.tgt == inst.tgt
         else
           var t := inst.tx.target.value;
           var before := TargetObject(PutWallet(s, inst.tx.wallet, r.inst.src), inst);
           && r.inst.tgt == Some(before.(balance := before.balance + CreditedAmount(inst.tx)))
           && r.store.wallets == s.wallets[inst.tx.wallet := r.inst.src][t := r.inst.tgt.value]
           && r.store.ledger == s.ledger + [debit, LedgerEntry(inst.id, t, Credit, CreditedAmount(inst.tx), r.inst.tgt.value.balance, now)]
    ensures inst.tx.kind != Transfer ==> r.inst.tgt == inst.tgt
  {
    var t := inst.tx;
    match t.kind
    case Deposit =>
      var w := inst.src.(balance := inst.src.balance + t.amount);
      var s1 := PutWallet(s, t.wallet, w);
      Saved(AddEntry(s1, LedgerEntry(inst.id, t.wallet, Credit, t.amount, w.balance, now)), inst.(src := w))
    case Withdraw =>
      var w := inst.src.(balance := inst.src.balance - t.amount);
      var s1 := PutWallet(s, t.wallet, w);
      Saved(AddEntry(s1, LedgerEntry(inst.id, t.wallet, Debit, t.amount, w.balance, now)), inst.(src := w))
    case Transfer =>
      var w := inst.src.(balance := inst.src.balance - t.amount);
      var s1 := PutWallet(s, t.wallet, w);
      var s2 := AddEntry(s1, LedgerEntry(inst.id, t.wallet, Debit, t.amount, w.balance, now));
      if t.target.None? then Saved(s2, inst.(src := w))
      else
        var before := TargetObject(s2, inst);
        var tw := before.(balance := before.balance + CreditedAmount(t));
        var s3 := PutWallet(s2, t.target.value, tw);
        Saved(AddEntry(s3, LedgerEntry(inst.id, t.target.value, Credit, CreditedAmount(t), tw.balance, now)),
              inst.(src := w, tgt := Some(tw)))
  }

  /** A rejected transaction's save credits its amount back to the source
      object, without a ledger row. */
  function CreditRejected(s: Store, inst: Instance): (r: Saved)
    ensures r.inst == inst.(src := inst.src.(balance := inst.src.balance + inst.tx.amount))
    ensures r.store == PutWallet(s, inst.tx.wallet, r.inst.src)
  {
    var w := inst.src.(balance := inst.src.balance + inst.tx.amount);
    Saved(PutWallet(s, inst.tx.wallet, w), inst.(src := w))
  }

  /** Looks a flag up by (user, transaction, reason) and inserts it only
      when absent. */
  function GetOrCreate(frauds: seq<FraudLog>, f: FraudLog): (r: seq<FraudLog>)
    ensures r == frauds || r == frauds + [f]
    ensures exists i :: 0 <= i < |r| && FlagKey(r[i]) == FlagKey(f)
    ensures (exists i :: 0 <= i < |frauds| && FlagKey(frauds[i]) == FlagKey(f)) <==> r == frauds
    ensures FlagsDistinct(frauds) ==> FlagsDistinct(r)
  {
    if exists i :: 0 <= i < |frauds| && FlagKey(frauds[i]) == FlagKey(f) then frauds
    else
      var r := frauds + [f];
      assert FlagKey(r[|frauds|]) == FlagKey(f);
      r
  }

  /** Asking for the same flag again changes nothing. */
  lemma GetOrCreateIdempotent(frauds: seq<FraudLog>, f: FraudLog)
    ensures GetOrCreate(GetOrCreate(frauds, f), f) == GetOrCreate(frauds, f)
  {
  }

  /** Whether a transaction counts towards the velocity rule for `w`. */
  predicate Recent(t: Transaction, w: WalletId, since: Time) {
    t.wallet == w && t.createdAt >= since
  }

  /** How many transactions of source wallet `w` were created at or after
      `since`, whatever their status. */
  function CountRecent(txs: seq<Transaction>, w: WalletId, since: Time): (r: nat)
    ensures r <= |txs|
    decreases |txs|
  {
    if |txs| == 0 then 0
    else
      var n := |txs| - 1;
      CountRecent(txs[..n], w, since) + (if Recent(txs[n], w, since) then 1 else 0)
  }

  /** The count is the number of positions holding a recent transaction of
      `w`. */
  lemma {:induction false} CountRecentCounts(txs: seq<Transaction>, w: WalletId, since: Time)
    ensures CountRecent(txs, w, since) == |set i | 0 <= i < |txs| && Recent(txs[i], w, since)|
    decreases |txs|
  {
    if |txs| > 0 {
      var n := |txs| - 1;
      CountRecentCounts(txs[..n], w, since);
      var before := set i | 0 <= i < n && Recent(txs[..n][i], w, since);
      var all := set i | 0 <= i < |txs| && Recent(txs[i], w, since);
      assert before == set i | 0 <= i < n && Recent(txs[i], w, since);
      assert all == if Recent(txs[n], w, since) then before + {n} else before;
    }
  }

  /** Whether a flag with this key is on file. */
  predicate HasFlag(frauds: seq<FraudLog>, key: (UserId, TxId, Reason)) {
    exists i :: 0 <= i < |frauds| && FlagKey(frauds[i]) == key
  }

  /** `r` is `frauds` followed only by flags of `user` on transaction `id`
      whose reason is one of `reasons`. */
  predicate AddsOnly(frauds: seq<FraudLog>, r: seq<FraudLog>, user: UserId, id: TxId, reasons: set<Reason>) {
    && |frauds| <= |r| && r[..|frauds|] == frauds
    && forall i :: |frauds| <= i < |r| ==> r[i].user == user && r[i].tx == id && r[i].reason in reasons
  }

  /** The reasons the two fraud rules fire for: high value when the amount
      reaches the fraud limit, velocity (naming the count) when `n` recent
      transactions reach the velocity count. */
  function FiredReasons(amount: Cents, n: nat): set<Reason> {
    (if amount >= FraudAmountLimit then {HighValue} else {})
      + (if n >= FraudTxnCount then {Velocity(n)} else {})
  }

  /** The high-value rule: a transaction of at least the fraud limit gets
      one flag. */
  function FlagHighValue(s: Store, inst: Instance, now: Time): (r: Store)
    ensures r.wallets == s.wallets && r.txs == s.txs && r.ledger == s.ledger
    ensures AddsOnly(s.frauds, r.frauds, inst.src.user, inst.id, {HighValue})
    ensures inst.tx.amount >= FraudAmountLimit ==> HasFlag(r.frauds, (inst.src.user, inst.id, HighValue))
    ensures inst.tx.amount < FraudAmountLimit ==> r == s
    ensures FlagsDistinct(s.frauds) ==> FlagsDistinct(r.frauds)
  {
    if inst.tx.amount >= FraudAmountLimit
    then s.(frauds := GetOrCreate(s.frauds, FraudLog(inst.src.user, inst.id, HighValue, now)))
    else s
  }

  /** The velocity rule: when the source wallet has at least three
      transactions created in the window, a flag naming that count. */
  function FlagVelocity(s: Store, inst: Instance, now: Time): (r: Store)
    ensures r.wallets == s.wallets && r.txs == s.txs && r.ledger == s.ledger
    ensures var n := CountRecent(s.txs, inst.tx.wallet, now - FraudWindow);
      && AddsOnly(s.frauds, r.frauds, inst.src.user, inst.id, {Velocity(n)})
      && (n >= FraudTxnCount ==> HasFlag(r.frauds, (inst.src.user, inst.id, Velocity(n))))
      && (n < FraudTxnCount ==> r == s)
    ensures FlagsDistinct(s.frauds) ==> FlagsDistinct(r.frauds)
  {
    var n := CountRecent(s.txs, inst.tx.wallet, now - FraudWindow);
    if n >= FraudTxnCount
    then s.(frauds := GetOrCreate(s.frauds, FraudLog(inst.src.user, inst.id, Velocity(n), now)))
    else s
  }

  /** A flag on file stays on file when more flags are appended. */
  lemma HasFlagKept(frauds: seq<FraudLog>, r: seq<FraudLog>, key: (UserId, TxId, Reason))
    requires |frauds| <= |r| && r[..|frauds|] == frauds
    ensures HasFlag(frauds, key) ==> HasFlag(r, key)
  {
    if HasFlag(frauds, key) {
      var i :| 0 <= i < |frauds| && FlagKey(frauds[i]) == key;
      assert r[i] == frauds[i];
    }
  }

  /** Both fraud rules, high-value first. */
  function FlagFraud(s: Store, inst: Instance, now: Time): (r: Store)
    ensures r.wallets == s.wallets && r.txs == s.txs && r.ledger == s.ledger
    ensures AddsOnly(s.frauds, r.frauds, inst.src.user, inst.id,
                     FiredReasons(inst.tx.amount, CountRecent(s.txs, inst.tx.wallet, now - FraudWindow)))
    ensures FlagsDistinct(s.frauds) ==> FlagsDistinct(r.frauds)
    ensures inst.tx.amount >= FraudAmountLimit ==> HasFlag(r.frauds, (inst.src.user, inst.id, HighValue))
    ensures var n := CountRecent(s.txs, inst.tx.wallet, now - FraudWindow);
      n >= FraudTxnCount ==> HasFlag(r.frauds, (inst.src.user, inst.id, Velocity(n)))
    ensures inst.tx.amount < FraudAmountLimit && CountRecent(s.txs, inst.tx.wallet, now - FraudWindow) < FraudTxnCount ==>
      r == s
  {
    var s1 := FlagHighValue(s, inst, now);
    var r := FlagVelocity(s1, inst, now);
    assert r.frauds[..|s1.frauds|] == s1.frauds;
    assert r.frauds[..|s.frauds|] == s1.frauds[..|s.frauds|];
    HasFlagKept(s1.frauds, r.frauds, (inst.src.user, inst.id, HighValue));
    r
  }

  /** Running both rules again at the same moment adds nothing: every flag
      they would create is found by its key. */
  lemma FlagFraudIdempotent(s: Store, inst: Instance, now: Time)
    ensures FlagFraud(FlagFraud(s, inst, now), inst, now) == FlagFraud(s, inst, now)
  {
    var r := FlagFraud(s, inst, now);
    var n := CountRecent(s.txs, inst.tx.wallet, now - FraudWindow);
    var r1 := FlagHighValue(r, inst, now);
    if inst.tx.amount >= FraudAmountLimit {
      assert GetOrCreate(r.frauds, FraudLog(inst.src.user, inst.id, HighValue, now)) == r.frauds;
    }
    assert r1 == r;
    if n >= FraudTxnCount {
      assert GetOrCreate(r.frauds, FraudLog(inst.src.user, inst.id, Velocity(n), now)) == r.frauds;
    }
  }

  /** The handler. A newly created pending transaction is left alone; an
      approved one without ledger rows gets its balance mutation and rows; a
      rejected one credits its source; then both fraud rules run. What each
      case does to balances and rows is stated by the lemmas that follow. */
  function HandleSave(s: Store, inst: Instance, created: bool, now: Time): (r: Saved)
    requires Loadable(s, inst)
    ensures r.store.txs == s.txs && r.inst.id == inst.id && r.inst.tx == inst.tx
    ensures r.inst.src.user == inst.src.user
    // fraud flags: only on this transaction, only for a rule that fired, never duplicated
    ensures AddsOnly(s.frauds, r.store.frauds, inst.src.user, inst.id,
                     if created && inst.tx.status == Pending then {}
                     else FiredReasons(inst.tx.amount, CountRecent(s.txs, inst.tx.wallet, now - FraudWindow)))
    ensures FlagsDistinct(s.frauds) ==> FlagsDistinct(r.store.frauds)
    ensures !(created && inst.tx.status == Pending) && inst.tx.amount >= FraudAmountLimit ==>
      HasFlag(r.store.frauds, (inst.src.user, inst.id, HighValue))
    ensures var n := CountRecent(s.txs, inst.tx.wallet, now - FraudWindow);
      !(created && inst.tx.status == Pending) && n >= FraudTxnCount ==>
        HasFlag(r.store.frauds, (inst.src.user, inst.id, Velocity(n)))
  {
    if created && inst.tx.status == Pending then Saved(s, inst)
    else
      var a := if inst.tx.status == Approved && !HasLedger(s.ledger, inst.id)
        then ApplyApproved(s, inst, now) else Saved(s, inst);
      var b := if inst.tx.status == Rejected then CreditRejected(a.store, a.inst) else a;
      Saved(FlagFraud(b.store, b.inst, now), b.inst)
  }

  /** A newly created pending transaction is left alone entirely. */
  lemma SaveCreatedPending(s: Store, inst: Instance, now: Time)
    requires Loadable(s, inst) && inst.tx.status == Pending
    ensures HandleSave(s, inst, true, now) == Saved(s, inst)
  {
  }

  /** Saving a pending transaction again moves no balance and writes no
      row. */
  lemma SavePendingAgain(s: Store, inst: Instance, created: bool, now: Time)
    requires Loadable(s, inst) && inst.tx.status == Pending
    ensures var r := HandleSave(s, inst, created, now);
      r.store.wallets == s.wallets && r.store.ledger == s.ledger && r.inst == inst
  {
  }

  /** An approved transaction whose rows exist already moves no balance,
      writes no row and keeps its objects. */
  lemma SaveApprovedAgain(s: Store, inst: Instance, created: bool, now: Time)
    requires Loadable(s, inst) && inst.tx.status == Approved && HasLedger(s.ledger, inst.id)
    ensures var r := HandleSave(s, inst, created, now);
      r.store.wallets == s.wallets && r.store.ledger == s.ledger && r.inst == inst
  {
  }

  /** The first save of an approved deposit or withdrawal moves the source
      object's balance by the amount and writes one row with the new
      balance. */
  lemma SaveFirstApproval(s: Store, inst: Instance, created: bool, now: Time)
    requires Loadable(s, inst) && inst.tx.status == Approved && !HasLedger(s.ledger, inst.id)
    requires inst.tx.kind != Transfer
    ensures var r := HandleSave(s, inst, created, now);
      var sign := if inst.tx.kind == Deposit then 1 else -1;
      var w := inst.src.(balance := inst.src.balance + sign * inst.tx.amount);
      && r.inst.src == w && r.inst.tgt == inst.tgt
      && r.store.wallets == s.wallets[inst.tx.wallet := w]
      && r.store.ledger == s.ledger + [LedgerEntry(inst.id, inst.tx.wallet,
           if inst.tx.kind == Deposit then Credit else Debit, inst.tx.amount, w.balance, now)]
  {
  }

  /** The first save of an approved transfer debits the source object and,
      when there is a target, credits the target object, one row per leg. */
  lemma SaveFirstTransfer(s: Store, inst: Instance, created: bool, now: Time)
    requires Loadable(s, inst) && inst.tx.status == Approved && !HasLedger(s.ledger, inst.id)
    requires inst.tx.kind == Transfer
    ensures var r := HandleSave(s, inst, created, now);
      var w := inst.src.(balance := inst.src.balance - inst.tx.amount);
      var debit := LedgerEntry(inst.id, inst.tx.wallet, Debit, inst.tx.amount, w.balance, now);
      && r.inst.src == w
      && (inst.tx.target.None? ==>
            r.store.ledger == s.ledger + [debit] && r.store.wallets == s.wallets[inst.tx.wallet := w])
      && (inst.tx.target.Some? ==>
            var before := TargetObject(PutWallet(s, inst.tx.wallet, w), inst);
            && r.inst.tgt == Some(before.(balance := before.balance + CreditedAmount(inst.tx)))
            && r.store.wallets == s.wallets[inst.tx.wallet := w][inst.tx.target.value := r.inst.tgt.value]
            && r.store.ledger == s.ledger + [debit, LedgerEntry(inst.id, inst.tx.target.value, Credit,
                 CreditedAmount(inst.tx), r.inst.tgt.value.balance, now)])
  {
  }

  /** Saving a rejected transaction credits its amount back to the source
      object, with no ledger row. */
  lemma SaveRejected(s: Store, inst: Instance, created: bool, now: Time)
    requires Loadable(s, inst) && inst.tx.status == Rejected
    ensures var r := HandleSave(s, inst, created, now);
      && r.inst == inst.(src := inst.src.(balance := inst.src.balance + inst.tx.amount))
      && r.store.wallets == s.wallets[inst.tx.wallet := r.inst.src]
      && r.store.ledger == s.ledger
  {
  }

  /** Saving an approved transaction again, on the objects the first save
      left behind and at the same moment, changes nothing: its ledger rows
      exist, so no balance moves, and every flag is found by its key. */
  lemma ResaveApproved(s: Store, inst: Instance, created: bool, now: Time)
    requires Loadable(s, inst) && inst.tx.status == Approved
    ensures var h := HandleSave(s, inst, created, now);
      Loadable(h.store, h.inst) && HandleSave(h.store, h.inst, false, now) == h
  {
    var h := HandleSave(s, inst, created, now);
    if !HasLedger(s.ledger, inst.id) {
      assert h.store.ledger[|s.ledger|].tx == inst.id;
    }
    assert HasLedger(h.store.ledger, inst.id);
    var a := if !HasLedger(s.ledger, inst.id) then ApplyApproved(s, inst, now) else Saved(s, inst);
    assert h == Saved(FlagFraud(a.store, a.inst, now), a.inst);
    FlagFraudIdempotent(a.store, a.inst, now);
  }
}
