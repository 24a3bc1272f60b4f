/**
 The balance sheet and the three pieces of code that move it: the ledger pass of
 `Chain_AddBlockLocked` (LedgerTxs), the replay inside `Chain_RollbackToHeightLocked`
 (ReplayTxs) and the overlay simulation of `BalanceSheet_SelectSpendableTransactions`
 (Select).  Each is written from its own source; the lemmas relate them.
 */
module Ledger {
  import opened Words
  import opened Transactions

  datatype Entry = Entry(balance: u256, lastTx: u64)
  type Sheet = map<Address, Entry>

  function Lookup(s: Sheet, a: Address): Entry { if a in s then s[a] else Entry(0, 0) }

  // An operation that can bail out midway leaves the sheet it had reached.
  datatype Outcome = Done(sheet: Sheet) | Failed(sheet: Sheet)

  // ---------- the ledger pass ----------

  function Credit(s: Sheet, a: Address, amount: u64): Outcome {
    if amount == 0 then Done(s)
    else if a !in s then Done(s[a := Entry(amount, 0)])
    else if s[a].balance + amount >= TWO_256 then Failed(s)
    else Done(s[a := s[a].(balance := s[a].balance + amount)])
  }

  function Debit(s: Sheet, a: Address, spend: u256, timestamp: u64): Outcome {
    if a !in s || s[a].balance < spend then Failed(s)
    else Done(s[a := Entry(s[a].balance - spend, Max(s[a].lastTx, timestamp))])
  }

  function DebitSender(s: Sheet, tx: Transaction): Outcome {
    if tx.sender == COINBASE then Done(s) else Debit(s, tx.sender, Spend(tx), tx.timestamp)
  }

  function PayOut(s: Sheet, tx: Transaction): Outcome {
    var paid1 := Credit(s, tx.recipient1, tx.amount1);
    if paid1.Failed? || tx.amount2 == 0 then paid1
    else if tx.recipient2 == ZERO_ADDRESS then Failed(paid1.sheet)
    else Credit(paid1.sheet, tx.recipient2, tx.amount2)
  }

  function LedgerTx(s: Sheet, tx: Transaction): Outcome {
    var debited := DebitSender(s, tx);
    if debited.Failed? then debited else PayOut(debited.sheet, tx)
  }

  function LedgerTxs(s: Sheet, txs: seq<SignedTx>): Outcome {
    if txs == [] then Done(s) else
    var before := LedgerTxs(s, txs[..|txs| - 1]);
    if before.Failed? then before else LedgerTx(before.sheet, txs[|txs| - 1].tx)
  }

  // ---------- the rollback replay (errors are ignored there) ----------

  function ReplayCredit(s: Sheet, a: Address, amount: u64): Sheet {
    if a !in s then s[a := Entry(amount, 0)]
    else s[a := s[a].(balance := (s[a].balance + amount) % TWO_256)]
  }

  function ReplayTx(s: Sheet, tx: Transaction): Sheet {
    if tx.sender == COINBASE then ReplayCredit(s, tx.recipient1, tx.amount1) else
    var e := Lookup(s, tx.sender);
    var left := if e.balance < Spend(tx) then e.balance else e.balance - Spend(tx);
    var s1 := s[tx.sender := Entry(left, Max(e.lastTx, tx.timestamp))];
    var s2 := ReplayCredit(s1, tx.recipient1, tx.amount1);
    if tx.amount2 > 0 then ReplayCredit(s2, tx.recipient2, tx.amount2) else s2
  }

  function ReplayTxs(s: Sheet, txs: seq<SignedTx>): Sheet {
    if txs == [] then s else ReplayTx(ReplayTxs(s, txs[..|txs| - 1]), txs[|txs| - 1].tx)
  }

  // ---------- the overlay simulation ----------

  datatype SimResult = Sim(ok: bool, sim: Sheet)

  function SimLookup(base: Sheet, sim: Sheet, a: Address): Entry {
    if a in sim then sim[a] else Lookup(base, a)
  }

  function SimCredit(base: Sheet, sim: Sheet, a: Address, amount: u64): SimResult {
    var e := SimLookup(base, sim, a);
    if e.balance + amount >= TWO_256 then Sim(false, sim[a := e])
    else Sim(true, sim[a := e.(balance := e.balance + amount)])
  }

  function SimTx(c: Crypto, base: Sheet, sim: Sheet, t: SignedTx): SimResult {
    if IsCoinbase(t) then Sim(true, sim)
    else if !Verify(c, t) then Sim(false, sim) else
    var e := SimLookup(base, sim, t.tx.sender);
    if e.balance < Spend(t.tx) then Sim(false, sim[t.tx.sender := e]) else
    var paid1 := SimCredit(base, sim[t.tx.sender := e.(balance := e.balance - Spend(t.tx))],
                           t.tx.recipient1, t.tx.amount1);
    if !paid1.ok || t.tx.amount2 == 0 then paid1
    else SimCredit(base, paid1.sim, t.tx.recipient2, t.tx.amount2)
  }

  // Fees are accumulated in 64 bits and wrap.
  datatype Selection = Selection(sim: Sheet, accepted: seq<SignedTx>, fees: u64)

  function Select(c: Crypto, base: Sheet, txs: seq<SignedTx>): Selection {
    if txs == [] then Selection(map[], [], 0) else
    SelectNext(c, base, Select(c, base, txs[..|txs| - 1]), txs[|txs| - 1])
  }

  function SelectNext(c: Crypto, base: Sheet, sel: Selection, t: SignedTx): Selection {
    var r := SimTx(c, base, sel.sim, t);
    if IsCoinbase(t) then sel
    else if !r.ok then sel.(sim := r.sim)
    else Selection(r.sim, sel.accepted + [t], (sel.fees + t.tx.fee) % TWO_64)
  }

  // ---------- totals over a transaction list ----------

  function Spends(txs: seq<SignedTx>): seq<SignedTx> {
    if txs == [] then [] else
    var rest := Spends(txs[..|txs| - 1]);
    if IsCoinbase(txs[|txs| - 1]) then rest else rest + [txs[|txs| - 1]]
  }

  function FeeSum(txs: seq<SignedTx>): nat {
    if txs == [] then 0 else
    FeeSum(txs[..|txs| - 1]) + if IsCoinbase(txs[|txs| - 1]) then 0 else txs[|txs| - 1].tx.fee
  }

  function CoinbaseSum(txs: seq<SignedTx>): nat {
    if txs == [] then 0 else
    CoinbaseSum(txs[..|txs| - 1]) + if IsCoinbase(txs[|txs| - 1]) then txs[|txs| - 1].tx.amount1 else 0
  }

  function CoinbaseCount(txs: seq<SignedTx>): nat {
    if txs == [] then 0 else
    CoinbaseCount(txs[..|txs| - 1]) + if IsCoinbase(txs[|txs| - 1]) then 1 else 0
  }

  // What the block's own coinbase pays to one address.
  function MinerCredit(txs: seq<SignedTx>, a: Address): nat {
    if txs == [] then 0 else
    var t := txs[|txs| - 1];
    MinerCredit(txs[..|txs| - 1], a) + if IsCoinbase(t) && t.tx.recipient1 == a then t.tx.amount1 else 0
  }

  predicate AllAccepted(c: Crypto, base: Sheet, txs: seq<SignedTx>) {
    |Select(c, base, txs).accepted| == |Spends(txs)|
  }

  // ---------- the sum of all balances ----------

  ghost function PickKey(s: Sheet): (a: Address)
    requires |s| > 0
    ensures a in s
  {
    assert |s.Keys| == |s| > 0;
    var a :| a in s.Keys; a
  }

  ghost function Total(s: Sheet): nat
    decreases |s|
  {
    if |s| == 0 then 0 else
    var a := PickKey(s);
    s[a].balance + Total(s - {a})
  }

  lemma {:induction false} TotalWithout(s: Sheet, a: Address)
    requires a in s
    ensures Total(s) == s[a].balance + Total(s - {a})
    decreases |s|
  {
    var p := PickKey(s);
    if p != a {
      TotalWithout(s - {p}, a);
      TotalWithout(s - {a}, p);
      assert s - {p} - {a} == s - {a} - {p};
    }
  }

  lemma TotalAfterUpdate(s: Sheet, a: Address, e: Entry)
    ensures Total(s[a := e]) == Total(s) - Lookup(s, a).balance + e.balance
  {
    TotalWithout(s[a := e], a);
    if a in s {
      TotalWithout(s, a);
      assert s[a := e] - {a} == s - {a};
    } else {
      assert s[a := e] - {a} == s;
    }
  }

  lemma BalanceWithinTotal(s: Sheet, a: Address)
    ensures Lookup(s, a).balance <= Total(s)
  {
    if a in s { TotalWithout(s, a); }
  }

  lemma CreditTotal(s: Sheet, a: Address, amount: u64)
    ensures Credit(s, a, amount).Done? ==> Total(Credit(s, a, amount).sheet) == Total(s) + amount
    ensures Total(s) + amount < TWO_256 ==> Credit(s, a, amount).Done?
  {
    BalanceWithinTotal(s, a);
    if Credit(s, a, amount).Done? && amount != 0 {
      TotalAfterUpdate(s, a, Credit(s, a, amount).sheet[a]);
      assert Credit(s, a, amount).sheet == s[a := Credit(s, a, amount).sheet[a]];
    }
  }

  lemma PayOutTotal(s: Sheet, tx: Transaction)
    ensures PayOut(s, tx).Done? ==> Total(PayOut(s, tx).sheet) == Total(s) + tx.amount1 + tx.amount2
    ensures SecondRecipientOk(tx) && Total(s) + tx.amount1 + tx.amount2 < TWO_256 ==> PayOut(s, tx).Done?
  {
    CreditTotal(s, tx.recipient1, tx.amount1);
    var s1 := Credit(s, tx.recipient1, tx.amount1).sheet;
    if tx.amount2 != 0 { CreditTotal(s1, tx.recipient2, tx.amount2); }
  }

  lemma DebitTotal(s: Sheet, tx: Transaction)
    requires tx.sender != COINBASE && DebitSender(s, tx).Done?
    ensures Total(DebitSender(s, tx).sheet) == Total(s) - Spend(tx)
  {
    TotalAfterUpdate(s, tx.sender, DebitSender(s, tx).sheet[tx.sender]);
  }

  // One applied transaction changes the sum of balances by the coinbase amount, or by minus its fee.
  lemma LedgerTxTotal(s: Sheet, tx: Transaction)
    requires LedgerTx(s, tx).Done?
    ensures Total(LedgerTx(s, tx).sheet) ==
            Total(s) + if tx.sender == COINBASE then tx.amount1 + tx.amount2 else 0 - tx.fee
  {
    if tx.sender != COINBASE { DebitTotal(s, tx); }
    PayOutTotal(DebitSender(s, tx).sheet, tx);
  }

  predicate CoinbasesPlain(txs: seq<SignedTx>) {
    forall i :: 0 <= i < |txs| && IsCoinbase(txs[i]) ==> txs[i].tx.amount2 == 0
  }

  // Conservation over a whole list: minted coinbase in, fees out.
  lemma {:induction false} LedgerTotal(s: Sheet, txs: seq<SignedTx>)
    requires LedgerTxs(s, txs).Done? && CoinbasesPlain(txs)
    ensures Total(LedgerTxs(s, txs).sheet) + FeeSum(txs) == Total(s) + CoinbaseSum(txs)
  {
    if txs != [] {
      LedgerTotal(s, txs[..|txs| - 1]);
      LedgerTxTotal(LedgerTxs(s, txs[..|txs| - 1]).sheet, txs[|txs| - 1].tx);
    }
  }

  // ---------- replay agrees with the ledger pass ----------

  predicate ReplayComparable(t: SignedTx) {
    t.tx.amount1 != 0 && (IsCoinbase(t) ==> t.tx.amount2 == 0)
  }

  lemma ReplayTxAgrees(s: Sheet, t: SignedTx)
    requires LedgerTx(s, t.tx).Done? && ReplayComparable(t)
    ensures ReplayTx(s, t.tx) == LedgerTx(s, t.tx).sheet
  {
    hide Credit, ReplayCredit;
    var tx := t.tx;
    var s1 := DebitSender(s, tx).sheet;
    CreditAgrees(s1, tx.recipient1, tx.amount1);
    CreditAgrees(Credit(s1, tx.recipient1, tx.amount1).sheet, tx.recipient2, tx.amount2);
  }

  lemma CreditAgrees(s: Sheet, a: Address, amount: u64)
    ensures amount != 0 && Credit(s, a, amount).Done? ==> ReplayCredit(s, a, amount) == Credit(s, a, amount).sheet
  {
  }

  lemma {:induction false} ReplayAgrees(s: Sheet, txs: seq<SignedTx>)
    requires LedgerTxs(s, txs).Done?
    requires forall i :: 0 <= i < |txs| ==> ReplayComparable(txs[i])
    ensures ReplayTxs(s, txs) == LedgerTxs(s, txs).sheet
  {
    if txs != [] {
      ReplayAgrees(s, txs[..|txs| - 1]);
      ReplayTxAgrees(LedgerTxs(s, txs[..|txs| - 1]).sheet, txs[|txs| - 1]);
    }
  }

  // ---------- the simulation is sound for the ledger pass ----------

  lemma {:induction false} AcceptedBound(c: Crypto, base: Sheet, txs: seq<SignedTx>)
    ensures |Select(c, base, txs).accepted| <= |Spends(txs)|
  {
    if txs != [] { AcceptedBound(c, base, txs[..|txs| - 1]); }
  }

  lemma AllAcceptedPrefix(c: Crypto, base: Sheet, txs: seq<SignedTx>)
    requires txs != [] && AllAccepted(c, base, txs)
    ensures AllAccepted(c, base, txs[..|txs| - 1])
    ensures SimTx(c, base, Select(c, base, txs[..|txs| - 1]).sim, txs[|txs| - 1]).ok
  {
    AcceptedBound(c, base, txs[..|txs| - 1]);
  }

  // The real sheet is ahead of the simulated one by exactly the coinbase paid so far.
  ghost predicate Tracks(ledger: Sheet, base: Sheet, sim: Sheet, txs: seq<SignedTx>) {
    forall a: Address ::
      Lookup(ledger, a).balance == SimLookup(base, sim, a).balance + MinerCredit(txs, a)
  }

  // The net effect of a non-coinbase transaction on one balance.
  function Delta(tx: Transaction, a: Address): int {
    (if a == tx.recipient1 then tx.amount1 else 0) +
    (if a == tx.recipient2 then tx.amount2 else 0) -
    (if a == tx.sender then Spend(tx) else 0)
  }

  lemma CreditDelta(s: Sheet, to: Address, amount: u64, a: Address)
    requires Credit(s, to, amount).Done?
    ensures Lookup(Credit(s, to, amount).sheet, a).balance ==
            Lookup(s, a).balance + if a == to then amount else 0
  {
  }

  lemma LedgerTxDelta(s: Sheet, tx: Transaction, a: Address)
    requires tx.sender != COINBASE && LedgerTx(s, tx).Done?
    ensures Lookup(LedgerTx(s, tx).sheet, a).balance == Lookup(s, a).balance + Delta(tx, a)
  {
  }

  lemma SimTxDelta(c: Crypto, base: Sheet, sim: Sheet, t: SignedTx, a: Address)
    requires !IsCoinbase(t) && SimTx(c, base, sim, t).ok
    ensures SimLookup(base, SimTx(c, base, sim, t).sim, a).balance ==
            SimLookup(base, sim, a).balance + Delta(t.tx, a)
  {
  }

  // A verified transaction that the sender can afford goes through when no balance can overflow.
  lemma AffordableSucceeds(s: Sheet, tx: Transaction)
    requires tx.sender != COINBASE && tx.amount1 != 0 && SecondRecipientOk(tx)
    requires Lookup(s, tx.sender).balance >= Spend(tx) && Total(s) < TWO_256
    ensures LedgerTx(s, tx).Done?
  {
    DebitTotal(s, tx);
    PayOutTotal(DebitSender(s, tx).sheet, tx);
  }

  lemma TracksStep(c: Crypto, base: Sheet, ledger: Sheet, sim: Sheet, before: seq<SignedTx>, t: SignedTx)
    requires Tracks(ledger, base, sim, before)
    requires !IsCoinbase(t) && SimTx(c, base, sim, t).ok && SecondRecipientOk(t.tx)
    requires Total(ledger) < TWO_256
    ensures LedgerTx(ledger, t.tx).Done?
    ensures Tracks(LedgerTx(ledger, t.tx).sheet, base, SimTx(c, base, sim, t).sim, before + [t])
  {
    assert (before + [t])[..|before|] == before;
    assert Lookup(ledger, t.tx.sender).balance >= Spend(t.tx);
    AffordableSucceeds(ledger, t.tx);
    forall a: Address
      ensures Lookup(LedgerTx(ledger, t.tx).sheet, a).balance ==
              SimLookup(base, SimTx(c, base, sim, t).sim, a).balance + MinerCredit(before + [t], a)
    {
      LedgerTxDelta(ledger, t.tx, a);
      SimTxDelta(c, base, sim, t, a);
    }
  }

  lemma TracksCoinbase(base: Sheet, ledger: Sheet, sim: Sheet, before: seq<SignedTx>, t: SignedTx)
    requires Tracks(ledger, base, sim, before)
    requires IsCoinbase(t) && t.tx.amount2 == 0 && Total(ledger) + t.tx.amount1 < TWO_256
    ensures LedgerTx(ledger, t.tx).Done?
    ensures Tracks(LedgerTx(ledger, t.tx).sheet, base, sim, before + [t])
  {
    assert (before + [t])[..|before|] == before;
    CreditTotal(ledger, t.tx.recipient1, t.tx.amount1);
    forall a: Address
      ensures Lookup(LedgerTx(ledger, t.tx).sheet, a).balance ==
              SimLookup(base, sim, a).balance + MinerCredit(before + [t], a)
    {
      CreditDelta(ledger, t.tx.recipient1, t.tx.amount1, a);
    }
  }

  /** If selection accepts every non-coinbase transaction, the ledger pass cannot fail and ends
      at the simulated balances plus the coinbase credit, wherever the coinbase stands. */
  lemma {:induction false} SimulationSound(c: Crypto, base: Sheet, txs: seq<SignedTx>)
    requires AllAccepted(c, base, txs) && CoinbasesPlain(txs) && SecondRecipientsOk(txs)
    requires Total(base) + CoinbaseSum(txs) < TWO_256
    ensures LedgerTxs(base, txs).Done?
    ensures Tracks(LedgerTxs(base, txs).sheet, base, Select(c, base, txs).sim, txs)
  {
    if txs != [] {
      var before, t := txs[..|txs| - 1], txs[|txs| - 1];
      assert before + [t] == txs;
      AllAcceptedPrefix(c, base, txs);
      SimulationSound(c, base, before);
      LedgerTotal(base, before);
      if IsCoinbase(t) {
        TracksCoinbase(base, LedgerTxs(base, before).sheet, Select(c, base, before).sim, before, t);
      } else {
        TracksStep(c, base, LedgerTxs(base, before).sheet, Select(c, base, before).sim, before, t);
      }
    }
  }

  // The one way an accepted block still fails: a second amount without a second recipient.
  lemma {:induction false} MissingRecipientFails(s: Sheet, txs: seq<SignedTx>)
    requires !SecondRecipientsOk(txs)
    ensures LedgerTxs(s, txs).Failed?
  {
    var before := txs[..|txs| - 1];
    if LedgerTxs(s, before).Done? && SecondRecipientOk(txs[|txs| - 1].tx) {
      var i :| 0 <= i < |txs| && !SecondRecipientOk(txs[i].tx);
      assert before[i] == txs[i];
      MissingRecipientFails(s, before);
    }
  }

  // ---------- the replay guard ----------

  function LatestFrom(txs: seq<SignedTx>, a: Address): u64 {
    if txs == [] then 0 else
    var t := txs[|txs| - 1];
    var earlier := LatestFrom(txs[..|txs| - 1], a);
    if !IsCoinbase(t) && t.tx.sender == a then Max(earlier, t.tx.timestamp) else earlier
  }

  predicate SameSender(t: SignedTx, u: SignedTx) {
    !IsCoinbase(t) && !IsCoinbase(u) && t.tx.sender == u.tx.sender
  }

  // Chain_BlockRespectsSenderOrdering, as a property of the list.
  predicate SenderOrdered(s: Sheet, txs: seq<SignedTx>) {
    && (forall i :: 0 <= i < |txs| && !IsCoinbase(txs[i]) ==>
          txs[i].tx.timestamp > Lookup(s, txs[i].tx.sender).lastTx)
    && (forall i, j :: 0 <= j < i < |txs| && SameSender(txs[j], txs[i]) ==>
          txs[j].tx.timestamp < txs[i].tx.timestamp)
  }

  lemma {:induction false} LatestFromBounds(txs: seq<SignedTx>, a: Address)
    ensures forall i :: 0 <= i < |txs| && !IsCoinbase(txs[i]) && txs[i].tx.sender == a ==>
              txs[i].tx.timestamp <= LatestFrom(txs, a)
    ensures LatestFrom(txs, a) != 0 ==>
              exists i :: 0 <= i < |txs| && !IsCoinbase(txs[i]) && txs[i].tx.sender == a &&
                txs[i].tx.timestamp == LatestFrom(txs, a)
  {
    if txs != [] {
      var before := txs[..|txs| - 1];
      LatestFromBounds(before, a);
      assert forall i :: 0 <= i < |before| ==> before[i] == txs[i];
    }
  }

  lemma PayOutLastTx(s: Sheet, tx: Transaction, a: Address)
    ensures Lookup(PayOut(s, tx).sheet, a).lastTx == Lookup(s, a).lastTx
  {
  }

  lemma LedgerTxLastTx(s: Sheet, tx: Transaction, a: Address)
    requires LedgerTx(s, tx).Done?
    ensures Lookup(LedgerTx(s, tx).sheet, a).lastTx ==
            if tx.sender != COINBASE && tx.sender == a then Max(Lookup(s, a).lastTx, tx.timestamp)
            else Lookup(s, a).lastTx
  {
    PayOutLastTx(DebitSender(s, tx).sheet, tx, a);
  }

  lemma {:induction false} LedgerLastTx(s: Sheet, txs: seq<SignedTx>, a: Address)
    requires LedgerTxs(s, txs).Done?
    ensures Lookup(LedgerTxs(s, txs).sheet, a).lastTx == Max(Lookup(s, a).lastTx, LatestFrom(txs, a))
  {
    if txs != [] {
      LedgerLastTx(s, txs[..|txs| - 1], a);
      LedgerTxLastTx(LedgerTxs(s, txs[..|txs| - 1]).sheet, txs[|txs| - 1].tx, a);
    }
  }
}
