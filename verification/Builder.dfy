/**
 The miner's block body: mempool candidates in any priority order, each sender's own slots sorted by
 timestamp, the spendable ones selected, and a coinbase put in front.
 */
module Builder {
  import opened Words
  import opened Transactions
  import opened Ledger
  import opened Targets
  import opened Emission
  import opened DagVotes
  import opened Protocol
  import opened Reorg
  import opened BlockChecks

  // No transaction precedes an earlier one of its own sender.
  predicate TimeSorted(txs: seq<SignedTx>) {
    forall i, j :: 0 <= i < j < |txs| && SameSender(txs[i], txs[j]) ==> txs[i].tx.timestamp <= txs[j].tx.timestamp
  }

  predicate DistinctTimes(txs: seq<SignedTx>) {
    forall i, j :: 0 <= i < j < |txs| && SameSender(txs[i], txs[j]) ==> txs[i].tx.timestamp != txs[j].tx.timestamp
  }

  predicate Newer(sheet: Sheet, txs: seq<SignedTx>) {
    forall i :: 0 <= i < |txs| && !IsCoinbase(txs[i]) ==> txs[i].tx.timestamp > Lookup(sheet, txs[i].tx.sender).lastTx
  }

  // ---------- reordering ----------

  function Swapped(s: seq<SignedTx>, i: nat, j: nat): seq<SignedTx>
    requires i < |s| && j < |s|
  {
    s[i := s[j]][j := s[i]]
  }

  predicate SameSlots(s: seq<SignedTx>, t: seq<SignedTx>) {
    |s| == |t| && forall i :: 0 <= i < |s| ==> s[i].tx.sender == t[i].tx.sender
  }

  // The slots before n hold, for their senders, the earliest of what follows.
  predicate SettledBefore(s: seq<SignedTx>, n: nat) {
    forall p, q :: 0 <= p < n && p < q < |s| && SameSender(s[p], s[q]) ==> s[p].tx.timestamp <= s[q].tx.timestamp
  }

  lemma SwapPermutes(s: seq<SignedTx>, i: nat, j: nat)
    requires i < |s| && j < |s|
    ensures multiset(Swapped(s, i, j)) == multiset(s)
  {
  }

  // Bringing the earliest of a sender's remaining transactions forward settles one more slot.
  lemma SwapSettles(s: seq<SignedTx>, i: nat, e: nat)
    requires i <= e < |s| && SettledBefore(s, i) && SameSender(s[i], s[e])
    requires forall k :: i <= k < |s| && SameSender(s[i], s[k]) ==> s[e].tx.timestamp <= s[k].tx.timestamp
    ensures SettledBefore(Swapped(s, i, e), i + 1)
  {
    var t := Swapped(s, i, e);
    forall p, q | 0 <= p < i + 1 && p < q < |t| && SameSender(t[p], t[q])
      ensures t[p].tx.timestamp <= t[q].tx.timestamp
    {
      var q' := if q == e then i else if q == i then e else q;
      assert t[q] == s[q'];
      if p < i { assert t[p] == s[p]; } else { assert t[p] == s[e]; }
    }
  }

  /** OrderSameSenderByTimestamp: a permutation that keeps the sender of every slot and every coinbase
      in place, and sorts each sender's transactions. */
  method OrderSameSender(txs: array<SignedTx>)
    modifies txs
    ensures multiset(txs[..]) == multiset(old(txs[..]))
    ensures SameSlots(txs[..], old(txs[..]))
    ensures CoinbasesKept(old(txs[..]), txs[..])
    ensures TimeSorted(txs[..])
  {
    hide Swapped, SettledBefore, SameSlots, CoinbasesKept, TimeSorted, IsCoinbase;
    ghost var start := txs[..];
    NothingMoved(start);
    if txs.Length < 2 {
      return;
    }
    for i := 0 to txs.Length
      invariant multiset(txs[..]) == multiset(start) && SettledBefore(txs[..], i)
      invariant SameSlots(txs[..], start) && CoinbasesKept(start, txs[..])
    {
      if IsCoinbase(txs[i]) {
        CoinbaseSettles(txs[..], i);
        continue;
      }
      var earliest := FindEarliest(txs, i);
      SwapSettles(txs[..], i, earliest);
      SwapPermutes(txs[..], i, earliest);
      SwapKeeps(start, txs[..], i, earliest);
      if earliest != i {
        SwapInPlace(txs, i, earliest);
      }
    }
    AllSettled(txs[..]);
  }

  predicate CoinbasesKept(before: seq<SignedTx>, after: seq<SignedTx>) {
    |before| == |after| && forall i :: 0 <= i < |before| && IsCoinbase(before[i]) ==> after[i] == before[i]
  }

  lemma NothingMoved(s: seq<SignedTx>)
    ensures SettledBefore(s, 0) && SameSlots(s, s) && CoinbasesKept(s, s)
    ensures |s| < 2 ==> TimeSorted(s)
  {
  }

  lemma CoinbaseSettles(s: seq<SignedTx>, i: nat)
    requires i < |s| && SettledBefore(s, i) && IsCoinbase(s[i])
    ensures SettledBefore(s, i + 1)
  {
  }

  lemma AllSettled(s: seq<SignedTx>)
    requires SettledBefore(s, |s|)
    ensures TimeSorted(s)
  {
    hide SameSender;
  }

  lemma SwapKeeps(start: seq<SignedTx>, s: seq<SignedTx>, i: nat, e: nat)
    requires i < |s| && e < |s| && SameSender(s[i], s[e]) && SameSlots(s, start) && CoinbasesKept(start, s)
    ensures SameSlots(Swapped(s, i, e), start) && CoinbasesKept(start, Swapped(s, i, e))
    ensures i == e ==> Swapped(s, i, e) == s
  {
  }

  // Lines 231-240: the earliest transaction of slot i's sender from slot i on.
  method FindEarliest(txs: array<SignedTx>, i: nat) returns (earliest: nat)
    requires i < txs.Length && !IsCoinbase(txs[i])
    ensures i <= earliest < txs.Length && SameSender(txs[i], txs[earliest])
    ensures forall k :: i <= k < txs.Length && SameSender(txs[i], txs[k]) ==>
              txs[earliest].tx.timestamp <= txs[k].tx.timestamp
  {
    earliest := i;
    for j := i + 1 to txs.Length
      invariant i <= earliest < txs.Length && SameSender(txs[i], txs[earliest])
      invariant forall k :: i <= k < j && SameSender(txs[i], txs[k]) ==>
                  txs[earliest].tx.timestamp <= txs[k].tx.timestamp
    {
      if txs[j].tx.sender == txs[i].tx.sender && txs[j].tx.timestamp < txs[earliest].tx.timestamp {
        earliest := j;
      }
    }
  }

  method SwapInPlace(txs: array<SignedTx>, i: nat, j: nat)
    requires i < txs.Length && j < txs.Length
    modifies txs
    ensures txs[..] == Swapped(old(txs[..]), i, j)
    ensures forall k :: 0 <= k < txs.Length && k != i && k != j ==> txs[k] == old(txs[k])
  {
    txs[i], txs[j] := txs[j], txs[i];
  }

  // ---------- selection keeps order ----------

  // Selected transactions keep their relative order, none is a coinbase, and all were candidates.
  ghost predicate Within(small: seq<SignedTx>, large: seq<SignedTx>, at: seq<nat>) {
    && |at| == |small|
    && (forall i :: 0 <= i < |at| ==> at[i] < |large| && small[i] == large[at[i]] && !IsCoinbase(small[i]))
    && (forall i, j :: 0 <= i < j < |at| ==> at[i] < at[j])
  }

  ghost function Positions(c: Crypto, base: Sheet, txs: seq<SignedTx>): (at: seq<nat>) {
    if txs == [] then [] else
    var init, t := txs[..|txs| - 1], txs[|txs| - 1];
    var earlier := Positions(c, base, init);
    if !IsCoinbase(t) && SimTx(c, base, Select(c, base, init).sim, t).ok then earlier + [|init|] else earlier
  }

  lemma {:induction false} SelectIsWithin(c: Crypto, base: Sheet, txs: seq<SignedTx>)
    ensures Within(Select(c, base, txs).accepted, txs, Positions(c, base, txs))
  {
    hide SimTx, IsCoinbase, Within;
    if txs == [] {
      NothingWithin();
    } else {
      var n := |txs| - 1;
      SelectIsWithin(c, base, txs[..n]);
      WithinLonger(Select(c, base, txs[..n]).accepted, txs[..n], Positions(c, base, txs[..n]), txs[n]);
      assert txs[..n] + [txs[n]] == txs;
    }
  }

  lemma NothingWithin()
    ensures Within([], [], [])
  {
  }

  lemma WithinLonger(small: seq<SignedTx>, large: seq<SignedTx>, at: seq<nat>, t: SignedTx)
    requires Within(small, large, at)
    ensures Within(small, large + [t], at)
    ensures !IsCoinbase(t) ==> Within(small + [t], large + [t], at + [|large|])
  {
    hide IsCoinbase;
  }

  lemma WithinOrdered(sheet: Sheet, small: seq<SignedTx>, large: seq<SignedTx>, at: seq<nat>)
    requires Within(small, large, at) && TimeSorted(large)
    ensures TimeSorted(small)
    ensures DistinctTimes(large) ==> DistinctTimes(small)
    ensures Newer(sheet, large) ==> Newer(sheet, small)
  {
  }

  /** For a list sorted by sender, the replay guard is exactly: newer than the ledger, and no two
      equal timestamps of one sender. */
  lemma SortedPassesGuardIff(sheet: Sheet, txs: seq<SignedTx>)
    requires TimeSorted(txs)
    ensures SenderOrdered(sheet, txs) <==> Newer(sheet, txs) && DistinctTimes(txs)
  {
    hide Lookup, SameSender;
    if Newer(sheet, txs) && DistinctTimes(txs) {
      forall i, j | 0 <= j < i < |txs| && SameSender(txs[j], txs[i]) ensures txs[j].tx.timestamp < txs[i].tx.timestamp {
        assert txs[j].tx.timestamp <= txs[i].tx.timestamp && txs[j].tx.timestamp != txs[i].tx.timestamp;
      }
    }
  }

  /** BuildSpendableMempoolSelection after the priority sort, from any order of the snapshot: the
      selection is sorted by sender, and it passes the replay guard if the pooled timestamps of each
      sender are distinct and newer than its last. */
  method BuildSelection(c: Crypto, sheet: Sheet, snapshot: array<SignedTx>) returns (accepted: seq<SignedTx>, fees: u64)
    modifies snapshot
    ensures multiset(snapshot[..]) == multiset(old(snapshot[..]))
    ensures accepted == Select(c, sheet, snapshot[..]).accepted && fees == Select(c, sheet, snapshot[..]).fees
    ensures TimeSorted(snapshot[..]) && TimeSorted(accepted)
    ensures old(DistinctTimes(snapshot[..]) && Newer(sheet, snapshot[..])) ==> SenderOrdered(sheet, accepted)
  {
    hide TimeSorted, DistinctTimes, Newer, SenderOrdered, Within;
    OrderSameSender(snapshot);
    PermutationKeepsPool(sheet, old(snapshot[..]), snapshot[..]);
    accepted, fees := SelectSpendable(c, sheet, snapshot[..]);
    SelectIsWithin(c, sheet, snapshot[..]);
    WithinOrdered(sheet, accepted, snapshot[..], Positions(c, sheet, snapshot[..]));
    SortedPassesGuardIff(sheet, accepted);
  }

  // Reordering decides neither condition: both speak of the pooled transactions alone.
  lemma PermutationKeepsPool(sheet: Sheet, s: seq<SignedTx>, t: seq<SignedTx>)
    requires multiset(s) == multiset(t)
    ensures Newer(sheet, s) ==> Newer(sheet, t)
    ensures DistinctTimes(s) ==> DistinctTimes(t)
  {
    if Newer(sheet, s) {
      forall i | 0 <= i < |t| && !IsCoinbase(t[i]) ensures t[i].tx.timestamp > Lookup(sheet, t[i].tx.sender).lastTx {
        assert t[i] in multiset(s);
      }
    }
    if DistinctTimes(s) && !DistinctTimes(t) {
      var i, j :| 0 <= i < j < |t| && SameSender(t[i], t[j]) && t[i].tx.timestamp == t[j].tx.timestamp;
      TwoOccurrences(s, t, i, j);
    }
  }

  // Two slots of a permutation come from two slots of the original.
  lemma TwoOccurrences(s: seq<SignedTx>, t: seq<SignedTx>, i: nat, j: nat)
    requires multiset(s) == multiset(t) && i < j < |t|
    ensures exists p, q :: 0 <= p < |s| && 0 <= q < |s| && p != q && s[p] == t[i] && s[q] == t[j]
  {
    assert t[i] in multiset(s);
    var p :| 0 <= p < |s| && s[p] == t[i];
    if t[j] != t[i] {
      assert t[j] in multiset(s);
      var q :| 0 <= q < |s| && s[q] == t[j];
    } else {
      CountTwo(t, i, j);
      var rest := s[..p] + s[p + 1..];
      assert s == s[..p] + [s[p]] + s[p + 1..];
      assert multiset(s) == multiset(rest) + multiset{s[p]};
      assert t[j] in multiset(rest);
      var r :| 0 <= r < |rest| && rest[r] == t[j];
      var q := if r < p then r else r + 1;
      assert s[q] == t[j];
    }
  }

  lemma CountTwo(t: seq<SignedTx>, i: nat, j: nat)
    requires i < j < |t| && t[i] == t[j]
    ensures multiset(t)[t[i]] >= 2
  {
    assert t == t[..i] + [t[i]] + t[i + 1..j] + [t[j]] + t[j + 1..];
    assert multiset(t) ==
           multiset(t[..i]) + multiset{t[i]} + multiset(t[i + 1..j]) + multiset{t[j]} + multiset(t[j + 1..]);
  }

  // ---------- selecting again changes nothing ----------

  // Two overlays that show the same entry for every account.
  ghost predicate SameView(base: Sheet, s: Sheet, t: Sheet) {
    forall a: Address :: SimLookup(base, s, a) == SimLookup(base, t, a)
  }

  lemma UpdateSameView(base: Sheet, s: Sheet, t: Sheet, a: Address, e: Entry)
    requires SameView(base, s, t)
    ensures SameView(base, s[a := e], t[a := e])
    ensures e == SimLookup(base, s, a) ==> SameView(base, s[a := e], s)
  {
    var s', t' := s[a := e], t[a := e];
    forall b: Address ensures SimLookup(base, s', b) == SimLookup(base, t', b) {
      if b != a { assert SimLookup(base, s, b) == SimLookup(base, t, b); }
    }
  }

  lemma CreditSameView(base: Sheet, s: Sheet, t: Sheet, a: Address, amount: u64)
    requires SameView(base, s, t)
    ensures SimCredit(base, s, a, amount).ok == SimCredit(base, t, a, amount).ok
    ensures SameView(base, SimCredit(base, s, a, amount).sim, SimCredit(base, t, a, amount).sim)
  {
    hide SameView, SimLookup;
    assert SimLookup(base, s, a) == SimLookup(base, t, a) by { ViewAt(base, s, t, a); }
    var e := SimLookup(base, s, a);
    UpdateSameView(base, s, t, a, e);
    if e.balance + amount < TWO_256 { UpdateSameView(base, s, t, a, e.(balance := e.balance + amount)); }
  }

  lemma ViewAt(base: Sheet, s: Sheet, t: Sheet, a: Address)
    requires SameView(base, s, t)
    ensures SimLookup(base, s, a) == SimLookup(base, t, a)
  {
  }

  lemma SimTxSameView(c: Crypto, base: Sheet, s: Sheet, t: Sheet, tx: SignedTx)
    requires SameView(base, s, t)
    ensures SimTx(c, base, s, tx).ok == SimTx(c, base, t, tx).ok
    ensures SameView(base, SimTx(c, base, s, tx).sim, SimTx(c, base, t, tx).sim)
  {
    hide Verify, SameView, SimCredit, SimLookup;
    var e := SimLookup(base, s, tx.tx.sender);
    ViewAt(base, s, t, tx.tx.sender);
    UpdateSameView(base, s, t, tx.tx.sender, e);
    if e.balance >= Spend(tx.tx) {
      var debited := e.(balance := e.balance - Spend(tx.tx));
      UpdateSameView(base, s, t, tx.tx.sender, debited);
      var s', t' := s[tx.tx.sender := debited], t[tx.tx.sender := debited];
      CreditSameView(base, s', t', tx.tx.recipient1, tx.tx.amount1);
      CreditSameView(base, SimCredit(base, s', tx.tx.recipient1, tx.tx.amount1).sim,
                     SimCredit(base, t', tx.tx.recipient1, tx.tx.amount1).sim, tx.tx.recipient2, tx.tx.amount2);
    }
  }

  lemma SimTxBound(c: Crypto, base: Sheet, s: Sheet, tx: SignedTx, a: Address)
    ensures SimLookup(base, SimTx(c, base, s, tx).sim, a).balance <= SimLookup(base, s, a).balance + 2 * TWO_64
  {
    hide Verify;
  }

  lemma {:induction false} SimBound(c: Crypto, base: Sheet, txs: seq<SignedTx>, a: Address)
    ensures SimLookup(base, Select(c, base, txs).sim, a).balance <= Lookup(base, a).balance + 2 * TWO_64 * |txs|
  {
    hide SimTx;
    if txs != [] {
      SimBound(c, base, txs[..|txs| - 1], a);
      SimTxBound(c, base, Select(c, base, txs[..|txs| - 1]).sim, txs[|txs| - 1], a);
    }
  }

  // With room to spare in 256 bits, a refused transaction leaves every simulated balance as it was.
  lemma RefusalLeavesNoTrace(c: Crypto, base: Sheet, s: Sheet, tx: SignedTx)
    requires forall a: Address :: SimLookup(base, s, a).balance + 2 * TWO_64 < TWO_256
    ensures !SimTx(c, base, s, tx).ok ==> SameView(base, SimTx(c, base, s, tx).sim, s)
  {
    hide Verify;
    var e := SimLookup(base, s, tx.tx.sender);
    UpdateSameView(base, s, s, tx.tx.sender, e);
    if Verify(c, tx) && e.balance >= Spend(tx.tx) { AffordableIsAccepted(c, base, s, tx); }
  }

  lemma AffordableIsAccepted(c: Crypto, base: Sheet, s: Sheet, tx: SignedTx)
    requires forall a: Address :: SimLookup(base, s, a).balance + 2 * TWO_64 < TWO_256
    requires Verify(c, tx) && SimLookup(base, s, tx.tx.sender).balance >= Spend(tx.tx)
    ensures SimTx(c, base, s, tx).ok
  {
    hide Verify;
    var e := SimLookup(base, s, tx.tx.sender);
    assert SimLookup(base, s, tx.tx.recipient1).balance + 2 * TWO_64 < TWO_256;
    assert SimLookup(base, s, tx.tx.recipient2).balance + 2 * TWO_64 < TWO_256;
  }

  ghost predicate Agrees(base: Sheet, again: Selection, sel: Selection) {
    again.accepted == sel.accepted && again.fees == sel.fees && SameView(base, again.sim, sel.sim)
  }

  predicate Takes(c: Crypto, base: Sheet, sel: Selection, t: SignedTx) {
    !IsCoinbase(t) && SimTx(c, base, sel.sim, t).ok
  }

  lemma TakenAgain(c: Crypto, base: Sheet, again: Selection, sel: Selection, t: SignedTx)
    requires Agrees(base, again, sel) && Takes(c, base, sel, t)
    ensures SelectNext(c, base, sel, t).accepted == sel.accepted + [t]
    ensures Agrees(base, SelectNext(c, base, again, t), SelectNext(c, base, sel, t))
  {
    hide SimTx, SameView, IsCoinbase;
    SimTxSameView(c, base, again.sim, sel.sim, t);
  }

  lemma RefusedStays(c: Crypto, base: Sheet, again: Selection, sel: Selection, t: SignedTx)
    requires Agrees(base, again, sel) && !Takes(c, base, sel, t)
    requires forall a: Address :: SimLookup(base, sel.sim, a).balance + 2 * TWO_64 < TWO_256
    ensures SelectNext(c, base, sel, t).accepted == sel.accepted
    ensures Agrees(base, again, SelectNext(c, base, sel, t))
  {
    hide SimTx, SameView, IsCoinbase, SimLookup;
    RefusalLeavesNoTrace(c, base, sel.sim, t);
    if !SimTx(c, base, sel.sim, t).ok { SameViewChain(base, again.sim, sel.sim, SimTx(c, base, sel.sim, t).sim); }
  }

  /** Selecting once more from a block's own coinbase and selection gives the same selection: the
      validator's simulation agrees with the miner's. */
  lemma {:induction false} SelectAgain(c: Crypto, base: Sheet, coinbase: SignedTx, txs: seq<SignedTx>)
    requires IsCoinbase(coinbase) && Total(base) <= TWO_64 * TWO_64 && |txs| < TWO_64
    ensures var sel := Select(c, base, txs);
            Agrees(base, Select(c, base, [coinbase] + sel.accepted), sel)
  {
    hide SelectNext, Agrees, Takes, Total, IsCoinbase;
    if txs == [] {
      SelectCoinbase(c, base, coinbase);
    } else {
      var init, t := txs[..|txs| - 1], txs[|txs| - 1];
      var sel := Select(c, base, init);
      var block := [coinbase] + sel.accepted;
      SelectAgain(c, base, coinbase, init);
      if Takes(c, base, sel, t) {
        TakenAgain(c, base, Select(c, base, block), sel, t);
        assert [coinbase] + (sel.accepted + [t]) == block + [t];
        SelectOne(c, base, block, t);
      } else {
        forall a: Address ensures SimLookup(base, sel.sim, a).balance + 2 * TWO_64 < TWO_256 {
          RoomLeft(c, base, init, a);
        }
        RefusedStays(c, base, Select(c, base, block), sel, t);
      }
    }
  }

  lemma SelectOne(c: Crypto, base: Sheet, txs: seq<SignedTx>, t: SignedTx)
    ensures Select(c, base, txs + [t]) == SelectNext(c, base, Select(c, base, txs), t)
  {
    assert (txs + [t])[..|txs|] == txs;
  }

  lemma SelectCoinbase(c: Crypto, base: Sheet, coinbase: SignedTx)
    requires IsCoinbase(coinbase)
    ensures Agrees(base, Select(c, base, [coinbase] + Select(c, base, []).accepted), Select(c, base, []))
  {
    assert [coinbase] + [] == [coinbase];
    SelectOne(c, base, [], coinbase);
  }

  lemma SameViewChain(base: Sheet, a: Sheet, b: Sheet, d: Sheet)
    requires SameView(base, a, b) && SameView(base, d, b)
    ensures SameView(base, a, d)
  {
  }

  lemma RoomLeft(c: Crypto, base: Sheet, txs: seq<SignedTx>, a: Address)
    requires Total(base) <= TWO_64 * TWO_64 && |txs| < TWO_64
    ensures SimLookup(base, Select(c, base, txs).sim, a).balance + 2 * TWO_64 < TWO_256
  {
    hide Select, Total, SimLookup;
    SimBound(c, base, txs, a);
    BalanceWithinTotal(base, a);
    assert 2 * TWO_64 * |txs| <= 2 * TWO_64 * TWO_64;
    assert TWO_64 * TWO_64 + 2 * TWO_64 * TWO_64 + 2 * TWO_64 < TWO_256;
  }

  // ---------- the whole body ----------

  // AddCoinbaseTransaction.
  function Coinbase(miner: Address, amount: u64, time: u64): SignedTx {
    SignedTx(Transaction(time, 0, amount, 0, COINBASE, miner, ZERO_ADDRESS, 0, 1, 0), 0)
  }

  // Lines 1082-1096: the body of the next block, unless reward plus fees exceed 64 bits.
  method BuildBody(c: Crypto, sheet: Sheet, reward: u64, miner: Address, time: u64, snapshot: array<SignedTx>)
    returns (body: Option<seq<SignedTx>>)
    modifies snapshot
    ensures var sel := Select(c, sheet, snapshot[..]);
            if reward + sel.fees >= TWO_64 then body == None
            else body == Some([Coinbase(miner, reward + sel.fees, time)] + sel.accepted)
    ensures multiset(snapshot[..]) == multiset(old(snapshot[..]))
    ensures body.Some? && Total(sheet) <= TWO_64 * TWO_64 && snapshot.Length < TWO_64 ==>
              (BodyOk(c, sheet, reward, body.value) <==>
               Mineable(sheet, miner, Select(c, sheet, snapshot[..]).accepted, reward))
  {
    hide BodyOk, Mineable, Total, DistinctTimes, Newer, TimeSorted, Select;
    var accepted, fees := BuildSelection(c, sheet, snapshot);
    if TWO_64 - 1 - reward < fees {
      return None;
    }
    body := Some([Coinbase(miner, reward + fees, time)]);
    for i := 0 to |accepted|
      invariant body.Some? && body.value == [Coinbase(miner, reward + fees, time)] + accepted[..i]
      invariant accepted == Select(c, sheet, snapshot[..]).accepted && fees == Select(c, sheet, snapshot[..]).fees
    {
      body := Some(body.value + [accepted[i]]);
    }
    assert accepted[..|accepted|] == accepted;
    if Total(sheet) <= TWO_64 * TWO_64 && snapshot.Length < TWO_64 {
      BuiltBodyIff(c, sheet, reward, miner, time, snapshot[..]);
    }
  }

  // What the builder itself does not check.
  predicate Mineable(sheet: Sheet, miner: Address, accepted: seq<SignedTx>, reward: u64) {
    miner != COINBASE && reward + FeeSum(accepted) > 0 && FeeSum(accepted) < TWO_64 &&
    Newer(sheet, accepted) && DistinctTimes(accepted)
  }

  /** A built body passes every body check exactly when its fees fit 64 bits, its coinbase pays
      something to an ordinary address, and each sender's timestamps are distinct and new. */
  lemma BuiltBodyIff(c: Crypto, sheet: Sheet, reward: u64, miner: Address, time: u64, candidates: seq<SignedTx>)
    requires Total(sheet) <= TWO_64 * TWO_64 && |candidates| < TWO_64 && TimeSorted(candidates)
    requires reward + Select(c, sheet, candidates).fees < TWO_64
    ensures var sel := Select(c, sheet, candidates);
            BodyOk(c, sheet, reward, [Coinbase(miner, reward + sel.fees, time)] + sel.accepted) <==>
            Mineable(sheet, miner, sel.accepted, reward)
  {
    hide Select, Total, Newer, DistinctTimes, TimeSorted, SenderOrdered, SameView, Verify, FeeSum;
    hide CoinbaseCount, Spends, Within;
    var sel := Select(c, sheet, candidates);
    var coinbase := Coinbase(miner, reward + sel.fees, time);
    var txs := [coinbase] + sel.accepted;
    SelectAgain(c, sheet, coinbase, candidates);
    SelectIsWithin(c, sheet, candidates);
    SelectedFees(c, sheet, candidates);
    WithinOrdered(sheet, sel.accepted, candidates, Positions(c, sheet, candidates));
    SortedPassesGuardIff(sheet, sel.accepted);
    SelectedSpend(sel.accepted, candidates, Positions(c, sheet, candidates));
    BodyTotals(coinbase, sel.accepted);
    GuardSkipsCoinbase(sheet, coinbase, sel.accepted);
    SelectedVerify(c, sheet, candidates);
    CoinbaseVerifies(c, miner, reward + sel.fees, time);
    OnlyFirstIsCoinbase(c, coinbase, sel.accepted);
  }

  lemma SelectedSpend(small: seq<SignedTx>, large: seq<SignedTx>, at: seq<nat>)
    requires Within(small, large, at)
    ensures forall i :: 0 <= i < |small| ==> !IsCoinbase(small[i])
  {
  }

  lemma {:induction false} BodyTotals(coinbase: SignedTx, accepted: seq<SignedTx>)
    requires IsCoinbase(coinbase) && forall i :: 0 <= i < |accepted| ==> !IsCoinbase(accepted[i])
    ensures Spends([coinbase] + accepted) == accepted
    ensures FeeSum([coinbase] + accepted) == FeeSum(accepted)
    ensures CoinbaseCount([coinbase] + accepted) == 1
  {
    hide IsCoinbase;
    var txs := [coinbase] + accepted;
    if accepted == [] {
      assert txs == [coinbase] && txs[..0] == [];
    } else {
      var init := accepted[..|accepted| - 1];
      BodyTotals(coinbase, init);
      assert txs[..|txs| - 1] == [coinbase] + init;
      assert accepted == init + [accepted[|accepted| - 1]];
    }
  }

  // The selection's running fees are the true sum, as long as that fits 64 bits.
  lemma {:induction false} SelectedFees(c: Crypto, sheet: Sheet, txs: seq<SignedTx>)
    ensures Select(c, sheet, txs).fees == FeeSum(Select(c, sheet, txs).accepted) % TWO_64
  {
    hide SimTx, IsCoinbase;
    if txs != [] {
      var init, t := txs[..|txs| - 1], txs[|txs| - 1];
      var sel := Select(c, sheet, init);
      SelectedFees(c, sheet, init);
      assert (sel.accepted + [t])[..|sel.accepted|] == sel.accepted;
      WrappedSum(FeeSum(sel.accepted), t.tx.fee);
    }
  }

  lemma WrappedSum(x: nat, y: nat)
    ensures (x % TWO_64 + y) % TWO_64 == (x + y) % TWO_64
  {
    var q := x / TWO_64;
    var z := x % TWO_64 + y;
    assert x + y == (q + z / TWO_64) * TWO_64 + z % TWO_64;
  }

  lemma {:induction false} SelectedVerify(c: Crypto, sheet: Sheet, txs: seq<SignedTx>)
    ensures forall i :: 0 <= i < |Select(c, sheet, txs).accepted| ==> Verify(c, Select(c, sheet, txs).accepted[i])
  {
    hide Verify, SimCredit, SimLookup;
    if txs != [] { SelectedVerify(c, sheet, txs[..|txs| - 1]); }
  }

  lemma CoinbaseVerifies(c: Crypto, miner: Address, amount: u64, time: u64)
    ensures Verify(c, Coinbase(miner, amount, time)) <==> amount != 0 && miner != COINBASE
  {
  }

  lemma GuardSkipsCoinbase(sheet: Sheet, coinbase: SignedTx, accepted: seq<SignedTx>)
    requires IsCoinbase(coinbase)
    ensures SenderOrdered(sheet, [coinbase] + accepted) <==> SenderOrdered(sheet, accepted)
  {
    hide SenderOrdered;
    if SenderOrdered(sheet, accepted) { GuardWithCoinbase(sheet, coinbase, accepted); }
    if SenderOrdered(sheet, [coinbase] + accepted) { GuardWithoutFirst(sheet, [coinbase] + accepted); }
    assert ([coinbase] + accepted)[1..] == accepted;
  }

  lemma GuardWithCoinbase(sheet: Sheet, coinbase: SignedTx, accepted: seq<SignedTx>)
    requires IsCoinbase(coinbase) && SenderOrdered(sheet, accepted)
    ensures SenderOrdered(sheet, [coinbase] + accepted)
  {
    hide Lookup;
    var txs := [coinbase] + accepted;
    forall i | 0 <= i < |txs| && !IsCoinbase(txs[i])
      ensures txs[i].tx.timestamp > Lookup(sheet, txs[i].tx.sender).lastTx
    {
      assert txs[i] == accepted[i - 1];
    }
    forall i, j | 0 <= j < i < |txs| && SameSender(txs[j], txs[i]) ensures txs[j].tx.timestamp < txs[i].tx.timestamp {
      assert txs[i] == accepted[i - 1] && txs[j] == accepted[j - 1];
    }
  }

  lemma GuardWithoutFirst(sheet: Sheet, txs: seq<SignedTx>)
    requires txs != [] && SenderOrdered(sheet, txs)
    ensures SenderOrdered(sheet, txs[1..])
  {
    hide Lookup, SameSender, IsCoinbase;
    var rest := txs[1..];
    forall i | 0 <= i < |rest| && !IsCoinbase(rest[i])
      ensures rest[i].tx.timestamp > Lookup(sheet, rest[i].tx.sender).lastTx
    {
      assert rest[i] == txs[i + 1];
    }
    forall i, j | 0 <= j < i < |rest| && SameSender(rest[j], rest[i])
      ensures rest[j].tx.timestamp < rest[i].tx.timestamp
    {
      assert rest[i] == txs[i + 1] && rest[j] == txs[j + 1];
    }
  }

  // The coinbase rule, for a body whose only coinbase comes first.
  lemma OnlyFirstIsCoinbase(c: Crypto, coinbase: SignedTx, accepted: seq<SignedTx>)
    requires IsCoinbase(coinbase) && coinbase.tx.fee == 0
    requires forall i :: 0 <= i < |accepted| ==> !IsCoinbase(accepted[i]) && Verify(c, accepted[i])
    ensures CoinbaseOk(c, [coinbase] + accepted, coinbase.tx.amount1) <==>
              Verify(c, coinbase) && FeeSum(accepted) < TWO_64
  {
    hide Verify, IsCoinbase, FeeSum, CoinbaseCount, Spends;
    var txs := [coinbase] + accepted;
    BodyTotals(coinbase, accepted);
    forall i | 0 < i < |txs| ensures !IsCoinbase(txs[i]) && Verify(c, txs[i]) {
      assert txs[i] == accepted[i - 1];
    }
    assert txs[0] == coinbase;
  }

  /** On every reachable ledger, a mined block with a good header joins the chain exactly when it is
      mineable and names its second recipients. */
  lemma MinedBlockJoinsIff(c: Crypto, s: State, miner: Address, time: u64, candidates: seq<SignedTx>, header: Header)
    requires LedgerInv(c, s) && |candidates| < TWO_64 && TimeSorted(candidates)
    requires s.reward + Select(c, s.sheet, candidates).fees < TWO_64
    requires HeaderOk(c, HeadersOf(s.blocks), header)
    ensures var sel := Select(c, s.sheet, candidates);
            var b := Block(header, [Coinbase(miner, s.reward + sel.fees, time)] + sel.accepted);
            Add(c, s, b).ok <==> Mineable(s.sheet, miner, sel.accepted, s.reward) && SecondRecipientsOk(sel.accepted)
  {
    hide LedgerInv, Select, Mineable, BodyOk, HeaderOk, TimeSorted, Total, SecondRecipientOk, SheetAfter;
    hide ChainOk, FeesPaid, SupplyAfter, LedgerTxs;
    var sel := Select(c, s.sheet, candidates);
    var coinbase := Coinbase(miner, s.reward + sel.fees, time);
    var b := Block(header, [coinbase] + sel.accepted);
    LedgerTotalBound(c, s);
    BuiltBodyIff(c, s.sheet, s.reward, miner, time, candidates);
    RecipientsOfBody(coinbase, sel.accepted);
    if BodyOk(c, s.sheet, s.reward, b.txs) { AppendCompletesIff(c, s, b); }
  }

  lemma LedgerTotalBound(c: Crypto, s: State)
    requires LedgerInv(c, s)
    ensures Total(s.sheet) <= TWO_64 * TWO_64
  {
    hide ChainOk, SheetAfter, Total, FeesPaid, SupplyAfter;
    MoneyConserved(c, s.blocks);
  }

  lemma RecipientsOfBody(coinbase: SignedTx, accepted: seq<SignedTx>)
    requires coinbase.tx.amount2 == 0
    ensures SecondRecipientsOk([coinbase] + accepted) <==> SecondRecipientsOk(accepted)
  {
    var txs := [coinbase] + accepted;
    assert forall i :: 0 <= i < |accepted| ==> accepted[i] == txs[i + 1];
    if SecondRecipientsOk(accepted) {
      forall i | 0 <= i < |txs| ensures SecondRecipientOk(txs[i].tx) {
        if i > 0 { assert txs[i] == accepted[i - 1]; }
      }
    }
  }

  /** An empty chain accepts the block mined from an empty mempool at its first good header. */
  lemma FirstBlockJoins(c: Crypto, header: Header, miner: Address, time: u64)
    requires HeaderOk(c, [], header) && miner != COINBASE
    ensures var b := Block(header, [Coinbase(miner, GENESIS.reward, time)]);
            Add(c, GENESIS, b).ok && FullInv(c, Add(c, GENESIS, b).state) && ChainOk(c, [b])
  {
    hide LedgerInv, HeaderOk, FullInv, Add, ChainOk, RewardAt, BodyOk;
    GenesisFull(c);
    FullInvReward(c, GENESIS);
    RewardNotBelowCurve(0, 0, 0);
    var b := Block(header, [Coinbase(miner, GENESIS.reward, time)]);
    assert HeadersOf(GENESIS.blocks) == [];
    assert [Coinbase(miner, GENESIS.reward, time)] + [] == b.txs;
    MinedBlockJoinsIff(c, GENESIS, miner, time, [], header);
    AppendKeepsFull(c, GENESIS, b);
    FullInvReward(c, Add(c, GENESIS, b).state);
    assert [] + [b] == [b];
  }

  // Hash functions under which such a header exists: the accepted chains are not all empty.
  lemma SomeHeaderIsGood()
    ensures exists c: Crypto, header: Header :: HeaderOk(c, [], header)
  {
    hide TargetValue, DagSize, DagSeed;
    var c := Crypto(_ => 0, _ => 0, (_, _, _) => true, _ => 0, (_, _, _) => 0);
    var header := Header(0, 0, 0, 0, 0, TargetFor([], 0), 1, 0, 0, 0);
    ReachableTargetNormal([], 0);
    assert HeaderOk(c, [], header);
  }
}
