/**
 The loops that check a block, proved against the predicates of Ledger and Protocol: overlay
 selection, coinbase and fee validation, sender ordering, branch linkage and summed work.
 */
module BlockChecks {
  import opened Words
  import opened Transactions
  import opened Ledger
  import opened Targets
  import opened Protocol

  // BalanceSheet_GetSimEntry: read through the overlay, caching what was read.
  method GetSimEntry(sheet: Sheet, sim: Sheet, a: Address) returns (e: Entry, sim': Sheet)
    ensures e == SimLookup(sheet, sim, a)
    ensures sim' == sim[a := e]
  {
    if a in sim {
      return sim[a], sim;
    }
    e := if a in sheet then sheet[a] else Entry(0, 0);
    sim' := sim[a := e];
  }

  // Read an entry through the overlay, add to it and store it back.
  method SimPay(sheet: Sheet, sim: Sheet, a: Address, amount: u64) returns (ok: bool, sim': Sheet)
    ensures Sim(ok, sim') == SimCredit(sheet, sim, a, amount)
  {
    var payee;
    payee, sim' := GetSimEntry(sheet, sim, a);
    if payee.balance + amount >= TWO_256 {
      return false, sim';
    }
    var paid := payee.(balance := payee.balance + amount);
    assert sim[a := payee][a := paid] == sim[a := paid];
    ok, sim' := true, sim'[a := paid];
  }

  // BalanceSheet_ApplyCandidateTransaction.
  method ApplyCandidate(c: Crypto, sheet: Sheet, sim: Sheet, t: SignedTx) returns (ok: bool, sim': Sheet)
    ensures Sim(ok, sim') == SimTx(c, sheet, sim, t)
  {
    hide Verify, SimCredit, SimLookup, Spend;
    if IsCoinbase(t) {
      return true, sim;
    }
    if !Verify(c, t) {
      return false, sim;
    }
    var sender;
    sender, sim' := GetSimEntry(sheet, sim, t.tx.sender);
    if sender.balance < Spend(t.tx) {
      return false, sim';
    }
    var debited := sender.(balance := sender.balance - Spend(t.tx));
    assert sim[t.tx.sender := sender][t.tx.sender := debited] == sim[t.tx.sender := debited];
    sim' := sim'[t.tx.sender := debited];
    ok, sim' := SimPay(sheet, sim', t.tx.recipient1, t.tx.amount1);
    if ok && t.tx.amount2 > 0 {
      ok, sim' := SimPay(sheet, sim', t.tx.recipient2, t.tx.amount2);
    }
  }

  // BalanceSheet_SelectSpendableTransactions.
  method SelectSpendable(c: Crypto, sheet: Sheet, candidates: seq<SignedTx>)
    returns (accepted: seq<SignedTx>, fees: u64)
    ensures accepted == Select(c, sheet, candidates).accepted
    ensures fees == Select(c, sheet, candidates).fees
  {
    hide SimTx;
    var sim: Sheet := map[];
    accepted, fees := [], 0;
    for i := 0 to |candidates|
      invariant Select(c, sheet, candidates[..i]) == Selection(sim, accepted, fees)
    {
      var t := candidates[i];
      assert candidates[..i + 1][..i] == candidates[..i];
      if IsCoinbase(t) {
        continue;
      }
      var ok;
      ok, sim := ApplyCandidate(c, sheet, sim, t);
      if ok {
        accepted := accepted + [t];
        fees := (fees + t.tx.fee) % TWO_64;
      }
    }
    assert candidates[..|candidates|] == candidates;
  }

  method CountSpends(txs: seq<SignedTx>) returns (n: nat)
    ensures n == |Spends(txs)|
  {
    n := 0;
    for i := 0 to |txs|
      invariant n == |Spends(txs[..i])|
    {
      assert txs[..i + 1][..i] == txs[..i];
      if !IsCoinbase(txs[i]) {
        n := n + 1;
      }
    }
    assert txs[..|txs|] == txs;
  }

  // What the validation loop has established about the transactions seen so far.
  predicate SeenOk(c: Crypto, txs: seq<SignedTx>, expected: nat) {
    && (forall i :: 0 <= i < |txs| ==> Verify(c, txs[i]))
    && CoinbaseCount(txs) <= 1
    && (forall i :: 0 <= i < |txs| && IsCoinbase(txs[i]) ==> txs[i].tx.fee == 0 && txs[i].tx.amount1 == expected)
    && FeeSum(txs) < TWO_64
  }

  // A prefix of an acceptable list is acceptable so far.
  lemma SeenOkPrefix(c: Crypto, txs: seq<SignedTx>, t: SignedTx, expected: nat)
    requires SeenOk(c, txs, expected)
    ensures SeenOk(c, txs + [t], expected) <==>
            && Verify(c, t)
            && (IsCoinbase(t) ==> CoinbaseCount(txs) == 0 && t.tx.fee == 0 && t.tx.amount1 == expected)
            && (!IsCoinbase(t) ==> FeeSum(txs) + t.tx.fee < TWO_64)
  {
    hide Verify;
    var all := txs + [t];
    assert all[..|txs|] == txs && all[|txs|] == t;
    if SeenOk(c, all, expected) { assert Verify(c, all[|txs|]); }
  }

  lemma {:induction false} CountsGrow(txs: seq<SignedTx>, k: nat)
    requires k <= |txs|
    ensures CoinbaseCount(txs[..k]) <= CoinbaseCount(txs) && FeeSum(txs[..k]) <= FeeSum(txs)
    decreases |txs|
  {
    if k < |txs| {
      CountsGrow(txs[..|txs| - 1], k);
      assert txs[..|txs| - 1][..k] == txs[..k];
    } else {
      assert txs[..k] == txs;
    }
  }

  lemma CoinbaseOkSeen(c: Crypto, txs: seq<SignedTx>, k: nat, expected: nat)
    requires k <= |txs| && CoinbaseOk(c, txs, expected)
    ensures SeenOk(c, txs[..k], expected)
  {
    hide Verify, FeeSum, CoinbaseCount;
    CountsGrow(txs, k);
  }

  // Block_ValidateCoinbaseAndFees.
  method ValidateCoinbaseAndFees(c: Crypto, txs: seq<SignedTx>, expected: u64) returns (ok: bool, fees: u64)
    ensures ok <==> CoinbaseOk(c, txs, expected)
    ensures ok ==> fees == FeeSum(txs)
  {
    hide Verify, SeenOk, CoinbaseOk;
    var hasCoinbase := false;
    fees := 0;
    SeenOkEmpty(c, expected);
    for i := 0 to |txs|
      invariant SeenOk(c, txs[..i], expected)
      invariant hasCoinbase == (CoinbaseCount(txs[..i]) > 0)
      invariant fees == FeeSum(txs[..i])
    {
      var t := txs[i];
      assert txs[..i] + [t] == txs[..i + 1] && txs[..i + 1][..i] == txs[..i];
      SeenOkPrefix(c, txs[..i], t, expected);
      if !SeenOk(c, txs[..i + 1], expected) && CoinbaseOk(c, txs, expected) { CoinbaseOkSeen(c, txs, i + 1, expected); }
      if IsCoinbase(t) {
        if hasCoinbase || !Verify(c, t) || t.tx.fee != 0 || t.tx.amount1 != expected {
          return false, fees;
        }
        hasCoinbase := true;
      } else {
        if !Verify(c, t) || TWO_64 - 1 - fees < t.tx.fee {
          return false, fees;
        }
        fees := fees + t.tx.fee;
      }
    }
    assert txs[..|txs|] == txs;
    ok := hasCoinbase;
    SeenOkFinal(c, txs, expected);
  }

  lemma SeenOkEmpty(c: Crypto, expected: nat)
    ensures SeenOk(c, [], expected)
  {
  }

  lemma SeenOkFinal(c: Crypto, txs: seq<SignedTx>, expected: nat)
    requires SeenOk(c, txs, expected)
    ensures CoinbaseOk(c, txs, expected) <==> CoinbaseCount(txs) > 0
  {
    hide Verify;
  }

  // Chain_BlockRespectsSenderOrdering.
  method RespectsSenderOrdering(sheet: Sheet, txs: seq<SignedTx>) returns (ok: bool)
    ensures ok <==> SenderOrdered(sheet, txs)
  {
    hide SenderOrdered;
    OrderedSoFarEmpty(sheet, txs);
    for i := 0 to |txs|
      invariant OrderedSoFar(sheet, txs, i)
    {
      if IsCoinbase(txs[i]) {
        continue;
      }
      var lastSeen := Lookup(sheet, txs[i].tx.sender).lastTx;
      for j := 0 to i
        invariant lastSeen == Max(Lookup(sheet, txs[i].tx.sender).lastTx, LatestFrom(txs[..j], txs[i].tx.sender))
      {
        assert txs[..j + 1][..j] == txs[..j];
        if !IsCoinbase(txs[j]) && txs[j].tx.sender == txs[i].tx.sender && txs[j].tx.timestamp > lastSeen {
          lastSeen := txs[j].tx.timestamp;
        }
      }
      OrderedStep(sheet, txs, i);
      if txs[i].tx.timestamp <= lastSeen {
        OrderedMeans(sheet, txs);
        return false;
      }
    }
    OrderedMeans(sheet, txs);
    ok := true;
  }

  // The ordering condition for the first n transactions.
  predicate OrderedSoFar(sheet: Sheet, txs: seq<SignedTx>, n: nat)
    requires n <= |txs|
  {
    forall i :: 0 <= i < n && !IsCoinbase(txs[i]) ==>
      txs[i].tx.timestamp > Max(Lookup(sheet, txs[i].tx.sender).lastTx, LatestFrom(txs[..i], txs[i].tx.sender))
  }

  lemma OrderedSoFarEmpty(sheet: Sheet, txs: seq<SignedTx>)
    ensures OrderedSoFar(sheet, txs, 0)
  {
  }

  lemma OrderedStep(sheet: Sheet, txs: seq<SignedTx>, i: nat)
    requires i < |txs| && !IsCoinbase(txs[i]) && OrderedSoFar(sheet, txs, i)
    ensures OrderedSoFar(sheet, txs, i + 1) <==>
            txs[i].tx.timestamp > Max(Lookup(sheet, txs[i].tx.sender).lastTx, LatestFrom(txs[..i], txs[i].tx.sender))
    ensures !OrderedSoFar(sheet, txs, i + 1) ==> !OrderedSoFar(sheet, txs, |txs|)
  {
    hide LatestFrom, Lookup;
  }

  lemma OrderedMeans(sheet: Sheet, txs: seq<SignedTx>)
    ensures OrderedSoFar(sheet, txs, |txs|) <==> SenderOrdered(sheet, txs)
  {
    hide LatestFrom, Lookup;
    forall i | 0 <= i < |txs| && !IsCoinbase(txs[i]) && txs[i].tx.timestamp > 0
      ensures txs[i].tx.timestamp > LatestFrom(txs[..i], txs[i].tx.sender) <==>
              forall j :: 0 <= j < i && SameSender(txs[j], txs[i]) ==> txs[j].tx.timestamp < txs[i].tx.timestamp
    {
      NewestInPrefix(txs, i);
    }
  }

  lemma NewestInPrefix(txs: seq<SignedTx>, i: nat)
    requires i < |txs| && !IsCoinbase(txs[i]) && txs[i].tx.timestamp > 0
    ensures txs[i].tx.timestamp > LatestFrom(txs[..i], txs[i].tx.sender) <==>
            forall j :: 0 <= j < i && SameSender(txs[j], txs[i]) ==> txs[j].tx.timestamp < txs[i].tx.timestamp
  {
    hide LatestFrom;
    var before, a := txs[..i], txs[i].tx.sender;
    LatestFromBounds(before, a);
    assert forall j :: 0 <= j < i ==> before[j] == txs[j];
    if LatestFrom(before, a) != 0 {
      var k :| 0 <= k < |before| && !IsCoinbase(before[k]) && before[k].tx.sender == a &&
        before[k].tx.timestamp == LatestFrom(before, a);
      assert SameSender(txs[k], txs[i]);
    }
  }

  // Chain_BranchIsLinkedLocked, below the parent header.
  method BranchIsLinked(c: Crypto, parent: Header, height: nat, branch: seq<Block>) returns (ok: bool)
    ensures ok <==> Linked(c, parent, height, branch)
  {
    var expected := c.blockHash(parent);
    for i := 0 to |branch|
      invariant expected == c.blockHash(if i == 0 then parent else branch[i - 1].header)
      invariant forall k :: 0 <= k < i ==> LinkedAt(c, parent, height, branch, k)
    {
      if branch[i].header.blockNumber != height + i || branch[i].header.prevHash != expected {
        assert !LinkedAt(c, parent, height, branch, i);
        return false;
      }
      expected := c.blockHash(branch[i].header);
    }
    ok := true;
  }

  // Chain_ComputeWorkRange / Chain_ComputeBranchWork.
  method SumWork(headers: seq<Header>) returns (work: Option<nat>)
    ensures work == WorkSum(headers)
  {
    hide BlockWork;
    var total := 0;
    for i := 0 to |headers|
      invariant WorkSum(headers[..i]) == Some(total)
    {
      assert headers[..i + 1][..i] == headers[..i];
      var w := BlockWork(headers[i].difficultyTarget);
      if w.None? || total + w.value >= TWO_256 {
        NoWorkBeyond(headers, i + 1);
        return None;
      }
      total := total + w.value;
    }
    assert headers[..|headers|] == headers;
    work := Some(total);
  }

  lemma {:induction false} NoWorkBeyond(headers: seq<Header>, k: nat)
    requires k <= |headers| && WorkSum(headers[..k]).None?
    ensures WorkSum(headers).None?
    decreases |headers|
  {
    hide BlockWork;
    if k < |headers| {
      assert headers[..|headers| - 1][..k] == headers[..k];
      NoWorkBeyond(headers[..|headers| - 1], k);
    } else {
      assert headers[..k] == headers;
    }
  }
}
