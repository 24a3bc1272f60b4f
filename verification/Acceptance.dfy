/**
 What is accepted, in elementary terms: which spends, bodies, blocks and branches, and what that says
 about every accepted chain and every run.  Each acceptance is an equivalence, so that neither a check
 left out nor one too many would go unnoticed.
 */
module Acceptance {
  import opened Words
  import opened Transactions
  import opened Ledger
  import opened Targets
  import opened Emission
  import opened DagVotes
  import opened Protocol
  import opened Reorg
  import opened History
  import opened RetargetLaw
  import opened Builder

  // ---------- one transaction ----------

  // The sender's own key signed this spend, and its amounts and recipients are in order.
  predicate Authorised(c: Crypto, t: SignedTx) {
    && c.addressOf(t.tx.publicKey) == t.tx.sender
    && c.signatureOk(c.txHash(t.tx), t.signature, t.tx.publicKey)
    && 0 < t.tx.amount1 && t.tx.fee <= t.tx.amount1 && t.tx.version == 1
    && t.tx.recipient1 != TWO_256 - 1 && t.tx.recipient2 != TWO_256 - 1
    && (t.tx.recipient2 == 0 || t.tx.amount2 > 0)
  }

  // A coinbase pays one ordinary address and charges nothing.
  predicate PlainCoinbase(t: SignedTx, amount: nat) {
    && t.tx.sender == TWO_256 - 1 && t.tx.fee == 0
    && t.tx.amount1 == amount > 0 && t.tx.amount2 == 0
    && t.tx.recipient1 != TWO_256 - 1 && t.tx.recipient2 == 0
  }

  lemma VerifiedSpend(c: Crypto, t: SignedTx)
    requires t.tx.sender != TWO_256 - 1
    ensures Verify(c, t) <==> Authorised(c, t)
  {
  }

  lemma VerifiedCoinbase(c: Crypto, t: SignedTx, amount: nat)
    requires t.tx.sender == TWO_256 - 1
    ensures Verify(c, t) && t.tx.fee == 0 && t.tx.amount1 == amount <==> PlainCoinbase(t, amount)
  {
  }

  // ---------- one simulated spend ----------

  lemma SimTxIff(c: Crypto, base: Sheet, sim: Sheet, t: SignedTx)
    requires !IsCoinbase(t)
    requires forall a: Address :: SimLookup(base, sim, a).balance + 2 * TWO_64 < TWO_256
    ensures SimTx(c, base, sim, t).ok <==>
            Verify(c, t) && SimLookup(base, sim, t.tx.sender).balance >= t.tx.amount1 + t.tx.amount2 + t.tx.fee
  {
    hide Verify, SimCredit;
    if Verify(c, t) && SimLookup(base, sim, t.tx.sender).balance >= Spend(t.tx) {
      AffordableIsAccepted(c, base, sim, t);
    }
  }

  /** Selection is greedy: a candidate is taken exactly when it is authorised and the balances left by
      those taken before it cover its amounts and fee. */
  lemma SelectionIsGreedy(c: Crypto, base: Sheet, txs: seq<SignedTx>, t: SignedTx)
    requires Total(base) <= TWO_64 * TWO_64 && |txs| < TWO_64
    ensures var sel := Select(c, base, txs);
            Select(c, base, txs + [t]).accepted ==
            if && t.tx.sender != TWO_256 - 1 && Authorised(c, t)
               && SimLookup(base, sel.sim, t.tx.sender).balance >= t.tx.amount1 + t.tx.amount2 + t.tx.fee
            then sel.accepted + [t] else sel.accepted
  {
    hide Select, SimTx, SimLookup, Total, Verify, Authorised;
    var sim := Select(c, base, txs).sim;
    forall a: Address ensures SimLookup(base, sim, a).balance + 2 * TWO_64 < TWO_256 { RoomLeft(c, base, txs, a); }
    SelectOne(c, base, txs, t);
    if !IsCoinbase(t) {
      SimTxIff(c, base, sim, t);
      VerifiedSpend(c, t);
    }
  }

  // ---------- running balances ----------

  // What these spends add to an account, coinbases aside.
  function NetEffect(txs: seq<SignedTx>, a: Address): int {
    if txs == [] then 0 else
    var t := txs[|txs| - 1];
    NetEffect(txs[..|txs| - 1], a) + if IsCoinbase(t) then 0 else Received(t.tx, a) - Paid(t.tx, a)
  }

  function Received(tx: Transaction, a: Address): nat {
    (if tx.recipient1 == a then tx.amount1 else 0) + (if tx.recipient2 == a then tx.amount2 else 0)
  }

  function Paid(tx: Transaction, a: Address): nat {
    if tx.sender == a then tx.amount1 + tx.amount2 + tx.fee else 0
  }

  // The sender can pay for the j-th transaction out of its balance and what the earlier ones left it.
  predicate AffordableAt(sheet: Sheet, txs: seq<SignedTx>, j: nat)
    requires j < |txs|
  {
    var tx := txs[j].tx;
    Lookup(sheet, tx.sender).balance + NetEffect(txs[..j], tx.sender) >= tx.amount1 + tx.amount2 + tx.fee
  }

  predicate Payable(c: Crypto, sheet: Sheet, txs: seq<SignedTx>) {
    forall j :: 0 <= j < |txs| && !IsCoinbase(txs[j]) ==> Authorised(c, txs[j]) && AffordableAt(sheet, txs, j)
  }

  lemma PayableStep(c: Crypto, sheet: Sheet, txs: seq<SignedTx>)
    requires txs != []
    ensures var n := |txs| - 1;
            Payable(c, sheet, txs) <==>
            && Payable(c, sheet, txs[..n])
            && (!IsCoinbase(txs[n]) ==> Authorised(c, txs[n]) && AffordableAt(sheet, txs, n))
  {
    hide Authorised, IsCoinbase;
    var n := |txs| - 1;
    forall j | 0 <= j < n ensures AffordableAt(sheet, txs[..n], j) == AffordableAt(sheet, txs, j) {
      assert txs[..n][..j] == txs[..j];
    }
  }

  /** The overlay accepts every spend of a list exactly when each is authorised and payable in turn, and
      then shows every balance with the list's net effect. */
  lemma {:induction false} AllAcceptedIff(c: Crypto, base: Sheet, txs: seq<SignedTx>)
    requires Total(base) <= TWO_64 * TWO_64 && |txs| < TWO_64
    ensures AllAccepted(c, base, txs) <==> Payable(c, base, txs)
    ensures AllAccepted(c, base, txs) ==> forall a: Address ::
              SimLookup(base, Select(c, base, txs).sim, a).balance == Lookup(base, a).balance + NetEffect(txs, a)
  {
    hide SimTx, Total, Authorised, IsCoinbase, AffordableAt;
    if txs == [] {
      NothingSelected(c, base);
    } else {
      var n := |txs| - 1;
      AllAcceptedIff(c, base, txs[..n]);
      PayableStep(c, base, txs);
      if AllAccepted(c, base, txs) { AllAcceptedPrefix(c, base, txs); }
      if AllAccepted(c, base, txs[..n]) { LastAcceptedIff(c, base, txs); }
    }
  }

  lemma NothingSelected(c: Crypto, base: Sheet)
    ensures AllAccepted(c, base, []) && Select(c, base, []).sim == map[]
  {
  }

  lemma LastAcceptedIff(c: Crypto, base: Sheet, txs: seq<SignedTx>)
    requires Total(base) <= TWO_64 * TWO_64 && 0 < |txs| < TWO_64
    requires var init := txs[..|txs| - 1];
             && AllAccepted(c, base, init)
             && forall a: Address ::
                  SimLookup(base, Select(c, base, init).sim, a).balance == Lookup(base, a).balance + NetEffect(init, a)
    ensures var n := |txs| - 1;
            AllAccepted(c, base, txs) <==>
            (!IsCoinbase(txs[n]) ==> Authorised(c, txs[n]) && AffordableAt(base, txs, n))
    ensures AllAccepted(c, base, txs) ==> forall a: Address ::
              SimLookup(base, Select(c, base, txs).sim, a).balance == Lookup(base, a).balance + NetEffect(txs, a)
  {
    hide SimTx, Total, Authorised, Verify, SimLookup;
    var n := |txs| - 1;
    var init, t := txs[..n], txs[n];
    var sim := Select(c, base, init).sim;
    if !IsCoinbase(t) {
      forall a: Address ensures SimLookup(base, sim, a).balance + 2 * TWO_64 < TWO_256 { RoomLeft(c, base, init, a); }
      SimTxIff(c, base, sim, t);
      VerifiedSpend(c, t);
      if SimTx(c, base, sim, t).ok {
        forall a: Address
          ensures SimLookup(base, SimTx(c, base, sim, t).sim, a).balance == Lookup(base, a).balance + NetEffect(txs, a)
        {
          SimTxDelta(c, base, sim, t, a);
        }
      }
    }
  }

  // ---------- bodies ----------

  // Exactly the k-th transaction is a coinbase.
  predicate OnlyCoinbase(txs: seq<SignedTx>, k: nat) {
    k < |txs| && forall j :: 0 <= j < |txs| ==> (txs[j].tx.sender == TWO_256 - 1 <==> j == k)
  }

  lemma {:induction false} NoCoinbases(txs: seq<SignedTx>)
    ensures CoinbaseCount(txs) == 0 <==> forall j :: 0 <= j < |txs| ==> !IsCoinbase(txs[j])
  {
    hide IsCoinbase;
    if txs != [] {
      var n := |txs| - 1;
      NoCoinbases(txs[..n]);
      assert forall j :: 0 <= j < n ==> txs[..n][j] == txs[j];
    }
  }

  lemma {:induction false} OneCoinbase(txs: seq<SignedTx>)
    ensures CoinbaseCount(txs) == 1 <==> exists k: nat :: OnlyCoinbase(txs, k)
  {
    if txs != [] {
      var n := |txs| - 1;
      var init := txs[..n];
      assert forall j :: 0 <= j < n ==> init[j] == txs[j];
      OneCoinbase(init);
      NoCoinbases(init);
      if CoinbaseCount(txs) == 1 {
        if IsCoinbase(txs[n]) {
          assert OnlyCoinbase(txs, n);
        } else {
          var k: nat :| OnlyCoinbase(init, k);
          assert OnlyCoinbase(txs, k);
        }
      }
      if k: nat :| OnlyCoinbase(txs, k) {
        if k < n { assert OnlyCoinbase(init, k); }
      }
    }
  }

  // The body pays its one coinbase the reward and its fees, and every spend in it is in order.
  ghost predicate GoodBody(c: Crypto, sheet: Sheet, reward: nat, txs: seq<SignedTx>) {
    && (exists k: nat :: OnlyCoinbase(txs, k) && PlainCoinbase(txs[k], reward + FeeSum(txs)))
    && reward + FeeSum(txs) < TWO_64
    && Payable(c, sheet, txs)
    && SenderOrdered(sheet, txs)
  }

  lemma {:induction false} SelectedAreSpends(c: Crypto, base: Sheet, txs: seq<SignedTx>)
    requires AllAccepted(c, base, txs)
    ensures Select(c, base, txs).accepted == Spends(txs)
    ensures Select(c, base, txs).fees == FeeSum(txs) % TWO_64
  {
    hide SimTx, IsCoinbase;
    if txs != [] {
      var n := |txs| - 1;
      AllAcceptedPrefix(c, base, txs);
      SelectedAreSpends(c, base, txs[..n]);
      WrappedSum(FeeSum(txs[..n]), txs[n].tx.fee);
    }
  }

  /** A body passes the simulation, coinbase, fee and ordering checks exactly when it is good. */
  lemma BodyOkIff(c: Crypto, sheet: Sheet, reward: u64, txs: seq<SignedTx>)
    requires Total(sheet) <= TWO_64 * TWO_64 && |txs| < TWO_64
    ensures BodyOk(c, sheet, reward, txs) <==> GoodBody(c, sheet, reward, txs)
  {
    hide Select, Spends, FeeSum, CoinbaseCount, Verify, Authorised, SenderOrdered, Total, AffordableAt;
    AllAcceptedIff(c, sheet, txs);
    OneCoinbase(txs);
    if AllAccepted(c, sheet, txs) {
      SelectedAreSpends(c, sheet, txs);
      CoinbaseRule(c, txs, reward + FeeSum(txs));
      if reward + FeeSum(txs) < TWO_64 { assert FeeSum(txs) % TWO_64 == FeeSum(txs); }
    }
  }

  // For payable spends the coinbase rule is about the one coinbase.
  lemma CoinbaseRule(c: Crypto, txs: seq<SignedTx>, expected: nat)
    requires forall j :: 0 <= j < |txs| && !IsCoinbase(txs[j]) ==> Authorised(c, txs[j])
    ensures CoinbaseOk(c, txs, expected) <==>
            FeeSum(txs) < TWO_64 && exists k: nat :: OnlyCoinbase(txs, k) && PlainCoinbase(txs[k], expected)
  {
    hide FeeSum, CoinbaseCount, Verify, Authorised;
    OneCoinbase(txs);
    forall j | 0 <= j < |txs| ensures !IsCoinbase(txs[j]) ==> Verify(c, txs[j]) {
      if !IsCoinbase(txs[j]) { VerifiedSpend(c, txs[j]); }
    }
    if k: nat :| OnlyCoinbase(txs, k) {
      VerifiedCoinbase(c, txs[k], expected);
      SameCoinbase(txs, k);
    }
  }

  lemma SameCoinbase(txs: seq<SignedTx>, k: nat)
    requires OnlyCoinbase(txs, k)
    ensures forall j: nat :: OnlyCoinbase(txs, j) ==> j == k
    ensures forall j :: 0 <= j < |txs| && IsCoinbase(txs[j]) ==> j == k
  {
    forall j: nat | OnlyCoinbase(txs, j) ensures j == k {
      assert txs[j].tx.sender == TWO_256 - 1;
    }
  }

  // ---------- appending ----------

  // The next number, a link to the tip, enough work for this epoch's DAG, and the required target.
  predicate GoodHeader(c: Crypto, headers: seq<Header>, h: Header) {
    var n := |headers|;
    && h.blockNumber == n
    && (n > 0 ==> h.prevHash == c.blockHash(headers[n - 1]))
    && TargetValue(h.difficultyTarget).Some?
    && c.powHash(h, DagSize(headers, n / 350_000),
                 if n < 350_000 then 0 else c.blockHash(headers[n / 350_000 * 350_000 - 1]))
       <= TargetValue(h.difficultyTarget).value
    && h.difficultyTarget == TargetFor(headers, n)
  }

  lemma HeaderOkIff(c: Crypto, headers: seq<Header>, h: Header)
    ensures HeaderOk(c, headers, h) <==> GoodHeader(c, headers, h)
  {
    hide DagSize, TargetValue, TargetFor;
  }

  /** A block joins the chain exactly when its header and body are good and every second amount names its
      recipient; any other block whose second recipients are named changes nothing. */
  lemma AppendIff(c: Crypto, s: State, b: Block)
    requires LedgerInv(c, s) && |b.txs| < TWO_64
    ensures Add(c, s, b).ok <==>
            && GoodHeader(c, HeadersOf(s.blocks), b.header) && GoodBody(c, s.sheet, s.reward, b.txs)
            && SecondRecipientsOk(b.txs)
    ensures Add(c, s, b).ok ==> Add(c, s, b).state.blocks == s.blocks + [b]
    ensures !GoodHeader(c, HeadersOf(s.blocks), b.header) || !GoodBody(c, s.sheet, s.reward, b.txs) ==>
              Add(c, s, b) == Step(false, s)
  {
    hide HeaderOk, BodyOk, GoodHeader, GoodBody, LedgerInv, SecondRecipientsOk, Total;
    LedgerTotalBound(c, s);
    HeaderOkIff(c, HeadersOf(s.blocks), b.header);
    BodyOkIff(c, s.sheet, s.reward, b.txs);
    if HeaderOk(c, HeadersOf(s.blocks), b.header) && BodyOk(c, s.sheet, s.reward, b.txs) {
      AppendCompletesIff(c, s, b);
    } else {
      Unvalidated(c, s, b);
    }
  }

  lemma Unvalidated(c: Crypto, s: State, b: Block)
    requires !HeaderOk(c, HeadersOf(s.blocks), b.header) || !BodyOk(c, s.sheet, s.reward, b.txs)
    ensures Add(c, s, b) == Step(false, s)
  {
    hide HeaderOk, BodyOk;
  }

  /** From any state, a block that holds one spend that is not authorised is refused and changes nothing. */
  lemma UnauthorisedIsRefused(c: Crypto, s: State, b: Block, j: nat)
    requires j < |b.txs| && b.txs[j].tx.sender != TWO_256 - 1 && !Authorised(c, b.txs[j])
    ensures Add(c, s, b) == Step(false, s)
  {
    hide HeaderOk, Select, SenderOrdered, AllAccepted, FeeSum, Authorised, Verify;
    VerifiedSpend(c, b.txs[j]);
    assert !CoinbaseOk(c, b.txs, s.reward + Select(c, s.sheet, b.txs).fees);
    Unvalidated(c, s, b);
  }

  // ---------- what is on the chain ----------

  // Every block was validated: one coinbase, everything verified.
  predicate Validated(c: Crypto, blocks: seq<Block>) {
    forall i :: 0 <= i < |blocks| ==> ValidatedBody(c, blocks[i].txs)
  }

  predicate ValidatedBody(c: Crypto, txs: seq<SignedTx>) {
    CoinbaseCount(txs) == 1 && forall j :: 0 <= j < |txs| ==> Verify(c, txs[j])
  }

  lemma AddValidates(c: Crypto, s: State, b: Block)
    requires Validated(c, s.blocks)
    ensures Validated(c, Add(c, s, b).state.blocks)
  {
    hide HeaderOk, Select, SenderOrdered, AllAccepted, FeeSum, LedgerTxs, RewardAt, PoolWithout, Verify, CoinbaseCount;
  }

  lemma {:induction false} AddAllValidates(c: Crypto, s: State, bs: seq<Block>)
    requires Validated(c, s.blocks)
    ensures Validated(c, AddAll(c, s, bs).state.blocks)
  {
    hide Add, Validated;
    if bs != [] {
      AddAllValidates(c, s, bs[..|bs| - 1]);
      AddValidates(c, AddAll(c, s, bs[..|bs| - 1]).state, bs[|bs| - 1]);
    }
  }

  lemma RollbackValidates(c: Crypto, s: State, height: nat)
    requires Validated(c, s.blocks)
    ensures Validated(c, Rollback(c, s, height).blocks)
  {
    hide ValidatedBody, ReplayAll, RewardAt, PoolWithBlocks, SupplyAfter;
  }

  lemma PerformValidates(c: Crypto, s: State, op: Op)
    requires Validated(c, s.blocks)
    ensures Validated(c, Perform(c, s, op).blocks)
  {
    hide Add, AddAll, Rollback, Validated, Linked, WorkSum;
    match op
    case Append(b) => AddValidates(c, s, b);
    case RollbackTo(h) => RollbackValidates(c, s, h);
    case Swap(fork, branch, gate) =>
      if SwapAllowed(c, s.blocks, fork, branch, gate) {
        var base := Rollback(c, s, fork);
        var applied := AddAll(c, base, branch).state;
        RollbackValidates(c, s, fork);
        AddAllValidates(c, base, branch);
        RollbackValidates(c, applied, fork);
        AddAllValidates(c, Rollback(c, applied, fork), s.blocks[fork..]);
      }
  }

  lemma {:induction false} RunValidates(c: Crypto, ops: seq<Op>)
    ensures Validated(c, Run(c, ops).blocks)
  {
    hide Perform, ValidatedBody;
    if ops != [] {
      hide Validated;
      RunValidates(c, ops[..|ops| - 1]);
      PerformValidates(c, Run(c, ops[..|ops| - 1]), ops[|ops| - 1]);
    }
  }

  /** On every run whatsoever, every spend on the chain was authorised by its sender's own key, and every
      block has exactly one coinbase. */
  lemma RunIsAuthorised(c: Crypto, ops: seq<Op>, i: nat, j: nat)
    requires i < |Run(c, ops).blocks| && j < |Run(c, ops).blocks[i].txs|
    ensures var txs := Run(c, ops).blocks[i].txs;
            && (txs[j].tx.sender != TWO_256 - 1 ==> Authorised(c, txs[j]))
            && exists k: nat :: OnlyCoinbase(txs, k)
  {
    hide Run, Verify, Authorised, CoinbaseCount, OnlyCoinbase;
    RunValidates(c, ops);
    var txs := Run(c, ops).blocks[i].txs;
    OneCoinbase(txs);
    if txs[j].tx.sender != TWO_256 - 1 { VerifiedSpend(c, txs[j]); }
  }

  lemma {:induction false} AcceptedBlock(c: Crypto, blocks: seq<Block>, i: nat)
    requires ChainOk(c, blocks) && i < |blocks|
    ensures ChainOk(c, blocks[..i]) && Extends(c, blocks[..i], blocks[i])
    decreases |blocks|
  {
    hide Extends;
    var n := |blocks| - 1;
    if i < n {
      AcceptedBlock(c, blocks[..n], i);
      assert blocks[..n][..i] == blocks[..i];
    }
  }

  /** On every accepted chain every spend was authorised, every block has one coinbase, and it pays the
      reward and the fees. */
  lemma AcceptedBodies(c: Crypto, blocks: seq<Block>, i: nat, j: nat)
    requires ChainOk(c, blocks) && i < |blocks| && j < |blocks[i].txs|
    ensures var txs := blocks[i].txs;
            && (txs[j].tx.sender != TWO_256 - 1 ==> Authorised(c, txs[j]))
            && (txs[j].tx.sender == TWO_256 - 1 ==> PlainCoinbase(txs[j], BaseReward(blocks[i]) + FeeSum(txs)))
            && exists k: nat :: OnlyCoinbase(txs, k)
  {
    hide ChainOk, HeaderOk, Verify, Authorised, CoinbaseCount, OnlyCoinbase, Select, SenderOrdered, AllAccepted;
    hide FeeSum, SheetAfter, LedgerTxs, CoinbaseSum;
    AcceptedBlock(c, blocks, i);
    var txs := blocks[i].txs;
    OneCoinbase(txs);
    if txs[j].tx.sender != TWO_256 - 1 {
      VerifiedSpend(c, txs[j]);
    } else {
      VerifiedCoinbase(c, txs[j], BaseReward(blocks[i]) + FeeSum(txs));
    }
  }

  // The i-th block's target, from the chain's own targets and timestamps below it.
  predicate FollowsTargets(blocks: seq<Block>, i: nat)
    requires i < |blocks|
  {
    var target := blocks[i].header.difficultyTarget;
    if i < 3840 then target == 0x1f0c_1422
    else if i % 3840 != 0 then target == blocks[i - 1].header.difficultyTarget
    else Retargeted(blocks[i - 1].header.difficultyTarget, blocks[i - 3840].header.timestamp,
                    blocks[i - 1].header.timestamp, target)
  }

  /** On every accepted chain: blocks are numbered and linked, each met its own target on its epoch's DAG,
      and targets follow the retarget law over the chain's own timestamps. */
  lemma AcceptedHeaders(c: Crypto, blocks: seq<Block>, i: nat)
    requires ChainOk(c, blocks) && i < |blocks|
    ensures GoodHeader(c, HeadersOf(blocks[..i]), blocks[i].header) && FollowsTargets(blocks, i)
  {
    hide ChainOk, HeaderOk, Retargeted, TargetFor, DagSize, TargetValue, BodyOk, SheetAfter, LedgerTxs, BaseReward;
    AcceptedBlock(c, blocks, i);
    var headers := HeadersOf(blocks[..i]);
    HeaderOkIff(c, headers, blocks[i].header);
    TargetForLaw(headers, i);
    if i > 0 {
      AcceptedBlock(c, blocks, i - 1);
      HeaderOkIff(c, HeadersOf(blocks[..i - 1]), blocks[i - 1].header);
      assert headers[..i - 1] == HeadersOf(blocks[..i - 1]);
      TargetForPrefix(headers, i - 1);
    }
  }

  // ---------- balances ----------

  lemma {:induction false} LedgerBalance(s: Sheet, txs: seq<SignedTx>, a: Address)
    requires LedgerTxs(s, txs).Done? && CoinbasesPlain(txs)
    ensures Lookup(LedgerTxs(s, txs).sheet, a).balance ==
            Lookup(s, a).balance + NetEffect(txs, a) + MinerCredit(txs, a)
  {
    hide LedgerTx, Lookup;
    if txs != [] {
      var n := |txs| - 1;
      var before := LedgerTxs(s, txs[..n]).sheet;
      assert CoinbasesPlain(txs[..n]);
      LedgerBalance(s, txs[..n], a);
      if IsCoinbase(txs[n]) {
        CoinbaseCredit(before, txs[n].tx, a);
      } else {
        LedgerTxDelta(before, txs[n].tx, a);
      }
    }
  }

  lemma CoinbaseCredit(s: Sheet, tx: Transaction, a: Address)
    requires tx.sender == COINBASE && tx.amount2 == 0 && LedgerTx(s, tx).Done?
    ensures Lookup(LedgerTx(s, tx).sheet, a).balance ==
            Lookup(s, a).balance + if tx.recipient1 == a then tx.amount1 else 0
  {
    CreditDelta(s, tx.recipient1, tx.amount1, a);
  }

  // What all blocks together paid an account, coinbases included, less what it paid.
  function Earned(blocks: seq<Block>, a: Address): int {
    if blocks == [] then 0 else
    var txs := blocks[|blocks| - 1].txs;
    Earned(blocks[..|blocks| - 1], a) + NetEffect(txs, a) + MinerCredit(txs, a)
  }

  /** On every accepted chain an account's balance is what it received and mined less what it paid. */
  lemma {:induction false} BalanceIsEarned(c: Crypto, blocks: seq<Block>, a: Address)
    requires ChainOk(c, blocks)
    ensures Lookup(SheetAfter(blocks), a).balance == Earned(blocks, a)
  {
    hide HeaderOk, BodyOk, LedgerTxs, NetEffect, MinerCredit, CoinbasesPlain, FeeSum, CoinbaseSum, ReplayComparable;
    if blocks != [] {
      var n := |blocks| - 1;
      var prefix, b := blocks[..n], blocks[n];
      BalanceIsEarned(c, prefix, a);
      BodyFacts(c, SheetAfter(prefix), BaseReward(b), b.txs);
      LedgerBalance(SheetAfter(prefix), b.txs, a);
    }
  }

  // ---------- swapping ----------

  /** A swap succeeds exactly when the gate is open, the fork is on the chain, and prefix plus candidate is
      a chain that appending would have built, paid its due rewards, with more work. */
  lemma SwapSucceedsIff(c: Crypto, s: State, fork: nat, branch: seq<Block>, gate: bool)
    requires FullInv(c, s) && fork <= |s.blocks| && Recoverable(s, fork)
    requires ChainWork(s.blocks[fork..]) < TWO_256 && ChainWork(branch) < TWO_256
    ensures var chain := s.blocks[..fork] + branch;
            Replace(c, s, fork, branch, gate).ok <==>
            && gate && 0 < fork && ChainOk(c, chain) && RewardsOk(chain)
            && ChainWork(chain) > ChainWork(s.blocks)
  {
    hide FullInv, LedgerInv, ChainOk, RewardsOk, RewardAfter, Recoverable, ChainWork, SwapAllowed, Replace, AddAll;
    hide Rollback;
    var chain := s.blocks[..fork] + branch;
    FullInvReward(c, s);
    if Replace(c, s, fork, branch, gate).ok {
      OkIsAllowed(c, s, fork, branch, gate);
      AdoptedIff(c, s, fork, branch, gate);
      FullInvReward(c, Replace(c, s, fork, branch, gate).state);
      AdoptedWork(c, s.blocks, fork, branch, gate);
    }
    if gate && 0 < fork && ChainOk(c, chain) && RewardsOk(chain) && ChainWork(chain) > ChainWork(s.blocks) {
      HeavierIsAllowed(c, s.blocks, fork, branch);
      RollbackFull(c, s, fork);
      assert chain[..fork] == s.blocks[..fork] && chain[fork..] == branch;
      ReaddIsIdentity(c, Rollback(c, s, fork), chain, fork);
      AllowedAndApplied(c, s, fork, branch, gate);
    }
  }

  lemma OkIsAllowed(c: Crypto, s: State, fork: nat, branch: seq<Block>, gate: bool)
    requires Replace(c, s, fork, branch, gate).ok
    ensures SwapAllowed(c, s.blocks, fork, branch, gate) && gate && 0 < fork <= |s.blocks|
  {
    hide Linked, WorkSum, AddAll, Rollback;
  }

  lemma AllowedAndApplied(c: Crypto, s: State, fork: nat, branch: seq<Block>, gate: bool)
    requires SwapAllowed(c, s.blocks, fork, branch, gate) && AddAll(c, Rollback(c, s, fork), branch).ok
    ensures Replace(c, s, fork, branch, gate).ok
  {
    hide SwapAllowed, AddAll, Rollback;
  }

  lemma AcceptedWork(c: Crypto, blocks: seq<Block>, i: nat)
    requires ChainOk(c, blocks) && i < |blocks|
    ensures BlockWork(blocks[i].header.difficultyTarget).Some?
  {
    hide ChainOk, BodyOk, SheetAfter, LedgerTxs, BaseReward, PowOk, BlockWork, TargetAfter, Normal, TargetValue;
    AcceptedBlock(c, blocks, i);
    var headers := HeadersOf(blocks[..i]);
    ReachableTargetNormal(headers, i / ADJUSTMENT_INTERVAL);
    HasWork(TargetFor(headers, i));
  }

  lemma HasWork(bits: u32)
    requires TargetValue(bits).Some? && TargetValue(bits).value >= 1
    ensures BlockWork(bits).Some?
  {
    hide TargetValue;
  }

  lemma HeavierIsAllowed(c: Crypto, blocks: seq<Block>, fork: nat, branch: seq<Block>)
    requires ChainOk(c, blocks) && 0 < fork <= |blocks| && ChainOk(c, blocks[..fork] + branch)
    requires ChainWork(blocks[fork..]) < TWO_256 && ChainWork(branch) < TWO_256
    requires ChainWork(blocks[..fork] + branch) > ChainWork(blocks)
    ensures SwapAllowed(c, blocks, fork, branch, true)
  {
    hide ChainOk, ChainWork, BlockWork, WorkSum;
    var kept, old', chain := blocks[..fork], blocks[fork..], blocks[..fork] + branch;
    assert kept + old' == blocks;
    ChainWorkAppend(kept, branch);
    ChainWorkAppend(kept, old');
    forall i | 0 <= i < |branch| ensures BlockWork(branch[i].header.difficultyTarget).Some? {
      AcceptedWork(c, chain, fork + i);
      assert chain[fork + i] == branch[i];
    }
    forall i | 0 <= i < |old'| ensures BlockWork(old'[i].header.difficultyTarget).Some? {
      AcceptedWork(c, blocks, fork + i);
      assert blocks[fork + i] == old'[i];
    }
    WeighedIff(branch);
    WeighedIff(old');
    NoWorkInNothing();
    AcceptedIsLinked(c, blocks, fork, branch);
  }

  // Each block from here on carries its own index and the hash of the block below it.
  predicate Joined(c: Crypto, chain: seq<Block>, from: nat) {
    forall i :: 0 < from <= i < |chain| ==>
      chain[i].header.blockNumber == i && chain[i].header.prevHash == c.blockHash(chain[i - 1].header)
  }

  // Every block has work, and the sum fits 256 bits.
  predicate Weighed(blocks: seq<Block>) {
    ChainWork(blocks) < TWO_256 &&
    forall i :: 0 <= i < |blocks| ==> BlockWork(blocks[i].header.difficultyTarget).Some?
  }

  lemma {:induction false} WeighedIff(blocks: seq<Block>)
    ensures Weighed(blocks) <==> WorkSum(HeadersOf(blocks)).Some?
    ensures Weighed(blocks) ==> WorkSum(HeadersOf(blocks)) == Some(ChainWork(blocks))
  {
    hide BlockWork;
    if blocks != [] {
      var n := |blocks| - 1;
      assert HeadersOf(blocks)[..n] == HeadersOf(blocks[..n]);
      WeighedIff(blocks[..n]);
      assert blocks == blocks[..n] + [blocks[n]];
    }
  }

  lemma JoinedIff(c: Crypto, blocks: seq<Block>, fork: nat, branch: seq<Block>)
    requires 0 < fork <= |blocks|
    ensures Joined(c, blocks[..fork] + branch, fork) <==> Linked(c, blocks[fork - 1].header, fork, branch)
  {
    var chain := blocks[..fork] + branch;
    var parent := blocks[fork - 1].header;
    assert chain[fork - 1] == blocks[fork - 1];
    if Joined(c, chain, fork) {
      forall i | 0 <= i < |branch| ensures LinkedAt(c, parent, fork, branch, i) {
        assert chain[fork + i] == branch[i];
        if i > 0 { assert chain[fork + i - 1] == branch[i - 1]; }
      }
    }
    if Linked(c, parent, fork, branch) {
      forall i | fork <= i < |chain|
        ensures chain[i].header.blockNumber == i && chain[i].header.prevHash == c.blockHash(chain[i - 1].header)
      {
        assert LinkedAt(c, parent, fork, branch, i - fork);
        if i > fork { assert chain[i - 1] == branch[i - 1 - fork]; }
      }
    }
  }

  /** What a swap is let through on, said of the chain it would make: the gate is open, numbers and hashes
      join from the fork up, and the candidate's work is strictly more than the work it replaces. */
  lemma AllowedIff(c: Crypto, blocks: seq<Block>, fork: nat, branch: seq<Block>, gate: bool)
    ensures SwapAllowed(c, blocks, fork, branch, gate) <==>
            && gate && branch != [] && 0 < fork <= |blocks| && Joined(c, blocks[..fork] + branch, fork)
            && Weighed(branch) && Weighed(blocks[fork..]) && ChainWork(branch) > ChainWork(blocks[fork..])
  {
    hide Joined, Linked, Weighed, WorkSum, ChainWork;
    if 0 < fork <= |blocks| {
      JoinedIff(c, blocks, fork, branch);
      WeighedIff(branch);
      WeighedIff(blocks[fork..]);
    }
  }

  lemma NoWorkInNothing()
    ensures ChainWork([]) == 0
  {
  }

  lemma AcceptedIsLinked(c: Crypto, blocks: seq<Block>, fork: nat, branch: seq<Block>)
    requires 0 < fork <= |blocks| && ChainOk(c, blocks[..fork] + branch)
    ensures Linked(c, blocks[fork - 1].header, fork, branch)
  {
    hide ChainOk, BodyOk, SheetAfter, LedgerTxs, BaseReward, PowOk, TargetFor;
    var chain := blocks[..fork] + branch;
    var parent := blocks[fork - 1].header;
    forall i | 0 <= i < |branch| ensures LinkedAt(c, parent, fork, branch, i) {
      AcceptedBlock(c, chain, fork + i);
      assert chain[fork + i] == branch[i];
      assert chain[..fork + i][fork + i - 1] == chain[fork + i - 1];
    }
  }
}
