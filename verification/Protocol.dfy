/**
 The consensus state machine as pure steps: append a block, roll back to a height, replace a
 branch.  The methods of `ChainState.Chain` are proved to perform exactly these steps; what the
 system promises about whole runs is proved here, over the steps.
 */
module Protocol {
  import opened Words
  import opened Transactions
  import opened Ledger
  import opened Targets
  import opened Emission
  import opened DagVotes

  type Pool = map<Hash, SignedTx>
  datatype State = State(blocks: seq<Block>, sheet: Sheet, supply: u256, reward: u64, pool: Pool)
  datatype Step = Step(ok: bool, state: State)

  function HeadersOf(blocks: seq<Block>): (headers: seq<Header>)
    ensures |headers| == |blocks|
    ensures forall i :: 0 <= i < |blocks| ==> headers[i] == blocks[i].header
  {
    seq(|blocks|, i requires 0 <= i < |blocks| => blocks[i].header)
  }

  // ---------- block validation ----------

  predicate HeaderOk(c: Crypto, headers: seq<Header>, h: Header) {
    && h.blockNumber == |headers|
    && (|headers| > 0 ==> h.prevHash == c.blockHash(headers[|headers| - 1]))
    && PowOk(c, headers, h)
    && h.difficultyTarget == TargetFor(headers, |headers|)
  }

  // Block_ValidateCoinbaseAndFees: one coinbase of exactly the expected amount, no fee overflow.
  predicate CoinbaseOk(c: Crypto, txs: seq<SignedTx>, expected: nat) {
    && (forall i :: 0 <= i < |txs| ==> Verify(c, txs[i]))
    && CoinbaseCount(txs) == 1
    && (forall i :: 0 <= i < |txs| && IsCoinbase(txs[i]) ==> txs[i].tx.fee == 0 && txs[i].tx.amount1 == expected)
    && FeeSum(txs) < TWO_64
  }

  predicate BodyOk(c: Crypto, sheet: Sheet, reward: nat, txs: seq<SignedTx>) {
    var fees := Select(c, sheet, txs).fees;
    && txs != []
    && AllAccepted(c, sheet, txs)
    && reward + fees < TWO_64
    && CoinbaseOk(c, txs, reward + fees)
    && FeeSum(txs) == fees
    && SenderOrdered(sheet, txs)
  }

  // ---------- the mempool ----------

  function PoolWithout(c: Crypto, pool: Pool, txs: seq<SignedTx>): Pool {
    if txs == [] then pool else
    var rest := PoolWithout(c, pool, txs[..|txs| - 1]);
    var t := txs[|txs| - 1];
    if IsCoinbase(t) then rest else rest - {c.txHash(t.tx)}
  }

  function PoolWith(c: Crypto, pool: Pool, txs: seq<SignedTx>): Pool {
    if txs == [] then pool else
    var rest := PoolWith(c, pool, txs[..|txs| - 1]);
    var t := txs[|txs| - 1];
    if IsCoinbase(t) then rest else rest[c.txHash(t.tx) := t]
  }

  // Return the transactions of every block at or above `height`, from the tip downwards.
  function PoolWithBlocks(c: Crypto, pool: Pool, blocks: seq<Block>, height: nat): Pool
    decreases |blocks|
  {
    if |blocks| <= height then pool
    else PoolWithBlocks(c, PoolWith(c, pool, blocks[|blocks| - 1].txs), blocks[..|blocks| - 1], height)
  }

  // ---------- the steps ----------

  /** Chain_AddBlockLocked.  A block that fails in the ledger pass has already been pushed. */
  function Add(c: Crypto, s: State, b: Block): Step {
    if !HeaderOk(c, HeadersOf(s.blocks), b.header) || !BodyOk(c, s.sheet, s.reward, b.txs) then Step(false, s) else
    var ledger := LedgerTxs(s.sheet, b.txs);
    var blocks := s.blocks + [b];
    var pool := PoolWithout(c, s.pool, b.txs);
    if ledger.Failed? then Step(false, State(blocks, ledger.sheet, s.supply, s.reward, pool)) else
    var supply := (s.supply + s.reward + FeeSum(b.txs)) % TWO_256;
    Step(true, State(blocks, ledger.sheet, supply, RewardAt(supply, |blocks|, s.reward), pool))
  }

  function ReplayAll(blocks: seq<Block>): Sheet {
    if blocks == [] then map[] else ReplayTxs(ReplayAll(blocks[..|blocks| - 1]), blocks[|blocks| - 1].txs)
  }

  // Everything minted by coinbases.
  function SupplyAfter(blocks: seq<Block>): nat {
    if blocks == [] then 0 else SupplyAfter(blocks[..|blocks| - 1]) + CoinbaseSum(blocks[|blocks| - 1].txs)
  }

  /** Chain_RollbackToHeightLocked. */
  function Rollback(c: Crypto, s: State, height: nat): State {
    if height >= |s.blocks| then s else
    var kept := s.blocks[..height];
    var supply := SupplyAfter(kept) % TWO_256;
    State(kept, ReplayAll(kept), supply, RewardAt(supply, height, s.reward),
          PoolWithBlocks(c, s.pool, s.blocks, height))
  }

  // Append in order, stopping at the first block refused.
  function AddAll(c: Crypto, s: State, bs: seq<Block>): Step {
    if bs == [] then Step(true, s) else
    var before := AddAll(c, s, bs[..|bs| - 1]);
    if !before.ok then before else Add(c, before.state, bs[|bs| - 1])
  }

  // Chain_BranchIsLinkedLocked.
  predicate Linked(c: Crypto, parent: Header, height: nat, branch: seq<Block>) {
    forall i :: 0 <= i < |branch| ==> LinkedAt(c, parent, height, branch, i)
  }

  predicate LinkedAt(c: Crypto, parent: Header, height: nat, branch: seq<Block>, i: nat)
    requires i < |branch|
  {
    && branch[i].header.blockNumber == height + i
    && branch[i].header.prevHash == c.blockHash(if i == 0 then parent else branch[i - 1].header)
  }

  // Summed work, refused when a target has no work or the sum leaves 256 bits.
  function WorkSum(headers: seq<Header>): Option<nat> {
    if headers == [] then Some(0) else
    match (WorkSum(headers[..|headers| - 1]), BlockWork(headers[|headers| - 1].difficultyTarget))
    case (Some(w), Some(v)) => if w + v < TWO_256 then Some(w + v) else None
    case _ => None
  }

  // The checks a branch swap makes before it touches anything; `gate` is the reorg-penalty verdict.
  predicate SwapAllowed(c: Crypto, blocks: seq<Block>, fork: nat, branch: seq<Block>, gate: bool) {
    && branch != [] && 0 < fork <= |blocks|
    && Linked(c, blocks[fork - 1].header, fork, branch)
    && gate
    && var incumbent, candidate := WorkSum(HeadersOf(blocks[fork..])), WorkSum(HeadersOf(branch));
       incumbent.Some? && candidate.Some? && candidate.value > incumbent.value
  }

  /** Chain_ReplaceBranch. */
  function Replace(c: Crypto, s: State, fork: nat, branch: seq<Block>, gate: bool): Step {
    if !SwapAllowed(c, s.blocks, fork, branch, gate) then Step(false, s) else
    var applied := AddAll(c, Rollback(c, s, fork), branch);
    if applied.ok then applied else
    Step(false, AddAll(c, Rollback(c, applied.state, fork), s.blocks[fork..]).state)
  }

  // ---------- what an accepted chain is ----------

  function SheetAfter(blocks: seq<Block>): Sheet {
    if blocks == [] then map[] else LedgerTxs(SheetAfter(blocks[..|blocks| - 1]), blocks[|blocks| - 1].txs).sheet
  }

  function FeesPaid(blocks: seq<Block>): nat {
    if blocks == [] then 0 else FeesPaid(blocks[..|blocks| - 1]) + FeeSum(blocks[|blocks| - 1].txs)
  }

  // The reward a block was accepted at, read back from its own transactions.
  function BaseReward(b: Block): int { CoinbaseSum(b.txs) - FeeSum(b.txs) }

  // One more block on an accepted prefix.
  predicate Extends(c: Crypto, prefix: seq<Block>, b: Block) {
    && HeaderOk(c, HeadersOf(prefix), b.header)
    && BaseReward(b) >= 0
    && BodyOk(c, SheetAfter(prefix), BaseReward(b), b.txs)
    && LedgerTxs(SheetAfter(prefix), b.txs).Done?
  }

  predicate ChainOk(c: Crypto, blocks: seq<Block>) {
    blocks == [] ||
    (ChainOk(c, blocks[..|blocks| - 1]) && Extends(c, blocks[..|blocks| - 1], blocks[|blocks| - 1]))
  }

  /** Balances and supply are exactly what the accepted chain determines. */
  ghost predicate LedgerInv(c: Crypto, s: State) {
    ChainOk(c, s.blocks) && s.sheet == SheetAfter(s.blocks) && s.supply == SupplyAfter(s.blocks)
  }

  // ---------- facts about one accepted body ----------

  lemma {:induction false} CoinbaseSumUniform(txs: seq<SignedTx>, amount: nat)
    requires forall i :: 0 <= i < |txs| && IsCoinbase(txs[i]) ==> txs[i].tx.amount1 == amount
    ensures CoinbaseSum(txs) == CoinbaseCount(txs) * amount
  {
    if txs != [] { CoinbaseSumUniform(txs[..|txs| - 1], amount); }
  }

  lemma BodyFacts(c: Crypto, sheet: Sheet, reward: nat, txs: seq<SignedTx>)
    requires BodyOk(c, sheet, reward, txs)
    ensures CoinbaseSum(txs) == reward + FeeSum(txs) < TWO_64
    ensures CoinbasesPlain(txs)
    ensures forall i :: 0 <= i < |txs| ==> ReplayComparable(txs[i])
  {
    hide Select, SenderOrdered, AllAccepted, CoinbaseSum, CoinbaseCount, FeeSum;
    CoinbaseSumUniform(txs, reward + FeeSum(txs));
  }

  lemma {:induction false} PrefixOk(c: Crypto, blocks: seq<Block>, k: nat)
    requires ChainOk(c, blocks) && k <= |blocks|
    ensures ChainOk(c, blocks[..k])
    decreases |blocks|
  {
    hide Extends;
    if k < |blocks| {
      PrefixOk(c, blocks[..|blocks| - 1], k);
      assert blocks[..|blocks| - 1][..k] == blocks[..k];
    } else {
      assert blocks[..k] == blocks;
    }
  }

  /** Money is conserved: the sum of all balances plus all fees ever paid is the supply, and both
      stay far below the 256-bit overflow range. */
  lemma {:induction false} MoneyConserved(c: Crypto, blocks: seq<Block>)
    requires ChainOk(c, blocks)
    ensures Total(SheetAfter(blocks)) + FeesPaid(blocks) == SupplyAfter(blocks)
    ensures SupplyAfter(blocks) <= |blocks| * (TWO_64 - 1) && |blocks| <= TWO_64
    ensures SupplyAfter(blocks) < TWO_64 * TWO_64
  {
    hide BodyOk, PowOk, TargetFor, LedgerTxs, FeeSum, CoinbaseSum, CoinbasesPlain;
    if blocks != [] {
      var prefix, b := blocks[..|blocks| - 1], blocks[|blocks| - 1];
      MoneyConserved(c, prefix);
      BodyFacts(c, SheetAfter(prefix), BaseReward(b), b.txs);
      LedgerTotal(SheetAfter(prefix), b.txs);
    }
  }

  lemma {:induction false} ReplayMatchesChain(c: Crypto, blocks: seq<Block>)
    requires ChainOk(c, blocks)
    ensures ReplayAll(blocks) == SheetAfter(blocks)
  {
    hide HeaderOk, BodyOk, LedgerTxs, ReplayTxs, FeeSum, CoinbaseSum, ReplayComparable;
    if blocks != [] {
      var prefix, b := blocks[..|blocks| - 1], blocks[|blocks| - 1];
      ReplayMatchesChain(c, prefix);
      BodyFacts(c, SheetAfter(prefix), BaseReward(b), b.txs);
      ReplayAgrees(SheetAfter(prefix), b.txs);
    }
  }

  lemma {:induction false} SupplyGrowsWith(blocks: seq<Block>, k: nat)
    requires k <= |blocks|
    ensures SupplyAfter(blocks[..k]) <= SupplyAfter(blocks)
    decreases |blocks|
  {
    hide CoinbaseSum;
    if k < |blocks| {
      assert blocks[..|blocks| - 1][..k] == blocks[..k];
      SupplyGrowsWith(blocks[..|blocks| - 1], k);
    } else {
      assert blocks[..k] == blocks;
    }
  }

  // ---------- one append ----------

  /** A block that passes every check is applied in full exactly when no transaction has a second
      amount without a second recipient; otherwise it is left pushed on a half-applied ledger. */
  lemma AppendCompletesIff(c: Crypto, s: State, b: Block)
    requires LedgerInv(c, s)
    requires HeaderOk(c, HeadersOf(s.blocks), b.header) && BodyOk(c, s.sheet, s.reward, b.txs)
    ensures Add(c, s, b).ok <==> SecondRecipientsOk(b.txs)
    ensures Add(c, s, b).state.blocks == s.blocks + [b]
  {
    BodyFacts(c, s.sheet, s.reward, b.txs);
    MoneyConserved(c, s.blocks);
    if SecondRecipientsOk(b.txs) {
      SimulationSound(c, s.sheet, b.txs);
    } else {
      MissingRecipientFails(s.sheet, b.txs);
    }
  }

  /** Every append either completes or changes nothing, when the block names its second recipients. */
  lemma AppendIsAtomic(c: Crypto, s: State, b: Block)
    requires LedgerInv(c, s) && SecondRecipientsOk(b.txs)
    ensures Add(c, s, b).ok <==> HeaderOk(c, HeadersOf(s.blocks), b.header) && BodyOk(c, s.sheet, s.reward, b.txs)
    ensures !Add(c, s, b).ok ==> Add(c, s, b).state == s
  {
    if HeaderOk(c, HeadersOf(s.blocks), b.header) && BodyOk(c, s.sheet, s.reward, b.txs) {
      AppendCompletesIff(c, s, b);
    }
  }

  /** An accepted block keeps the ledger invariant and raises the sum of all balances by exactly
      the base reward. */
  lemma AppendKeepsLedger(c: Crypto, s: State, b: Block)
    requires LedgerInv(c, s) && Add(c, s, b).ok
    ensures LedgerInv(c, Add(c, s, b).state)
    ensures Add(c, s, b).state.blocks == s.blocks + [b]
    ensures BaseReward(b) == s.reward && Extends(c, s.blocks, b)
    ensures Total(Add(c, s, b).state.sheet) == Total(s.sheet) + s.reward
  {
    hide HeaderOk, BodyOk, LedgerTxs, Total, RewardAt, PoolWithout, FeeSum, CoinbaseSum, FeesPaid;
    var after := s.blocks + [b];
    assert after[..|after| - 1] == s.blocks;
    BodyFacts(c, s.sheet, s.reward, b.txs);
    MoneyConserved(c, s.blocks);
    LedgerTotal(s.sheet, b.txs);
  }

  // ---------- rollback ----------

  /** Rolling back rebuilds exactly the ledger of the blocks that remain, from any state whose
      remaining blocks were accepted (even with a half-applied block above them). */
  lemma RollbackRebuilds(c: Crypto, s: State, height: nat)
    requires height < |s.blocks| && ChainOk(c, s.blocks[..height])
    ensures LedgerInv(c, Rollback(c, s, height))
    ensures Rollback(c, s, height).blocks == s.blocks[..height]
  {
    hide ChainOk, SheetAfter, ReplayAll, RewardAt, PoolWithBlocks, Total, FeesPaid, SupplyAfter;
    ReplayMatchesChain(c, s.blocks[..height]);
    MoneyConserved(c, s.blocks[..height]);
  }

  lemma RollbackKeepsLedger(c: Crypto, s: State, height: nat)
    requires LedgerInv(c, s)
    ensures LedgerInv(c, Rollback(c, s, height))
    ensures Rollback(c, s, height).blocks == s.blocks[..Min(height, |s.blocks|)]
  {
    if height < |s.blocks| {
      PrefixOk(c, s.blocks, height);
      RollbackRebuilds(c, s, height);
    }
  }

  // ---------- appending many ----------

  lemma AddShape(c: Crypto, s: State, b: Block)
    ensures Add(c, s, b).state.blocks == s.blocks + [b] || Add(c, s, b) == Step(false, s)
  {
    hide HeaderOk, BodyOk, LedgerTxs, RewardAt, PoolWithout, FeeSum;
  }

  lemma {:induction false} AddAllKeepsPrefix(c: Crypto, s: State, bs: seq<Block>)
    requires LedgerInv(c, s)
    ensures var r := AddAll(c, s, bs);
            |s.blocks| <= |r.state.blocks| && r.state.blocks[..|s.blocks|] == s.blocks &&
            (r.ok ==> LedgerInv(c, r.state) && r.state.blocks == s.blocks + bs) &&
            (!r.ok && |r.state.blocks| == |s.blocks| ==> r.state == s)
  {
    hide Add, LedgerInv, HeaderOk, BodyOk, Extends, BaseReward, Total;
    if bs != [] {
      var before := AddAll(c, s, bs[..|bs| - 1]);
      AddAllKeepsPrefix(c, s, bs[..|bs| - 1]);
      if before.ok {
        var b := bs[|bs| - 1];
        assert bs == bs[..|bs| - 1] + [b];
        AddShape(c, before.state, b);
        if Add(c, before.state, b).ok { AppendKeepsLedger(c, before.state, b); }
      }
    }
  }

  lemma {:induction false} AddAllKeepsLedger(c: Crypto, s: State, bs: seq<Block>)
    requires LedgerInv(c, s)
    requires forall i :: 0 <= i < |bs| ==> SecondRecipientsOk(bs[i].txs)
    ensures LedgerInv(c, AddAll(c, s, bs).state)
  {
    hide Add, LedgerInv, SecondRecipientsOk, HeaderOk, BodyOk, Extends, BaseReward, Total;
    if bs != [] {
      AddAllKeepsLedger(c, s, bs[..|bs| - 1]);
      var before := AddAll(c, s, bs[..|bs| - 1]);
      if before.ok {
        AppendIsAtomic(c, before.state, bs[|bs| - 1]);
        if Add(c, before.state, bs[|bs| - 1]).ok { AppendKeepsLedger(c, before.state, bs[|bs| - 1]); }
      }
    }
  }

  lemma {:induction false} AcceptedRecipients(c: Crypto, blocks: seq<Block>, i: nat)
    requires ChainOk(c, blocks) && i < |blocks|
    ensures SecondRecipientsOk(blocks[i].txs)
    decreases |blocks|
  {
    hide HeaderOk, BodyOk, SheetAfter, LedgerTxs, SecondRecipientsOk;
    var prefix := blocks[..|blocks| - 1];
    if i < |prefix| {
      AcceptedRecipients(c, prefix, i);
    } else if !SecondRecipientsOk(blocks[i].txs) {
      MissingRecipientFails(SheetAfter(prefix), blocks[i].txs);
    }
  }

  // ---------- branch replacement keeps the ledger, whatever the candidate holds ----------

  lemma ReplaceKeepsLedger(c: Crypto, s: State, fork: nat, branch: seq<Block>, gate: bool)
    requires LedgerInv(c, s)
    ensures LedgerInv(c, Replace(c, s, fork, branch, gate).state)
  {
    hide Rollback, AddAll, Linked, WorkSum, ChainOk, SheetAfter, SupplyAfter, SecondRecipientsOk;
    if SwapAllowed(c, s.blocks, fork, branch, gate) {
      var base := Rollback(c, s, fork);
      RollbackKeepsLedger(c, s, fork);
      AddAllKeepsPrefix(c, base, branch);
      var applied := AddAll(c, base, branch);
      if !applied.ok {
        UndoRestoresBase(c, base, applied.state, fork);
        forall i | 0 <= i < |s.blocks[fork..]| ensures SecondRecipientsOk(s.blocks[fork..][i].txs) {
          AcceptedRecipients(c, s.blocks, fork + i);
        }
        AddAllKeepsLedger(c, Rollback(c, applied.state, fork), s.blocks[fork..]);
      }
    }
  }

  // Undoing a failed apply gives back the ledger of the fork point.
  lemma UndoRestoresBase(c: Crypto, base: State, applied: State, fork: nat)
    requires LedgerInv(c, base) && |base.blocks| == fork <= |applied.blocks|
    requires applied.blocks[..fork] == base.blocks
    requires |applied.blocks| == fork ==> applied == base
    ensures LedgerInv(c, Rollback(c, applied, fork))
    ensures Rollback(c, applied, fork).blocks == base.blocks
  {
    hide ChainOk, SheetAfter, SupplyAfter, RewardAt, ReplayAll, PoolWithBlocks;
    if fork < |applied.blocks| { RollbackRebuilds(c, applied, fork); }
  }
}
