/**
 What holds over whole runs with reorganisations: replay safety, no lost transactions, and the
 ledger invariant after any sequence of appends, rollbacks and branch replacements.
 */
module History {
  import opened Words
  import opened Transactions
  import opened Ledger
  import opened Emission
  import opened Protocol
  import opened Reorg

  // Every non-coinbase transaction on the chain, in chain order.
  function AllSpends(blocks: seq<Block>): seq<SignedTx> {
    if blocks == [] then [] else AllSpends(blocks[..|blocks| - 1]) + Spends(blocks[|blocks| - 1].txs)
  }

  // ---------- replay safety ----------

  ghost predicate Increasing(ts: seq<SignedTx>) {
    forall i, j :: 0 <= i < j < |ts| && ts[i].tx.sender == ts[j].tx.sender ==>
      ts[i].tx.timestamp < ts[j].tx.timestamp
  }

  ghost predicate NewerThan(s: Sheet, ts: seq<SignedTx>) {
    forall i :: 0 <= i < |ts| ==> ts[i].tx.timestamp > Lookup(s, ts[i].tx.sender).lastTx
  }

  lemma {:induction false} SpendsAreMembers(txs: seq<SignedTx>, t: SignedTx)
    ensures t in Spends(txs) <==> t in txs && !IsCoinbase(t)
  {
    if txs != [] {
      SpendsAreMembers(txs[..|txs| - 1], t);
      assert txs == txs[..|txs| - 1] + [txs[|txs| - 1]];
    }
  }

  lemma {:induction false} SpendsOrdered(s: Sheet, txs: seq<SignedTx>)
    requires SenderOrdered(s, txs)
    ensures Increasing(Spends(txs)) && NewerThan(s, Spends(txs))
  {
    if txs != [] {
      var before, t := txs[..|txs| - 1], txs[|txs| - 1];
      assert forall i :: 0 <= i < |before| ==> before[i] == txs[i];
      SpendsOrdered(s, before);
      var earlier := Spends(before);
      if !IsCoinbase(t) {
        forall i | 0 <= i < |earlier| && earlier[i].tx.sender == t.tx.sender
          ensures earlier[i].tx.timestamp < t.tx.timestamp
        {
          SpendsAreMembers(before, earlier[i]);
          var k :| 0 <= k < |before| && before[k] == earlier[i];
          assert SameSender(txs[k], txs[|txs| - 1]);
        }
      }
    }
  }

  lemma {:induction false} LatestFromAppend(x: seq<SignedTx>, y: seq<SignedTx>, a: Address)
    ensures LatestFrom(x + y, a) == Max(LatestFrom(x, a), LatestFrom(y, a))
  {
    if y == [] {
      assert x + y == x;
    } else {
      assert (x + y)[..|x + y| - 1] == x + y[..|y| - 1];
      LatestFromAppend(x, y[..|y| - 1], a);
    }
  }

  lemma {:induction false} LatestFromSpends(txs: seq<SignedTx>, a: Address)
    ensures LatestFrom(Spends(txs), a) == LatestFrom(txs, a)
  {
    if txs != [] {
      LatestFromSpends(txs[..|txs| - 1], a);
      LatestFromAppend(Spends(txs[..|txs| - 1]), [txs[|txs| - 1]], a);
    }
  }

  /** The replay guard of every account is the latest timestamp it ever spent with on this chain
      (LatestFromBounds says that this is the maximum). */
  lemma {:induction false} GuardIsLatestOnChain(c: Crypto, blocks: seq<Block>, a: Address)
    requires ChainOk(c, blocks)
    ensures Lookup(SheetAfter(blocks), a).lastTx == LatestFrom(AllSpends(blocks), a)
  {
    hide HeaderOk, BodyOk, LedgerTxs, Spends, LatestFrom;
    if blocks == [] {
      LatestFromNothing(a);
    } else {
      var prefix, b := blocks[..|blocks| - 1], blocks[|blocks| - 1];
      GuardIsLatestOnChain(c, prefix, a);
      LedgerLastTx(SheetAfter(prefix), b.txs, a);
      LatestFromSpends(b.txs, a);
      LatestFromAppend(AllSpends(prefix), Spends(b.txs), a);
    }
  }

  lemma LatestFromNothing(a: Address)
    ensures LatestFrom([], a) == 0
  {
  }

  // Transactions newer than the guards continue an increasing history.
  lemma IncreasingContinues(c: Crypto, prefix: seq<Block>, txs: seq<SignedTx>)
    requires ChainOk(c, prefix) && Increasing(AllSpends(prefix)) && SenderOrdered(SheetAfter(prefix), txs)
    ensures Increasing(AllSpends(prefix) + Spends(txs))
  {
    hide ChainOk, SheetAfter, Spends, AllSpends, SenderOrdered, LatestFrom;
    SpendsOrdered(SheetAfter(prefix), txs);
    var past, recent := AllSpends(prefix), Spends(txs);
    forall i, j | 0 <= i < |past| && 0 <= j < |recent| && past[i].tx.sender == recent[j].tx.sender
      ensures past[i].tx.timestamp < recent[j].tx.timestamp
    {
      GuardIsLatestOnChain(c, prefix, recent[j].tx.sender);
      LatestFromBounds(past, recent[j].tx.sender);
      NoCoinbaseOnChain(prefix, i);
    }
  }

  lemma {:induction false} NoCoinbaseOnChain(blocks: seq<Block>, i: nat)
    requires i < |AllSpends(blocks)|
    ensures !IsCoinbase(AllSpends(blocks)[i])
  {
    hide Spends;
    var prefix := blocks[..|blocks| - 1];
    if i < |AllSpends(prefix)| {
      NoCoinbaseOnChain(prefix, i);
    } else {
      SpendsAreMembers(blocks[|blocks| - 1].txs, AllSpends(blocks)[i]);
    }
  }

  /** Each sender's timestamps strictly increase in chain order. */
  lemma {:induction false} HistoryIncreases(c: Crypto, blocks: seq<Block>)
    requires ChainOk(c, blocks)
    ensures Increasing(AllSpends(blocks))
  {
    hide HeaderOk, LedgerTxs, Spends, Select, CoinbaseOk, FeeSum, SenderOrdered, SheetAfter;
    if blocks != [] {
      HistoryIncreases(c, blocks[..|blocks| - 1]);
      IncreasingContinues(c, blocks[..|blocks| - 1], blocks[|blocks| - 1].txs);
    }
  }

  /** No transaction is on the chain twice, not even re-signed. */
  lemma NothingReplayed(c: Crypto, blocks: seq<Block>, i: nat, j: nat)
    requires ChainOk(c, blocks) && i < j < |AllSpends(blocks)|
    ensures AllSpends(blocks)[i].tx != AllSpends(blocks)[j].tx
  {
    hide ChainOk, AllSpends;
    HistoryIncreases(c, blocks);
  }

  // ---------- no transaction is lost ----------

  function HashesOf(c: Crypto, ts: seq<SignedTx>): set<Hash> { set t | t in ts :: c.txHash(t.tx) }

  function OnChain(c: Crypto, blocks: seq<Block>): set<Hash> { HashesOf(c, AllSpends(blocks)) }

  function Known(c: Crypto, s: State): set<Hash> { OnChain(c, s.blocks) + s.pool.Keys }

  lemma HashesOfAppend(c: Crypto, x: seq<SignedTx>, y: seq<SignedTx>)
    ensures HashesOf(c, x + y) == HashesOf(c, x) + HashesOf(c, y)
  {
  }

  lemma OnChainAppend(c: Crypto, blocks: seq<Block>, b: Block)
    ensures OnChain(c, blocks + [b]) == OnChain(c, blocks) + HashesOf(c, Spends(b.txs))
  {
    assert (blocks + [b])[..|blocks|] == blocks;
    HashesOfAppend(c, AllSpends(blocks), Spends(b.txs));
    hide Spends, HashesOf;
  }

  lemma {:induction false} PoolWithoutKeys(c: Crypto, pool: Pool, txs: seq<SignedTx>)
    ensures PoolWithout(c, pool, txs).Keys == pool.Keys - HashesOf(c, Spends(txs))
  {
    if txs != [] {
      PoolWithoutKeys(c, pool, txs[..|txs| - 1]);
      HashesOfAppend(c, Spends(txs[..|txs| - 1]), [txs[|txs| - 1]]);
    }
  }

  lemma {:induction false} PoolWithKeys(c: Crypto, pool: Pool, txs: seq<SignedTx>)
    ensures PoolWith(c, pool, txs).Keys == pool.Keys + HashesOf(c, Spends(txs))
  {
    if txs != [] {
      PoolWithKeys(c, pool, txs[..|txs| - 1]);
      HashesOfAppend(c, Spends(txs[..|txs| - 1]), [txs[|txs| - 1]]);
    }
  }

  // The spends of the blocks at or above `height`.
  function DroppedSpends(blocks: seq<Block>, height: nat): seq<SignedTx> {
    if |blocks| <= height then []
    else DroppedSpends(blocks[..|blocks| - 1], height) + Spends(blocks[|blocks| - 1].txs)
  }

  lemma {:induction false} SpendsSplit(blocks: seq<Block>, height: nat)
    requires height <= |blocks|
    ensures AllSpends(blocks) == AllSpends(blocks[..height]) + DroppedSpends(blocks, height)
    decreases |blocks|
  {
    hide Spends;
    if height < |blocks| {
      SpendsSplit(blocks[..|blocks| - 1], height);
      assert blocks[..|blocks| - 1][..height] == blocks[..height];
    } else {
      assert blocks[..height] == blocks;
    }
  }

  // Rolling back adds to the pool exactly the hashes of the dropped spends.
  lemma {:induction false} PoolWithBlocksKeys(c: Crypto, pool: Pool, blocks: seq<Block>, height: nat)
    ensures PoolWithBlocks(c, pool, blocks, height).Keys == pool.Keys + HashesOf(c, DroppedSpends(blocks, height))
    decreases |blocks|
  {
    hide Spends, PoolWith, HashesOf;
    if height < |blocks| {
      var prefix, b := blocks[..|blocks| - 1], blocks[|blocks| - 1];
      PoolWithKeys(c, pool, b.txs);
      PoolWithBlocksKeys(c, PoolWith(c, pool, b.txs), prefix, height);
      HashesOfAppend(c, DroppedSpends(prefix, height), Spends(b.txs));
    } else {
      NoHashes(c);
    }
  }

  lemma NoHashes(c: Crypto)
    ensures HashesOf(c, []) == {}
  {
  }

  /** Appending (accepted, refused or half-applied) never loses a transaction, and keeps chain and
      mempool apart. */
  lemma AddLosesNothing(c: Crypto, s: State, b: Block)
    ensures Known(c, Add(c, s, b).state) >= Known(c, s)
    ensures OnChain(c, s.blocks) !! s.pool.Keys ==>
              OnChain(c, Add(c, s, b).state.blocks) !! Add(c, s, b).state.pool.Keys
  {
    PoolWithoutKeys(c, s.pool, b.txs);
    OnChainAppend(c, s.blocks, b);
    AddPool(c, s, b);
    hide Add, Spends, PoolWithout, OnChain, HashesOf;
  }

  lemma AddPool(c: Crypto, s: State, b: Block)
    ensures Add(c, s, b) == Step(false, s) ||
            (Add(c, s, b).state.blocks == s.blocks + [b] && Add(c, s, b).state.pool == PoolWithout(c, s.pool, b.txs))
  {
    hide HeaderOk, BodyOk, LedgerTxs, RewardAt, PoolWithout, FeeSum;
  }

  lemma RollbackPool(c: Crypto, s: State, height: nat)
    requires height < |s.blocks|
    ensures Rollback(c, s, height).blocks == s.blocks[..height]
    ensures Rollback(c, s, height).pool.Keys == s.pool.Keys + HashesOf(c, DroppedSpends(s.blocks, height))
    ensures OnChain(c, s.blocks) == OnChain(c, s.blocks[..height]) + HashesOf(c, DroppedSpends(s.blocks, height))
  {
    PoolWithBlocksKeys(c, s.pool, s.blocks, height);
    SpendsSplit(s.blocks, height);
    HashesOfAppend(c, AllSpends(s.blocks[..height]), DroppedSpends(s.blocks, height));
    hide ReplayAll, RewardAt, PoolWithBlocks, SupplyAfter, AllSpends, DroppedSpends, HashesOf;
  }

  lemma RollbackLosesNothing(c: Crypto, s: State, height: nat)
    ensures Known(c, Rollback(c, s, height)) >= Known(c, s)
  {
    if height < |s.blocks| {
      RollbackPool(c, s, height);
      hide Rollback, OnChain, HashesOf;
    }
  }

  lemma {:induction false} AddAllLosesNothing(c: Crypto, s: State, bs: seq<Block>)
    ensures Known(c, AddAll(c, s, bs).state) >= Known(c, s)
    ensures OnChain(c, s.blocks) !! s.pool.Keys ==>
              OnChain(c, AddAll(c, s, bs).state.blocks) !! AddAll(c, s, bs).state.pool.Keys
  {
    hide Add, Known, OnChain;
    if bs != [] {
      AddAllLosesNothing(c, s, bs[..|bs| - 1]);
      AddLosesNothing(c, AddAll(c, s, bs[..|bs| - 1]).state, bs[|bs| - 1]);
    }
  }

  /** A reorganisation, successful or not, loses no transaction. */
  lemma ReplaceLosesNothing(c: Crypto, s: State, fork: nat, branch: seq<Block>, gate: bool)
    ensures Known(c, Replace(c, s, fork, branch, gate).state) >= Known(c, s)
  {
    hide Rollback, AddAll, Known, Linked, WorkSum;
    if SwapAllowed(c, s.blocks, fork, branch, gate) {
      var base := Rollback(c, s, fork);
      var applied := AddAll(c, base, branch).state;
      RollbackLosesNothing(c, s, fork);
      AddAllLosesNothing(c, base, branch);
      RollbackLosesNothing(c, applied, fork);
      AddAllLosesNothing(c, Rollback(c, applied, fork), s.blocks[fork..]);
    }
  }

  // ---------- never in both places ----------

  // Transaction hashing is collision free among these transactions.
  ghost predicate NoCollisions(c: Crypto, ts: set<Transaction>) {
    forall t, u :: t in ts && u in ts && c.txHash(t) == c.txHash(u) ==> t == u
  }

  // The spends of these blocks, without their signatures.
  function TxsIn(blocks: seq<Block>): set<Transaction> { set t | t in AllSpends(blocks) :: t.tx }

  ghost predicate Apart(c: Crypto, s: State) { OnChain(c, s.blocks) !! s.pool.Keys }

  lemma DistinctHashes(c: Crypto, x: seq<SignedTx>, y: seq<SignedTx>, ts: set<Transaction>)
    requires NoCollisions(c, ts) && Increasing(x + y)
    requires forall t :: t in x + y ==> t.tx in ts
    ensures HashesOf(c, x) !! HashesOf(c, y)
  {
    forall t, u | t in x && u in y ensures c.txHash(t.tx) != c.txHash(u.tx) {
      var i :| 0 <= i < |x| && x[i] == t;
      var j :| 0 <= j < |y| && y[j] == u;
      assert (x + y)[i] == t && (x + y)[|x| + j] == u;
      assert t in x + y && u in x + y;
    }
  }

  lemma RollbackKeepsApart(c: Crypto, s: State, height: nat, ts: set<Transaction>)
    requires NoCollisions(c, ts) && TxsIn(s.blocks) <= ts
    requires Increasing(AllSpends(s.blocks)) && Apart(c, s)
    ensures Apart(c, Rollback(c, s, height))
  {
    if height < |s.blocks| {
      RollbackPool(c, s, height);
      SpendsSplit(s.blocks, height);
      AllSpendsIn(s.blocks, ts);
      DistinctHashes(c, AllSpends(s.blocks[..height]), DroppedSpends(s.blocks, height), ts);
      hide Rollback, AllSpends, DroppedSpends, HashesOf, Increasing, NoCollisions, TxsIn;
    }
  }

  lemma AllSpendsIn(blocks: seq<Block>, ts: set<Transaction>)
    requires TxsIn(blocks) <= ts
    ensures forall t :: t in AllSpends(blocks) ==> t.tx in ts
  {
    hide AllSpends;
    forall t | t in AllSpends(blocks) ensures t.tx in ts { assert t.tx in TxsIn(blocks); }
  }

  // ---------- which transactions can be on the chain ----------

  lemma {:induction false} AllSpendsAppend(a: seq<Block>, b: seq<Block>)
    ensures AllSpends(a + b) == AllSpends(a) + AllSpends(b)
  {
    hide Spends;
    if b == [] {
      assert a + b == a;
    } else {
      assert (a + b)[..|a + b| - 1] == a + b[..|b| - 1];
      AllSpendsAppend(a, b[..|b| - 1]);
    }
  }

  lemma TxsInAppend(a: seq<Block>, b: seq<Block>)
    ensures TxsIn(a + b) == TxsIn(a) + TxsIn(b)
  {
    hide AllSpends;
    AllSpendsAppend(a, b);
  }

  lemma TxsInPart(blocks: seq<Block>, lo: nat, hi: nat)
    requires lo <= hi <= |blocks|
    ensures TxsIn(blocks[lo..hi]) <= TxsIn(blocks)
  {
    hide TxsIn;
    assert blocks == blocks[..lo] + (blocks[lo..hi] + blocks[hi..]);
    TxsInAppend(blocks[..lo], blocks[lo..hi] + blocks[hi..]);
    TxsInAppend(blocks[lo..hi], blocks[hi..]);
  }

  lemma AddTxs(c: Crypto, s: State, b: Block)
    ensures TxsIn(Add(c, s, b).state.blocks) <= TxsIn(s.blocks) + TxsIn([b])
  {
    hide Add, TxsIn;
    AddShape(c, s, b);
    TxsInAppend(s.blocks, [b]);
  }

  lemma RollbackTxs(c: Crypto, s: State, height: nat)
    ensures TxsIn(Rollback(c, s, height).blocks) <= TxsIn(s.blocks)
  {
    hide TxsIn, ReplayAll, RewardAt, PoolWithBlocks, SupplyAfter;
    if height < |s.blocks| { TxsInPart(s.blocks, 0, height); }
  }

  lemma {:induction false} AddAllTxs(c: Crypto, s: State, bs: seq<Block>)
    ensures TxsIn(AddAll(c, s, bs).state.blocks) <= TxsIn(s.blocks) + TxsIn(bs)
  {
    hide Add, TxsIn;
    if bs != [] {
      var init, b := bs[..|bs| - 1], bs[|bs| - 1];
      AddAllTxs(c, s, init);
      AddTxs(c, AddAll(c, s, init).state, b);
      TxsInAppend(init, [b]);
      assert init + [b] == bs;
    }
  }

  lemma ReplaceTxs(c: Crypto, s: State, fork: nat, branch: seq<Block>, gate: bool)
    ensures TxsIn(Replace(c, s, fork, branch, gate).state.blocks) <= TxsIn(s.blocks) + TxsIn(branch)
  {
    hide Rollback, AddAll, TxsIn, Linked, WorkSum;
    if SwapAllowed(c, s.blocks, fork, branch, gate) {
      var base := Rollback(c, s, fork);
      var applied := AddAll(c, base, branch).state;
      RollbackTxs(c, s, fork);
      AddAllTxs(c, base, branch);
      RollbackTxs(c, applied, fork);
      AddAllTxs(c, Rollback(c, applied, fork), s.blocks[fork..]);
      TxsInPart(s.blocks, fork, |s.blocks|);
      assert s.blocks[fork..] == s.blocks[fork..|s.blocks|];
    }
  }

  lemma PushedOrdered(c: Crypto, s: State, b: Block)
    ensures Add(c, s, b) == Step(false, s) ||
            (Add(c, s, b).state.blocks == s.blocks + [b] && SenderOrdered(s.sheet, b.txs))
  {
    hide HeaderOk, LedgerTxs, RewardAt, PoolWithout, FeeSum, Select, AllAccepted, CoinbaseOk, SenderOrdered;
  }

  // A block that was pushed, even one whose ledger pass failed, continues the increasing history.
  lemma PushedIncreases(c: Crypto, s: State, b: Block)
    requires LedgerInv(c, s)
    ensures Increasing(AllSpends(Add(c, s, b).state.blocks))
  {
    hide Add, ChainOk, SheetAfter, Spends, Increasing, SupplyAfter, SenderOrdered;
    PushedOrdered(c, s, b);
    HistoryIncreases(c, s.blocks);
    if SenderOrdered(s.sheet, b.txs) {
      IncreasingContinues(c, s.blocks, b.txs);
      assert (s.blocks + [b])[..|s.blocks|] == s.blocks;
    }
  }

  lemma {:induction false} AddAllIncreases(c: Crypto, s: State, bs: seq<Block>)
    requires LedgerInv(c, s)
    ensures Increasing(AllSpends(AddAll(c, s, bs).state.blocks))
  {
    hide Add, LedgerInv, AllSpends, Increasing;
    if bs == [] {
      LedgerInvHistory(c, s);
    } else {
      var before := AddAll(c, s, bs[..|bs| - 1]);
      AddAllIncreases(c, s, bs[..|bs| - 1]);
      AddAllKeepsPrefix(c, s, bs[..|bs| - 1]);
      if before.ok { PushedIncreases(c, before.state, bs[|bs| - 1]); }
    }
  }

  lemma LedgerInvHistory(c: Crypto, s: State)
    requires LedgerInv(c, s)
    ensures Increasing(AllSpends(s.blocks))
  {
    HistoryIncreases(c, s.blocks);
  }

  /** A reorganisation, successful or not, puts no transaction both on the chain and in the mempool,
      if no two of the transactions involved have the same hash. */
  lemma ReplaceKeepsApart(c: Crypto, s: State, fork: nat, branch: seq<Block>, gate: bool)
    requires NoCollisions(c, TxsIn(s.blocks) + TxsIn(branch)) && LedgerInv(c, s) && Apart(c, s)
    ensures Apart(c, Replace(c, s, fork, branch, gate).state)
  {
    hide Rollback, AddAll, LedgerInv, Linked, WorkSum, NoCollisions, OnChain, AllSpends, Increasing, TxsIn;
    if SwapAllowed(c, s.blocks, fork, branch, gate) {
      var ts := TxsIn(s.blocks) + TxsIn(branch);
      var base := Rollback(c, s, fork);
      var applied := AddAll(c, base, branch).state;
      LedgerInvHistory(c, s);
      RollbackKeepsApart(c, s, fork, ts);
      RollbackKeepsLedger(c, s, fork);
      RollbackTxs(c, s, fork);
      AddAllLosesNothing(c, base, branch);
      AddAllIncreases(c, base, branch);
      AddAllTxs(c, base, branch);
      RollbackKeepsApart(c, applied, fork, ts);
      AddAllLosesNothing(c, Rollback(c, applied, fork), s.blocks[fork..]);
    }
  }

  // ---------- runs ----------

  datatype Op =
    | Append(block: Block)
    | RollbackTo(height: nat)
    | Swap(fork: nat, branch: seq<Block>, gate: bool)

  function Perform(c: Crypto, s: State, op: Op): State {
    match op
    case Append(b) => Add(c, s, b).state
    case RollbackTo(h) => Rollback(c, s, h)
    case Swap(fork, branch, gate) => Replace(c, s, fork, branch, gate).state
  }

  // The state after a run of chain operations from s.
  function From(c: Crypto, s: State, ops: seq<Op>): State {
    if ops == [] then s else Perform(c, From(c, s, ops[..|ops| - 1]), ops[|ops| - 1])
  }

  function Run(c: Crypto, ops: seq<Op>): State { From(c, GENESIS, ops) }

  // The blocks an operation brings to the chain, and the transactions of a whole run.
  function OpBlocks(op: Op): seq<Block> {
    match op
    case Append(b) => [b]
    case RollbackTo(_) => []
    case Swap(_, branch, _) => branch
  }

  function RunTxs(ops: seq<Op>): set<Transaction> {
    if ops == [] then {} else RunTxs(ops[..|ops| - 1]) + TxsIn(OpBlocks(ops[|ops| - 1]))
  }

  lemma PerformTxs(c: Crypto, s: State, op: Op)
    ensures TxsIn(Perform(c, s, op).blocks) <= TxsIn(s.blocks) + TxsIn(OpBlocks(op))
  {
    hide Add, Rollback, Replace, TxsIn;
    match op
    case Append(b) => AddTxs(c, s, b);
    case RollbackTo(h) => RollbackTxs(c, s, h);
    case Swap(fork, branch, gate) => ReplaceTxs(c, s, fork, branch, gate);
  }

  // Only transactions of the run's own blocks are ever on the chain.
  lemma {:induction false} RunTxsCover(c: Crypto, ops: seq<Op>)
    ensures TxsIn(Run(c, ops).blocks) <= RunTxs(ops)
  {
    hide Perform, OpBlocks;
    if ops == [] {
      assert AllSpends([]) == [];
    } else {
      hide TxsIn;
      RunTxsCover(c, ops[..|ops| - 1]);
      PerformTxs(c, Run(c, ops[..|ops| - 1]), ops[|ops| - 1]);
    }
  }

  // Directly appended blocks name their second recipients; candidate branches may hold anything.
  predicate AppendsNameRecipients(ops: seq<Op>) {
    forall i :: 0 <= i < |ops| && ops[i].Append? ==> SecondRecipientsOk(ops[i].block.txs)
  }

  lemma PerformKeepsLedger(c: Crypto, s: State, op: Op)
    requires LedgerInv(c, s) && (op.Append? ==> SecondRecipientsOk(op.block.txs))
    ensures LedgerInv(c, Perform(c, s, op))
    ensures Known(c, Perform(c, s, op)) >= Known(c, s)
    ensures NoCollisions(c, TxsIn(s.blocks) + TxsIn(OpBlocks(op))) && Apart(c, s) ==> Apart(c, Perform(c, s, op))
  {
    hide LedgerInv, Add, Rollback, Replace, Known, OnChain, NoCollisions, SecondRecipientsOk, AllSpends;
    hide Increasing, TxsIn;
    var ts := TxsIn(s.blocks) + TxsIn(OpBlocks(op));
    match op
    case Append(b) =>
      AppendIsAtomic(c, s, b);
      if Add(c, s, b).ok { AppendKeepsLedger(c, s, b); }
      AddLosesNothing(c, s, b);
    case RollbackTo(h) =>
      RollbackKeepsLedger(c, s, h);
      RollbackLosesNothing(c, s, h);
      LedgerInvHistory(c, s);
      if NoCollisions(c, ts) && Apart(c, s) { RollbackKeepsApart(c, s, h, ts); }
    case Swap(fork, branch, gate) =>
      ReplaceKeepsLedger(c, s, fork, branch, gate);
      ReplaceLosesNothing(c, s, fork, branch, gate);
      if NoCollisions(c, ts) && Apart(c, s) { ReplaceKeepsApart(c, s, fork, branch, gate); }
  }

  /** After every run the balances and supply are those of the accepted chain, no transaction known
      earlier in the run is missing, and the chain and the mempool share none, if no two transactions
      of the run's own blocks have the same hash. */
  lemma {:induction false} EveryRun(c: Crypto, ops: seq<Op>, k: nat)
    requires AppendsNameRecipients(ops) && k <= |ops|
    ensures LedgerInv(c, Run(c, ops))
    ensures Known(c, Run(c, ops)) >= Known(c, Run(c, ops[..k]))
    ensures NoCollisions(c, RunTxs(ops)) ==> Apart(c, Run(c, ops))
    decreases |ops|
  {
    hide LedgerInv, Perform, Known, Apart, NoCollisions, SecondRecipientsOk, TxsIn, OpBlocks;
    if ops == [] {
      GenesisInv(c);
    } else {
      var before := ops[..|ops| - 1];
      EveryRun(c, before, if k < |ops| then k else |before|);
      assert before[..|before|] == before;
      PerformKeepsLedger(c, Run(c, before), ops[|ops| - 1]);
      RunTxsCover(c, before);
      if NoCollisions(c, RunTxs(ops)) {
        FewerCollisions(c, RunTxs(before), RunTxs(ops));
        FewerCollisions(c, TxsIn(Run(c, before).blocks) + TxsIn(OpBlocks(ops[|ops| - 1])), RunTxs(ops));
      }
      if k < |ops| { assert before[..k] == ops[..k]; } else { assert ops[..k] == ops; }
    }
  }

  lemma FewerCollisions(c: Crypto, few: set<Transaction>, many: set<Transaction>)
    requires NoCollisions(c, many) && few <= many
    ensures NoCollisions(c, few)
  {
  }

  lemma GenesisInv(c: Crypto)
    ensures LedgerInv(c, GENESIS) && Apart(c, GENESIS)
  {
  }

  /** On every run: the sum of balances plus all fees paid is the supply, below 2^128; every guard is
      the latest spend of its account; each sender's timestamps strictly increase. */
  lemma RunSafety(c: Crypto, ops: seq<Op>, a: Address)
    requires AppendsNameRecipients(ops)
    ensures var s := Run(c, ops);
            && Total(s.sheet) + FeesPaid(s.blocks) == s.supply < TWO_64 * TWO_64
            && Lookup(s.sheet, a).lastTx == LatestFrom(AllSpends(s.blocks), a)
            && Increasing(AllSpends(s.blocks))
  {
    EveryRun(c, ops, 0);
    hide Run, ChainOk, SheetAfter, Total, AllSpends, LatestFrom, FeesPaid, SupplyAfter, Known, NoCollisions;
    hide Apart, Increasing;
    var s := Run(c, ops);
    MoneyConserved(c, s.blocks);
    GuardIsLatestOnChain(c, s.blocks, a);
    HistoryIncreases(c, s.blocks);
  }

  /** No run of chain operations, from any state and whatever its blocks hold, loses a transaction. */
  lemma {:induction false} NothingLost(c: Crypto, s: State, ops: seq<Op>, k: nat)
    requires k <= |ops|
    ensures Known(c, From(c, s, ops)) >= Known(c, From(c, s, ops[..k]))
    decreases |ops|
  {
    hide Perform, Known;
    if k < |ops| {
      var n := |ops| - 1;
      NothingLost(c, s, ops[..n], k);
      assert ops[..n][..k] == ops[..k];
      PerformLosesNothing(c, From(c, s, ops[..n]), ops[n]);
    } else {
      assert ops[..k] == ops;
    }
  }

  lemma PerformLosesNothing(c: Crypto, s: State, op: Op)
    ensures Known(c, Perform(c, s, op)) >= Known(c, s)
  {
    hide Add, Rollback, Replace, Known;
    match op
    case Append(b) => AddLosesNothing(c, s, b);
    case RollbackTo(h) => RollbackLosesNothing(c, s, h);
    case Swap(fork, branch, gate) => ReplaceLosesNothing(c, s, fork, branch, gate);
  }

  // ---------- the reward over runs ----------

  // The operation finds again the reward that the chain it leaves determines.
  predicate SteadyAt(c: Crypto, s: State, op: Op) {
    match op
    case Append(_) => true
    case RollbackTo(h) => h <= |s.blocks| ==> Recoverable(s, h)
    case Swap(fork, branch, gate) => SwapAllowed(c, s.blocks, fork, branch, gate) ==> Restorable(s, fork, |branch|)
  }

  predicate Steady(c: Crypto, s: State, ops: seq<Op>) {
    forall k :: 0 <= k < |ops| ==> SteadyAt(c, From(c, s, ops[..k]), ops[k])
  }

  lemma SteadyPrefix(c: Crypto, s: State, ops: seq<Op>, k: nat)
    requires Steady(c, s, ops) && k <= |ops|
    ensures Steady(c, s, ops[..k])
  {
    hide SteadyAt;
    forall i | 0 <= i < k ensures SteadyAt(c, From(c, s, ops[..k][..i]), ops[..k][i]) {
      assert ops[..k][..i] == ops[..i];
    }
  }

  lemma PerformKeepsFull(c: Crypto, s: State, op: Op)
    requires FullInv(c, s) && SteadyAt(c, s, op) && (op.Append? ==> SecondRecipientsOk(op.block.txs))
    ensures FullInv(c, Perform(c, s, op))
  {
    hide FullInv, LedgerInv, Add, Rollback, Replace, Recoverable, Restorable, SwapAllowed;
    hide SecondRecipientsOk, ChainWork, RewardAfter, RewardsOk;
    match op
    case Append(b) =>
      FullInvReward(c, s);
      AppendIsAtomic(c, s, b);
      if Add(c, s, b).ok { AppendKeepsFull(c, s, b); }
    case RollbackTo(h) =>
      if h <= |s.blocks| { RollbackFull(c, s, h); } else { RollbackBeyond(c, s, h); }
    case Swap(fork, branch, gate) =>
      SwapIsAllOrNothing(c, s, fork, branch, gate);
  }

  lemma RollbackBeyond(c: Crypto, s: State, height: nat)
    requires height > |s.blocks|
    ensures Rollback(c, s, height) == s
  {
  }

  /** Over every run whose rollbacks and swaps are steady, the reward as well is always the one that
      only ever appending the present chain would have produced. */
  lemma {:induction false} SteadyRuns(c: Crypto, s: State, ops: seq<Op>)
    requires FullInv(c, s) && AppendsNameRecipients(ops) && Steady(c, s, ops)
    ensures FullInv(c, From(c, s, ops))
  {
    hide FullInv, Perform, SteadyAt, SecondRecipientsOk;
    if ops != [] {
      var n := |ops| - 1;
      SteadyPrefix(c, s, ops, n);
      SteadyRuns(c, s, ops[..n]);
      PerformKeepsFull(c, From(c, s, ops[..n]), ops[n]);
    }
  }

  // ---------- phase one is steady ----------

  predicate PhaseOneState(s: State) { PhaseOne(s.supply, |s.blocks|) }

  predicate PhaseOneBefore(c: Crypto, s: State, ops: seq<Op>) {
    forall k :: 0 <= k < |ops| ==> PhaseOneState(From(c, s, ops[..k]))
  }

  lemma PhaseOneIsSteady(c: Crypto, s: State, op: Op)
    requires FullInv(c, s) && PhaseOneState(s)
    ensures SteadyAt(c, s, op)
  {
    hide FullInv, PhaseOne, Memoryless, SupplyAfter, ForkReward, WithinEpoch, SwapAllowed;
    match op
    case Append(_) =>
    case RollbackTo(h) => if h <= |s.blocks| { PhaseOneIsMemoryless(c, s, h); }
    case Swap(fork, _, _) => if fork <= |s.blocks| { PhaseOneIsMemoryless(c, s, fork); }
  }

  /** A run that is in phase one before each operation is steady, so the reward is always its chain's. */
  lemma {:induction false} PhaseOneRuns(c: Crypto, s: State, ops: seq<Op>)
    requires FullInv(c, s) && AppendsNameRecipients(ops) && PhaseOneBefore(c, s, ops)
    ensures Steady(c, s, ops) && FullInv(c, From(c, s, ops))
  {
    hide FullInv, Perform, PhaseOneState, SteadyAt, SecondRecipientsOk;
    if ops != [] {
      var n := |ops| - 1;
      var before := ops[..n];
      forall k | 0 <= k < n ensures PhaseOneState(From(c, s, before[..k])) {
        assert before[..k] == ops[..k];
      }
      PhaseOneRuns(c, s, before);
      PhaseOneIsSteady(c, From(c, s, before), ops[n]);
      PerformKeepsFull(c, From(c, s, before), ops[n]);
      forall k | 0 <= k < |ops| ensures SteadyAt(c, From(c, s, ops[..k]), ops[k]) {
        if k < n {
          assert before[..k] == ops[..k];
          assert SteadyAt(c, From(c, s, before[..k]), before[k]);
        }
      }
    }
  }
}
