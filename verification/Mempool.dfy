/**
 What the mempool holds over whole runs: under every key the transaction of that hash, never a
 coinbase, and only transactions it held at first or that some block of the run brought.
 */
module Mempool {
  import opened Words
  import opened Transactions
  import opened Ledger
  import opened Emission
  import opened Protocol
  import opened Reorg
  import opened History

  ghost predicate Genuine(c: Crypto, pool: Pool, ts: set<SignedTx>) {
    forall h :: h in pool ==> pool[h] in ts && !IsCoinbase(pool[h]) && c.txHash(pool[h].tx) == h
  }

  // The spends of these blocks are among the given ones.
  ghost predicate Within(blocks: seq<Block>, ts: set<SignedTx>) {
    forall t :: t in AllSpends(blocks) ==> t in ts
  }

  ghost predicate Closed(c: Crypto, s: State, ts: set<SignedTx>) {
    Genuine(c, s.pool, ts) && Within(s.blocks, ts)
  }

  lemma {:induction false} WithoutIsGenuine(c: Crypto, pool: Pool, txs: seq<SignedTx>, ts: set<SignedTx>)
    requires Genuine(c, pool, ts)
    ensures Genuine(c, PoolWithout(c, pool, txs), ts)
  {
    hide IsCoinbase;
    if txs != [] { WithoutIsGenuine(c, pool, txs[..|txs| - 1], ts); }
  }

  lemma {:induction false} WithIsGenuine(c: Crypto, pool: Pool, txs: seq<SignedTx>, ts: set<SignedTx>)
    requires Genuine(c, pool, ts) && forall t :: t in Spends(txs) ==> t in ts
    ensures Genuine(c, PoolWith(c, pool, txs), ts)
  {
    hide IsCoinbase;
    if txs != [] {
      var before := txs[..|txs| - 1];
      forall t | t in Spends(before) ensures t in ts { assert t in Spends(txs); }
      WithIsGenuine(c, pool, before, ts);
      assert !IsCoinbase(txs[|txs| - 1]) ==> txs[|txs| - 1] in Spends(txs);
    }
  }

  lemma WithinParts(a: seq<Block>, b: seq<Block>, ts: set<SignedTx>)
    ensures Within(a + b, ts) <==> Within(a, ts) && Within(b, ts)
  {
    hide AllSpends;
    AllSpendsAppend(a, b);
    assert forall t :: t in AllSpends(a) + AllSpends(b) <==> t in AllSpends(a) || t in AllSpends(b);
  }

  lemma WithinOne(b: Block, ts: set<SignedTx>)
    ensures Within([b], ts) <==> forall t :: t in Spends(b.txs) ==> t in ts
  {
    hide Spends;
    assert [b][..0] == [];
    assert AllSpends([b]) == Spends(b.txs);
  }

  lemma {:induction false} BlocksAreGenuine(c: Crypto, pool: Pool, blocks: seq<Block>, height: nat, ts: set<SignedTx>)
    requires Genuine(c, pool, ts) && Within(blocks, ts)
    ensures Genuine(c, PoolWithBlocks(c, pool, blocks, height), ts)
    decreases |blocks|
  {
    hide Genuine, Within, PoolWith;
    if height < |blocks| {
      var before, b := blocks[..|blocks| - 1], blocks[|blocks| - 1];
      assert before + [b] == blocks;
      WithinParts(before, [b], ts);
      WithinOne(b, ts);
      WithIsGenuine(c, pool, b.txs, ts);
      BlocksAreGenuine(c, PoolWith(c, pool, b.txs), before, height, ts);
    }
  }

  lemma AddIsClosed(c: Crypto, s: State, b: Block, ts: set<SignedTx>)
    requires Closed(c, s, ts) && Within([b], ts)
    ensures Closed(c, Add(c, s, b).state, ts)
  {
    hide Genuine, Within, Add, PoolWithout;
    AddPool(c, s, b);
    WithoutIsGenuine(c, s.pool, b.txs, ts);
    WithinParts(s.blocks, [b], ts);
  }

  lemma RollbackIsClosed(c: Crypto, s: State, height: nat, ts: set<SignedTx>)
    requires Closed(c, s, ts)
    ensures Closed(c, Rollback(c, s, height), ts)
  {
    hide Genuine, Within, PoolWithBlocks, ReplayAll, RewardAt, SupplyAfter;
    if height < |s.blocks| {
      BlocksAreGenuine(c, s.pool, s.blocks, height, ts);
      assert s.blocks[..height] + s.blocks[height..] == s.blocks;
      WithinParts(s.blocks[..height], s.blocks[height..], ts);
    }
  }

  lemma {:induction false} AddAllIsClosed(c: Crypto, s: State, bs: seq<Block>, ts: set<SignedTx>)
    requires Closed(c, s, ts) && Within(bs, ts)
    ensures Closed(c, AddAll(c, s, bs).state, ts)
  {
    hide Closed, Within, Add;
    if bs != [] {
      var before, b := bs[..|bs| - 1], bs[|bs| - 1];
      assert before + [b] == bs;
      WithinParts(before, [b], ts);
      AddAllIsClosed(c, s, before, ts);
      AddIsClosed(c, AddAll(c, s, before).state, b, ts);
    }
  }

  lemma ReplaceIsClosed(c: Crypto, s: State, fork: nat, branch: seq<Block>, gate: bool, ts: set<SignedTx>)
    requires Closed(c, s, ts) && Within(branch, ts)
    ensures Closed(c, Replace(c, s, fork, branch, gate).state, ts)
  {
    hide Genuine, Within, Rollback, AddAll, Linked, WorkSum;
    if SwapAllowed(c, s.blocks, fork, branch, gate) {
      var base := Rollback(c, s, fork);
      var applied := AddAll(c, base, branch).state;
      RollbackIsClosed(c, s, fork, ts);
      AddAllIsClosed(c, base, branch, ts);
      RollbackIsClosed(c, applied, fork, ts);
      assert s.blocks[..fork] + s.blocks[fork..] == s.blocks;
      WithinParts(s.blocks[..fork], s.blocks[fork..], ts);
      AddAllIsClosed(c, Rollback(c, applied, fork), s.blocks[fork..], ts);
    }
  }

  lemma PerformIsClosed(c: Crypto, s: State, op: Op, ts: set<SignedTx>)
    requires Closed(c, s, ts) && Within(OpBlocks(op), ts)
    ensures Closed(c, Perform(c, s, op), ts)
  {
    hide Closed, Within, Add, Rollback, Replace;
    match op
    case Append(b) => AddIsClosed(c, s, b, ts);
    case RollbackTo(h) => RollbackIsClosed(c, s, h, ts);
    case Swap(fork, branch, gate) => ReplaceIsClosed(c, s, fork, branch, gate, ts);
  }

  /** Every run of appends, rollbacks and swaps, accepted or not, leaves in the mempool only spends that
      were pooled or on the chain before it or in a block of it, each under its own hash. */
  lemma {:induction false} PoolIsGenuine(c: Crypto, s: State, ops: seq<Op>, ts: set<SignedTx>)
    requires Closed(c, s, ts) && forall i :: 0 <= i < |ops| ==> Within(OpBlocks(ops[i]), ts)
    ensures Closed(c, From(c, s, ops), ts)
  {
    hide Closed, Within, Perform, OpBlocks;
    if ops != [] {
      var n := |ops| - 1;
      PoolIsGenuine(c, s, ops[..n], ts);
      PerformIsClosed(c, From(c, s, ops[..n]), ops[n], ts);
    }
  }

  /** A spend that a rollback drops can be found in the mempool under its hash: the same transaction,
      unless another one of the chain or the mempool has that hash. */
  lemma DroppedIsPooled(c: Crypto, s: State, height: nat, t: SignedTx, ts: set<SignedTx>)
    requires Closed(c, s, ts) && height < |s.blocks| && t in DroppedSpends(s.blocks, height)
    requires NoCollisions(c, set u | u in ts :: u.tx)
    ensures var pool := Rollback(c, s, height).pool;
            c.txHash(t.tx) in pool && pool[c.txHash(t.tx)].tx == t.tx
  {
    hide Rollback, AllSpends, DroppedSpends, OnChain;
    RollbackPool(c, s, height);
    RollbackIsClosed(c, s, height, ts);
    SpendsSplit(s.blocks, height);
    assert t in AllSpends(s.blocks) && t in ts;
  }
}
