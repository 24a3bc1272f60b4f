/**
 The node's chain object: blocks in memory (header-only once saved), the copy on disk, balance
 sheet, supply, reward, mempool and the memoised DAG epochs, all updated in place.  `full` is the
 chain an uncompacted node would hold; every method is proved to perform one step of Protocol on
 the state seen through `full`.
 */
module ChainState {
  import opened Words
  import opened Transactions
  import opened Ledger
  import opened Targets
  import opened Emission
  import opened DagVotes
  import opened Protocol
  import opened History
  import opened BlockChecks
  import opened Retargeting

  datatype Stored = Stored(header: Header, txs: Option<seq<SignedTx>>)

  // A block in memory is complete, or header-only with its full copy on disk at the same index.
  ghost predicate BackedAt(b: Stored, i: nat, disk: seq<Block>, f: Block) {
    && b.header == f.header
    && if b.txs.Some? then b.txs.value == f.txs else i < |disk| && disk[i] == f
  }

  ghost predicate Backed(blocks: seq<Stored>, disk: seq<Block>, full: seq<Block>) {
    |blocks| == |full| && forall i :: 0 <= i < |blocks| ==> BackedAt(blocks[i], i, disk, full[i])
  }

  function StoredHeaders(blocks: seq<Stored>): (headers: seq<Header>)
    ensures |headers| == |blocks|
    ensures forall i :: 0 <= i < |blocks| ==> headers[i] == blocks[i].header
  {
    seq(|blocks|, i requires 0 <= i < |blocks| => blocks[i].header)
  }

  lemma StoredHeadersMatch(blocks: seq<Stored>, disk: seq<Block>, full: seq<Block>)
    requires Backed(blocks, disk, full)
    ensures StoredHeaders(blocks) == HeadersOf(full)
  {
  }

  // The ledger pass stops at the first failure and keeps the sheet it had reached.
  lemma {:induction false} LedgerStops(s: Sheet, txs: seq<SignedTx>, k: nat)
    requires k <= |txs| && LedgerTxs(s, txs[..k]).Failed?
    ensures LedgerTxs(s, txs) == LedgerTxs(s, txs[..k])
    decreases |txs|
  {
    hide LedgerTx;
    if k < |txs| {
      assert txs[..|txs| - 1][..k] == txs[..k];
      LedgerStops(s, txs[..|txs| - 1], k);
    } else {
      assert txs[..k] == txs;
    }
  }

  // Add a block's coinbases to a running 256-bit supply; None on overflow.
  method AddCoinbases(txs: seq<SignedTx>, start: u256) returns (sum: Option<u256>)
    ensures sum == if start + CoinbaseSum(txs) < TWO_256 then Some(start + CoinbaseSum(txs)) else None
  {
    var total := start;
    for i := 0 to |txs|
      invariant total == start + CoinbaseSum(txs[..i]) < TWO_256
    {
      assert txs[..i + 1][..i] == txs[..i];
      if IsCoinbase(txs[i]) {
        if total + txs[i].tx.amount1 >= TWO_256 {
          CoinbaseSumGrows(txs, i + 1);
          return None;
        }
        total := total + txs[i].tx.amount1;
      }
    }
    assert txs[..|txs|] == txs;
    sum := Some(total);
  }

  class Chain {
    const crypto: Crypto
    var blocks: seq<Stored>
    var disk: seq<Block>
    var sheet: Sheet
    var supply: u256
    var reward: u64
    var pool: Pool
    var dagEpochs: seq<DagEpoch>
    var dagComputed: nat
    ghost var full: seq<Block>

    ghost predicate Valid()
      reads this
    {
      Backed(blocks, disk, full) && TableOk(HeadersOf(full), dagEpochs, dagComputed)
    }

    ghost function Abs(): State
      reads this
    {
      State(full, sheet, supply, reward, pool)
    }

    constructor (crypto: Crypto)
      ensures Valid() && this.crypto == crypto
      ensures Abs() == State([], map[], 0, RewardAt(0, 0, 0), map[])
    {
      this.crypto := crypto;
      blocks, disk, full := [], [], [];
      sheet, supply, reward, pool := map[], 0, RewardAt(0, 0, 0), map[];
      dagEpochs, dagComputed := [], 0;
    }

    // ---------- balance sheet ----------

    // CreditAddress.
    method CreditAddress(a: Address, amount: u64) returns (ok: bool)
      modifies this`sheet
      ensures Credit(old(sheet), a, amount) == if ok then Done(sheet) else Failed(sheet)
    {
      if amount == 0 {
        return true;
      }
      if a in sheet {
        if sheet[a].balance + amount >= TWO_256 {
          return false;
        }
        sheet := sheet[a := sheet[a].(balance := sheet[a].balance + amount)];
      } else {
        sheet := sheet[a := Entry(amount, 0)];
      }
      ok := true;
    }

    // DebitAddress: the debit and the replay guard move together.
    method DebitAddress(a: Address, amount: u256, timestamp: u64) returns (ok: bool)
      modifies this`sheet
      ensures Debit(old(sheet), a, amount, timestamp) == if ok then Done(sheet) else Failed(sheet)
    {
      if a !in sheet || sheet[a].balance < amount {
        return false;
      }
      var e := sheet[a].(balance := sheet[a].balance - amount);
      if timestamp > e.lastTx {
        e := e.(lastTx := timestamp);
      }
      sheet := sheet[a := e];
      ok := true;
    }

    method ApplyTransaction(tx: Transaction) returns (ok: bool)
      modifies this`sheet
      ensures LedgerTx(old(sheet), tx) == if ok then Done(sheet) else Failed(sheet)
    {
      hide Debit, Credit, Spend;
      if tx.sender != COINBASE {
        ok := DebitAddress(tx.sender, Spend(tx), tx.timestamp);
        if !ok {
          return;
        }
      }
      ok := CreditAddress(tx.recipient1, tx.amount1);
      if !ok || tx.amount2 == 0 {
        return;
      }
      if tx.recipient2 == ZERO_ADDRESS {
        return false;
      }
      ok := CreditAddress(tx.recipient2, tx.amount2);
    }

    // The second pass of Chain_AddBlockLocked.
    method ApplyLedger(txs: seq<SignedTx>) returns (ok: bool)
      modifies this`sheet
      ensures LedgerTxs(old(sheet), txs) == if ok then Done(sheet) else Failed(sheet)
    {
      hide LedgerTx;
      for i := 0 to |txs|
        invariant LedgerTxs(old(sheet), txs[..i]) == Done(sheet)
      {
        assert txs[..i + 1][..i] == txs[..i];
        ok := ApplyTransaction(txs[i].tx);
        if !ok {
          LedgerStops(old(sheet), txs, i + 1);
          return;
        }
      }
      assert txs[..|txs|] == txs;
      ok := true;
    }

    // ---------- mempool ----------

    method RemoveMined(txs: seq<SignedTx>)
      modifies this`pool
      ensures pool == PoolWithout(crypto, old(pool), txs)
    {
      for i := 0 to |txs|
        invariant pool == PoolWithout(crypto, old(pool), txs[..i])
      {
        assert txs[..i + 1][..i] == txs[..i];
        if !IsCoinbase(txs[i]) {
          pool := pool - {crypto.txHash(txs[i].tx)};
        }
      }
      assert txs[..|txs|] == txs;
    }

    method ReturnToPool(txs: seq<SignedTx>)
      modifies this`pool
      ensures pool == PoolWith(crypto, old(pool), txs)
    {
      for i := 0 to |txs|
        invariant pool == PoolWith(crypto, old(pool), txs[..i])
      {
        assert txs[..i + 1][..i] == txs[..i];
        if !IsCoinbase(txs[i]) {
          pool := pool[crypto.txHash(txs[i].tx) := txs[i]];
        }
      }
      assert txs[..|txs|] == txs;
    }

    // ---------- compaction ----------

    // Chain_BorrowBlockTransactions: from memory, or from the copy on disk.
    method Borrow(i: nat) returns (txs: seq<SignedTx>)
      requires Valid() && i < |blocks|
      ensures txs == full[i].txs
    {
      assert BackedAt(blocks[i], i, disk, full[i]);
      if blocks[i].txs.Some? {
        txs := blocks[i].txs.value;
      } else {
        txs := disk[i].txs;
      }
    }

    /** Chain_SaveToFile: the disk copy becomes the whole chain and every block in memory is cut to
        its header, which changes nothing anyone can observe. */
    method Save()
      requires Valid()
      modifies this`blocks, this`disk
      ensures Valid() && full == old(full)
      ensures disk == full
      ensures forall i :: 0 <= i < |blocks| ==> blocks[i].txs.None?
    {
      hide TableOk;
      var saved: seq<Block> := [];
      for i := 0 to |blocks|
        invariant |blocks| == |full| && saved == full[..i]
        invariant forall j :: 0 <= j < i ==> blocks[j] == Stored(full[j].header, None)
        invariant forall j :: i <= j < |blocks| ==> BackedAt(blocks[j], j, disk, full[j])
      {
        var b := blocks[i];
        assert BackedAt(b, i, disk, full[i]);
        var txs := if b.txs.Some? then b.txs.value else disk[i].txs;
        saved := saved + [Block(b.header, txs)];
        blocks := blocks[i := Stored(b.header, None)];
      }
      disk := saved;
    }

    // ---------- DAG epochs ----------

    method CountEpochVotes(k: nat) returns (hold: nat, down: nat)
      requires Valid() && (k + 1) * EPOCH_LENGTH <= |blocks|
      ensures hold == EpochVotes(HeadersOf(full), k, VOTE_HOLD)
      ensures down == EpochVotes(HeadersOf(full), k, VOTE_DOWN)
    {
      hide TableOk;
      hold, down := 0, 0;
      ghost var headers := HeadersOf(full);
      for i := k * EPOCH_LENGTH to (k + 1) * EPOCH_LENGTH
        invariant hold == CountVotes(headers, k * EPOCH_LENGTH, i, VOTE_HOLD)
        invariant down == CountVotes(headers, k * EPOCH_LENGTH, i, VOTE_DOWN)
      {
        assert BackedAt(blocks[i], i, disk, full[i]);
        if blocks[i].header.vote == VOTE_HOLD {
          hold := hold + 1;
        } else if blocks[i].header.vote == VOTE_DOWN {
          down := down + 1;
        }
      }
    }

    // Chain_ReserveDagEpochsLocked.
    method ReserveDagEpochs(needed: nat)
      requires Valid()
      modifies this`dagEpochs
      ensures Valid() && |dagEpochs| >= needed
    {
      hide Backed, SizeOr, QualifiedOr;
      if needed > |dagEpochs| {
        dagEpochs := dagEpochs + seq(needed - |dagEpochs|, _ => DagEpoch(0, false));
      }
    }

    // One step of the fold: entry k from the votes of epoch k-1.
    method FoldDagEpoch(k: nat)
      requires Valid() && 0 < k == dagComputed < |dagEpochs| && k * EPOCH_LENGTH <= |blocks|
      modifies this`dagEpochs, this`dagComputed
      ensures Valid() && dagComputed == k + 1 && |dagEpochs| == old(|dagEpochs|)
    {
      hide Backed, EpochVotes;
      SameLength(blocks, disk, full);
      var hold, down := CountEpochVotes(k - 1);
      var brake := (hold + down) * 2 > EPOCH_LENGTH;
      var qualified := down * 8 > EPOCH_LENGTH * 7;
      var prior := k >= 2 && dagEpochs[k - 2].downQualified;
      var next := NextSize(dagEpochs[k - 1].size, qualified, prior, brake);
      FoldStep(HeadersOf(full), dagEpochs, k);
      dagEpochs := dagEpochs[k - 1 := dagEpochs[k - 1].(downQualified := qualified)][k := DagEpoch(next, false)];
      dagComputed := k + 1;
    }

    /** Chain_ExtendDagEpochsLocked: succeeds exactly when the deciding epochs are complete, and
        whatever it managed to compute agrees with the recurrence. */
    method ExtendDagEpochs(epochIndex: nat) returns (ok: bool)
      requires Valid()
      modifies this`dagEpochs, this`dagComputed
      ensures Valid()
      ensures ok <==> epochIndex * EPOCH_LENGTH <= |blocks|
      ensures ok ==> epochIndex < dagComputed
    {
      hide Backed, DagSize, DownQualified;
      SameLength(blocks, disk, full);
      ReserveDagEpochs(epochIndex + 1);
      if dagComputed == 0 {
        FirstEntry(HeadersOf(full), dagEpochs);
        dagEpochs := dagEpochs[0 := DagEpoch(DAG_BASE_SIZE, false)];
        dagComputed := 1;
      }
      var k := dagComputed;
      while k <= epochIndex
        invariant Valid() && 0 < k == dagComputed <= |dagEpochs| && epochIndex < |dagEpochs|
        invariant (k - 1) * EPOCH_LENGTH <= |blocks|
        decreases epochIndex + 1 - k
      {
        if k * EPOCH_LENGTH > |blocks| {
          ScaleMonotone(k, epochIndex, EPOCH_LENGTH);
          return false;
        }
        FoldDagEpoch(k);
        k := k + 1;
      }
      ScaleMonotone(epochIndex, k - 1, EPOCH_LENGTH);
      ok := true;
    }

    /** Chain_DagParamsForHeightLocked: the cached answer is the from-scratch one. */
    method DagParams(height: nat) returns (ok: bool, bytes: nat, seed: Hash)
      requires Valid()
      modifies this`dagEpochs, this`dagComputed
      ensures Valid()
      ensures ok <==> height / EPOCH_LENGTH * EPOCH_LENGTH <= |blocks|
      ensures ok ==> bytes == DagSize(HeadersOf(full), height / EPOCH_LENGTH)
      ensures ok ==> seed == DagSeed(crypto, HeadersOf(full), height)
    {
      hide Backed, DagSize, DownQualified;
      var epoch := height / EPOCH_LENGTH;
      bytes, seed := 0, 0;
      ok := ExtendDagEpochs(epoch);
      if !ok {
        return;
      }
      bytes := dagEpochs[epoch].size;
      DagSizeInBand(HeadersOf(full), epoch);
      BandIsTheWholeBand(DagSize(HeadersOf(full), epoch));
      StoredHeadersMatch(blocks, disk, full);
      if epoch > 0 {
        seed := crypto.blockHash(blocks[epoch * EPOCH_LENGTH - 1].header);
      }
      ok := bytes >= 32 && bytes % 32 == 0;
    }

    // ---------- appending ----------

    method CheckHeader(h: Header) returns (ok: bool)
      requires Valid()
      modifies this`dagEpochs, this`dagComputed
      ensures Valid()
      ensures ok <==> HeaderOk(crypto, HeadersOf(full), h)
    {
      hide Backed, TableOk, DagSize, DagSeed, TargetFor, TargetValue;
      StoredHeadersMatch(blocks, disk, full);
      if h.blockNumber != |blocks| {
        return false;
      }
      if |blocks| > 0 && crypto.blockHash(blocks[|blocks| - 1].header) != h.prevHash {
        return false;
      }
      var resolved, bytes, seed := DagParams(h.blockNumber);
      if !resolved {
        return false;
      }
      var target := TargetValue(h.difficultyTarget);
      if target.None? || crypto.powHash(h, bytes, seed) > target.value {
        return false;
      }
      var expected := GetTargetForHeight(StoredHeaders(blocks), |blocks|);
      ok := h.difficultyTarget == expected;
    }

    method CheckBody(txs: seq<SignedTx>) returns (ok: bool, fees: u64)
      ensures ok <==> BodyOk(crypto, sheet, reward, txs)
      ensures ok ==> fees == FeeSum(txs)
    {
      hide Select, Spends, CoinbaseOk, SenderOrdered, FeeSum;
      fees := 0;
      if txs == [] {
        return false, fees;
      }
      var accepted;
      accepted, fees := SelectSpendable(crypto, sheet, txs);
      var spends := CountSpends(txs);
      if |accepted| != spends {
        return false, fees;
      }
      if TWO_64 - 1 - reward < fees {
        return false, fees;
      }
      var valid, observed := ValidateCoinbaseAndFees(crypto, txs, reward + fees);
      if !valid || observed != fees {
        return false, fees;
      }
      ok := RespectsSenderOrdering(sheet, txs);
    }

    /** Chain_AddBlockLocked. */
    method AddBlock(b: Block) returns (ok: bool)
      requires Valid()
      modifies this
      ensures Valid() && disk == old(disk)
      ensures Step(ok, Abs()) == Add(crypto, old(Abs()), b)
    {
      hide Backed, TableOk, HeaderOk, BodyOk, LedgerTxs, PoolWithout, RewardAt, FeeSum;
      ok := CheckHeader(b.header);
      if !ok {
        return;
      }
      var fees;
      ok, fees := CheckBody(b.txs);
      if !ok {
        return;
      }
      PushKeepsValid(blocks, disk, full, b, dagEpochs, dagComputed);
      blocks, full := blocks + [Stored(b.header, Some(b.txs))], full + [b];
      SameLength(blocks, disk, full);
      ok := ApplyLedger(b.txs);
      RemoveMined(b.txs);
      if ok {
        supply := (supply + reward + fees) % TWO_256;
        reward := RewardAt(supply, |blocks|, reward);
      }
    }

    // ---------- rollback ----------

    method ReplayPay(a: Address, amount: u64)
      modifies this`sheet
      ensures sheet == ReplayCredit(old(sheet), a, amount)
    {
      if a !in sheet {
        sheet := sheet[a := Entry(amount, 0)];
      } else {
        sheet := sheet[a := sheet[a].(balance := (sheet[a].balance + amount) % TWO_256)];
      }
    }

    method ReplayTransaction(tx: Transaction)
      modifies this`sheet
      ensures sheet == ReplayTx(old(sheet), tx)
    {
      hide ReplayCredit, Spend;
      if tx.sender == COINBASE {
        ReplayPay(tx.recipient1, tx.amount1);
        return;
      }
      var spend := Spend(tx);
      var e := if tx.sender in sheet then sheet[tx.sender] else Entry(0, 0);
      if e.balance >= spend {
        e := e.(balance := e.balance - spend);
      }
      if tx.timestamp > e.lastTx {
        e := e.(lastTx := tx.timestamp);
      }
      sheet := sheet[tx.sender := e];
      ReplayPay(tx.recipient1, tx.amount1);
      if tx.amount2 > 0 {
        ReplayPay(tx.recipient2, tx.amount2);
      }
    }

    // Replay one block onto the sheet, adding its coinbases to the rebuilt supply.
    method ReplayBlock(txs: seq<SignedTx>, start: u256) returns (rebuilt: u256)
      modifies this`sheet
      ensures sheet == ReplayTxs(old(sheet), txs)
      ensures rebuilt == (start + CoinbaseSum(txs)) % TWO_256
    {
      hide ReplayTx;
      rebuilt := start;
      for i := 0 to |txs|
        invariant sheet == ReplayTxs(old(sheet), txs[..i])
        invariant rebuilt == (start + CoinbaseSum(txs[..i])) % TWO_256
      {
        assert txs[..i + 1][..i] == txs[..i];
        if IsCoinbase(txs[i]) {
          WrapAdd(start + CoinbaseSum(txs[..i]), txs[i].tx.amount1);
          rebuilt := (rebuilt + txs[i].tx.amount1) % TWO_256;
        }
        ReplayTransaction(txs[i].tx);
      }
      assert txs[..|txs|] == txs;
    }

    method ReturnBlocksAbove(height: nat)
      requires Valid() && height <= |blocks|
      modifies this`pool
      ensures pool == PoolWithBlocks(crypto, old(pool), full, height)
    {
      hide PoolWith, TableOk, BackedAt;
      var i := |blocks|;
      assert full[..i] == full;
      while i > height
        invariant height <= i <= |blocks|
        invariant PoolWithBlocks(crypto, pool, full[..i], height) == PoolWithBlocks(crypto, old(pool), full, height)
      {
        assert full[..i][..i - 1] == full[..i - 1];
        var txs := Borrow(i - 1);
        ReturnToPool(txs);
        i := i - 1;
      }
    }

    // Rebuild the sheet and the supply from the blocks that remain.
    method RebuildLedger() returns (rebuilt: u256)
      requires Valid()
      modifies this`sheet
      ensures sheet == ReplayAll(full) && rebuilt == SupplyAfter(full) % TWO_256
    {
      hide ReplayTxs, CoinbaseSum, TableOk, BackedAt;
      sheet, rebuilt := map[], 0;
      for i := 0 to |blocks|
        invariant sheet == ReplayAll(full[..i]) && rebuilt == SupplyAfter(full[..i]) % TWO_256
      {
        assert full[..i + 1][..i] == full[..i];
        var txs := Borrow(i);
        WrapAdd(SupplyAfter(full[..i]), CoinbaseSum(txs));
        rebuilt := ReplayBlock(txs, rebuilt);
      }
      assert full[..|full|] == full;
    }

    /** Chain_RollbackToHeightLocked. */
    method RollbackTo(height: nat)
      requires Valid()
      modifies this
      ensures Valid() && disk == old(disk)
      ensures Abs() == Rollback(crypto, old(Abs()), height)
    {
      hide ReplayAll, SupplyAfter, PoolWithBlocks, RewardAt, BackedAt, SizeOr, QualifiedOr;
      if height >= |blocks| {
        return;
      }
      ReturnBlocksAbove(height);
      blocks, full := blocks[..height], full[..height];
      dagComputed := 0;
      var rebuilt := RebuildLedger();
      supply := rebuilt;
      reward := RewardAt(supply, |blocks|, reward);
    }

    /** Chain_RecomputeRuntimeState: the startup recomputation agrees with the supply of the chain. */
    method RecomputeRuntimeState() returns (ok: bool)
      requires Valid()
      modifies this`supply, this`reward
      ensures ok <==> SupplyAfter(full) < TWO_256
      ensures ok ==> supply == SupplyAfter(full) && reward == RewardAt(supply, |full|, old(reward))
      ensures !ok ==> supply == old(supply) && reward == old(reward)
    {
      hide TableOk, BackedAt, RewardAt, CoinbaseSum;
      var rebuilt := 0;
      for i := 0 to |blocks|
        invariant rebuilt == SupplyAfter(full[..i]) < TWO_256
        invariant supply == old(supply) && reward == old(reward)
      {
        assert full[..i + 1][..i] == full[..i];
        var txs := Borrow(i);
        var sum := AddCoinbases(txs, rebuilt);
        if sum.None? {
          SupplyGrowsWith(full, i + 1);
          return false;
        }
        rebuilt := sum.value;
      }
      assert full[..|full|] == full;
      supply := rebuilt;
      reward := RewardAt(supply, |blocks|, reward);
      ok := true;
    }

    // ---------- branch replacement ----------

    method AddBlocks(bs: seq<Block>) returns (ok: bool)
      requires Valid()
      modifies this
      ensures Valid() && disk == old(disk)
      ensures Step(ok, Abs()) == AddAll(crypto, old(Abs()), bs)
    {
      hide Add, Backed, TableOk;
      for i := 0 to |bs|
        invariant Valid() && disk == old(disk)
        invariant AddAll(crypto, old(Abs()), bs[..i]) == Step(true, Abs())
      {
        assert bs[..i + 1][..i] == bs[..i];
        ok := AddBlock(bs[i]);
        if !ok {
          AddAllStops(crypto, old(Abs()), bs, i + 1);
          return;
        }
      }
      assert bs[..|bs|] == bs;
      ok := true;
    }

    // Deep copies of the blocks about to be replaced, taken through Borrow.
    method Snapshot(fork: nat) returns (snapshot: seq<Block>)
      requires Valid() && fork <= |blocks|
      ensures snapshot == full[fork..]
    {
      hide TableOk;
      snapshot := [];
      for i := fork to |blocks|
        invariant snapshot == full[fork..i]
      {
        assert BackedAt(blocks[i], i, disk, full[i]);
        var txs := Borrow(i);
        snapshot := snapshot + [Block(blocks[i].header, txs)];
      }
    }

    method CheckSwap(fork: nat, branch: seq<Block>, gate: bool) returns (ok: bool)
      requires Valid()
      ensures ok <==> SwapAllowed(crypto, full, fork, branch, gate)
    {
      hide TableOk, Linked, WorkSum, BackedAt;
      if branch == [] || fork == 0 || fork > |blocks| {
        return false;
      }
      StoredHeadersMatch(blocks, disk, full);
      var linked := BranchIsLinked(crypto, blocks[fork - 1].header, fork, branch);
      if !linked || !gate {
        return false;
      }
      assert StoredHeaders(blocks)[fork..] == HeadersOf(full[fork..]);
      var incumbent := SumWork(StoredHeaders(blocks)[fork..]);
      var candidate := SumWork(HeadersOf(branch));
      ok := incumbent.Some? && candidate.Some? && candidate.value > incumbent.value;
    }

    /** Chain_ReplaceBranch. */
    method ReplaceBranch(fork: nat, branch: seq<Block>, gate: bool) returns (ok: bool)
      requires Valid()
      modifies this
      ensures Valid() && disk == old(disk)
      ensures Step(ok, Abs()) == Replace(crypto, old(Abs()), fork, branch, gate)
    {
      hide Backed, TableOk, SwapAllowed, Rollback, AddAll;
      ok := CheckSwap(fork, branch, gate);
      if !ok {
        return;
      }
      SwapAllowedFork(crypto, full, fork, branch, gate);
      SameLength(blocks, disk, full);
      var snapshot := Snapshot(fork);
      RollbackTo(fork);
      ok := AddBlocks(branch);
      if ok {
        return;
      }
      RollbackTo(fork);
      var _ := AddBlocks(snapshot);
    }

    /** Compaction is invisible: after any sequence of appends, rollbacks, swaps and saves the state is
        that of the same sequence without the saves, and every header-only block is on disk. */
    method PerformAll(ops: seq<NodeOp>)
      requires Valid()
      modifies this
      ensures Valid() && Abs() == From(crypto, old(Abs()), WithoutFlushes(ops))
    {
      hide Backed, TableOk, Add, Rollback, Replace, From;
      ghost var s := Abs();
      StartFrom(crypto, s);
      for i := 0 to |ops|
        invariant Valid() && Abs() == From(crypto, s, WithoutFlushes(ops[..i]))
      {
        StepFrom(crypto, s, ops, i);
        match ops[i] {
          case Do(op) =>
            match op {
              case Append(b) => var _ := AddBlock(b);
              case RollbackTo(h) => RollbackTo(h);
              case Swap(fork, branch, gate) => var _ := ReplaceBranch(fork, branch, gate);
            }
          case Flush => Save();
        }
      }
      assert ops[..|ops|] == ops;
    }
  }

  // What a node does to its chain: an operation, or saving it.
  datatype NodeOp = Do(op: Op) | Flush

  // The same run on a chain that is never compacted.
  function WithoutFlushes(ops: seq<NodeOp>): seq<Op> {
    if ops == [] then [] else
    var rest := WithoutFlushes(ops[..|ops| - 1]);
    match ops[|ops| - 1] case Do(op) => rest + [op] case Flush => rest
  }

  lemma StartFrom(c: Crypto, s: State)
    ensures From(c, s, WithoutFlushes([])) == s
  {
  }

  lemma StepFrom(c: Crypto, s: State, ops: seq<NodeOp>, i: nat)
    requires i < |ops|
    ensures From(c, s, WithoutFlushes(ops[..i + 1])) ==
            match ops[i] case Do(op) => Perform(c, From(c, s, WithoutFlushes(ops[..i])), op)
                         case Flush => From(c, s, WithoutFlushes(ops[..i]))
  {
    hide Perform;
    assert ops[..i + 1][..i] == ops[..i];
    var before := WithoutFlushes(ops[..i]);
    if ops[i].Do? { assert (before + [ops[i].op])[..|before|] == before; }
  }

  lemma SwapAllowedFork(c: Crypto, blocks: seq<Block>, fork: nat, branch: seq<Block>, gate: bool)
    requires SwapAllowed(c, blocks, fork, branch, gate)
    ensures fork <= |blocks|
  {
  }

  lemma SameLength(blocks: seq<Stored>, disk: seq<Block>, full: seq<Block>)
    requires Backed(blocks, disk, full)
    ensures |blocks| == |full|
  {
  }

  lemma PushKeepsValid(blocks: seq<Stored>, disk: seq<Block>, full: seq<Block>, b: Block,
                       table: seq<DagEpoch>, computed: nat)
    requires Backed(blocks, disk, full) && TableOk(HeadersOf(full), table, computed)
    ensures Backed(blocks + [Stored(b.header, Some(b.txs))], disk, full + [b])
    ensures TableOk(HeadersOf(full + [b]), table, computed)
  {
    hide TableOk;
    assert HeadersOf(full + [b]) == HeadersOf(full) + [b.header];
    TableSurvivesAppend(HeadersOf(full), [b.header], table, computed);
  }

  lemma FirstEntry(headers: seq<Header>, table: seq<DagEpoch>)
    requires |table| > 0
    ensures TableOk(headers, table[0 := DagEpoch(DAG_BASE_SIZE, false)], 1)
  {
  }

  // Folding entry k extends a correct table by one correct entry.
  lemma FoldStep(headers: seq<Header>, table: seq<DagEpoch>, k: nat)
    requires TableOk(headers, table, k) && 0 < k < |table| && k * EPOCH_LENGTH <= |headers|
    ensures var down, brake := DownQualified(headers, k - 1), Brake(headers, k - 1);
            var next := NextSize(table[k - 1].size, down, k >= 2 && table[k - 2].downQualified, brake);
            TableOk(headers, table[k - 1 := table[k - 1].(downQualified := down)][k := DagEpoch(next, false)], k + 1)
  {
    hide EpochVotes, NextSize;
    assert table[k - 1].size == SizeOr(headers, k - 1);
    if k >= 2 { assert table[k - 2].downQualified == QualifiedOr(headers, k - 2); }
  }

  lemma {:induction false} AddAllStops(c: Crypto, s: State, bs: seq<Block>, k: nat)
    requires k <= |bs| && !AddAll(c, s, bs[..k]).ok
    ensures AddAll(c, s, bs) == AddAll(c, s, bs[..k])
    decreases |bs|
  {
    hide Add;
    if k < |bs| {
      assert bs[..|bs| - 1][..k] == bs[..k];
      AddAllStops(c, s, bs[..|bs| - 1], k);
    } else {
      assert bs[..k] == bs;
    }
  }

  lemma {:induction false} CoinbaseSumGrows(txs: seq<SignedTx>, k: nat)
    requires k <= |txs|
    ensures CoinbaseSum(txs[..k]) <= CoinbaseSum(txs)
    decreases |txs|
  {
    if k < |txs| {
      assert txs[..|txs| - 1][..k] == txs[..k];
      CoinbaseSumGrows(txs[..|txs| - 1], k);
    } else {
      assert txs[..k] == txs;
    }
  }
}
