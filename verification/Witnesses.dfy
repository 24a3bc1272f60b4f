/**
 Inputs at which the promises fail, on states that mining blocks reaches: a swap out of a valid pool
 that truncates the chain, a validated block that gets stuck, work lost above it, a mined body that
 is refused, a pruned duplicate that hid an adoptable branch; and a run that meets the hypothesis on
 transaction hashes.
 */
module Witnesses {
  import opened Words
  import opened Transactions
  import opened Ledger
  import opened Targets
  import opened Emission
  import opened DagVotes
  import opened Protocol
  import opened Reorg
  import opened History
  import opened Builder
  import opened Branches
  import opened AttachRuns
  import opened Adoption
  import opened Limits

  // ---------- chains of any length ----------

  // Hash functions that make every proof of work and signature good and every key address 1, and tell
  // headers apart by number and last nonce bit.
  function Easy(): Crypto {
    Crypto(_ => 1, (t: Transaction) => t.timestamp, (_, _, _) => true,
           (h: Header) => 2 * h.blockNumber + h.nonce % 2, (_, _, _) => 0)
  }

  function NextHeader(height: u64): Header {
    Header(height, 0, 0, if height == 0 then 0 else 2 * (height - 1), 0, INITIAL_DIFFICULTY, 1, 0, 0, 0)
  }

  // The headers of a chain mined with nonce 0 at time 0.
  predicate Quiet(headers: seq<Header>) {
    forall i :: 0 <= i < |headers| && i < TWO_64 ==> headers[i] == NextHeader(i)
  }

  // A window without a time difference keeps its target.
  lemma {:induction false} QuietTarget(headers: seq<Header>, k: nat)
    requires Quiet(headers) && k * ADJUSTMENT_INTERVAL <= |headers| <= TWO_64
    ensures TargetAfter(headers, k) == INITIAL_DIFFICULTY
  {
    hide Normalise;
    if k > 0 { QuietTarget(headers, k - 1); }
  }

  lemma NextHeaderOk(headers: seq<Header>)
    requires Quiet(headers) && |headers| < TWO_64
    ensures HeaderOk(Easy(), headers, NextHeader(|headers|))
  {
    hide TargetValue, DagSize, DagSeed, TargetAfter, Normal;
    QuietTarget(headers, |headers| / ADJUSTMENT_INTERVAL);
    ReachableTargetNormal([], 0);
    QuietTarget([], 0);
  }

  function MinedBlock(s: State): Block
    requires |s.blocks| < TWO_64
  {
    Block(NextHeader(|s.blocks|), [Coinbase(1, s.reward, 0)])
  }

  lemma MineOne(s: State)
    requires FullInv(Easy(), s) && Quiet(HeadersOf(s.blocks)) && |s.blocks| < TWO_64
    ensures var b := MinedBlock(s);
            && Add(Easy(), s, b).ok && FullInv(Easy(), Add(Easy(), s, b).state)
            && Add(Easy(), s, b).state.blocks == s.blocks + [b]
            && Quiet(HeadersOf(s.blocks + [b]))
  {
    hide FullInv, LedgerInv, ChainOk, RewardsOk, RewardAfter, Add, HeaderOk, BodyOk;
    FullInvReward(Easy(), s);
    RewardAtLeastTail(s.blocks);
    NextHeaderOk(HeadersOf(s.blocks));
    assert [Coinbase(1, s.reward, 0)] + [] == [Coinbase(1, s.reward, 0)];
    MinedBlockJoinsIff(Easy(), s, 1, 0, [], NextHeader(|s.blocks|));
    AppendKeepsFull(Easy(), s, MinedBlock(s));
  }

  /** Chains of every length exist. */
  lemma {:induction false} MineMany(n: nat) returns (s: State)
    requires n < TWO_64
    ensures FullInv(Easy(), s) && |s.blocks| == n && Quiet(HeadersOf(s.blocks))
  {
    hide FullInv, Add;
    if n == 0 {
      GenesisFull(Easy());
      s := GENESIS;
    } else {
      var before := MineMany(n - 1);
      MineOne(before);
      s := Add(Easy(), before, MinedBlock(before)).state;
    }
  }

  lemma QuietWorkOne()
    ensures BlockWork(INITIAL_DIFFICULTY).Some? && 0 < BlockWork(INITIAL_DIFFICULTY).value <= 0x1_0000_0000
  {
    hide Pow256;
    Pow256Of28();
    var v := Mantissa(INITIAL_DIFFICULTY) * Pow256(28);
    assert TargetValue(INITIAL_DIFFICULTY) == Some(v) && v + 1 >= Pow256(28);
    WorkAntitone(INITIAL_DIFFICULTY, INITIAL_DIFFICULTY);
    DivideAntitone(TWO_256, Pow256(28), v + 1);
    QuotientAtMost(TWO_256, Pow256(28), 0x1_0000_0000);
  }

  lemma Pow256Of28()
    ensures Pow256(28) * 0x1_0000_0000 == TWO_256
  {
    Pow256Values();
    assert Pow256(29) == 256 * Pow256(28);
  }

  predicate SameTarget(headers: seq<Header>) {
    forall i :: 0 <= i < |headers| ==> headers[i].difficultyTarget == INITIAL_DIFFICULTY
  }

  lemma {:induction false} QuietWork(headers: seq<Header>)
    requires SameTarget(headers) && |headers| < TWO_64
    ensures BlockWork(INITIAL_DIFFICULTY).Some?
    ensures WorkSum(headers) == Some(|headers| * BlockWork(INITIAL_DIFFICULTY).value)
  {
    hide BlockWork;
    QuietWorkOne();
    var w := BlockWork(INITIAL_DIFFICULTY).value;
    if headers != [] {
      var n := |headers|;
      QuietWork(headers[..n - 1]);
      assert n * w == (n - 1) * w + w;
      ScaleMonotone(n, TWO_64, w);
      ScaleMonotone(w, 0x1_0000_0000, TWO_64);
    }
  }

  lemma QuietSuffix(blocks: seq<Block>, fork: nat)
    requires Quiet(HeadersOf(blocks)) && fork <= |blocks| < TWO_64
    ensures SameTarget(HeadersOf(blocks[fork..]))
  {
    assert forall i :: 0 <= i < |blocks| - fork ==> HeadersOf(blocks[fork..])[i] == HeadersOf(blocks)[fork + i];
  }

  // Dropping quiet blocks loses their work.
  lemma QuietPrefixWork(blocks: seq<Block>, fork: nat)
    requires Quiet(HeadersOf(blocks)) && fork < |blocks| < TWO_64
    ensures ChainWork(blocks[..fork]) < ChainWork(blocks)
  {
    hide ChainWork, Quiet, SameTarget, HeadersOf, BlockWork;
    var kept, rest := blocks[..fork], blocks[fork..];
    assert kept + rest == blocks && |rest| > 0;
    QuietSuffix(blocks, fork);
    SomeWork(rest);
    ChainWorkAppend(kept, rest);
  }

  lemma SomeWork(blocks: seq<Block>)
    requires SameTarget(HeadersOf(blocks)) && 0 < |blocks| < TWO_64
    ensures ChainWork(blocks) > 0
  {
    hide BlockWork, WorkSum, ChainWork, SameTarget;
    QuietWorkOne();
    QuietWork(HeadersOf(blocks));
    WorkSumIsWork(blocks);
    ScaleMonotone(1, |blocks|, BlockWork(INITIAL_DIFFICULTY).value);
  }

  // ---------- a rival branch in the pool ----------

  // Three blocks of their own headers (nonce 1) over bodies whose only transaction is a coinbase of 1,
  // for any Merkle root those bodies may have.
  function RivalBlock(height: u64, prevHash: Hash, root: Hash): Block {
    Block(Header(height, 0, 1, prevHash, root, INITIAL_DIFFICULTY, 1, 0, 0, 0), [Coinbase(1, 1, 0)])
  }

  function RivalEntry(height: u64, prevHash: Hash, root: Hash, sequence: nat): Orphan {
    Orphan(RivalBlock(height, prevHash, root), height, 0, sequence, 2 * height + 1)
  }

  function Rivals(fork: nat, root: Hash): (entries: seq<Orphan>)
    requires 0 < fork && fork + 2 < TWO_64
    ensures |entries| == 3
  {
    [RivalEntry(fork, 2 * (fork - 1), root, 0),
     RivalEntry(fork + 1, 2 * fork + 1, root, 1),
     RivalEntry(fork + 2, 2 * fork + 3, root, 2)]
  }

  // What the receive path asks of a block on its own, Merkle root aside, and of its place in the chain.
  predicate Receivable(c: Crypto, full: seq<Block>, b: Block) {
    && b.header.vote <= 2 && b.header.spare1 == b.header.spare2 == 0
    && (forall i :: 0 <= i < |b.txs| ==> Verify(c, b.txs[i])) && CoinbaseCount(b.txs) == 1
    && (b.header.blockNumber < |full| ==> c.blockHash(b.header) != c.blockHash(full[b.header.blockNumber].header))
  }

  lemma RivalReceivable(full: seq<Block>, height: u64, prevHash: Hash, root: Hash)
    requires Quiet(HeadersOf(full)) && |full| < TWO_64
    ensures Receivable(Easy(), full, RivalBlock(height, prevHash, root))
    ensures SecondRecipientsOk(RivalBlock(height, prevHash, root).txs)
  {
    hide Verify;
    var coinbase := Coinbase(1, 1, 0);
    CoinbaseVerifies(Easy(), 1, 1, 0);
    BodyTotals(coinbase, []);
    assert [coinbase] + [] == [coinbase];
    if height < |full| { assert full[height].header == HeadersOf(full)[height]; }
  }

  // Walking down from the tip, the attach loop finds no branch at this fork.
  predicate CollectsNothing(c: Crypto, entries: seq<Orphan>, blocks: seq<Block>, fork: nat)
    requires 0 < fork <= |blocks|
  {
    Collected(entries, [], fork, c.blockHash(blocks[fork - 1].header))
  }

  lemma QuietHash(blocks: seq<Block>, i: nat)
    requires Quiet(HeadersOf(blocks)) && i < |blocks| < TWO_64
    ensures Easy().blockHash(blocks[i].header) == 2 * i
  {
    assert blocks[i].header == HeadersOf(blocks)[i];
  }

  /** The rivals form a valid pool of receivable blocks, their collected branch from the chain's block
      below the fork is all three, and no fork further up collects anything. */
  lemma RivalsPooled(blocks: seq<Block>, fork: nat, root: Hash)
    requires Quiet(HeadersOf(blocks)) && |blocks| == fork + 2 && 0 < fork && fork + 2 < TWO_64
    ensures PoolOk(Easy(), Rivals(fork, root), 3)
    ensures Collected(Rivals(fork, root), Rivals(fork, root), fork, Easy().blockHash(blocks[fork - 1].header))
    ensures forall f :: fork < f <= |blocks| ==> CollectsNothing(Easy(), Rivals(fork, root), blocks, f)
    ensures forall i :: 0 <= i < 3 ==> Receivable(Easy(), blocks, Rivals(fork, root)[i].block)
    ensures NameRecipients(BlocksOf(Rivals(fork, root)))
  {
    hide FirstExtending, Receivable, SecondRecipientsOk, Quiet, Collected;
    QuietHash(blocks, fork - 1);
    RivalsCollected(fork, root);
    forall f | fork < f <= |blocks| ensures CollectsNothing(Easy(), Rivals(fork, root), blocks, f) {
      QuietHash(blocks, f - 1);
      RivalsElsewhere(fork, root, f);
    }
    RivalReceivable(blocks, fork, 2 * (fork - 1), root);
    RivalReceivable(blocks, fork + 1, 2 * fork + 1, root);
    RivalReceivable(blocks, fork + 2, 2 * fork + 3, root);
  }

  lemma RivalsCollected(fork: nat, root: Hash)
    requires 0 < fork && fork + 2 < TWO_64
    ensures Collected(Rivals(fork, root), Rivals(fork, root), fork, 2 * (fork - 1))
  {
    hide FirstExtending;
    var e, parent: Hash := Rivals(fork, root), 2 * (fork - 1);
    FirstIs(e, fork, parent, 0);
    FirstIs(e, fork + 1, e[0].hash, 1);
    FirstIs(e, fork + 2, e[1].hash, 2);
    FirstIs(e, fork + 3, e[2].hash, 3);
    assert ParentAt(e, 1, parent) == e[0].hash && ParentAt(e, 2, parent) == e[1].hash;
    assert ParentAt(e, 3, parent) == e[2].hash;
  }

  lemma RivalsElsewhere(fork: nat, root: Hash, f: nat)
    requires 0 < fork < f && fork + 2 < TWO_64 && f < TWO_64
    ensures Collected(Rivals(fork, root), [], f, 2 * (f - 1))
  {
    hide FirstExtending;
    FirstIs(Rivals(fork, root), f, 2 * (f - 1), 3);
  }

  // Linked to the fork and one block heavier than the two it would replace.
  lemma RivalsAllowed(blocks: seq<Block>, fork: nat, root: Hash)
    requires Quiet(HeadersOf(blocks)) && |blocks| == fork + 2 && 0 < fork && fork + 2 < TWO_64
    ensures SwapAllowed(Easy(), blocks, fork, BlocksOf(Rivals(fork, root)), true)
  {
    hide BlockWork, WorkSum;
    var branch := BlocksOf(Rivals(fork, root));
    var parent := blocks[fork - 1].header;
    assert parent == HeadersOf(blocks)[fork - 1];
    forall i | 0 <= i < |branch| ensures LinkedAt(Easy(), parent, fork, branch, i) {}
    QuietWorkOne();
    QuietSuffix(blocks, fork);
    QuietWork(HeadersOf(blocks[fork..]));
    QuietWork(HeadersOf(branch));
  }

  // A coinbase of 1 is never the reward, so the first rival is refused.
  lemma RivalsRefused(base: State, fork: nat, root: Hash)
    requires base.reward != 1 && 0 < fork && fork + 2 < TWO_64
    ensures AddAll(Easy(), base, BlocksOf(Rivals(fork, root))) == Step(false, base)
  {
    hide AddAll, Add;
    var branch := BlocksOf(Rivals(fork, root));
    RivalPays(branch[0]);
    WrongRewardRefuses(Easy(), base, branch[0]);
    RefusedFirst(Easy(), base, branch);
  }

  lemma RivalPays(b: Block)
    requires b.txs == [Coinbase(1, 1, 0)]
    ensures BaseReward(b) == 1
  {
    var txs := b.txs;
    assert txs[..|txs| - 1] == [];
    assert CoinbaseSum(txs) == CoinbaseSum([]) + 1 && FeeSum(txs) == FeeSum([]);
  }

  lemma ReplaceOfRefused(c: Crypto, s: State, fork: nat, branch: seq<Block>)
    requires SwapAllowed(c, s.blocks, fork, branch, true) && !AddAll(c, Rollback(c, s, fork), branch).ok
    ensures !Replace(c, s, fork, branch, true).ok
  {
    hide SwapAllowed, AddAll, Rollback;
  }

  /** A reached state whose rollback does not restore its reward, and a valid pool of three receivable
      blocks whose collected branch makes a swap that fails and truncates the chain, losing work. */
  lemma RestorationCanFail(root: Hash) returns (s: State, fork: nat, entries: seq<Orphan>)
    ensures FullInv(Easy(), s) && 0 < fork < |s.blocks| && !FullInv(Easy(), Rollback(Easy(), s, fork))
    ensures PoolOk(Easy(), entries, 3) && NameRecipients(BlocksOf(entries))
    ensures forall i :: 0 <= i < |entries| ==> Receivable(Easy(), s.blocks, entries[i].block)
    ensures Collected(entries, entries, fork, Easy().blockHash(s.blocks[fork - 1].header))
    ensures forall f :: fork < f <= |s.blocks| ==> CollectsNothing(Easy(), entries, s.blocks, f)
    ensures SwapAllowed(Easy(), s.blocks, fork, BlocksOf(entries), true)
    ensures var after := From(Easy(), s, [Swap(fork, BlocksOf(entries), true)]);
            after.blocks == s.blocks[..fork] && ChainWork(after.blocks) < ChainWork(s.blocks)
  {
    hide FullInv, LedgerInv, ChainOk, RewardsOk, RewardAfter, Rollback, AddAll, Replace, SwapAllowed, ChainWork;
    hide Quiet, Collected, CollectsNothing, PoolOk, Receivable, NameRecipients, Rivals, Settled, Memoryless;
    hide SupplyAfter, BaseReward;
    s := MineMany(3_500_001);
    fork := 3_499_999;
    entries := Rivals(fork, root);
    var branch := BlocksOf(entries);
    RivalsPooled(s.blocks, fork, root);
    RivalsAllowed(s.blocks, fork, root);
    RollbackAcrossEpochsForgets(Easy(), s, fork);
    FullInvReward(Easy(), s);
    RewardAtLeastTail(s.blocks);
    RivalsRefused(Rollback(Easy(), s, fork), fork, root);
    ReplaceOfRefused(Easy(), s, fork, branch);
    SwapAcrossEpochsTruncates(Easy(), s, fork, branch, true);
    QuietPrefixWork(s.blocks, fork);
    OneOperation(Easy(), s, Swap(fork, branch, true));
  }

  lemma OneOperation(c: Crypto, s: State, op: Op)
    ensures From(c, s, [op]) == Perform(c, s, op)
  {
    hide Perform;
    assert [op][..0] == [];
  }

  // ---------- spends ----------

  // The account of the easy key pays address 2, and a second amount to no one.
  function Pay(amount: u64, time: u64, lost: u64): SignedTx {
    SignedTx(Transaction(time, 0, amount, lost, 1, 2, ZERO_ADDRESS, 0, 1, 0), 0)
  }

  lemma PayVerifies(amount: u64, time: u64, lost: u64)
    requires amount > 0
    ensures Verify(Easy(), Pay(amount, time, lost)) && !IsCoinbase(Pay(amount, time, lost))
  {
  }

  // One affordable spend is selected, and moves every simulated balance by its net effect.
  lemma SelectsOne(c: Crypto, sheet: Sheet, txs: seq<SignedTx>, t: SignedTx, a: Address)
    requires Total(sheet) <= TWO_64 * TWO_64 && |txs| < TWO_64
    requires Verify(c, t) && !IsCoinbase(t)
    requires SimLookup(sheet, Select(c, sheet, txs).sim, t.tx.sender).balance >= Spend(t.tx)
    ensures var sel, next := Select(c, sheet, txs), Select(c, sheet, txs + [t]);
            && next.accepted == sel.accepted + [t] && next.fees == (sel.fees + t.tx.fee) % TWO_64
            && SimLookup(sheet, next.sim, a).balance == SimLookup(sheet, sel.sim, a).balance + Delta(t.tx, a)
  {
    hide Select, Verify, Total, SimLookup, Delta, SimTx, IsCoinbase, Spend;
    var sim := Select(c, sheet, txs).sim;
    forall b: Address ensures SimLookup(sheet, sim, b).balance + 2 * TWO_64 < TWO_256 { RoomLeft(c, sheet, txs, b); }
    AffordableIsAccepted(c, sheet, sim, t);
    SelectOne(c, sheet, txs, t);
    SimTxDelta(c, sheet, sim, t, a);
  }

  // After the first block the miner holds the reward and has spent nothing.
  lemma FirstMinerBalance() returns (s: State)
    ensures FullInv(Easy(), s) && Quiet(HeadersOf(s.blocks)) && |s.blocks| == 1
    ensures s == Add(Easy(), GENESIS, MinedBlock(GENESIS)).state && Add(Easy(), GENESIS, MinedBlock(GENESIS)).ok
    ensures Lookup(s.sheet, 1) == Entry(GENESIS.reward, 0) && Total(s.sheet) <= TWO_64 * TWO_64
  {
    hide FullInv, HeaderOk, BodyOk, RewardAt, PoolWithout, Total;
    GenesisFull(Easy());
    assert HeadersOf(GENESIS.blocks) == [];
    MineOne(GENESIS);
    s := Add(Easy(), GENESIS, MinedBlock(GENESIS)).state;
    RewardNotBelowCurve(0, 0, 0);
    FirstCredit(GENESIS.reward);
    FullInvReward(Easy(), s);
    LedgerTotalBound(Easy(), s);
  }

  lemma FirstCredit(amount: u64)
    requires amount > 0
    ensures LedgerTxs(map[], [Coinbase(1, amount, 0)]).Done?
    ensures Lookup(LedgerTxs(map[], [Coinbase(1, amount, 0)]).sheet, 1) == Entry(amount, 0)
  {
    var txs := [Coinbase(1, amount, 0)];
    assert txs[..0] == [];
  }

  /** On every ledger, a new and affordable spend with a second amount and no second recipient makes a
      block that passes every check, is pushed, and is not applied. */
  lemma NoRecipientSticks(c: Crypto, s: State, header: Header, miner: Address, time: u64, t: SignedTx)
    requires LedgerInv(c, s) && HeaderOk(c, HeadersOf(s.blocks), header) && miner != COINBASE
    requires Verify(c, t) && !IsCoinbase(t) && !SecondRecipientOk(t.tx)
    requires Lookup(s.sheet, t.tx.sender).balance >= Spend(t.tx) && t.tx.timestamp > Lookup(s.sheet, t.tx.sender).lastTx
    requires 0 < s.reward + t.tx.fee < TWO_64
    ensures var b := Block(header, [Coinbase(miner, s.reward + t.tx.fee, time)] + [t]);
            BodyOk(c, s.sheet, s.reward, b.txs) && !Add(c, s, b).ok && Add(c, s, b).state.blocks == s.blocks + [b]
  {
    hide LedgerInv, HeaderOk, BodyOk, Add, Select, Verify, Total, IsCoinbase, SecondRecipientOk, Lookup, FeeSum;
    LedgerTotalBound(c, s);
    SelectsAlone(c, s.sheet, t);
    OneFee(t);
    BuiltBodyIff(c, s.sheet, s.reward, miner, time, [t]);
    var b := Block(header, [Coinbase(miner, s.reward + t.tx.fee, time)] + [t]);
    assert b.txs[1] == t;
    AppendCompletesIff(c, s, b);
  }

  lemma SelectsAlone(c: Crypto, sheet: Sheet, t: SignedTx)
    requires Total(sheet) <= TWO_64 * TWO_64 && Verify(c, t) && !IsCoinbase(t)
    requires Lookup(sheet, t.tx.sender).balance >= Spend(t.tx)
    ensures Select(c, sheet, [t]).accepted == [t] && Select(c, sheet, [t]).fees == t.tx.fee
  {
    hide Select, Verify, Total, IsCoinbase, Lookup;
    SelectNothing(c, sheet);
    SelectsOne(c, sheet, [], t, 0);
    assert [] + [t] == [t];
  }

  /** Such a block exists on a reachable state. */
  lemma SomeBlockGetsStuck() returns (s: State, b: Block)
    ensures FullInv(Easy(), s)
    ensures HeaderOk(Easy(), HeadersOf(s.blocks), b.header) && BodyOk(Easy(), s.sheet, s.reward, b.txs)
    ensures !Add(Easy(), s, b).ok && Add(Easy(), s, b).state.blocks == s.blocks + [b]
  {
    hide FullInv, LedgerInv, HeaderOk, BodyOk, Add, Verify, Total, RewardAt, ChainOk, RewardsOk, RewardAfter;
    s := FirstMinerBalance();
    FullInvReward(Easy(), s);
    RewardAtLeastTail(s.blocks);
    RewardNotBelowCurve(0, 0, 0);
    PayVerifies(5, 1, 1);
    NextHeaderOk(HeadersOf(s.blocks));
    NoRecipientSticks(Easy(), s, NextHeader(1), 1, 0, Pay(5, 1, 1));
    b := Block(NextHeader(1), [Coinbase(1, s.reward + 0, 0)] + [Pay(5, 1, 1)]);
  }

  lemma SelectNothing(c: Crypto, sheet: Sheet)
    ensures Select(c, sheet, []) == Selection(map[], [], 0)
  {
  }

  lemma OneFee(t: SignedTx)
    requires !IsCoinbase(t)
    ensures FeeSum([t]) == t.tx.fee
  {
    assert [t][..0] == [];
  }

  lemma TwoFees(t: SignedTx, u: SignedTx)
    requires !IsCoinbase(t) && !IsCoinbase(u) && t.tx.fee == u.tx.fee == 0
    ensures FeeSum([t, u]) == 0
  {
    OneFee(t);
    assert [t, u][..1] == [t];
  }

  // Two small payments of the first miner are both selected.
  lemma SelectsTwo(s: State, t: SignedTx, u: SignedTx, time: u64, time': u64)
    requires Lookup(s.sheet, 1) == Entry(GENESIS.reward, 0) && Total(s.sheet) <= TWO_64 * TWO_64
    requires t == Pay(5, time, 0) && u == Pay(6, time', 0)
    ensures Select(Easy(), s.sheet, [t, u]).accepted == [t, u] && Select(Easy(), s.sheet, [t, u]).fees == 0
  {
    hide Select, Verify, Total, RewardAt;
    RewardNotBelowCurve(0, 0, 0);
    PayVerifies(5, time, 0);
    PayVerifies(6, time', 0);
    SelectNothing(Easy(), s.sheet);
    SelectsOne(Easy(), s.sheet, [], t, 1);
    assert [] + [t] == [t];
    SelectsOne(Easy(), s.sheet, [t], u, 1);
    assert [t] + [u] == [t, u];
  }

  /** A reachable state and a pool of two new payments with equal timestamps: both are selected, and
      the body built from them is refused. */
  lemma SomeBodyIsRefused() returns (s: State, t: SignedTx, u: SignedTx)
    ensures FullInv(Easy(), s) && t != u && TimeSorted([t, u]) && Newer(s.sheet, [t, u])
    ensures Select(Easy(), s.sheet, [t, u]).accepted == [t, u] && s.reward < TWO_64
    ensures !BodyOk(Easy(), s.sheet, s.reward, [Coinbase(1, s.reward, 0)] + [t, u])
  {
    hide FullInv, BodyOk, Select, Total, Add, RewardAt;
    s := FirstMinerBalance();
    t, u := Pay(5, 1, 0), Pay(6, 1, 0);
    SelectsTwo(s, t, u, 1, 1);
    assert [t, u][0] == t && [t, u][1] == u && SameSender(t, u);
    BuiltBodyIff(Easy(), s.sheet, s.reward, 1, 0, [t, u]);
  }

  // ---------- runs without collisions ----------

  function IndexOf(ts: seq<Transaction>, t: Transaction): (i: nat)
    ensures ts != [] ==> i < |ts|
    ensures t in ts ==> i < |ts| && ts[i] == t
  {
    if ts == [] || ts[|ts| - 1] == t then Max(|ts| - 1, 0) else IndexOf(ts[..|ts| - 1], t)
  }

  /** Any 2^256 transactions can be free of collisions. */
  lemma CollisionFreeExists(ts: seq<Transaction>)
    requires 0 < |ts| <= TWO_256
    ensures var members := set t | t in ts;
            exists c: Crypto :: NoCollisions(c, members)
  {
    var c := Easy().(txHash := (t: Transaction) => IndexOf(ts, t));
    var members := set t | t in ts;
    assert NoCollisions(c, members);
  }

  lemma RunSnoc(c: Crypto, ops: seq<Op>, op: Op)
    ensures Run(c, ops + [op]) == Perform(c, Run(c, ops), op)
    ensures RunTxs(ops + [op]) == RunTxs(ops) + TxsIn(OpBlocks(op))
  {
    hide Perform, TxsIn, OpBlocks;
    assert (ops + [op])[..|ops|] == ops;
  }

  /** A run with two spends mined and rolled back meets the hypothesis: both go back to the mempool and
      neither is on the chain. */
  lemma SomeRunStaysApart() returns (ops: seq<Op>, t: SignedTx, u: SignedTx)
    ensures AppendsNameRecipients(ops) && t.tx != u.tx
    ensures RunTxs(ops) == {t.tx, u.tx} && NoCollisions(Easy(), RunTxs(ops))
    ensures Apart(Easy(), Run(Easy(), ops)) && {Easy().txHash(t.tx), Easy().txHash(u.tx)} <= Run(Easy(), ops).pool.Keys
  {
    hide FullInv, Add, Rollback, BodyOk, HeaderOk, Total, RewardAt, Run, RunTxs, OnChain, NoCollisions;
    hide AppendsNameRecipients, Apart;
    var s := FirstMinerBalance();
    t, u := Pay(5, 1, 0), Pay(6, 2, 0);
    var first, second := MinedBlock(GENESIS), Block(NextHeader(1), [Coinbase(1, s.reward, 0)] + [t, u]);
    SecondJoins(s, t, u);
    ops := [Append(first), Append(second), RollbackTo(1)];
    assert [Coinbase(1, GENESIS.reward, 0)] + [] == first.txs;
    BlockTxs(first, GENESIS.reward, []);
    BlockTxs(second, s.reward, [t, u]);
    RunOfThree(first, second);
    TxsOfThree(first, second, t, u);
    ReturnedToPool(Add(Easy(), s, second).state, second, t, u);
    EveryRun(Easy(), ops, 0);
  }

  lemma RunOfThree(first: Block, second: Block)
    ensures var s := Add(Easy(), GENESIS, first).state;
            var ops := [Append(first), Append(second), RollbackTo(1)];
            Run(Easy(), ops) == Rollback(Easy(), Add(Easy(), s, second).state, 1) &&
            RunTxs(ops) == TxsIn([first]) + TxsIn([second])
  {
    hide Add, Rollback, Run, RunTxs, TxsIn;
    var one, two := [Append(first)], [Append(first), Append(second)];
    NoRun(Easy());
    RunSnoc(Easy(), [], Append(first));
    assert [] + [Append(first)] == one;
    RunSnoc(Easy(), one, Append(second));
    assert one + [Append(second)] == two;
    RunSnoc(Easy(), two, RollbackTo(1));
    assert two + [RollbackTo(1)] == [Append(first), Append(second), RollbackTo(1)];
  }

  lemma TxsOfThree(first: Block, second: Block, t: SignedTx, u: SignedTx)
    requires t == Pay(5, 1, 0) && u == Pay(6, 2, 0) && first.txs == [Coinbase(1, GENESIS.reward, 0)]
    requires exists amount: u64 :: second.txs == [Coinbase(1, amount, 0)] + [t, u]
    requires TxsIn([first]) == (set x: SignedTx | x in [] :: x.tx) && TxsIn([second]) == set x | x in [t, u] :: x.tx
    ensures TxsIn([first]) + TxsIn([second]) == {t.tx, u.tx} && NoCollisions(Easy(), {t.tx, u.tx})
    ensures AppendsNameRecipients([Append(first), Append(second), RollbackTo(1)])
  {
    hide TxsIn, RewardAt;
    assert t in [t, u] && u in [t, u];
  }

  lemma NoRun(c: Crypto)
    ensures Run(c, []) == GENESIS && RunTxs([]) == {} && TxsIn([]) == {}
  {
  }

  lemma BlockTxs(b: Block, amount: u64, txs: seq<SignedTx>)
    requires b.txs == [Coinbase(1, amount, 0)] + txs && forall i :: 0 <= i < |txs| ==> !IsCoinbase(txs[i])
    ensures TxsIn([b]) == (set x | x in txs :: x.tx) && Spends(b.txs) == txs
  {
    hide Spends;
    BodyTotals(Coinbase(1, amount, 0), txs);
    assert [b][..0] == [];
    assert AllSpends([b]) == AllSpends([]) + txs == txs;
  }

  lemma SecondJoins(s: State, t: SignedTx, u: SignedTx)
    requires FullInv(Easy(), s) && Quiet(HeadersOf(s.blocks)) && |s.blocks| == 1
    requires Lookup(s.sheet, 1) == Entry(GENESIS.reward, 0) && Total(s.sheet) <= TWO_64 * TWO_64
    requires t == Pay(5, 1, 0) && u == Pay(6, 2, 0)
    ensures var b := Block(NextHeader(1), [Coinbase(1, s.reward, 0)] + [t, u]);
            Add(Easy(), s, b).ok && Add(Easy(), s, b).state.blocks == s.blocks + [b]
  {
    hide FullInv, LedgerInv, BodyOk, HeaderOk, Select, Total, Add, RewardAt, ChainOk, RewardsOk, RewardAfter;
    FullInvReward(Easy(), s);
    RewardAtLeastTail(s.blocks);
    SelectsTwo(s, t, u, 1, 2);
    TwoFees(t, u);
    NextHeaderOk(HeadersOf(s.blocks));
    MinedBlockJoinsIff(Easy(), s, 1, 0, [t, u], NextHeader(1));
    AppendKeepsFull(Easy(), s, Block(NextHeader(1), [Coinbase(1, s.reward, 0)] + [t, u]));
  }

  lemma ReturnedToPool(s: State, top: Block, t: SignedTx, u: SignedTx)
    requires |s.blocks| == 2 && s.blocks[1] == top && Spends(top.txs) == [t, u]
    ensures {Easy().txHash(t.tx), Easy().txHash(u.tx)} <= Rollback(Easy(), s, 1).pool.Keys
  {
    hide Rollback, OnChain;
    RollbackPool(Easy(), s, 1);
    assert DroppedSpends(s.blocks, 1) == [t, u] by {
      hide Spends;
      assert DroppedSpends(s.blocks[..1], 1) == [];
    }
    assert t in [t, u] && u in [t, u];
  }

  // ---------- work lost above a stuck block ----------

  // The parts of a stuck append.
  lemma StuckParts(c: Crypto, s: State, b: Block)
    requires HeaderOk(c, HeadersOf(s.blocks), b.header) && BodyOk(c, s.sheet, s.reward, b.txs) && !Add(c, s, b).ok
    ensures var t := Add(c, s, b).state;
            t.blocks == s.blocks + [b] && t.reward == s.reward
  {
    hide HeaderOk, BodyOk, LedgerTxs, PoolWithout, RewardAt, FeeSum;
  }

  // Validated means pushed.
  lemma ValidatedIsPushed(c: Crypto, s: State, b: Block)
    requires HeaderOk(c, HeadersOf(s.blocks), b.header) && BodyOk(c, s.sheet, s.reward, b.txs)
    ensures Add(c, s, b).state.blocks == s.blocks + [b]
  {
    hide HeaderOk, BodyOk, LedgerTxs, PoolWithout, RewardAt, FeeSum;
  }

  lemma FirstIsPhaseOne()
    ensures GENESIS.reward == 17_592_186_044_415 && PhaseOne(17_592_186_044_415, 1)
  {
  }

  // Rolling back to the first block from any chain above it gives the state after that block.
  lemma BackToFirst(s: State, t: State)
    requires FullInv(Easy(), s) && |s.blocks| == 1 && |t.blocks| > 1 && t.blocks[..1] == s.blocks
    requires s.supply == GENESIS.reward
    ensures SameChain(Rollback(Easy(), t, 1), s)
  {
    hide FullInv, LedgerInv, ChainOk, RewardsOk, RewardAfter, RewardAt, PhaseOne, Rollback, SupplyAfter;
    FullInvReward(Easy(), s);
    FirstIsPhaseOne();
    RollbackRebuilds(Easy(), t, 1);
    RollbackReward(Easy(), t, 1);
    MemorylessReward(s.blocks, t.reward);
    LedgerDetermines(Easy(), s, Rollback(Easy(), t, 1));
  }

  lemma LedgerDetermines(c: Crypto, s: State, t: State)
    requires LedgerInv(c, s) && LedgerInv(c, t) && s.blocks == t.blocks
    ensures s.sheet == t.sheet && s.supply == t.supply
  {
  }

  // A failed swap below a stuck block puts the stuck block back and nothing above it.
  lemma SwapBelowStuck(s: State, t: State, x: Block, y: Block, root: Hash)
    requires FullInv(Easy(), s) && |s.blocks| == 1 && s.supply == GENESIS.reward && Quiet(HeadersOf(t.blocks))
    requires t.blocks == s.blocks + [x] + [y]
    requires !Add(Easy(), s, x).ok && Add(Easy(), s, x).state.blocks == s.blocks + [x]
    ensures var branch := BlocksOf(Rivals(1, root));
            SwapAllowed(Easy(), t.blocks, 1, branch, true) && Restorable(t, 1, 3) &&
            Replace(Easy(), t, 1, branch, true).state.blocks == s.blocks + [x]
  {
    hide FullInv, LedgerInv, ChainOk, RewardsOk, RewardAfter, RewardAt, SupplyAfter, PhaseOne, BaseReward;
    hide Add, AddAll, Rollback, WorkSum, Linked, Quiet, Rivals, SwapAllowed;
    RivalsAllowed(t.blocks, 1, root);
    var base := Rollback(Easy(), t, 1);
    assert t.blocks[..1] == s.blocks && t.blocks[1..] == [x, y];
    FirstIsPhaseOne();
    FullInvReward(Easy(), s);
    RewardAtLeastTail(s.blocks);
    BackToFirst(s, t);
    RivalsRefused(base, 1, root);
    RollbackToTip(Easy(), base);
    SameChainAdd(Easy(), base, s, x);
    StopsAtFirst(Easy(), base, x, y);
  }

  lemma StopsAtFirst(c: Crypto, s: State, x: Block, y: Block)
    requires !Add(c, s, x).ok
    ensures AddAll(c, s, [x, y]) == Add(c, s, x)
  {
    hide Add;
    assert [x, y][..1] == [x] && [x][..0] == [];
    assert AddAll(c, s, []) == Step(true, s);
    assert AddAll(c, s, [x]) == Add(c, s, x);
  }

  lemma RollbackToTip(c: Crypto, s: State)
    ensures Rollback(c, s, |s.blocks|) == s
  {
  }

  /** The second recipients matter for work too: on a reached chain with a stuck block and a block above
      it, a valid pool of three receivable blocks makes a swap at a restorable fork that fails and
      leaves less work than before. */
  lemma StuckBlockLosesWork(root: Hash) returns (s: State, x: Block, y: Block, entries: seq<Orphan>)
    ensures FullInv(Easy(), s)
    ensures var t := From(Easy(), s, [Append(x), Append(y)]);
            && PoolOk(Easy(), entries, 3) && NameRecipients(BlocksOf(entries)) && |t.blocks| == 3
            && (forall i :: 0 <= i < |entries| ==> Receivable(Easy(), t.blocks, entries[i].block))
            && Collected(entries, entries, 1, Easy().blockHash(t.blocks[0].header))
            && (forall f :: 1 < f <= 3 ==> CollectsNothing(Easy(), entries, t.blocks, f))
            && SteadyAt(Easy(), t, Swap(1, BlocksOf(entries), true))
            && ChainWork(From(Easy(), t, [Swap(1, BlocksOf(entries), true)]).blocks) < ChainWork(t.blocks)
  {
    hide FullInv, LedgerInv, ChainOk, RewardsOk, RewardAfter, Add, HeaderOk, BodyOk, Total, RewardAt, Replace;
    hide SwapAllowed, Restorable, ChainWork, LedgerTxs, Verify, Select, Quiet, Collected, PoolOk, Receivable;
    hide CollectsNothing;
    hide NameRecipients, Rivals;
    s, x := StuckOnFirst();
    var t1 := Add(Easy(), s, x).state;
    y := Block(NextHeader(2), [Coinbase(1, s.reward, 0)]);
    var t := Add(Easy(), t1, y).state;
    AboveStuck(s, x, t1, y);
    TwoOperations(Easy(), s, x, y);
    entries := Rivals(1, root);
    RivalsPooled(t.blocks, 1, root);
    SwapBelowStuck(s, t, x, y, root);
    OneOperation(Easy(), t, Swap(1, BlocksOf(entries), true));
    QuietPrefixWork(t.blocks, 2);
    assert t.blocks[..2] == s.blocks + [x];
  }

  lemma TwoOperations(c: Crypto, s: State, x: Block, y: Block)
    ensures From(c, s, [Append(x), Append(y)]) == Add(c, Add(c, s, x).state, y).state
  {
    hide Add;
    assert [Append(x), Append(y)][..1] == [Append(x)];
    OneOperation(c, s, Append(x));
  }

  lemma StuckOnFirst() returns (s: State, x: Block)
    ensures FullInv(Easy(), s) && |s.blocks| == 1 && s.supply == GENESIS.reward && Quiet(HeadersOf(s.blocks))
    ensures x.header == NextHeader(1)
    ensures HeaderOk(Easy(), HeadersOf(s.blocks), x.header) && BodyOk(Easy(), s.sheet, s.reward, x.txs)
    ensures !Add(Easy(), s, x).ok && Add(Easy(), s, x).state.blocks == s.blocks + [x]
  {
    hide FullInv, LedgerInv, HeaderOk, BodyOk, Add, Verify, Total, RewardAt, ChainOk, RewardsOk, RewardAfter;
    s := FirstMinerBalance();
    FullInvReward(Easy(), s);
    RewardAtLeastTail(s.blocks);
    RewardNotBelowCurve(0, 0, 0);
    PayVerifies(5, 1, 1);
    NextHeaderOk(HeadersOf(s.blocks));
    NoRecipientSticks(Easy(), s, NextHeader(1), 1, 0, Pay(5, 1, 1));
    x := Block(NextHeader(1), [Coinbase(1, s.reward + 0, 0)] + [Pay(5, 1, 1)]);
    GenesisFull(Easy());
    FullInvReward(Easy(), GENESIS);
    AppendSupply(Easy(), GENESIS, MinedBlock(GENESIS));
    NoFees(GENESIS.reward);
  }

  lemma NoFees(amount: u64)
    ensures FeeSum([Coinbase(1, amount, 0)]) == 0
  {
    assert [Coinbase(1, amount, 0)][..0] == [];
  }

  lemma AboveStuck(s: State, x: Block, t1: State, y: Block)
    requires FullInv(Easy(), s) && |s.blocks| == 1 && Quiet(HeadersOf(s.blocks))
    requires HeaderOk(Easy(), HeadersOf(s.blocks), x.header) && BodyOk(Easy(), s.sheet, s.reward, x.txs)
    requires x.header == NextHeader(1) && !Add(Easy(), s, x).ok
    requires t1 == Add(Easy(), s, x).state && y == Block(NextHeader(2), [Coinbase(1, s.reward, 0)])
    ensures Add(Easy(), t1, y).state.blocks == s.blocks + [x] + [y] && Quiet(HeadersOf(s.blocks + [x] + [y]))
  {
    hide FullInv, LedgerInv, ChainOk, RewardsOk, RewardAfter, Add, HeaderOk, BodyOk, Total, LedgerTxs, Select;
    hide SupplyAfter;
    FullInvReward(Easy(), s);
    RewardAtLeastTail(s.blocks);
    StuckParts(Easy(), s, x);
    NextHeaderOk(HeadersOf(t1.blocks));
    CoinbaseOnly(t1.sheet, t1.reward);
    ValidatedIsPushed(Easy(), t1, y);
  }

  // A body of nothing but its coinbase passes on any sheet.
  lemma CoinbaseOnly(sheet: Sheet, reward: u64)
    requires reward > 0
    ensures BodyOk(Easy(), sheet, reward, [Coinbase(1, reward, 0)])
  {
    hide Select, Verify, FeeSum, CoinbaseCount, Spends, CoinbaseOk;
    var coinbase := Coinbase(1, reward, 0);
    SelectNothing(Easy(), sheet);
    SelectOne(Easy(), sheet, [], coinbase);
    assert [] + [coinbase] == [coinbase] && [coinbase] + [] == [coinbase];
    BodyTotals(coinbase, []);
    NoFees(reward);
    CoinbaseVerifies(Easy(), 1, reward, 0);
    NothingPaid();
    OnlyFirstIsCoinbase(Easy(), coinbase, []);
  }

  lemma NothingPaid()
    ensures FeeSum([]) == 0
  {
  }

  // ---------- a duplicate that hides a rival ----------

  function ShortHeader(height: u64, nonce: u64, prevHash: Hash): Header {
    Header(height, 0, nonce, prevHash, 0, INITIAL_DIFFICULTY, 1, 0, 0, 0)
  }

  // Before the first retarget any nonce makes a good header.
  lemma ShortHeaderOk(headers: seq<Header>, nonce: u64)
    requires 0 < |headers| < ADJUSTMENT_INTERVAL
    ensures HeaderOk(Easy(), headers, ShortHeader(|headers|, nonce, Easy().blockHash(headers[|headers| - 1])))
  {
    hide TargetValue, DagSize, DagSeed, Normal;
    ReachableTargetNormal([], 0);
    QuietTarget([], 0);
  }

  function ShortBlock(s: State, nonce: u64): Block
    requires 0 < |s.blocks| < ADJUSTMENT_INTERVAL
  {
    Block(ShortHeader(|s.blocks|, nonce, Easy().blockHash(s.blocks[|s.blocks| - 1].header)),
          [Coinbase(1, s.reward, 0)])
  }

  lemma ShortJoins(s: State, nonce: u64)
    requires FullInv(Easy(), s) && 0 < |s.blocks| < ADJUSTMENT_INTERVAL
    ensures var b := ShortBlock(s, nonce);
            && Add(Easy(), s, b).ok && FullInv(Easy(), Add(Easy(), s, b).state)
            && Add(Easy(), s, b).state.blocks == s.blocks + [b]
  {
    hide FullInv, LedgerInv, ChainOk, RewardsOk, RewardAfter, Add, HeaderOk, BodyOk;
    FullInvReward(Easy(), s);
    RewardAtLeastTail(s.blocks);
    ShortHeaderOk(HeadersOf(s.blocks), nonce);
    assert [Coinbase(1, s.reward, 0)] + [] == [Coinbase(1, s.reward, 0)];
    MinedBlockJoinsIff(Easy(), s, 1, 0, [], ShortBlock(s, nonce).header);
    AppendKeepsFull(Easy(), s, ShortBlock(s, nonce));
  }

  // The two rivals of the block at height 1, and behind it in the pool.
  function Hidden(held: Block, a: Block, b: Block): seq<Orphan> {
    [Orphan(held, 1, 0, 0, 2), Orphan(a, 1, 0, 1, 3), Orphan(b, 2, 0, 2, 5)]
  }

  lemma HiddenCollects(held: Block, a: Block, b: Block)
    requires held.header == ShortHeader(1, 0, 0) && a.header == ShortHeader(1, 1, 0) && b.header == ShortHeader(2, 1, 3)
    ensures var entries := Hidden(held, a, b);
            && PoolOk(Easy(), entries, 3)
            && Collected(entries, entries[..1], 1, 0) && Collected(entries, [], 2, 2)
            && Collected(entries[1..], entries[1..], 1, 0)
  {
    hide FirstExtending;
    var entries := Hidden(held, a, b);
    FirstIs(entries, 1, 0, 0);
    FirstIs(entries, 2, 2, 3);
    var one, left := entries[..1], entries[1..];
    assert ParentAt(one, 1, 0) == 2;
    FirstIs(left, 1, 0, 0);
    FirstIs(left, 2, 3, 1);
    FirstIs(left, 3, 5, 2);
    assert ParentAt(left, 1, 0) == 3 && ParentAt(left, 2, 0) == 5;
  }

  // Work of one to three blocks at the initial target.
  lemma InitialWork(blocks: seq<Block>)
    requires |blocks| <= 3
    requires forall i :: 0 <= i < |blocks| ==> blocks[i].header.difficultyTarget == INITIAL_DIFFICULTY
    ensures WorkSum(HeadersOf(blocks)) == Some(|blocks| * BlockWork(INITIAL_DIFFICULTY).value)
    ensures BlockWork(INITIAL_DIFFICULTY).Some? && BlockWork(INITIAL_DIFFICULTY).value > 0
  {
    QuietWorkOne();
    QuietWork(HeadersOf(blocks));
  }

  /** Pruning can uncover a branch: the chain's own block, pooled before its rivals, is collected in their
      place and makes nothing adoptable; once it is pruned, the two rivals make a heavier chain. */
  lemma PruningUncovers() returns (s: State, entries: seq<Orphan>)
    ensures FullInv(Easy(), s) && |s.blocks| == 2 && |entries| == 3 && PoolOk(Easy(), entries, 3)
    ensures forall e :: e in entries ==> (Held(Easy(), s.blocks, e) <==> e == entries[0])
    ensures NothingAdoptable(Easy(), s, entries)
    ensures Adoptable(Easy(), s, 1, BlocksOf(entries[1..])) && !NothingAdoptable(Easy(), s, entries[1..])
  {
    hide FullInv, AddAll, Rollback, Collected, Adoptable, NothingAdoptable;
    var a, b;
    s, a, b := TwoRivals();
    entries := Hidden(s.blocks[1], a, b);
    HiddenCollects(s.blocks[1], a, b);
    RivalsWin(s, a, b);
    NothingElse(s, entries);
    assert BlocksOf(entries[1..]) == [a, b];
    Uncovered(s, entries);
  }

  lemma TwoRivals() returns (s: State, a: Block, b: Block)
    ensures FullInv(Easy(), s) && AddAll(Easy(), Rollback(Easy(), s, 1), [a, b]).ok && |s.blocks| == 2
    ensures s.blocks[0].header == NextHeader(0) && s.blocks[1].header == ShortHeader(1, 0, 0)
    ensures a.header == ShortHeader(1, 1, 0) && b.header == ShortHeader(2, 1, 3)
  {
    hide FullInv, Add, AddAll, Rollback;
    var first := FirstMinerBalance();
    assert first.blocks[0].header == HeadersOf(first.blocks)[0];
    ShortJoins(first, 0);
    s := Add(Easy(), first, ShortBlock(first, 0)).state;
    var low := Rollback(Easy(), s, 1);
    FirstSupply(first);
    BackToFirst(first, s);
    SameChainFull(Easy(), first, low);
    ShortJoins(low, 1);
    a := ShortBlock(low, 1);
    var mid := Add(Easy(), low, a).state;
    ShortJoins(mid, 1);
    b := ShortBlock(mid, 1);
    TwoJoin(Easy(), low, a, b);
  }

  lemma FirstSupply(s: State)
    requires s == Add(Easy(), GENESIS, MinedBlock(GENESIS)).state && Add(Easy(), GENESIS, MinedBlock(GENESIS)).ok
    ensures s.supply == GENESIS.reward
  {
    hide HeaderOk, BodyOk, LedgerTxs, PoolWithout, RewardAt;
    var txs := MinedBlock(GENESIS).txs;
    assert txs[..|txs| - 1] == [];
  }

  lemma TwoJoin(c: Crypto, s: State, a: Block, b: Block)
    requires Add(c, s, a).ok && Add(c, Add(c, s, a).state, b).ok
    ensures AddAll(c, s, [a, b]).ok
  {
    hide Add;
    assert [a, b][..1] == [a] && [a][..0] == [];
    assert AddAll(c, s, []) == Step(true, s);
    assert AddAll(c, s, [a]) == Add(c, s, a);
  }

  lemma RivalsWin(s: State, a: Block, b: Block)
    requires |s.blocks| == 2 && s.blocks[0].header == NextHeader(0) && s.blocks[1].header == ShortHeader(1, 0, 0)
    requires a.header == ShortHeader(1, 1, 0) && b.header == ShortHeader(2, 1, 3)
    requires AddAll(Easy(), Rollback(Easy(), s, 1), [a, b]).ok
    ensures Adoptable(Easy(), s, 1, [a, b])
  {
    hide AddAll, Rollback, BlockWork, WorkSum;
    InitialWork([a, b]);
    InitialWork(s.blocks[1..]);
    var branch := [a, b];
    forall i | 0 <= i < |branch| ensures LinkedAt(Easy(), s.blocks[0].header, 1, branch, i) {}
  }

  // With the duplicate in front, the only branch is the chain's own block.
  lemma NothingElse(s: State, entries: seq<Orphan>)
    requires |s.blocks| == 2 && s.blocks[0].header == NextHeader(0) && s.blocks[1].header == ShortHeader(1, 0, 0)
    requires |entries| == 3 && entries[0].block == s.blocks[1]
    requires Collected(entries, entries[..1], 1, 0) && Collected(entries, [], 2, 2)
    ensures NothingAdoptable(Easy(), s, entries)
  {
    hide Collected, AddAll, Rollback, BlockWork, WorkSum;
    forall fork: nat, branch |
      0 < fork <= |s.blocks| && branch != [] && Collected(entries, branch, fork, HashBelow(Easy(), s.blocks, fork))
      ensures !Adoptable(Easy(), s, fork, BlocksOf(branch))
    {
      if fork == 1 {
        CollectedUnique(entries, entries[..1], branch, 1, 0);
        assert BlocksOf(branch) == s.blocks[1..];
      } else {
        CollectedUnique(entries, [], branch, 2, 2);
      }
    }
  }

  lemma Uncovered(s: State, entries: seq<Orphan>)
    requires |s.blocks| == 2 && s.blocks[0].header == NextHeader(0) && |entries| == 3
    requires Collected(entries[1..], entries[1..], 1, 0) && Adoptable(Easy(), s, 1, BlocksOf(entries[1..]))
    ensures !NothingAdoptable(Easy(), s, entries[1..])
  {
    hide Collected, Adoptable;
    assert HashBelow(Easy(), s.blocks, 1) == 0;
  }
}
