/**
 Runs that attach pooled blocks: appends to the tip and branch swaps.  What they do to the
 cumulative work, and what a caller can check before such a run to know that it will not lower it.
 */
module AttachRuns {
  import opened Words
  import opened Transactions
  import opened Ledger
  import opened Targets
  import opened Emission
  import opened DagVotes
  import opened Protocol
  import opened Reorg
  import opened History

  // ---------- what an attach step does to cumulative work ----------

  lemma AcceptedTargetHasWork(headers: seq<Header>)
    ensures BlockWork(TargetFor(headers, |headers|)).Some? && BlockWork(TargetFor(headers, |headers|)).value >= 2
  {
    hide BlockWork, TargetAfter, TargetValue, Normal;
    var k := |headers| / ADJUSTMENT_INTERVAL;
    ReachableTargetNormal(headers, k);
    WorkOfTarget(TargetAfter(headers, k));
  }

  lemma WorkOfTarget(bits: u32)
    requires TargetValue(bits).Some? && TargetValue(bits).value >= 1
    ensures BlockWork(bits).Some? && BlockWork(bits).value >= 2
  {
    hide TargetValue;
    TargetValueBound(bits);
    WorkAntitone(bits, bits);
  }

  // A pushed block raises the work, accepted or not; a refused one changes nothing.
  lemma AddNeverLowersWork(c: Crypto, s: State, b: Block)
    ensures Add(c, s, b) == Step(false, s) || ChainWork(Add(c, s, b).state.blocks) > ChainWork(s.blocks)
    ensures Add(c, s, b).ok ==> Add(c, s, b).state.blocks == s.blocks + [b]
  {
    hide BodyOk, LedgerTxs, RewardAt, PoolWithout, FeeSum, PowOk, TargetFor, BlockWork;
    AcceptedTargetHasWork(HeadersOf(s.blocks));
    assert (s.blocks + [b])[..|s.blocks|] == s.blocks;
  }

  // ---------- attach runs ----------

  function Accepted(c: Crypto, s: State, op: Op): nat {
    match op
    case Append(b) => if Add(c, s, b).ok then 1 else 0
    case RollbackTo(_) => 0
    case Swap(fork, branch, gate) => if Replace(c, s, fork, branch, gate).ok then |branch| else 0
  }

  // How many blocks the run put on the chain.
  function Attached(c: Crypto, s: State, ops: seq<Op>): nat {
    if ops == [] then 0
    else Attached(c, s, ops[..|ops| - 1]) + Accepted(c, From(c, s, ops[..|ops| - 1]), ops[|ops| - 1])
  }

  predicate OpUses(op: Op, blocks: seq<Block>) {
    match op
    case Append(b) => b in blocks
    case RollbackTo(_) => false
    case Swap(_, branch, _) => forall i :: 0 <= i < |branch| ==> branch[i] in blocks
  }

  // An attach run only appends and swaps, and only blocks out of the pool.
  predicate Uses(ops: seq<Op>, blocks: seq<Block>) {
    forall i :: 0 <= i < |ops| ==> OpUses(ops[i], blocks)
  }

  // The reward is the one the chain determines, and every pooled block names its recipients.
  ghost predicate Calm(c: Crypto, s: State, pool: seq<Block>) {
    FullInv(c, s) && NameRecipients(pool)
  }

  predicate NameRecipients(blocks: seq<Block>) {
    forall b :: b in blocks ==> SecondRecipientsOk(b.txs)
  }

  lemma AttachStep(c: Crypto, s: State, op: Op)
    requires FullInv(c, s) && SteadyAt(c, s, op) && !op.RollbackTo? && (op.Append? ==> SecondRecipientsOk(op.block.txs))
    ensures var t := Perform(c, s, op);
            FullInv(c, t) && ChainWork(t.blocks) >= ChainWork(s.blocks) &&
            (Accepted(c, s, op) > 0 ==> ChainWork(t.blocks) > ChainWork(s.blocks))
  {
    hide FullInv, Replace, Add, Restorable, SwapAllowed, ChainWork, SecondRecipientsOk;
    PerformKeepsFull(c, s, op);
    match op
    case Append(b) => AddNeverLowersWork(c, s, b);
    case Swap(fork, branch, gate) => SwapIsAllOrNothing(c, s, fork, branch, gate);
  }

  predicate NoRollbacks(ops: seq<Op>) { forall i :: 0 <= i < |ops| ==> !ops[i].RollbackTo? }

  /** No attach run lowers the cumulative work, and one that attaches anything raises it. */
  lemma {:induction false} AttachNeverLowersWork(c: Crypto, s: State, ops: seq<Op>)
    requires FullInv(c, s) && Steady(c, s, ops) && AppendsNameRecipients(ops) && NoRollbacks(ops)
    ensures var t := From(c, s, ops);
            FullInv(c, t) && ChainWork(t.blocks) >= ChainWork(s.blocks) &&
            (Attached(c, s, ops) > 0 ==> ChainWork(t.blocks) > ChainWork(s.blocks))
  {
    hide FullInv, Perform, SteadyAt, SecondRecipientsOk, ChainWork, Accepted;
    if ops != [] {
      var before := ops[..|ops| - 1];
      SteadyPrefix(c, s, ops, |before|);
      AttachNeverLowersWork(c, s, before);
      AttachStep(c, From(c, s, before), ops[|ops| - 1]);
    }
  }

  // Operations on pooled blocks that name their recipients.
  lemma PoolRun(ops: seq<Op>, pool: seq<Block>)
    requires Uses(ops, pool) && NameRecipients(pool)
    ensures AppendsNameRecipients(ops) && NoRollbacks(ops)
  {
    hide SecondRecipientsOk;
    forall i | 0 <= i < |ops| ensures !ops[i].RollbackTo? && (ops[i].Append? ==> SecondRecipientsOk(ops[i].block.txs)) {
      assert OpUses(ops[i], pool);
    }
  }

  // A run that is steady, or in phase one before each operation.
  ghost predicate Undisturbed(c: Crypto, s: State, ops: seq<Op>) {
    Steady(c, s, ops) || PhaseOneBefore(c, s, ops)
  }

  lemma UndisturbedWork(c: Crypto, s: State, ops: seq<Op>, pool: seq<Block>)
    requires Calm(c, s, pool) && Uses(ops, pool) && Undisturbed(c, s, ops)
    ensures Steady(c, s, ops)
    ensures var t := From(c, s, ops);
            FullInv(c, t) && ChainWork(t.blocks) >= ChainWork(s.blocks) &&
            (Attached(c, s, ops) > 0 ==> ChainWork(t.blocks) > ChainWork(s.blocks))
  {
    hide FullInv, From, Steady, PhaseOneBefore, ChainWork, Attached, AppendsNameRecipients, NoRollbacks, Uses;
    hide NameRecipients;
    PoolRun(ops, pool);
    if !Steady(c, s, ops) { PhaseOneRuns(c, s, ops); }
    AttachNeverLowersWork(c, s, ops);
  }

  /** Extending the tip raises the work by every block attached, whatever the pool holds. */
  lemma {:induction false} AppendsRaiseWork(c: Crypto, s: State, ops: seq<Op>)
    requires forall i :: 0 <= i < |ops| ==> ops[i].Append?
    ensures ChainWork(From(c, s, ops).blocks) >= ChainWork(s.blocks) + Attached(c, s, ops)
  {
    hide ChainWork, Add;
    if ops != [] {
      var before := ops[..|ops| - 1];
      AppendsRaiseWork(c, s, before);
      AddNeverLowersWork(c, From(c, s, before), ops[|ops| - 1].block);
    }
  }

  lemma {:induction false} FromConcat(c: Crypto, s: State, a: seq<Op>, b: seq<Op>)
    ensures From(c, s, a + b) == From(c, From(c, s, a), b)
    ensures Attached(c, s, a + b) == Attached(c, s, a) + Attached(c, From(c, s, a), b)
    decreases |b|
  {
    hide Perform, Accepted;
    if b == [] {
      assert a + b == a;
    } else {
      FromConcat(c, s, a, b[..|b| - 1]);
      assert (a + b)[..|a + b| - 1] == a + b[..|b| - 1];
    }
  }

  lemma EmptyRun(c: Crypto, s: State, pool: seq<Block>)
    ensures From(c, s, []) == s && Attached(c, s, []) == 0 && Uses([], pool)
  {
  }

  lemma FromOne(c: Crypto, s: State, ops: seq<Op>, op: Op)
    ensures From(c, s, ops + [op]) == Perform(c, From(c, s, ops), op)
    ensures Attached(c, s, ops + [op]) == Attached(c, s, ops) + Accepted(c, From(c, s, ops), op)
  {
    hide Perform, Accepted;
    assert (ops + [op])[..|ops|] == ops;
  }

  // Every operation of the run is a swap that fails.
  predicate Fruitless(c: Crypto, s: State, ops: seq<Op>) {
    forall k :: 0 <= k < |ops| ==> ops[k].Swap? && !Performed(c, From(c, s, ops[..k]), ops[k])
  }

  lemma FailedStep(c: Crypto, s: State, op: Op)
    requires FullInv(c, s) && op.Swap? && SteadyAt(c, s, op) && !Performed(c, s, op)
    ensures FullInv(c, Perform(c, s, op)) && SameChain(Perform(c, s, op), s)
  {
    hide FullInv, Replace, Restorable, SwapAllowed, ChainWork, SameChain;
    SwapIsAllOrNothing(c, s, op.fork, op.branch, op.gate);
  }

  lemma FruitlessPrefix(c: Crypto, s: State, ops: seq<Op>, n: nat)
    requires Fruitless(c, s, ops) && n <= |ops|
    ensures Fruitless(c, s, ops[..n])
  {
    hide Performed, From;
    forall k | 0 <= k < n ensures ops[..n][k].Swap? && !Performed(c, From(c, s, ops[..n][..k]), ops[..n][k]) {
      assert ops[..n][..k] == ops[..k];
    }
  }

  lemma FruitlessPush(c: Crypto, s: State, ops: seq<Op>, op: Op)
    requires Fruitless(c, s, ops) && op.Swap? && !Performed(c, From(c, s, ops), op)
    ensures Fruitless(c, s, ops + [op])
  {
    hide Performed, From;
    forall k | 0 <= k <= |ops|
      ensures (ops + [op])[k].Swap? && !Performed(c, From(c, s, (ops + [op])[..k]), (ops + [op])[k])
    {
      assert (ops + [op])[..k] == ops[..k];
      if k == |ops| { assert ops[..k] == ops; }
    }
  }

  // A steady run of swaps that adopts nothing leaves the chain alone.
  lemma {:induction false} FruitlessSwaps(c: Crypto, s: State, ops: seq<Op>)
    requires FullInv(c, s) && Steady(c, s, ops) && Fruitless(c, s, ops)
    ensures FullInv(c, From(c, s, ops)) && SameChain(From(c, s, ops), s)
  {
    hide FullInv, Perform, Performed, SteadyAt;
    if ops != [] {
      var n := |ops| - 1;
      SteadyPrefix(c, s, ops, n);
      FruitlessPrefix(c, s, ops, n);
      FruitlessSwaps(c, s, ops[..n]);
      FailedStep(c, From(c, s, ops[..n]), ops[n]);
    }
  }

  predicate Performed(c: Crypto, s: State, op: Op) {
    op.Swap? && Replace(c, s, op.fork, op.branch, op.gate).ok
  }

  // The last pass: once its swaps have all failed, the chain is where the appends had left it.
  lemma StillExhausted(c: Crypto, s: State, a: seq<Op>, b: seq<Op>, pool: seq<Block>)
    requires FullInv(c, s) && Steady(c, s, a + b) && Uses(a + b, pool) && NameRecipients(pool)
    requires Fruitless(c, From(c, s, a), b)
    ensures From(c, s, a + b).blocks == From(c, s, a).blocks
  {
    hide FullInv, From, Attached, Steady, Fruitless, NameRecipients, ChainWork, OpUses, AppendsNameRecipients;
    hide NoRollbacks;
    SteadyPrefix(c, s, a + b, |a|);
    assert (a + b)[..|a|] == a;
    assert Uses(a, pool) by { assert forall i :: 0 <= i < |a| ==> a[i] == (a + b)[i]; }
    PoolRun(a, pool);
    AttachNeverLowersWork(c, s, a);
    SteadySuffix(c, s, a, b);
    FruitlessSwaps(c, From(c, s, a), b);
    FromConcat(c, s, a, b);
  }

  lemma SteadySuffix(c: Crypto, s: State, a: seq<Op>, b: seq<Op>)
    requires Steady(c, s, a + b)
    ensures Steady(c, From(c, s, a), b)
  {
    hide SteadyAt, From;
    forall i | 0 <= i < |b| ensures SteadyAt(c, From(c, From(c, s, a), b[..i]), b[i]) {
      FromConcat(c, s, a, b[..i]);
      assert a + b[..i] == (a + b)[..|a| + i];
      assert b[i] == (a + b)[|a| + i];
    }
  }

  lemma UsesConcat(a: seq<Op>, b: seq<Op>, small: seq<Block>, pool: seq<Block>)
    requires Uses(a, pool) && Uses(b, small) && (forall b :: b in small ==> b in pool)
    ensures Uses(a + b, pool)
  {
    forall i | 0 <= i < |a + b| ensures OpUses((a + b)[i], pool) {
      if i < |a| { assert OpUses(a[i], pool); } else { assert OpUses(b[i - |a|], small); }
    }
  }

  // ---------- what a caller can check before an attach run ----------

  // Pooled block numbers an append or a swap can use without passing an epoch boundary.
  predicate InEpoch(k: nat, pool: seq<Block>) {
    forall b :: b in pool ==>
      k * EPOCH_LENGTH <= b.header.blockNumber && b.header.blockNumber + 1 < (k + 1) * EPOCH_LENGTH
  }

  // What an allowed swap says about its candidate's numbers.
  lemma SwapNumbers(c: Crypto, blocks: seq<Block>, fork: nat, branch: seq<Block>, gate: bool)
    requires SwapAllowed(c, blocks, fork, branch, gate)
    ensures branch != [] && 0 < fork <= |blocks|
    ensures forall i :: 0 <= i < |branch| ==> branch[i].header.blockNumber == fork + i
  {
    hide WorkSum;
    forall i | 0 <= i < |branch| ensures branch[i].header.blockNumber == fork + i {
      assert LinkedAt(c, blocks[fork - 1].header, fork, branch, i);
    }
  }

  // An append that changes anything pushed a block of the next number.
  lemma AppendNumber(c: Crypto, s: State, b: Block)
    ensures Add(c, s, b) == Step(false, s) ||
            (Add(c, s, b).state.blocks == s.blocks + [b] && b.header.blockNumber == |s.blocks|)
  {
    hide PowOk, TargetFor, BodyOk, LedgerTxs, RewardAt, PoolWithout, FeeSum;
  }

  lemma EpochStep(c: Crypto, s: State, op: Op, pool: seq<Block>, k: nat)
    requires Calm(c, s, pool) && OpUses(op, pool) && InEpoch(k, pool) && |s.blocks| / EPOCH_LENGTH == k
    ensures SteadyAt(c, s, op)
    ensures Calm(c, Perform(c, s, op), pool) && |Perform(c, s, op).blocks| / EPOCH_LENGTH == k
  {
    hide FullInv, Add, Replace, SwapAllowed, Restorable, SecondRecipientsOk, ChainWork;
    match op
    case Append(b) =>
      AppendNumber(c, s, b);
      PerformKeepsFull(c, s, op);
      NextInEpoch(|s.blocks|, k);
    case Swap(fork, branch, gate) =>
      if SwapAllowed(c, s.blocks, fork, branch, gate) {
        SwapNumbers(c, s.blocks, fork, branch, gate);
        var last: int := branch[|branch| - 1].header.blockNumber;
        assert branch[0] in pool && branch[|branch| - 1] in pool;
        QuotientIs(fork, k);
        QuotientIs(last, k);
        QuotientIs(last + 1, k);
        SameEpochIsRestorable(c, s, fork, |branch|);
      }
      SwapIsAllOrNothing(c, s, fork, branch, gate);
      UnallowedSwap(c, s, fork, branch, gate);
  }

  lemma SameEpochIsRestorable(c: Crypto, s: State, fork: nat, count: nat)
    requires FullInv(c, s) && fork <= |s.blocks| && count > 0
    requires fork / EPOCH_LENGTH == |s.blocks| / EPOCH_LENGTH == (fork + count - 1) / EPOCH_LENGTH
    ensures Restorable(s, fork, count)
  {
    hide FullInv, Memoryless, SupplyAfter, ForkReward;
    SameEpochIsRecoverable(c, s, fork);
  }

  lemma UnallowedSwap(c: Crypto, s: State, fork: nat, branch: seq<Block>, gate: bool)
    ensures !SwapAllowed(c, s.blocks, fork, branch, gate) ==> Replace(c, s, fork, branch, gate) == Step(false, s)
  {
    hide SwapAllowed, AddAll, Rollback;
  }

  lemma QuotientIs(n: nat, k: nat)
    requires k * EPOCH_LENGTH <= n < (k + 1) * EPOCH_LENGTH
    ensures n / EPOCH_LENGTH == k
  {
  }

  lemma NextInEpoch(n: nat, k: nat)
    requires n / EPOCH_LENGTH == k
    ensures n + 1 < (k + 1) * EPOCH_LENGTH ==> (n + 1) / EPOCH_LENGTH == k
  {
  }

  /** If every pooled block lies in the tip's epoch, below its last two heights, then every attach run
      is steady, in phase one or after it. */
  lemma {:induction false} EpochRuns(c: Crypto, s: State, ops: seq<Op>, pool: seq<Block>)
    requires Calm(c, s, pool) && Uses(ops, pool) && InEpoch(|s.blocks| / EPOCH_LENGTH, pool)
    ensures Steady(c, s, ops) && Calm(c, From(c, s, ops), pool)
    ensures |From(c, s, ops).blocks| / EPOCH_LENGTH == |s.blocks| / EPOCH_LENGTH
  {
    hide Calm, Perform, SteadyAt, OpUses, InEpoch;
    if ops != [] {
      var n := |ops| - 1;
      EpochRuns(c, s, ops[..n], pool);
      EpochStep(c, From(c, s, ops[..n]), ops[n], pool, |s.blocks| / EPOCH_LENGTH);
      SteadyPush(c, s, ops);
    }
  }

  lemma SteadyPush(c: Crypto, s: State, ops: seq<Op>)
    requires ops != [] && Steady(c, s, ops[..|ops| - 1])
    requires SteadyAt(c, From(c, s, ops[..|ops| - 1]), ops[|ops| - 1])
    ensures Steady(c, s, ops)
  {
    hide SteadyAt, From;
    var before := ops[..|ops| - 1];
    forall k | 0 <= k < |ops| ensures SteadyAt(c, From(c, s, ops[..k]), ops[k]) {
      if k < |before| {
        assert before[..k] == ops[..k];
        assert SteadyAt(c, From(c, s, before[..k]), before[k]);
      }
    }
  }

  // ---------- phase one, known before the run ----------

  // Everything the pooled blocks could mint.
  function Minted(pool: seq<Block>): nat {
    if pool == [] then 0 else Minted(pool[..|pool| - 1]) + CoinbaseSum(pool[|pool| - 1].txs)
  }

  // The lowest height a run can bring the chain to.
  function Lowest(n: nat, pool: seq<Block>): nat {
    if pool == [] then n else Min(Lowest(n, pool[..|pool| - 1]), pool[|pool| - 1].header.blockNumber)
  }

  // Even with all pooled coinbases minted at the lowest height, the chain would be in phase one.
  predicate DeepInPhaseOne(s: State, pool: seq<Block>) {
    && PhaseOne(s.supply + Minted(pool), Lowest(|s.blocks|, pool))
    && |s.blocks| < PHASE_ONE_BLOCKS
    && forall b :: b in pool ==> b.header.blockNumber + 1 < PHASE_ONE_BLOCKS
  }

  lemma {:induction false} LowestBounds(n: nat, pool: seq<Block>)
    ensures Lowest(n, pool) <= n
    ensures forall b :: b in pool ==> Lowest(n, pool) <= b.header.blockNumber
  {
    if pool != [] {
      LowestBounds(n, pool[..|pool| - 1]);
      assert pool == pool[..|pool| - 1] + [pool[|pool| - 1]];
    }
  }

  // Each block is the base chain's own at its height, or a pooled one of that number.
  predicate Assembled(base: seq<Block>, pool: seq<Block>, blocks: seq<Block>) {
    forall i :: 0 <= i < |blocks| ==>
      (i < |base| && blocks[i] == base[i]) || (blocks[i] in pool && blocks[i].header.blockNumber == i)
  }

  // What the pooled blocks below a height could mint.
  function MintedBelow(pool: seq<Block>, n: nat): nat {
    if pool == [] then 0 else
    var last := pool[|pool| - 1];
    MintedBelow(pool[..|pool| - 1], n) + if last.header.blockNumber < n then CoinbaseSum(last.txs) else 0
  }

  lemma {:induction false} MintedBelowGrows(pool: seq<Block>, n: nat)
    ensures MintedBelow(pool, n) <= MintedBelow(pool, n + 1) <= Minted(pool)
    ensures MintedBelow(pool, n) <= Minted(pool)
    ensures forall b :: b in pool && b.header.blockNumber == n ==>
              MintedBelow(pool, n) + CoinbaseSum(b.txs) <= MintedBelow(pool, n + 1)
  {
    hide CoinbaseSum;
    if pool != [] {
      MintedBelowGrows(pool[..|pool| - 1], n);
      assert pool == pool[..|pool| - 1] + [pool[|pool| - 1]];
    }
  }

  // An assembled chain has minted at most what its base and its pool could.
  lemma {:induction false} AssembledSupply(base: seq<Block>, pool: seq<Block>, blocks: seq<Block>, n: nat)
    requires Assembled(base, pool, blocks) && n <= |blocks|
    ensures SupplyAfter(blocks[..n]) <= SupplyAfter(base[..Min(n, |base|)]) + MintedBelow(pool, n)
  {
    hide CoinbaseSum, MintedBelow;
    if n > 0 {
      AssembledSupply(base, pool, blocks, n - 1);
      MintedBelowGrows(pool, n - 1);
      SupplyStep(blocks, n);
      if n <= |base| { SupplyStep(base, n); }
    }
  }

  lemma SupplyStep(blocks: seq<Block>, n: nat)
    requires 0 < n <= |blocks|
    ensures SupplyAfter(blocks[..n]) == SupplyAfter(blocks[..n - 1]) + CoinbaseSum(blocks[n - 1].txs)
  {
    hide CoinbaseSum;
    assert blocks[..n][..n - 1] == blocks[..n - 1];
  }

  // A state that a run from s out of this pool can be in.
  ghost predicate Derived(c: Crypto, s: State, pool: seq<Block>, t: State) {
    && Calm(c, t, pool) && Assembled(s.blocks, pool, t.blocks)
    && Lowest(|s.blocks|, pool) <= |t.blocks| < PHASE_ONE_BLOCKS
  }

  lemma DerivedIsPhaseOne(c: Crypto, s: State, pool: seq<Block>, t: State)
    requires FullInv(c, s) && DeepInPhaseOne(s, pool) && Derived(c, s, pool, t)
    ensures PhaseOneState(t)
  {
    hide FullInv, LedgerInv, ChainOk, RewardsOk, RewardAfter, SupplyAfter, PhaseOne, Minted, MintedBelow, Lowest;
    hide Assembled, OnCurve, FeesOf, NameRecipients, Emit;
    FullInvReward(c, s);
    FullInvReward(c, t);
    AssembledSupply(s.blocks, pool, t.blocks, |t.blocks|);
    assert t.blocks[..|t.blocks|] == t.blocks;
    SupplyGrowsWith(s.blocks, Min(|t.blocks|, |s.blocks|));
    MintedBelowGrows(pool, |t.blocks|);
    ChainFollowsEmission(t.blocks);
    RunOnCurve(FeesOf(t.blocks), 0);
    PhaseOneSpreads(s.supply + Minted(pool), Lowest(|s.blocks|, pool), t.supply, |t.blocks|);
  }

  lemma AssembledPush(base: seq<Block>, pool: seq<Block>, blocks: seq<Block>, b: Block)
    requires Assembled(base, pool, blocks) && b in pool && b.header.blockNumber == |blocks|
    ensures Assembled(base, pool, blocks + [b])
  {
  }

  lemma AssembledSwap(base: seq<Block>, pool: seq<Block>, blocks: seq<Block>, fork: nat, branch: seq<Block>)
    requires Assembled(base, pool, blocks) && fork <= |blocks|
    requires forall i :: 0 <= i < |branch| ==> branch[i] in pool && branch[i].header.blockNumber == fork + i
    ensures Assembled(base, pool, blocks[..fork] + branch)
  {
    var after := blocks[..fork] + branch;
    forall i | 0 <= i < |after|
      ensures (i < |base| && after[i] == base[i]) || (after[i] in pool && after[i].header.blockNumber == i)
    {
      if i < fork { assert after[i] == blocks[i]; } else { assert after[i] == branch[i - fork]; }
    }
  }

  lemma PhaseStep(c: Crypto, s: State, pool: seq<Block>, t: State, op: Op)
    requires FullInv(c, s) && DeepInPhaseOne(s, pool) && Derived(c, s, pool, t) && OpUses(op, pool)
    ensures SteadyAt(c, t, op) && Derived(c, s, pool, Perform(c, t, op))
  {
    hide FullInv, Add, Replace, SwapAllowed, Restorable, SecondRecipientsOk, ChainWork, PhaseOne, Minted;
    hide Lowest, Assembled;
    DerivedIsPhaseOne(c, s, pool, t);
    PhaseOneIsSteady(c, t, op);
    LowestBounds(|s.blocks|, pool);
    PerformKeepsFull(c, t, op);
    match op
    case Append(b) =>
      AppendNumber(c, t, b);
      if b.header.blockNumber == |t.blocks| { AssembledPush(s.blocks, pool, t.blocks, b); }
    case Swap(fork, branch, gate) =>
      SwapIsAllOrNothing(c, t, fork, branch, gate);
      UnallowedSwap(c, t, fork, branch, gate);
      if SwapAllowed(c, t.blocks, fork, branch, gate) {
        SwapNumbers(c, t.blocks, fork, branch, gate);
        assert branch[0] in pool && branch[|branch| - 1] in pool;
        AssembledSwap(s.blocks, pool, t.blocks, fork, branch);
      }
  }

  /** If the chain would still be in phase one with everything pooled minted at the lowest pooled
      height, then every attach run is steady. */
  lemma {:induction false} DeepRuns(c: Crypto, s: State, ops: seq<Op>, pool: seq<Block>)
    requires Calm(c, s, pool) && Uses(ops, pool) && DeepInPhaseOne(s, pool)
    ensures Steady(c, s, ops) && Derived(c, s, pool, From(c, s, ops))
  {
    hide Derived, Perform, SteadyAt, OpUses, DeepInPhaseOne, FullInv, NameRecipients;
    if ops == [] {
      DerivedFromItself(c, s, pool);
    } else {
      var n := |ops| - 1;
      DeepRuns(c, s, ops[..n], pool);
      PhaseStep(c, s, pool, From(c, s, ops[..n]), ops[n]);
      SteadyPush(c, s, ops);
    }
  }

  lemma DerivedFromItself(c: Crypto, s: State, pool: seq<Block>)
    requires Calm(c, s, pool) && DeepInPhaseOne(s, pool)
    ensures Derived(c, s, pool, s)
  {
    hide FullInv, NameRecipients, PhaseOne;
    LowestBounds(|s.blocks|, pool);
  }

  // What a caller can check: one epoch, or deep in phase one.
  predicate SafePool(s: State, pool: seq<Block>) {
    InEpoch(|s.blocks| / EPOCH_LENGTH, pool) || DeepInPhaseOne(s, pool)
  }

  /** Before the run: from a chain with its own reward, out of a safe pool that names its recipients,
      every run of appends and swaps is steady, never lowers the cumulative work, and raises it if it
      attaches anything. */
  lemma SafeRuns(c: Crypto, s: State, ops: seq<Op>, pool: seq<Block>)
    requires Calm(c, s, pool) && SafePool(s, pool) && Uses(ops, pool)
    ensures Steady(c, s, ops)
    ensures var t := From(c, s, ops);
            FullInv(c, t) && ChainWork(t.blocks) >= ChainWork(s.blocks) &&
            (Attached(c, s, ops) > 0 ==> ChainWork(t.blocks) > ChainWork(s.blocks))
  {
    hide FullInv, NameRecipients, From, Steady, Uses, InEpoch, DeepInPhaseOne, Derived, ChainWork, Attached;
    hide PhaseOneBefore;
    if InEpoch(|s.blocks| / EPOCH_LENGTH, pool) { EpochRuns(c, s, ops, pool); } else { DeepRuns(c, s, ops, pool); }
    UndisturbedWork(c, s, ops, pool);
  }

  lemma SafeIsUndisturbed(c: Crypto, s: State, ops: seq<Op>, pool: seq<Block>)
    requires Calm(c, s, pool) && SafePool(s, pool) && Uses(ops, pool)
    ensures Undisturbed(c, s, ops)
  {
    hide Calm, SafePool, Uses, Steady, FullInv, ChainWork, Attached, From;
    SafeRuns(c, s, ops, pool);
  }
}
