/**
 Where restoration ends: after phase one each epoch pays more than the one before, so every rollback
 over an epoch boundary loses the reward and every failed swap over one truncates the chain.
 */
module Limits {
  import opened Words
  import opened Transactions
  import opened Ledger
  import opened Targets
  import opened Emission
  import opened Protocol
  import opened Reorg

  // ---------- the reward after phase one ----------

  lemma PastCap(blocks: seq<Block>, n: nat)
    requires RewardsOk(blocks) && PHASE_ONE_BLOCKS <= n <= |blocks|
    ensures SupplyAfter(blocks[..n]) >= MONEY_CAP && !PhaseOne(SupplyAfter(blocks[..n]), n)
  {
    hide RewardsOk, SupplyAfter, RewardAfter, FeesOf, Emit, CurveReward;
    RewardsOkPrefix(blocks, n);
    ChainFollowsEmission(blocks[..n]);
    CapReached(FeesOf(blocks[..n]), 0);
  }

  const FIRST_EPOCH: nat := 9      // the first one that begins after phase one
  const LAST_EPOCH: nat := 66      // beyond it 1.5% of the supply may exceed 64 bits

  function EpochBase(blocks: seq<Block>, k: nat): u64
    requires k * EPOCH_LENGTH <= |blocks|
  {
    EpochReward(SupplyAfter(blocks[..k * EPOCH_LENGTH]))
  }

  // Within an epoch the reward is the one its first height set.
  lemma {:induction false} RewardInEpoch(blocks: seq<Block>, n: nat)
    requires RewardsOk(blocks) && FIRST_EPOCH * EPOCH_LENGTH <= n <= |blocks|
    ensures RewardAfter(blocks[..n]) == EpochBase(blocks, n / EPOCH_LENGTH)
  {
    hide RewardsOk, SupplyAfter, EpochReward, RewardAt, PhaseOne;
    PastCap(blocks, n);
    var kept, hidden := blocks[..n], RewardAfter(blocks[..n - 1]);
    assert kept[..n - 1] == blocks[..n - 1];
    SettledReward(SupplyAfter(kept), n, hidden) by { RewardAtLeastTail(blocks[..n - 1]); }
    if n % EPOCH_LENGTH != 0 {
      assert (n - 1) / EPOCH_LENGTH == n / EPOCH_LENGTH;
      RewardInEpoch(blocks, n - 1);
    }
  }

  lemma {:induction false} SupplyOverEpoch(blocks: seq<Block>, k: nat, j: nat)
    requires RewardsOk(blocks) && FIRST_EPOCH <= k && j <= EPOCH_LENGTH && k * EPOCH_LENGTH + j <= |blocks|
    ensures SupplyAfter(blocks[..k * EPOCH_LENGTH + j]) >=
            SupplyAfter(blocks[..k * EPOCH_LENGTH]) + j * EpochBase(blocks, k)
  {
    hide RewardsOk, EpochReward, RewardAfter, CoinbaseSum, FeeSum;
    if j > 0 {
      var m := k * EPOCH_LENGTH + j - 1;
      SupplyOverEpoch(blocks, k, j - 1);
      assert blocks[..m + 1][..m] == blocks[..m];
      RewardsOkPrefix(blocks, m);
      assert m / EPOCH_LENGTH == k;
      RewardInEpoch(blocks, m);
      assert j * EpochBase(blocks, k) == (j - 1) * EpochBase(blocks, k) + EpochBase(blocks, k);
    }
  }

  // Minting an epoch's reward for an epoch raises the next one.
  lemma EpochRewardGrows(supply: nat, later: nat)
    requires MONEY_CAP <= supply && supply + EPOCH_LENGTH * EpochReward(supply) <= later
    requires later <= LAST_EPOCH * EPOCH_LENGTH * (TWO_64 - 1)
    ensures EpochReward(supply) < EpochReward(later)
  {
    PlainEpochReward(supply);
    PlainEpochReward(later);
  }

  lemma PlainEpochReward(supply: nat)
    requires MONEY_CAP <= supply <= LAST_EPOCH * EPOCH_LENGTH * (TWO_64 - 1)
    ensures EpochReward(supply) == supply * 15 / 350_000_000 >= TAIL_EMISSION
  {
    assert supply * 15 < TWO_256;
    assert supply * 15 / 350_000_000 < TWO_64;
  }

  lemma {:induction false} EpochRewardsIncrease(c: Crypto, blocks: seq<Block>, j: nat, k: nat)
    requires ChainOk(c, blocks) && RewardsOk(blocks)
    requires FIRST_EPOCH <= j < k <= LAST_EPOCH && k * EPOCH_LENGTH <= |blocks|
    ensures EpochBase(blocks, j) < EpochBase(blocks, k)
    decreases k
  {
    hide ChainOk, RewardsOk, EpochReward, SupplyAfter, Total, SheetAfter, FeesPaid;
    var i := k - 1;
    var lo, hi := i * EPOCH_LENGTH, k * EPOCH_LENGTH;
    assert hi == lo + EPOCH_LENGTH;
    PastCap(blocks, lo);
    SupplyOverEpoch(blocks, i, EPOCH_LENGTH);
    PrefixOk(c, blocks, hi);
    MoneyConserved(c, blocks[..hi]);
    ScaleMonotone(hi, LAST_EPOCH * EPOCH_LENGTH, TWO_64 - 1);
    EpochRewardGrows(SupplyAfter(blocks[..lo]), SupplyAfter(blocks[..hi]));
    if j < i { EpochRewardsIncrease(c, blocks, j, i); }
  }

  // The two heights lie in different epochs after phase one, the lower one off the boundary.
  predicate AcrossEpochs(height: nat, tip: nat) {
    && FIRST_EPOCH * EPOCH_LENGTH < height < tip < (LAST_EPOCH + 1) * EPOCH_LENGTH
    && height % EPOCH_LENGTH != 0 && height / EPOCH_LENGTH < tip / EPOCH_LENGTH
  }

  lemma RewardMoved(c: Crypto, s: State, height: nat)
    requires FullInv(c, s) && AcrossEpochs(height, |s.blocks|)
    ensures BaseReward(s.blocks[height]) < s.reward
    ensures !Memoryless(SupplyAfter(s.blocks[..height]), height)
  {
    hide FullInv, LedgerInv, ChainOk, RewardsOk, RewardAfter, SupplyAfter, BaseReward, EpochReward, PhaseOne;
    FullInvReward(c, s);
    RewardsOkPrefix(s.blocks, height);
    PastCap(s.blocks, height);
    RewardInEpoch(s.blocks, height);
    RewardInEpoch(s.blocks, |s.blocks|);
    assert s.blocks[..|s.blocks|] == s.blocks;
    EpochRewardsIncrease(c, s.blocks, height / EPOCH_LENGTH, |s.blocks| / EPOCH_LENGTH);
  }

  /** After phase one, rolling back over an epoch boundary never restores the reward: it keeps the
      later and larger one, and then not even the dropped blocks are accepted again. */
  lemma RollbackAcrossEpochsForgets(c: Crypto, s: State, height: nat)
    requires FullInv(c, s) && AcrossEpochs(height, |s.blocks|)
    ensures !FullInv(c, Rollback(c, s, height)) && Rollback(c, s, height).reward == s.reward
    ensures AddAll(c, Rollback(c, s, height), s.blocks[height..]) == Step(false, Rollback(c, s, height))
  {
    hide FullInv, Settled, Rollback, AddAll, SupplyAfter, Memoryless, BaseReward, LedgerInv, Add;
    RewardMoved(c, s, height);
    RollbackRestoresIff(c, s, height);
    RollbackSettles(c, s, height);
    WrongRewardRefuses(c, Rollback(c, s, height), s.blocks[height]);
    RefusedFirst(c, Rollback(c, s, height), s.blocks[height..]);
  }

  // ---------- a failed swap truncates the chain ----------

  lemma {:induction false} AddAllPrefixOk(c: Crypto, s: State, bs: seq<Block>, j: nat)
    requires AddAll(c, s, bs).ok && j <= |bs|
    ensures AddAll(c, s, bs[..j]).ok
    decreases |bs|
  {
    hide Add;
    if j < |bs| {
      AddAllPrefixOk(c, s, bs[..|bs| - 1], j);
      assert bs[..|bs| - 1][..j] == bs[..j];
    } else {
      assert bs[..j] == bs;
    }
  }

  // Until the next boundary every candidate block is paid the reward at the fork.
  lemma {:induction false} CandidateSupply(c: Crypto, base: State, bs: seq<Block>)
    requires Settled(c, base) && !Memoryless(base.supply, |base.blocks|) && AddAll(c, base, bs).ok
    requires |base.blocks| + |bs| <= (|base.blocks| / EPOCH_LENGTH + 1) * EPOCH_LENGTH
    ensures SupplyAfter(base.blocks + bs) >= SupplyAfter(base.blocks) + |bs| * base.reward
  {
    hide Settled, Memoryless, Add, SupplyAfter;
    if bs == [] {
      assert base.blocks + bs == base.blocks;
    } else {
      var init, b := bs[..|bs| - 1], bs[|bs| - 1];
      CandidateSupply(c, base, init);
      CandidateStep(c, base, init, b);
      assert base.blocks + init + [b] == base.blocks + bs;
      OneMore(|init|, base.reward);
    }
  }

  lemma OneMore(n: nat, reward: nat)
    ensures (n + 1) * reward == n * reward + reward
  {
  }

  lemma CandidateStep(c: Crypto, base: State, init: seq<Block>, b: Block)
    requires Settled(c, base) && !Memoryless(base.supply, |base.blocks|) && AddAll(c, base, init).ok
    requires Add(c, AddAll(c, base, init).state, b).ok
    requires |base.blocks| + |init| < (|base.blocks| / EPOCH_LENGTH + 1) * EPOCH_LENGTH
    ensures SupplyAfter(base.blocks + init + [b]) >= SupplyAfter(base.blocks + init) + base.reward
  {
    hide Settled, Memoryless, Add, AddAll, SupplyAfter, EpochReward, FeeSum, LedgerInv, Extends, BaseReward, Total;
    AddAllCarries(c, base, init);
    var t := AddAll(c, base, init).state;
    SettledLedger(c, t);
    AppendSupply(c, t, b);
    AppendKeepsLedger(c, t, b);
    LedgerInvSupply(c, t);
    NoBoundaryYet(|base.blocks|, |t.blocks|);
  }

  lemma NoBoundaryYet(fork: nat, n: nat)
    requires fork <= n < (fork / EPOCH_LENGTH + 1) * EPOCH_LENGTH
    ensures n / EPOCH_LENGTH * EPOCH_LENGTH <= fork
  {
    DivideMonotone(fork, n, EPOCH_LENGTH);
    assert n / EPOCH_LENGTH == fork / EPOCH_LENGTH;
  }

  // The supply at the first boundary a candidate passes: the epoch's own reward for every height of it.
  lemma FirstBoundarySupply(c: Crypto, s: State, fork: nat, bs: seq<Block>)
    requires FullInv(c, s) && AcrossEpochs(fork, |s.blocks|) && AddAll(c, Rollback(c, s, fork), bs).ok
    requires fork + |bs| == (fork / EPOCH_LENGTH + 1) * EPOCH_LENGTH
    ensures var k := fork / EPOCH_LENGTH;
            SupplyAfter(s.blocks[..fork] + bs) >=
              SupplyAfter(s.blocks[..k * EPOCH_LENGTH]) + EPOCH_LENGTH * EpochBase(s.blocks, k)
  {
    hide FullInv, LedgerInv, ChainOk, RewardsOk, RewardAfter, Settled, Rollback, AddAll, SupplyAfter, BaseReward;
    hide EpochReward, Memoryless;
    var k := fork / EPOCH_LENGTH;
    var reward := EpochBase(s.blocks, k);
    FullInvReward(c, s);
    RewardMoved(c, s, fork);
    EpochRewardAt(s.blocks, fork);
    RollbackSettles(c, s, fork);
    CandidateSupply(c, Rollback(c, s, fork), bs);
    SupplyOverEpoch(s.blocks, k, fork - k * EPOCH_LENGTH);
    ScaleMonotone(reward, s.reward, |bs|);
    EpochSum(fork - k * EPOCH_LENGTH, |bs|, reward);
  }

  lemma EpochSum(before: nat, after: nat, reward: nat)
    requires before + after == EPOCH_LENGTH
    ensures before * reward + after * reward == EPOCH_LENGTH * reward
  {
  }

  // What the block at a height of an epoch after phase one was mined at.
  lemma EpochRewardAt(blocks: seq<Block>, height: nat)
    requires RewardsOk(blocks) && FIRST_EPOCH * EPOCH_LENGTH <= height < |blocks|
    ensures BaseReward(blocks[height]) == EpochBase(blocks, height / EPOCH_LENGTH)
  {
    hide RewardsOk, RewardAfter, BaseReward, SupplyAfter, EpochReward;
    RewardsOkPrefix(blocks, height);
    RewardInEpoch(blocks, height);
  }

  // Whatever part of the candidate was applied, the reward it leaves is not the fork's.
  lemma CarriedIsLarger(c: Crypto, s: State, fork: nat, bs: seq<Block>)
    requires FullInv(c, s) && AcrossEpochs(fork, |s.blocks|) && AddAll(c, Rollback(c, s, fork), bs).ok
    requires fork + |bs| <= LAST_EPOCH * EPOCH_LENGTH
    ensures CarriedReward(s.reward, s.blocks[..fork] + bs, fork) > BaseReward(s.blocks[fork])
  {
    hide FullInv, LedgerInv, ChainOk, RewardsOk, RewardAfter, Settled, Rollback, AddAll, SupplyAfter, BaseReward;
    hide EpochReward, Memoryless, Total, SheetAfter, FeesPaid;
    var chain := s.blocks[..fork] + bs;
    var boundary := |chain| / EPOCH_LENGTH * EPOCH_LENGTH;
    RewardMoved(c, s, fork);
    if boundary > fork {
      var k := fork / EPOCH_LENGTH;
      var first := (k + 1) * EPOCH_LENGTH;
      FirstIsNotLater(fork, |chain|);
      var part := bs[..first - fork];
      AddAllPrefixOk(c, Rollback(c, s, fork), bs, first - fork);
      FirstBoundarySupply(c, s, fork, part);
      FullInvReward(c, s);
      EpochRewardAt(s.blocks, fork);
      RollbackSettles(c, s, fork);
      AddAllCarries(c, Rollback(c, s, fork), bs);
      SettledLedger(c, AddAll(c, Rollback(c, s, fork), bs).state);
      LedgerIsChain(c, AddAll(c, Rollback(c, s, fork), bs).state);
      assert chain[..boundary][..first] == s.blocks[..fork] + part;
      SupplyGrowsWith(chain[..boundary], first);
      PrefixOk(c, chain, boundary);
      MoneyConserved(c, chain[..boundary]);
      ScaleMonotone(boundary, LAST_EPOCH * EPOCH_LENGTH, TWO_64 - 1);
      PastCap(s.blocks, k * EPOCH_LENGTH);
      EpochRewardGrows(SupplyAfter(s.blocks[..k * EPOCH_LENGTH]), SupplyAfter(chain[..boundary]));
    }
  }

  lemma LedgerIsChain(c: Crypto, s: State)
    requires LedgerInv(c, s)
    ensures ChainOk(c, s.blocks)
  {
  }

  lemma FirstIsNotLater(fork: nat, n: nat)
    requires fork < n / EPOCH_LENGTH * EPOCH_LENGTH
    ensures fork < (fork / EPOCH_LENGTH + 1) * EPOCH_LENGTH <= n / EPOCH_LENGTH * EPOCH_LENGTH <= n
  {
    assert n / EPOCH_LENGTH > fork / EPOCH_LENGTH;
  }

  /** After phase one, every allowed swap over an epoch boundary that fails, wherever it fails,
      truncates the chain to the fork. */
  lemma SwapAcrossEpochsTruncates(c: Crypto, s: State, fork: nat, branch: seq<Block>, gate: bool)
    requires FullInv(c, s) && AcrossEpochs(fork, |s.blocks|) && fork + |branch| <= LAST_EPOCH * EPOCH_LENGTH
    requires SwapAllowed(c, s.blocks, fork, branch, gate) && !Replace(c, s, fork, branch, gate).ok
    ensures Replace(c, s, fork, branch, gate).state.blocks == s.blocks[..fork]
  {
    hide FullInv, Rollback, AddAll, SupplyAfter, Memoryless, BaseReward, WorkSum, Linked, CarriedReward, SameChain;
    ReplaceFails(c, s, fork, branch, gate);
    var k := FailurePoint(c, Rollback(c, s, fork), branch);
    RewardMoved(c, s, fork);
    CarriedIsLarger(c, s, fork, branch[..k]);
    FailedSwapRestoresIff(c, s, fork, branch, gate, k);
  }
}
