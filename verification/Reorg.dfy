/**
 Rollback and branch replacement over the whole state, reward included.  Outside phase one the
 reward reads hidden state, so restoration is stated exactly: it happens if and only if the fork
 is at a memoryless height, or the block at the fork was mined at the reward now in force and the
 candidate did not carry that reward over an epoch boundary.
 */
module Reorg {
  import opened Words
  import opened Transactions
  import opened Ledger
  import opened Targets
  import opened Emission
  import opened Protocol

  // The reward in force after these blocks when they were only ever appended.
  function RewardAfter(blocks: seq<Block>): u64 {
    if blocks == [] then RewardAt(0, 0, 0)
    else RewardAt(SupplyAfter(blocks), |blocks|, RewardAfter(blocks[..|blocks| - 1]))
  }

  // Every block was mined at the reward its prefix determines.
  predicate RewardsOk(blocks: seq<Block>) {
    blocks == [] ||
    (RewardsOk(blocks[..|blocks| - 1]) && BaseReward(blocks[|blocks| - 1]) == RewardAfter(blocks[..|blocks| - 1]))
  }

  ghost predicate FullInv(c: Crypto, s: State) {
    LedgerInv(c, s) && RewardsOk(s.blocks) && s.reward == RewardAfter(s.blocks)
  }

  // Same chain, balances, replay guards, supply and reward; the mempool may differ.
  predicate SameChain(s: State, t: State) {
    s.blocks == t.blocks && s.sheet == t.sheet && s.supply == t.supply && s.reward == t.reward
  }

  const GENESIS: State := State([], map[], 0, RewardAt(0, 0, 0), map[])

  lemma FullInvDetermines(c: Crypto, s: State, t: State)
    requires FullInv(c, s) && FullInv(c, t) && s.blocks == t.blocks
    ensures SameChain(s, t)
  {
  }

  lemma {:induction false} RewardsOkPrefix(blocks: seq<Block>, k: nat)
    requires RewardsOk(blocks) && k <= |blocks|
    ensures RewardsOk(blocks[..k])
    ensures k < |blocks| ==> BaseReward(blocks[k]) == RewardAfter(blocks[..k])
    decreases |blocks|
  {
    hide BaseReward, RewardAfter;
    if k < |blocks| {
      var prefix := blocks[..|blocks| - 1];
      RewardsOkPrefix(prefix, k);
      assert prefix[..k] == blocks[..k];
    } else {
      assert blocks[..k] == blocks;
    }
  }

  lemma AppendKeepsFull(c: Crypto, s: State, b: Block)
    requires FullInv(c, s) && Add(c, s, b).ok
    ensures FullInv(c, Add(c, s, b).state)
    ensures Add(c, s, b).state.blocks == s.blocks + [b]
  {
    AppendKeepsLedger(c, s, b);
    AppendReward(c, s, b);
    var after := s.blocks + [b];
    assert after[..|after| - 1] == s.blocks;
    hide LedgerInv, Add, BaseReward, Extends, Total, RewardAt, SupplyAfter;
  }

  lemma AppendReward(c: Crypto, s: State, b: Block)
    requires LedgerInv(c, s) && Add(c, s, b).ok
    ensures var t := Add(c, s, b).state;
            t.reward == RewardAt(SupplyAfter(t.blocks), |t.blocks|, s.reward)
  {
    AppendKeepsLedger(c, s, b);
    hide HeaderOk, BodyOk, LedgerTxs, RewardAt, PoolWithout, FeeSum, ChainOk, SheetAfter, SupplyAfter;
    hide Extends, BaseReward, Total;
  }

  // A block of an accepted chain is accepted again in the state its prefix determines.
  lemma ReaddOne(c: Crypto, s: State, b: Block)
    requires FullInv(c, s) && Extends(c, s.blocks, b) && BaseReward(b) == s.reward
    ensures Add(c, s, b).ok
  {
    hide HeaderOk, BodyOk, LedgerTxs, RewardAt, PoolWithout, FeeSum, ChainOk, SheetAfter, SupplyAfter;
    hide RewardsOk, RewardAfter;
  }

  /** Re-adding the dropped blocks of an accepted chain is the identity. */
  lemma {:induction false} ReaddIsIdentity(c: Crypto, s: State, blocks: seq<Block>, k: nat)
    requires ChainOk(c, blocks) && RewardsOk(blocks) && k <= |blocks|
    requires FullInv(c, s) && s.blocks == blocks[..k]
    ensures AddAll(c, s, blocks[k..]).ok
    ensures FullInv(c, AddAll(c, s, blocks[k..]).state)
    ensures AddAll(c, s, blocks[k..]).state.blocks == blocks
    decreases |blocks|
  {
    hide Extends, BaseReward, RewardAfter, Add, FullInv;
    if k < |blocks| {
      var prefix, b := blocks[..|blocks| - 1], blocks[|blocks| - 1];
      assert prefix[..k] == blocks[..k];
      ReaddIsIdentity(c, s, prefix, k);
      var before := AddAll(c, s, prefix[k..]).state;
      assert blocks[k..][..|blocks[k..]| - 1] == prefix[k..];
      FullInvReward(c, before);
      ReaddOne(c, before, b);
      AppendKeepsFull(c, before, b);
      assert prefix + [b] == blocks;
    } else {
      assert blocks[k..] == [] && blocks[..k] == blocks;
    }
  }

  lemma FullInvReward(c: Crypto, s: State)
    requires FullInv(c, s)
    ensures s.reward == RewardAfter(s.blocks) && LedgerInv(c, s) && ChainOk(c, s.blocks) && RewardsOk(s.blocks)
    ensures s.supply == SupplyAfter(s.blocks)
  {
  }

  // ---------- rollback ----------

  // The reward that was in force at the fork, read from the block mined there.
  function ForkReward(s: State, fork: nat): int
    requires fork <= |s.blocks|
  {
    if fork < |s.blocks| then BaseReward(s.blocks[fork]) else s.reward
  }

  // The reward at the fork does not depend on hidden state, or has not changed since.
  predicate Recoverable(s: State, fork: nat)
    requires fork <= |s.blocks|
  {
    Memoryless(SupplyAfter(s.blocks[..fork]), fork) || ForkReward(s, fork) == s.reward
  }

  lemma ForkRewardIsAfter(c: Crypto, s: State, fork: nat)
    requires FullInv(c, s) && fork <= |s.blocks|
    ensures ForkReward(s, fork) == RewardAfter(s.blocks[..fork]) && RewardsOk(s.blocks[..fork])
  {
    hide LedgerInv, RewardAfter, BaseReward;
    RewardsOkPrefix(s.blocks, fork);
    assert s.blocks[..|s.blocks|] == s.blocks;
  }

  lemma RewardAtLeastTail(blocks: seq<Block>)
    ensures RewardAfter(blocks) >= TAIL_EMISSION
  {
    hide RewardAt, SupplyAfter;
    RewardNotBelowCurve(0, 0, 0);
    if blocks != [] { RewardNotBelowCurve(SupplyAfter(blocks), |blocks|, RewardAfter(blocks[..|blocks| - 1])); }
  }

  /** Rollback always restores balances, replay guards and supply; it restores the reward if and
      only if the height is memoryless or the block there was mined at the tip's reward. */
  lemma RollbackRestoresIff(c: Crypto, s: State, height: nat)
    requires FullInv(c, s) && height < |s.blocks|
    ensures LedgerInv(c, Rollback(c, s, height))
    ensures FullInv(c, Rollback(c, s, height)) <==>
            Memoryless(SupplyAfter(s.blocks[..height]), height) || BaseReward(s.blocks[height]) == s.reward
  {
    hide LedgerInv, ChainOk, RewardsOk, RewardAfter, RewardAt, Rollback, SupplyAfter, BaseReward, Memoryless;
    FullInvReward(c, s);
    RollbackKeepsLedger(c, s, height);
    PrefixOk(c, s.blocks, height);
    ForkRewardIsAfter(c, s, height);
    RollbackReward(c, s, height);
    RecomputedReward(s.blocks[..height], s.reward) by { RewardAtLeastTail(s.blocks); }
  }

  // Recomputing the reward of a prefix with some hidden reward gives its own one exactly when the
  // height is memoryless or the hidden reward is already that one.
  lemma RecomputedReward(blocks: seq<Block>, hidden: u64)
    requires hidden >= TAIL_EMISSION
    ensures RewardAt(SupplyAfter(blocks), |blocks|, hidden) == RewardAfter(blocks) <==>
            Memoryless(SupplyAfter(blocks), |blocks|) || RewardAfter(blocks) == hidden
  {
    hide RewardAt, RewardAfter, SupplyAfter, Memoryless;
    if Memoryless(SupplyAfter(blocks), |blocks|) {
      MemorylessReward(blocks, hidden);
    } else {
      HiddenRewardIsKept(SupplyAfter(blocks), |blocks|, hidden);
    }
  }

  lemma RollbackReward(c: Crypto, s: State, height: nat)
    requires height < |s.blocks| && ChainOk(c, s.blocks[..height])
    ensures Rollback(c, s, height).reward == RewardAt(SupplyAfter(s.blocks[..height]), height, s.reward)
  {
    hide ChainOk, ReplayAll, RewardAt, PoolWithBlocks, Total, FeesPaid, SupplyAfter, SheetAfter;
    MoneyConserved(c, s.blocks[..height]);
  }

  lemma MemorylessReward(blocks: seq<Block>, hidden: u64)
    requires Memoryless(SupplyAfter(blocks), |blocks|)
    ensures RewardAt(SupplyAfter(blocks), |blocks|, hidden) == RewardAfter(blocks)
  {
    if blocks == [] {
      HiddenStateMatters(0, 0);
    } else {
      HiddenStateMatters(SupplyAfter(blocks), |blocks|);
    }
  }

  /** Rollback equals replay: at a recoverable height, rolling back gives the chain, balances, guards,
      supply and reward of having only ever added the first `height` blocks, and adding the dropped
      blocks again gives back the state rolled back from. */
  lemma RollbackIsReplay(c: Crypto, s: State, height: nat)
    requires FullInv(c, s) && height < |s.blocks| && Recoverable(s, height)
    ensures FullInv(c, Rollback(c, s, height))
    ensures AddAll(c, GENESIS, s.blocks[..height]).ok
    ensures SameChain(AddAll(c, GENESIS, s.blocks[..height]).state, Rollback(c, s, height))
    ensures AddAll(c, Rollback(c, s, height), s.blocks[height..]).ok
    ensures SameChain(AddAll(c, Rollback(c, s, height), s.blocks[height..]).state, s)
  {
    hide Rollback, AddAll, FullInv, LedgerInv, ChainOk, RewardsOk, RewardAfter, SupplyAfter, RewardAt;
    hide Memoryless, SameChain, BaseReward;
    var kept := s.blocks[..height];
    FullInvReward(c, s);
    GenesisFull(c);
    RollbackRestoresIff(c, s, height);
    RollbackKeepsLedger(c, s, height);
    var back := Rollback(c, s, height);
    assert back.blocks == kept;
    PrefixOk(c, s.blocks, height);
    RewardsOkPrefix(s.blocks, height);
    assert kept[..0] == [] && kept[0..] == kept;
    ReaddIsIdentity(c, GENESIS, kept, 0);
    FullInvDetermines(c, AddAll(c, GENESIS, kept).state, back);
    ReaddIsIdentity(c, back, s.blocks, height);
    FullInvDetermines(c, AddAll(c, back, s.blocks[height..]).state, s);
  }

  lemma GenesisFull(c: Crypto)
    ensures FullInv(c, GENESIS) && GENESIS.blocks == []
  {
  }

  // ---------- branch replacement ----------

  function ChainWork(blocks: seq<Block>): nat {
    if blocks == [] then 0 else
    ChainWork(blocks[..|blocks| - 1]) +
    match BlockWork(blocks[|blocks| - 1].header.difficultyTarget) case None => 0 case Some(w) => w
  }

  lemma {:induction false} ChainWorkAppend(a: seq<Block>, b: seq<Block>)
    ensures ChainWork(a + b) == ChainWork(a) + ChainWork(b)
  {
    hide BlockWork;
    if b == [] {
      assert a + b == a;
    } else {
      assert (a + b)[..|a + b| - 1] == a + b[..|b| - 1];
      ChainWorkAppend(a, b[..|b| - 1]);
    }
  }

  lemma {:induction false} WorkSumIsWork(blocks: seq<Block>)
    requires WorkSum(HeadersOf(blocks)).Some?
    ensures WorkSum(HeadersOf(blocks)).value == ChainWork(blocks)
  {
    hide BlockWork;
    if blocks != [] {
      assert HeadersOf(blocks)[..|blocks| - 1] == HeadersOf(blocks[..|blocks| - 1]);
      WorkSumIsWork(blocks[..|blocks| - 1]);
    }
  }

  // The state a failed apply is undone to, before the old blocks are put back.
  function Undone(c: Crypto, s: State, fork: nat, branch: seq<Block>): State {
    Rollback(c, AddAll(c, Rollback(c, s, fork), branch).state, fork)
  }

  lemma UndoneLedger(c: Crypto, s: State, fork: nat, branch: seq<Block>)
    requires LedgerInv(c, s) && 0 < fork <= |s.blocks| && !AddAll(c, Rollback(c, s, fork), branch).ok
    ensures LedgerInv(c, Undone(c, s, fork, branch))
    ensures Undone(c, s, fork, branch).blocks == s.blocks[..fork]
  {
    hide Rollback, AddAll, LedgerInv;
    RollbackKeepsLedger(c, s, fork);
    AddAllKeepsPrefix(c, Rollback(c, s, fork), branch);
    UndoRestoresBase(c, Rollback(c, s, fork), AddAll(c, Rollback(c, s, fork), branch).state, fork);
  }

  // A wrong reward makes the first block being put back fail its coinbase check, and nothing moves.
  lemma WrongRewardRefuses(c: Crypto, s: State, b: Block)
    requires BaseReward(b) != s.reward
    ensures Add(c, s, b) == Step(false, s)
  {
    if BodyOk(c, s.sheet, s.reward, b.txs) { BodyFacts(c, s.sheet, s.reward, b.txs); }
    hide HeaderOk, BodyOk, LedgerTxs, RewardAt, PoolWithout, FeeSum, CoinbaseSum;
  }

  lemma {:induction false} RefusedFirst(c: Crypto, s: State, bs: seq<Block>)
    requires bs != [] && Add(c, s, bs[0]) == Step(false, s)
    ensures AddAll(c, s, bs) == Step(false, s)
  {
    hide Add;
    if |bs| > 1 { RefusedFirst(c, s, bs[..|bs| - 1]); }
  }

  // A failed swap puts everything back if and only if its undone reward is the prefix's own;
  // otherwise no old block goes back and the chain ends at the fork.
  lemma UndoneDecides(c: Crypto, s: State, fork: nat, branch: seq<Block>, gate: bool)
    requires FullInv(c, s) && SwapAllowed(c, s.blocks, fork, branch, gate)
    requires !Replace(c, s, fork, branch, gate).ok
    ensures SameChain(Replace(c, s, fork, branch, gate).state, s) <==>
            Undone(c, s, fork, branch).reward == RewardAfter(s.blocks[..fork])
    ensures !SameChain(Replace(c, s, fork, branch, gate).state, s) ==>
              Replace(c, s, fork, branch, gate).state == Undone(c, s, fork, branch)
  {
    hide Rollback, AddAll, FullInv, LedgerInv, ChainOk, RewardsOk, RewardAfter, SupplyAfter, BaseReward;
    hide Linked, WorkSum, Undone;
    FullInvReward(c, s);
    var u := Undone(c, s, fork, branch);
    ReplaceFails(c, s, fork, branch, gate);
    UndoneLedger(c, s, fork, branch);
    RewardsOkPrefix(s.blocks, fork);
    assert s.blocks[..fork] + s.blocks[fork..] == s.blocks;
    if u.reward == RewardAfter(s.blocks[..fork]) {
      FullFromParts(c, u);
      ReaddIsIdentity(c, u, s.blocks, fork);
      FullInvDetermines(c, AddAll(c, u, s.blocks[fork..]).state, s);
    } else if fork < |s.blocks| {
      WrongRewardRefuses(c, u, s.blocks[fork]);
      RefusedFirst(c, u, s.blocks[fork..]);
    } else {
      AddNothing(c, u);
    }
  }

  lemma AddNothing(c: Crypto, s: State)
    ensures AddAll(c, s, []) == Step(true, s)
  {
  }

  lemma FullFromParts(c: Crypto, s: State)
    requires LedgerInv(c, s) && RewardsOk(s.blocks) && s.reward == RewardAfter(s.blocks)
    ensures FullInv(c, s)
  {
  }

  lemma ReplaceFails(c: Crypto, s: State, fork: nat, branch: seq<Block>, gate: bool)
    requires SwapAllowed(c, s.blocks, fork, branch, gate) && !Replace(c, s, fork, branch, gate).ok
    ensures !AddAll(c, Rollback(c, s, fork), branch).ok && 0 < fork <= |s.blocks|
    ensures Replace(c, s, fork, branch, gate).state == AddAll(c, Undone(c, s, fork, branch), s.blocks[fork..]).state
  {
    hide Rollback, AddAll, Linked, WorkSum;
  }

  // ---------- the reward that a partly applied candidate leaves behind ----------

  // From a height that is not memoryless: the reward there, unless a later epoch boundary set one.
  function CarriedReward(start: u64, blocks: seq<Block>, fork: nat): u64 {
    var boundary := |blocks| / EPOCH_LENGTH * EPOCH_LENGTH;
    if boundary <= fork then start else EpochReward(SupplyAfter(blocks[..boundary]))
  }

  // Out of phase one, with a reward that recomputing it would keep.
  ghost predicate Settled(c: Crypto, s: State) {
    && LedgerInv(c, s) && s.blocks != []
    && !PhaseOne(s.supply, |s.blocks|) && OnCurve(s.supply, |s.blocks|)
    && s.reward >= TAIL_EMISSION
    && RewardAt(s.supply, |s.blocks|, s.reward) == s.reward
  }

  lemma AppendCarries(c: Crypto, s: State, b: Block, start: u64, fork: nat)
    requires Settled(c, s) && Add(c, s, b).ok && fork <= |s.blocks|
    requires s.reward == CarriedReward(start, s.blocks, fork)
    ensures var t := Add(c, s, b).state;
            Settled(c, t) && t.blocks == s.blocks + [b] && t.reward == CarriedReward(start, t.blocks, fork)
  {
    hide Add, LedgerInv, RewardAt, SupplyAfter, PhaseOne, EpochReward, Extends, OnCurve, CarriedReward;
    hide FeeSum, BaseReward, Total;
    AppendKeepsLedger(c, s, b);
    AppendReward(c, s, b);
    AppendSupply(c, s, b);
    StaysSettled(s.supply, |s.blocks|, s.reward, FeeSum(b.txs));
    CarriedStep(start, s.blocks, b, fork, Add(c, s, b).state.reward);
  }

  lemma AppendSupply(c: Crypto, s: State, b: Block)
    requires LedgerInv(c, s) && Add(c, s, b).ok
    ensures var t := Add(c, s, b).state;
            t.supply == s.supply + s.reward + FeeSum(b.txs) == SupplyAfter(t.blocks)
  {
    hide LedgerInv, Add, Extends, CoinbaseSum, FeeSum, Total;
    AppendKeepsLedger(c, s, b);
    LedgerInvSupply(c, s);
    LedgerInvSupply(c, Add(c, s, b).state);
    assert (s.blocks + [b])[..|s.blocks|] == s.blocks;
  }

  lemma LedgerInvSupply(c: Crypto, s: State)
    requires LedgerInv(c, s)
    ensures s.supply == SupplyAfter(s.blocks)
  {
  }

  lemma CarriedStep(start: u64, blocks: seq<Block>, b: Block, fork: nat, next: u64)
    requires fork <= |blocks|
    requires next == if (|blocks| + 1) % EPOCH_LENGTH == 0 then EpochReward(SupplyAfter(blocks + [b]))
                     else CarriedReward(start, blocks, fork)
    ensures next == CarriedReward(start, blocks + [b], fork)
  {
    hide EpochReward, SupplyAfter;
    var after := blocks + [b];
    var n := |blocks|;
    if (n + 1) % EPOCH_LENGTH == 0 {
      assert after[..n + 1] == after;
    } else {
      assert (n + 1) / EPOCH_LENGTH == n / EPOCH_LENGTH;
      var boundary := n / EPOCH_LENGTH * EPOCH_LENGTH;
      assert after[..boundary] == blocks[..boundary];
    }
  }

  lemma {:induction false} AddAllCarries(c: Crypto, s: State, bs: seq<Block>)
    requires Settled(c, s) && !Memoryless(s.supply, |s.blocks|) && AddAll(c, s, bs).ok
    ensures var t := AddAll(c, s, bs).state;
            Settled(c, t) && t.blocks == s.blocks + bs && t.reward == CarriedReward(s.reward, t.blocks, |s.blocks|)
  {
    hide Settled, Add, Memoryless, EpochReward, SupplyAfter;
    if bs != [] {
      AddAllCarries(c, s, bs[..|bs| - 1]);
      AppendCarries(c, AddAll(c, s, bs[..|bs| - 1]).state, bs[|bs| - 1], s.reward, |s.blocks|);
      assert s.blocks + bs == s.blocks + bs[..|bs| - 1] + [bs[|bs| - 1]];
    }
  }

  // Rolling back to a height that is not memoryless leaves a settled state at the tip's reward.
  lemma RollbackSettles(c: Crypto, s: State, fork: nat)
    requires FullInv(c, s) && fork <= |s.blocks| && !Memoryless(SupplyAfter(s.blocks[..fork]), fork)
    ensures var base := Rollback(c, s, fork);
            Settled(c, base) && base.blocks == s.blocks[..fork] && base.reward == s.reward &&
            !Memoryless(base.supply, fork)
  {
    hide FullInv, LedgerInv, ChainOk, RewardAt, RewardAfter, RewardsOk, SupplyAfter, OnCurve, PhaseOne;
    hide Rollback, FeesOf;
    var kept := s.blocks[..fork];
    FullInvReward(c, s);
    PrefixOk(c, s.blocks, fork);
    RollbackKeepsLedger(c, s, fork);
    LedgerInvSupply(c, Rollback(c, s, fork));
    RewardAtLeastTail(s.blocks);
    HiddenRewardIsKept(SupplyAfter(kept), fork, s.reward);
    RewardsOkPrefix(s.blocks, fork);
    ChainFollowsEmission(kept);
    RunOnCurve(FeesOf(kept), 0);
    RolledReward(c, s, fork);
  }

  lemma RolledReward(c: Crypto, s: State, fork: nat)
    requires fork <= |s.blocks| && ChainOk(c, s.blocks[..fork])
    ensures Rollback(c, s, fork).reward ==
            if fork < |s.blocks| then RewardAt(SupplyAfter(s.blocks[..fork]), fork, s.reward) else s.reward
  {
    hide ChainOk, RewardAt, SupplyAfter, ReplayAll, PoolWithBlocks;
    if fork < |s.blocks| { RollbackReward(c, s, fork); }
  }

  // The candidate was applied up to block k, which was refused or got stuck.
  predicate FailsAt(c: Crypto, base: State, branch: seq<Block>, k: nat) {
    k < |branch| && AddAll(c, base, branch[..k]).ok && !AddAll(c, base, branch[..k + 1]).ok
  }

  lemma {:induction false} FailurePoint(c: Crypto, base: State, branch: seq<Block>) returns (k: nat)
    requires !AddAll(c, base, branch).ok
    ensures FailsAt(c, base, branch, k)
  {
    hide Add;
    var init := branch[..|branch| - 1];
    if AddAll(c, base, init).ok {
      k := |init|;
      assert branch[..k + 1] == branch;
    } else {
      k := FailurePoint(c, base, init);
      assert init[..k] == branch[..k] && init[..k + 1] == branch[..k + 1];
    }
  }

  lemma {:induction false} FailsForGood(c: Crypto, base: State, branch: seq<Block>, k: nat)
    requires FailsAt(c, base, branch, k)
    ensures AddAll(c, base, branch) == AddAll(c, base, branch[..k + 1])
    decreases |branch|
  {
    hide Add;
    if k + 1 < |branch| {
      var init := branch[..|branch| - 1];
      assert init[..k] == branch[..k] && init[..k + 1] == branch[..k + 1];
      FailsForGood(c, base, init, k);
    } else {
      assert branch[..k + 1] == branch;
    }
  }

  // A refused or stuck block does not move the reward.
  lemma FailedReward(c: Crypto, base: State, branch: seq<Block>, k: nat)
    requires FailsAt(c, base, branch, k)
    ensures AddAll(c, base, branch).state.reward == AddAll(c, base, branch[..k]).state.reward
    ensures !AddAll(c, base, branch).ok
  {
    hide HeaderOk, BodyOk, LedgerTxs, PoolWithout, RewardAt, FeeSum;
    FailsForGood(c, base, branch, k);
    assert branch[..k + 1][..k] == branch[..k];
  }

  lemma UndoneReward(c: Crypto, s: State, fork: nat, branch: seq<Block>, k: nat)
    requires FullInv(c, s) && 0 < fork <= |s.blocks| && !Memoryless(SupplyAfter(s.blocks[..fork]), fork)
    requires FailsAt(c, Rollback(c, s, fork), branch, k)
    ensures Undone(c, s, fork, branch).reward == CarriedReward(s.reward, s.blocks[..fork] + branch[..k], fork)
  {
    hide FullInv, LedgerInv, ChainOk, Rollback, AddAll, RewardAt, SupplyAfter, Memoryless, CarriedReward;
    var base := Rollback(c, s, fork);
    var applied := AddAll(c, base, branch).state;
    FullInvReward(c, s);
    PrefixOk(c, s.blocks, fork);
    RollbackSettles(c, s, fork);
    FailedReward(c, base, branch, k);
    AddAllCarries(c, base, branch[..k]);
    SettledLedger(c, base);
    AddAllKeepsPrefix(c, base, branch);
    assert applied.blocks[..fork] == s.blocks[..fork];
    RolledReward(c, applied, fork);
    SettledTail(c, AddAll(c, base, branch[..k]).state);
    HiddenRewardIsKept(SupplyAfter(s.blocks[..fork]), fork, applied.reward);
  }

  lemma SettledLedger(c: Crypto, s: State)
    requires Settled(c, s)
    ensures LedgerInv(c, s)
  {
  }

  lemma SettledTail(c: Crypto, s: State)
    requires Settled(c, s)
    ensures s.reward >= TAIL_EMISSION
  {
  }

  lemma MemorylessUndone(c: Crypto, s: State, fork: nat, branch: seq<Block>)
    requires FullInv(c, s) && 0 < fork <= |s.blocks| && !AddAll(c, Rollback(c, s, fork), branch).ok
    requires Memoryless(SupplyAfter(s.blocks[..fork]), fork)
    ensures Undone(c, s, fork, branch).reward == RewardAfter(s.blocks[..fork])
  {
    hide AddAll, FullInv, LedgerInv, ChainOk, RewardsOk, RewardAfter, SupplyAfter, RewardAt, Memoryless, Rollback;
    FullInvReward(c, s);
    var base := Rollback(c, s, fork);
    var applied := AddAll(c, base, branch).state;
    RollbackKeepsLedger(c, s, fork);
    AddAllKeepsPrefix(c, base, branch);
    PrefixOk(c, s.blocks, fork);
    assert base.blocks == s.blocks[..fork];
    MemorylessReward(s.blocks[..fork], s.reward);
    MemorylessReward(s.blocks[..fork], applied.reward);
    RolledReward(c, s, fork);
    RolledReward(c, applied, fork);
    if fork == |s.blocks| { assert s.blocks[..fork] == s.blocks; }
  }

  /** A swap that fails at block k of its candidate restores chain, balances, guards, supply and
      reward if and only if the fork is memoryless, or the reward in force when k blocks have been
      applied is the one the block at the fork was mined at.  Otherwise the chain ends at the fork. */
  lemma FailedSwapRestoresIff(c: Crypto, s: State, fork: nat, branch: seq<Block>, gate: bool, k: nat)
    requires FullInv(c, s) && SwapAllowed(c, s.blocks, fork, branch, gate)
    requires FailsAt(c, Rollback(c, s, fork), branch, k)
    ensures var r := Replace(c, s, fork, branch, gate);
            && !r.ok
            && (SameChain(r.state, s) <==>
                  Memoryless(SupplyAfter(s.blocks[..fork]), fork) ||
                  CarriedReward(s.reward, s.blocks[..fork] + branch[..k], fork) == ForkReward(s, fork))
            && (!SameChain(r.state, s) ==> r.state.blocks == s.blocks[..fork])
  {
    hide FullInv, LedgerInv, Rollback, AddAll, RewardAfter, SupplyAfter, Memoryless, CarriedReward;
    hide BaseReward, Undone, WorkSum, Linked;
    FailedReward(c, Rollback(c, s, fork), branch, k);
    ReplaceFails(c, s, fork, branch, gate) by { assert !Replace(c, s, fork, branch, gate).ok; }
    UndoneDecides(c, s, fork, branch, gate);
    FullInvReward(c, s);
    UndoneLedger(c, s, fork, branch);
    ForkRewardIsAfter(c, s, fork);
    if Memoryless(SupplyAfter(s.blocks[..fork]), fork) {
      MemorylessUndone(c, s, fork, branch);
    } else {
      UndoneReward(c, s, fork, branch, k);
    }
  }

  // No candidate block but the last can bring the chain to an epoch boundary.
  predicate WithinEpoch(fork: nat, count: nat) {
    count == 0 || fork / EPOCH_LENGTH == (fork + count - 1) / EPOCH_LENGTH
  }

  lemma NothingCarried(start: u64, kept: seq<Block>, branch: seq<Block>, k: nat)
    requires WithinEpoch(|kept|, |branch|) && k < |branch|
    ensures CarriedReward(start, kept + branch[..k], |kept|) == start
  {
    var f, n := |kept|, |kept| + k;
    DivideMonotone(f, n, EPOCH_LENGTH);
    DivideMonotone(n, f + |branch| - 1, EPOCH_LENGTH);
    assert |kept + branch[..k]| == n;
  }

  lemma DivideMonotone(a: nat, b: nat, d: nat)
    requires d > 0 && a <= b
    ensures a / d <= b / d && a / d * d <= a
  {
    QuotientAtLeast(b, d, a / d);
  }

  /** Within one epoch that is known before the call: a failed swap restores everything if and only if
      the fork is memoryless or the block at the fork was mined at the reward now in force. */
  lemma FailedSwapWithinEpoch(c: Crypto, s: State, fork: nat, branch: seq<Block>, gate: bool)
    requires FullInv(c, s) && SwapAllowed(c, s.blocks, fork, branch, gate) && WithinEpoch(fork, |branch|)
    requires !Replace(c, s, fork, branch, gate).ok
    ensures SameChain(Replace(c, s, fork, branch, gate).state, s) <==> Recoverable(s, fork)
    ensures !SameChain(Replace(c, s, fork, branch, gate).state, s) ==>
              Replace(c, s, fork, branch, gate).state.blocks == s.blocks[..fork]
  {
    hide FullInv, Rollback, AddAll, SupplyAfter, Memoryless, CarriedReward, BaseReward, WorkSum, Linked;
    hide WithinEpoch, SameChain;
    var k := FailurePoint(c, Rollback(c, s, fork), branch);
    FailedSwapRestoresIff(c, s, fork, branch, gate, k);
    NothingCarried(s.reward, s.blocks[..fork], branch, k);
  }

  // What a caller can check before the swap.
  predicate Restorable(s: State, fork: nat, count: nat) {
    fork <= |s.blocks| ==>
      Memoryless(SupplyAfter(s.blocks[..fork]), fork) || (ForkReward(s, fork) == s.reward && WithinEpoch(fork, count))
  }

  /** Branch swap is all-or-nothing: true means the old prefix followed by the candidate, with
      strictly more cumulative work; false means chain, balances, guards, supply and reward are
      exactly as before, even when the candidate failed partway through applying.  Only a swap that
      passes its checks has to be restorable. */
  lemma SwapIsAllOrNothing(c: Crypto, s: State, fork: nat, branch: seq<Block>, gate: bool)
    requires FullInv(c, s)
    requires SwapAllowed(c, s.blocks, fork, branch, gate) ==> Restorable(s, fork, |branch|)
    ensures var r := Replace(c, s, fork, branch, gate);
            && FullInv(c, r.state)
            && (r.ok ==> fork <= |s.blocks| && r.state.blocks == s.blocks[..fork] + branch &&
                         ChainWork(r.state.blocks) > ChainWork(s.blocks))
            && (!r.ok ==> SameChain(r.state, s))
  {
    hide Rollback, AddAll, FullInv, LedgerInv, RewardAfter, SupplyAfter, RewardAt, Memoryless, ChainWork;
    hide Linked, WorkSum, WithinEpoch, BaseReward;
    if SwapAllowed(c, s.blocks, fork, branch, gate) {
      if Replace(c, s, fork, branch, gate).ok {
        AdoptedWork(c, s.blocks, fork, branch, gate);
        AdoptedIff(c, s, fork, branch, gate);
      } else {
        FailedIsRestored(c, s, fork, branch, gate);
        SameChainFull(c, s, Replace(c, s, fork, branch, gate).state);
      }
    } else {
      assert SameChain(s, s);
    }
  }

  lemma FailedIsRestored(c: Crypto, s: State, fork: nat, branch: seq<Block>, gate: bool)
    requires FullInv(c, s) && Restorable(s, fork, |branch|) && SwapAllowed(c, s.blocks, fork, branch, gate)
    requires !Replace(c, s, fork, branch, gate).ok
    ensures SameChain(Replace(c, s, fork, branch, gate).state, s)
  {
    hide Rollback, AddAll, FullInv, SupplyAfter, Memoryless, Linked, WorkSum, WithinEpoch, BaseReward;
    hide CarriedReward, SameChain;
    if Memoryless(SupplyAfter(s.blocks[..fork]), fork) {
      var k := FailurePoint(c, Rollback(c, s, fork), branch);
      FailedSwapRestoresIff(c, s, fork, branch, gate, k);
    } else {
      FailedSwapWithinEpoch(c, s, fork, branch, gate);
    }
  }

  lemma SameChainFull(c: Crypto, s: State, t: State)
    requires FullInv(c, s) && SameChain(t, s)
    ensures FullInv(c, t)
  {
  }

  // An allowed swap raises the cumulative work.
  lemma AdoptedWork(c: Crypto, blocks: seq<Block>, fork: nat, branch: seq<Block>, gate: bool)
    requires SwapAllowed(c, blocks, fork, branch, gate)
    ensures ChainWork(blocks[..fork] + branch) > ChainWork(blocks)
  {
    hide Linked, ChainWork, WorkSum;
    WorkSumIsWork(blocks[fork..]);
    WorkSumIsWork(branch);
    ChainWorkAppend(blocks[..fork], branch);
    ChainWorkAppend(blocks[..fork], blocks[fork..]);
    assert blocks[..fork] + blocks[fork..] == blocks;
  }

  /** A successful swap holds the old prefix and the candidate, and every block of it was paid its
      due reward if and only if the fork was recoverable. */
  lemma AdoptedIff(c: Crypto, s: State, fork: nat, branch: seq<Block>, gate: bool)
    requires FullInv(c, s) && SwapAllowed(c, s.blocks, fork, branch, gate) && Replace(c, s, fork, branch, gate).ok
    ensures Replace(c, s, fork, branch, gate).state.blocks == s.blocks[..fork] + branch
    ensures FullInv(c, Replace(c, s, fork, branch, gate).state) <==> Recoverable(s, fork)
  {
    hide Rollback, AddAll, FullInv, LedgerInv, ChainOk, RewardsOk, RewardAfter, Recoverable, SwapAllowed, Replace;
    var base := Rollback(c, s, fork);
    ReplaceSucceeds(c, s, fork, branch, gate);
    FullInvReward(c, s);
    RollbackKeepsLedger(c, s, fork);
    RolledBackFullIff(c, s, fork);
    AddAllKeepsPrefix(c, base, branch);
    if Recoverable(s, fork) {
      AddAllKeepsFull(c, base, branch);
    } else {
      RewardsOkPrefix(s.blocks, fork);
      UnpaidBranch(c, base, branch);
    }
  }

  lemma ReplaceSucceeds(c: Crypto, s: State, fork: nat, branch: seq<Block>, gate: bool)
    requires SwapAllowed(c, s.blocks, fork, branch, gate) && Replace(c, s, fork, branch, gate).ok
    ensures AddAll(c, Rollback(c, s, fork), branch) == Replace(c, s, fork, branch, gate)
    ensures branch != [] && fork <= |s.blocks|
  {
    hide Rollback, AddAll, Linked, WorkSum;
  }

  lemma RolledBackFullIff(c: Crypto, s: State, fork: nat)
    requires FullInv(c, s) && fork <= |s.blocks|
    ensures FullInv(c, Rollback(c, s, fork)) <==> Recoverable(s, fork)
  {
    hide FullInv, SupplyAfter, Memoryless, BaseReward, ReplayAll, PoolWithBlocks, RewardAt, LedgerInv;
    if fork < |s.blocks| { RollbackRestoresIff(c, s, fork); }
  }

  // On a base whose reward is not its chain's own, the first block added is paid that reward.
  lemma UnpaidBranch(c: Crypto, base: State, branch: seq<Block>)
    requires LedgerInv(c, base) && RewardsOk(base.blocks) && !FullInv(c, base)
    requires branch != [] && AddAll(c, base, branch).ok && AddAll(c, base, branch).state.blocks == base.blocks + branch
    ensures !FullInv(c, AddAll(c, base, branch).state)
  {
    hide LedgerInv, AddAll, RewardAfter, BaseReward, Add;
    var blocks := base.blocks + branch;
    FirstPaid(c, base, branch);
    assert blocks[..|base.blocks|] == base.blocks && blocks[|base.blocks|] == branch[0];
    if RewardsOk(blocks) { RewardsOkPrefix(blocks, |base.blocks|); }
  }

  lemma {:induction false} FirstPaid(c: Crypto, base: State, branch: seq<Block>)
    requires LedgerInv(c, base) && branch != [] && AddAll(c, base, branch).ok
    ensures BaseReward(branch[0]) == base.reward
  {
    hide LedgerInv, Add, BaseReward, Extends, Total;
    if |branch| == 1 {
      assert branch[..0] == [];
      AppendKeepsLedger(c, base, branch[0]);
    } else {
      FirstPaid(c, base, branch[..|branch| - 1]);
    }
  }

  lemma RollbackFull(c: Crypto, s: State, height: nat)
    requires FullInv(c, s) && height <= |s.blocks| && Recoverable(s, height)
    ensures FullInv(c, Rollback(c, s, height)) && Rollback(c, s, height).blocks == s.blocks[..height]
  {
    hide FullInv, LedgerInv, SupplyAfter, Memoryless, BaseReward, Rollback;
    FullInvReward(c, s);
    RolledBackFullIff(c, s, height);
    RollbackKeepsLedger(c, s, height);
  }

  lemma {:induction false} AddAllKeepsFull(c: Crypto, s: State, bs: seq<Block>)
    requires FullInv(c, s) && AddAll(c, s, bs).ok
    ensures FullInv(c, AddAll(c, s, bs).state)
    ensures AddAll(c, s, bs).state.blocks == s.blocks + bs
  {
    hide FullInv, Add;
    if bs != [] {
      AddAllKeepsFull(c, s, bs[..|bs| - 1]);
      AppendKeepsFull(c, AddAll(c, s, bs[..|bs| - 1]).state, bs[|bs| - 1]);
      assert bs == bs[..|bs| - 1] + [bs[|bs| - 1]];
    }
  }

  // ---------- phase one ----------

  function FeesOf(blocks: seq<Block>): seq<nat> {
    if blocks == [] then [] else FeesOf(blocks[..|blocks| - 1]) + [FeeSum(blocks[|blocks| - 1].txs)]
  }

  // An accepted chain follows the emission schedule.
  lemma {:induction false} ChainFollowsEmission(blocks: seq<Block>)
    requires RewardsOk(blocks)
    ensures |FeesOf(blocks)| == |blocks|
    ensures Emit(FeesOf(blocks), 0) == Point(SupplyAfter(blocks), RewardAfter(blocks))
  {
    hide RewardAt, FeeSum, CoinbaseSum;
    if blocks != [] {
      ChainFollowsEmission(blocks[..|blocks| - 1]);
      assert FeesOf(blocks)[..|blocks| - 1] == FeesOf(blocks[..|blocks| - 1]);
    }
  }

  lemma {:induction false} FeesOfPrefix(blocks: seq<Block>, k: nat)
    requires k <= |blocks| && |FeesOf(blocks)| == |blocks|
    ensures FeesOf(blocks)[..k] == FeesOf(blocks[..k])
    decreases |blocks|
  {
    hide FeeSum;
    if k < |blocks| {
      var prefix := blocks[..|blocks| - 1];
      FeesOfPrefix(prefix, k);
      assert prefix[..k] == blocks[..k];
    } else {
      assert blocks[..k] == blocks;
    }
  }

  /** While the tip is in phase one every lower height is too, so every rollback is exact and every
      swap is all-or-nothing, whatever the fork point. */
  lemma PhaseOneIsMemoryless(c: Crypto, s: State, k: nat)
    requires FullInv(c, s) && k <= |s.blocks| && PhaseOne(s.supply, |s.blocks|)
    ensures Memoryless(SupplyAfter(s.blocks[..k]), k)
  {
    hide FullInv, LedgerInv, RewardsOk, RewardAfter, SupplyAfter, RewardAt, FeesOf, Emit, PhaseOne;
    FullInvReward(c, s);
    ChainFollowsEmission(s.blocks);
    RewardsOkPrefix(s.blocks, k);
    ChainFollowsEmission(s.blocks[..k]);
    FeesOfPrefix(s.blocks, k);
    PhaseOneIsInitial(FeesOf(s.blocks), 0, k);
  }

  // ---------- within one epoch ----------

  // Once phase one is left, the reward does not move before the next epoch boundary.
  lemma {:induction false} RewardHeldFrom(blocks: seq<Block>, f: nat, n: nat)
    requires RewardsOk(blocks) && 0 < f <= n <= |blocks| && f / EPOCH_LENGTH == n / EPOCH_LENGTH
    requires !PhaseOne(SupplyAfter(blocks[..f]), f)
    ensures RewardAfter(blocks[..n]) == RewardAfter(blocks[..f])
  {
    hide RewardsOk, SupplyAfter, RewardAt, PhaseOne;
    if f < n {
      var kept := blocks[..n];
      assert (n - 1) / EPOCH_LENGTH == n / EPOCH_LENGTH && n % EPOCH_LENGTH != 0;
      RewardHeldFrom(blocks, f, n - 1);
      StillOutside(blocks, f, n);
      RewardAtLeastTail(blocks[..n - 1]);
      SettledReward(SupplyAfter(kept), n, RewardAfter(blocks[..n - 1]));
      assert kept[..n - 1] == blocks[..n - 1];
    }
  }

  lemma StillOutside(blocks: seq<Block>, f: nat, n: nat)
    requires RewardsOk(blocks) && f <= n <= |blocks| && !PhaseOne(SupplyAfter(blocks[..f]), f)
    ensures !PhaseOne(SupplyAfter(blocks[..n]), n)
  {
    hide RewardsOk, SupplyAfter, RewardAfter, FeesOf, Emit, PhaseOne;
    var kept := blocks[..n];
    RewardsOkPrefix(blocks, n);
    RewardsOkPrefix(blocks, f);
    assert kept[..f] == blocks[..f];
    ChainFollowsEmission(kept);
    ChainFollowsEmission(blocks[..f]);
    FeesOfPrefix(kept, f);
    if PhaseOne(SupplyAfter(kept), n) { PhaseOneIsInitial(FeesOf(kept), 0, f); }
  }

  /** Every fork in the tip's own epoch is recoverable, in phase one or after it. */
  lemma SameEpochIsRecoverable(c: Crypto, s: State, fork: nat)
    requires FullInv(c, s) && fork <= |s.blocks| && fork / EPOCH_LENGTH == |s.blocks| / EPOCH_LENGTH
    ensures Recoverable(s, fork)
  {
    hide FullInv, LedgerInv, ChainOk, RewardsOk, RewardAfter, SupplyAfter, BaseReward, PhaseOne;
    if !Memoryless(SupplyAfter(s.blocks[..fork]), fork) {
      FullInvReward(c, s);
      ForkRewardIsAfter(c, s, fork);
      RewardHeldFrom(s.blocks, fork, |s.blocks|);
      assert s.blocks[..|s.blocks|] == s.blocks;
    }
  }
}
