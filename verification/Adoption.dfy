/**
 Which swaps an attach run must try: the walk over the forks from the tip down, what it means that
 every fork was tried, and why a finished run leaves no pooled branch that could be adopted.
 */
module Adoption {
  import opened Words
  import opened Transactions
  import opened Ledger
  import opened Emission
  import opened Protocol
  import opened Reorg
  import opened History
  import opened Branches
  import opened AttachRuns
  import opened Acceptance

  // ---------- the verdict on a swap does not depend on the mempool ----------

  lemma SameChainAdd(c: Crypto, s: State, t: State, b: Block)
    requires SameChain(s, t)
    ensures Add(c, s, b).ok == Add(c, t, b).ok && SameChain(Add(c, s, b).state, Add(c, t, b).state)
  {
    hide HeaderOk, BodyOk, LedgerTxs, PoolWithout, RewardAt, FeeSum;
  }

  lemma {:induction false} SameChainAddAll(c: Crypto, s: State, t: State, bs: seq<Block>)
    requires SameChain(s, t)
    ensures AddAll(c, s, bs).ok == AddAll(c, t, bs).ok && SameChain(AddAll(c, s, bs).state, AddAll(c, t, bs).state)
  {
    hide Add, SameChain;
    if bs != [] {
      var before := bs[..|bs| - 1];
      SameChainAddAll(c, s, t, before);
      SameChainAdd(c, AddAll(c, s, before).state, AddAll(c, t, before).state, bs[|bs| - 1]);
    }
  }

  lemma SameChainRollback(c: Crypto, s: State, t: State, height: nat)
    requires SameChain(s, t)
    ensures SameChain(Rollback(c, s, height), Rollback(c, t, height))
  {
    hide RewardAt, ReplayAll, SupplyAfter, PoolWithBlocks;
  }

  // The branch may replace everything above the fork, and all of it applies there.
  predicate Adoptable(c: Crypto, s: State, fork: nat, branch: seq<Block>) {
    SwapAllowed(c, s.blocks, fork, branch, true) && AddAll(c, Rollback(c, s, fork), branch).ok
  }

  lemma AdoptableIsAdopted(c: Crypto, s: State, t: State, fork: nat, branch: seq<Block>)
    requires SameChain(s, t)
    ensures Adoptable(c, s, fork, branch) <==> Replace(c, t, fork, branch, true).ok
  {
    hide SwapAllowed, AddAll, Rollback;
    SameChainRollback(c, s, t, fork);
    SameChainAddAll(c, Rollback(c, s, fork), Rollback(c, t, fork), branch);
  }

  // ---------- the walk ----------

  // The operation swaps in what the pool collects at this fork of the chain.
  ghost predicate SwapsCollected(c: Crypto, blocks: seq<Block>, entries: seq<Orphan>, op: Op) {
    && op.Swap? && 0 < op.fork <= |blocks|
    && exists branch :: branch != [] && Collected(entries, branch, op.fork, HashBelow(c, blocks, op.fork)) &&
                        op.branch == BlocksOf(branch)
  }

  function HashBelow(c: Crypto, blocks: seq<Block>, fork: nat): Hash
    requires 0 < fork <= |blocks|
  {
    c.blockHash(blocks[fork - 1].header)
  }

  // Every operation swaps in what the pool collects at its fork of the chain at that time, and the
  // forks go down.
  ghost predicate Descends(c: Crypto, s: State, entries: seq<Orphan>, ops: seq<Op>) {
    && (forall k :: 0 <= k < |ops| ==> SwapsCollected(c, From(c, s, ops[..k]).blocks, entries, ops[k]))
    && (forall j, k :: 0 <= j < k < |ops| ==> Higher(ops[j], ops[k]))
  }

  predicate Higher(a: Op, b: Op) { a.Swap? && b.Swap? && a.fork > b.fork }

  // Every operation is a swap above this fork.
  predicate Above(ops: seq<Op>, fork: nat) { forall k :: 0 <= k < |ops| ==> ops[k].Swap? && ops[k].fork > fork }

  predicate IsSwap(op: Op, fork: nat, branch: seq<Block>) {
    op.Swap? && op.fork == fork && op.branch == branch
  }

  predicate Swapped(ops: seq<Op>, fork: nat, branch: seq<Block>) {
    exists k :: 0 <= k < |ops| && IsSwap(ops[k], fork, branch)
  }

  // Whatever the pool collects at this fork of the chain was swapped in, or tried to be.
  ghost predicate TriedAt(c: Crypto, blocks: seq<Block>, entries: seq<Orphan>, fork: nat, ops: seq<Op>)
    requires 0 < fork <= |blocks|
  {
    forall branch :: branch != [] && Collected(entries, branch, fork, HashBelow(c, blocks, fork)) ==>
      Swapped(ops, fork, BlocksOf(branch))
  }

  // A steady run tried every fork of the chain above the given one.
  ghost predicate TriedAbove(c: Crypto, s: State, entries: seq<Orphan>, ops: seq<Op>, fork: nat) {
    FullInv(c, s) && Steady(c, s, ops) ==>
      forall f :: fork < f <= |s.blocks| ==> TriedAt(c, s.blocks, entries, f, ops)
  }

  // Fruitless swaps, then one that adopts what the pool collects; every shallower fork came first.
  ghost predicate AdoptsLast(c: Crypto, s: State, entries: seq<Orphan>, ops: seq<Op>) {
    && ops != []
    && var n := |ops| - 1;
       && ops[n].Swap? && Performed(c, From(c, s, ops[..n]), ops[n])
       && Fruitless(c, s, ops[..n]) && TriedAbove(c, s, entries, ops[..n], ops[n].fork)
  }

  // From one parent the pool collects one branch.
  lemma CollectedUnique(entries: seq<Orphan>, a: seq<Orphan>, b: seq<Orphan>, fork: nat, parent: Hash)
    requires Collected(entries, a, fork, parent) && Collected(entries, b, fork, parent)
    ensures a == b
  {
    hide FirstExtending, FirstSteps;
    NotLonger(entries, a, b, fork, parent);
    NotLonger(entries, b, a, fork, parent);
    SameSteps(entries, a, b, fork, parent, |a|);
    assert a[..|a|] == a && b[..|b|] == b;
  }

  lemma NotLonger(entries: seq<Orphan>, a: seq<Orphan>, b: seq<Orphan>, fork: nat, parent: Hash)
    requires Collected(entries, a, fork, parent) && FirstSteps(entries, b, fork, parent)
    ensures |b| <= |a|
  {
    hide FirstExtending, ParentAt;
    if |b| > |a| {
      SameSteps(entries, a, b, fork, parent, |a|);
    }
  }

  lemma OnlyEmpty(entries: seq<Orphan>, fork: nat, parent: Hash)
    requires Collected(entries, [], fork, parent)
    ensures forall branch :: Collected(entries, branch, fork, parent) ==> branch == []
  {
    hide Collected;
    forall branch | Collected(entries, branch, fork, parent) ensures branch == [] {
      CollectedUnique(entries, [], branch, fork, parent);
    }
  }

  lemma {:induction false} SameSteps(entries: seq<Orphan>, a: seq<Orphan>, b: seq<Orphan>, fork: nat, parent: Hash,
                                     n: nat)
    requires FirstSteps(entries, a, fork, parent) && FirstSteps(entries, b, fork, parent) && n <= |a| && n <= |b|
    ensures a[..n] == b[..n] && ParentAt(a, n, parent) == ParentAt(b, n, parent)
  {
    hide FirstExtending, FirstSteps;
    if n > 0 {
      SameSteps(entries, a, b, fork, parent, n - 1);
      StepAt(entries, a, fork, parent, n - 1);
      StepAt(entries, b, fork, parent, n - 1);
      assert a[..n] == a[..n - 1] + [a[n - 1]] && b[..n] == b[..n - 1] + [b[n - 1]];
    }
  }

  lemma StepAt(entries: seq<Orphan>, branch: seq<Orphan>, fork: nat, parent: Hash, i: nat)
    requires FirstSteps(entries, branch, fork, parent) && i < |branch|
    ensures FirstExtending(entries, fork + i, ParentAt(branch, i, parent)) == Some(branch[i])
  {
  }

  lemma TriedMore(c: Crypto, blocks: seq<Block>, entries: seq<Orphan>, fork: nat, ops: seq<Op>, op: Op)
    requires 0 < fork <= |blocks| && TriedAt(c, blocks, entries, fork, ops)
    ensures TriedAt(c, blocks, entries, fork, ops + [op])
  {
    hide Collected, IsSwap;
    forall branch | branch != [] && Collected(entries, branch, fork, HashBelow(c, blocks, fork))
      ensures Swapped(ops + [op], fork, BlocksOf(branch))
    {
      assert Swapped(ops, fork, BlocksOf(branch));
      var k :| 0 <= k < |ops| && IsSwap(ops[k], fork, BlocksOf(branch));
      assert (ops + [op])[k] == ops[k];
    }
  }

  // A fork that is gone, or at which nothing is collected, needs no swap.
  lemma WalkPast(c: Crypto, s: State, entries: seq<Orphan>, ops: seq<Op>, fork: nat)
    requires 0 < fork && Fruitless(c, s, ops) && TriedAbove(c, s, entries, ops, fork)
    requires var now := From(c, s, ops).blocks;
             fork <= |now| ==> Collected(entries, [], fork, HashBelow(c, now, fork))
    ensures TriedAbove(c, s, entries, ops, fork - 1)
  {
    hide FullInv, Steady, Fruitless, Collected, Swapped, From;
    if FullInv(c, s) && Steady(c, s, ops) {
      FruitlessSwaps(c, s, ops);
      if fork <= |s.blocks| {
        OnlyEmpty(entries, fork, HashBelow(c, s.blocks, fork));
        assert TriedAt(c, s.blocks, entries, fork, ops);
      }
    }
  }

  // Trying what is collected at a fork.
  lemma WalkSwap(c: Crypto, s: State, entries: seq<Orphan>, ops: seq<Op>, op: Op, branch: seq<Orphan>)
    requires Fruitless(c, s, ops) && op.Swap? && TriedAbove(c, s, entries, ops, op.fork)
    requires 0 < op.fork <= |From(c, s, ops).blocks| && op.branch == BlocksOf(branch)
    requires Collected(entries, branch, op.fork, HashBelow(c, From(c, s, ops).blocks, op.fork))
    ensures TriedAbove(c, s, entries, ops + [op], op.fork - 1)
  {
    hide FullInv, Steady, Fruitless, Collected, From, TriedAt;
    if FullInv(c, s) && Steady(c, s, ops + [op]) {
      SteadyPrefix(c, s, ops + [op], |ops|);
      assert (ops + [op])[..|ops|] == ops;
      FruitlessSwaps(c, s, ops);
      forall f | op.fork - 1 < f <= |s.blocks| ensures TriedAt(c, s.blocks, entries, f, ops + [op]) {
        if f == op.fork {
          TriedHere(c, s.blocks, entries, ops, op, branch);
        } else {
          TriedMore(c, s.blocks, entries, f, ops, op);
        }
      }
    }
  }

  lemma TriedHere(c: Crypto, blocks: seq<Block>, entries: seq<Orphan>, ops: seq<Op>, op: Op, branch: seq<Orphan>)
    requires op.Swap? && 0 < op.fork <= |blocks| && op.branch == BlocksOf(branch)
    requires Collected(entries, branch, op.fork, HashBelow(c, blocks, op.fork))
    ensures TriedAt(c, blocks, entries, op.fork, ops + [op])
  {
    hide Collected;
    forall other | other != [] && Collected(entries, other, op.fork, HashBelow(c, blocks, op.fork))
      ensures Swapped(ops + [op], op.fork, BlocksOf(other))
    {
      CollectedUnique(entries, branch, other, op.fork, HashBelow(c, blocks, op.fork));
      assert IsSwap((ops + [op])[|ops|], op.fork, BlocksOf(other));
    }
  }

  lemma DescendsPush(c: Crypto, s: State, entries: seq<Orphan>, ops: seq<Op>, op: Op)
    requires Descends(c, s, entries, ops) && SwapsCollected(c, From(c, s, ops).blocks, entries, op)
    requires op.Swap? && Above(ops, op.fork)
    ensures Descends(c, s, entries, ops + [op])
  {
    hide SwapsCollected, From;
    var longer := ops + [op];
    forall j, k | 0 <= j < k < |longer| ensures Higher(longer[j], longer[k]) {
      assert longer[j] == ops[j];
      if k < |ops| { assert longer[k] == ops[k]; }
    }
    forall k | 0 <= k < |longer| ensures SwapsCollected(c, From(c, s, longer[..k]).blocks, entries, longer[k]) {
      assert longer[..k] == ops[..k];
      if k == |ops| { assert ops[..k] == ops; }
    }
  }

  lemma SwapsBranch(c: Crypto, blocks: seq<Block>, entries: seq<Orphan>, op: Op, branch: seq<Orphan>)
    requires op.Swap? && 0 < op.fork <= |blocks| && op.branch == BlocksOf(branch) && branch != []
    requires Collected(entries, branch, op.fork, HashBelow(c, blocks, op.fork))
    ensures SwapsCollected(c, blocks, entries, op)
  {
    hide Collected, BlocksOf;
  }

  lemma AdoptsNow(c: Crypto, s: State, entries: seq<Orphan>, ops: seq<Op>, op: Op)
    requires Fruitless(c, s, ops) && op.Swap? && TriedAbove(c, s, entries, ops, op.fork)
    requires Performed(c, From(c, s, ops), op)
    ensures AdoptsLast(c, s, entries, ops + [op])
  {
    hide Fruitless, TriedAbove, Performed, From;
    assert (ops + [op])[..|ops|] == ops;
  }

  // How far the walk has come: only fruitless swaps so far, all at forks above the given one.
  ghost predicate Walk(c: Crypto, s: State, entries: seq<Orphan>, ops: seq<Op>, fork: nat, forced: bool) {
    && Uses(ops, BlocksOf(entries)) && Descends(c, s, entries, ops) && Above(ops, fork) && (forced ==> OpenGates(ops))
    && Fruitless(c, s, ops) && TriedAbove(c, s, entries, ops, fork) && Attached(c, s, ops) == 0
  }

  lemma WalkStart(c: Crypto, s: State, entries: seq<Orphan>, forced: bool)
    ensures From(c, s, []) == s && Walk(c, s, entries, [], |s.blocks|, forced)
  {
    hide FullInv, Steady, TriedAt, SwapsCollected, Performed;
  }

  lemma WalkSkip(c: Crypto, s: State, entries: seq<Orphan>, ops: seq<Op>, fork: nat, forced: bool)
    requires 0 < fork && Walk(c, s, entries, ops, fork, forced)
    requires var now := From(c, s, ops).blocks;
             fork <= |now| ==> Collected(entries, [], fork, HashBelow(c, now, fork))
    ensures Walk(c, s, entries, ops, fork - 1, forced)
  {
    hide Fruitless, TriedAbove, Descends, From, Collected, Uses, BlocksOf, OpenGates, Attached;
    WalkPast(c, s, entries, ops, fork);
  }

  // One more fork tried: the walk goes on, or ends with what it adopted.
  lemma WalkOn(c: Crypto, s: State, entries: seq<Orphan>, ops: seq<Op>, op: Op, branch: seq<Orphan>, forced: bool)
    requires op.Swap? && op.branch == BlocksOf(branch) && branch != [] && OpUses(op, BlocksOf(entries))
    requires Walk(c, s, entries, ops, op.fork, forced) && (forced ==> op.gate)
    requires 0 < op.fork <= |From(c, s, ops).blocks|
    requires Collected(entries, branch, op.fork, HashBelow(c, From(c, s, ops).blocks, op.fork))
    ensures From(c, s, ops + [op]) == Perform(c, From(c, s, ops), op)
    ensures Uses(ops + [op], BlocksOf(entries)) && Descends(c, s, entries, ops + [op])
    ensures forced ==> OpenGates(ops + [op])
    ensures if Performed(c, From(c, s, ops), op)
            then AdoptsLast(c, s, entries, ops + [op]) && Attached(c, s, ops + [op]) == |branch|
            else Walk(c, s, entries, ops + [op], op.fork - 1, forced)
  {
    hide Fruitless, TriedAbove, Descends, From, Collected, OpUses, BlocksOf, Uses, OpenGates, Attached, Replace;
    hide AdoptsLast, SwapsCollected;
    FromOne(c, s, ops, op);
    OneMoreUse(ops, op, BlocksOf(entries));
    SwapsBranch(c, From(c, s, ops).blocks, entries, op, branch);
    DescendsPush(c, s, entries, ops, op);
    OpenPush(ops, op);
    if Performed(c, From(c, s, ops), op) {
      AdoptsNow(c, s, entries, ops, op);
    } else {
      FruitlessPush(c, s, ops, op);
      WalkSwap(c, s, entries, ops, op, branch);
    }
  }

  lemma OneMoreUse(ops: seq<Op>, op: Op, pool: seq<Block>)
    requires Uses(ops, pool) && OpUses(op, pool)
    ensures Uses(ops + [op], pool)
  {
    hide OpUses;
    UsesConcat(ops, [op], pool, pool);
  }

  lemma OpenPush(ops: seq<Op>, op: Op)
    requires op.Swap?
    ensures OpenGates(ops) && op.gate ==> OpenGates(ops + [op])
  {
  }

  lemma WalkEnd(c: Crypto, s: State, entries: seq<Orphan>, ops: seq<Op>, forced: bool)
    requires Walk(c, s, entries, ops, 0, forced)
    ensures Uses(ops, BlocksOf(entries)) && Descends(c, s, entries, ops) && (forced ==> OpenGates(ops))
    ensures Fruitless(c, s, ops) && TriedAbove(c, s, entries, ops, 0) && Attached(c, s, ops) == 0
  {
  }

  // ---------- a finished run ----------

  // No fork of the chain has a collected branch that could be adopted.
  ghost predicate NothingAdoptable(c: Crypto, s: State, entries: seq<Orphan>) {
    forall fork: nat, branch ::
      0 < fork <= |s.blocks| && branch != [] && Collected(entries, branch, fork, HashBelow(c, s.blocks, fork)) ==>
      !Adoptable(c, s, fork, BlocksOf(branch))
  }

  // The penalty held no swap back.
  predicate OpenGates(ops: seq<Op>) { forall k :: 0 <= k < |ops| && ops[k].Swap? ==> ops[k].gate }

  /** When a steady walk over every fork with open gates adopts nothing, there is nothing to adopt. */
  lemma FruitlessWalk(c: Crypto, s: State, entries: seq<Orphan>, ops: seq<Op>)
    requires FullInv(c, s) && Steady(c, s, ops) && Fruitless(c, s, ops)
    requires TriedAbove(c, s, entries, ops, 0) && OpenGates(ops)
    ensures SameChain(From(c, s, ops), s) && NothingAdoptable(c, From(c, s, ops), entries)
  {
    hide FullInv, Steady, Fruitless, Collected, From, Adoptable, Swapped, OpenGates;
    FruitlessSwaps(c, s, ops);
    var t := From(c, s, ops);
    forall fork: nat, branch | 0 < fork <= |t.blocks| && branch != [] &&
      Collected(entries, branch, fork, HashBelow(c, t.blocks, fork))
      ensures !Adoptable(c, t, fork, BlocksOf(branch))
    {
      assert TriedAt(c, s.blocks, entries, fork, ops);
      RefusedStays(c, s, ops, fork, BlocksOf(branch));
    }
  }

  /** So at a recoverable fork no collected branch makes a heavier chain that appending would have built
      and that is paid its due rewards. */
  lemma NothingHeavier(c: Crypto, s: State, entries: seq<Orphan>, fork: nat, branch: seq<Orphan>)
    requires FullInv(c, s) && 0 < fork <= |s.blocks| && Recoverable(s, fork)
    requires ChainWork(s.blocks[fork..]) < TWO_256 && ChainWork(BlocksOf(branch)) < TWO_256
    requires NothingAdoptable(c, s, entries) && Collected(entries, branch, fork, HashBelow(c, s.blocks, fork))
    ensures var chain := s.blocks[..fork] + BlocksOf(branch);
            ChainOk(c, chain) && RewardsOk(chain) ==> ChainWork(chain) <= ChainWork(s.blocks)
  {
    hide FullInv, Recoverable, ChainWork, Collected, Adoptable, ChainOk, RewardsOk, Replace;
    if branch == [] {
      assert s.blocks[..fork] + BlocksOf(branch) == s.blocks[..fork];
      PrefixWork(s.blocks, fork);
    } else {
      SwapSucceedsIff(c, s, fork, BlocksOf(branch), true);
      AdoptableIsAdopted(c, s, s, fork, BlocksOf(branch));
    }
  }

  lemma PrefixWork(blocks: seq<Block>, n: nat)
    requires n <= |blocks|
    ensures ChainWork(blocks[..n]) <= ChainWork(blocks)
  {
    ChainWorkAppend(blocks[..n], blocks[n..]);
    assert blocks[..n] + blocks[n..] == blocks;
  }

  // What a fruitless run tried is not adoptable after it.
  lemma RefusedStays(c: Crypto, s: State, ops: seq<Op>, fork: nat, branch: seq<Block>)
    requires FullInv(c, s) && Steady(c, s, ops) && Fruitless(c, s, ops) && OpenGates(ops)
    requires Swapped(ops, fork, branch)
    ensures !Adoptable(c, From(c, s, ops), fork, branch)
  {
    hide FullInv, Steady, From, Adoptable, Replace;
    var k :| 0 <= k < |ops| && IsSwap(ops[k], fork, branch);
    FruitlessSwaps(c, s, ops);
    SteadyPrefix(c, s, ops, k);
    FruitlessPrefix(c, s, ops, k);
    FruitlessSwaps(c, s, ops[..k]);
    assert !Performed(c, From(c, s, ops[..k]), ops[k]);
    AdoptableIsAdopted(c, From(c, s, ops), From(c, s, ops[..k]), fork, branch);
  }

  // The last pass of a run: from where the earlier operations led, the walk found nothing.
  lemma LastPass(c: Crypto, s: State, a: seq<Op>, b: seq<Op>, pool: seq<Block>, entries: seq<Orphan>)
    requires Calm(c, s, pool) && Steady(c, s, a + b) && Uses(a + b, pool)
    requires Fruitless(c, From(c, s, a), b) && TriedAbove(c, From(c, s, a), entries, b, 0) && OpenGates(b)
    ensures NothingAdoptable(c, From(c, s, a + b), entries)
  {
    hide FullInv, From, Attached, Steady, Fruitless, NameRecipients, ChainWork, OpUses, AppendsNameRecipients;
    hide NoRollbacks, TriedAbove, OpenGates, NothingAdoptable;
    SteadyPrefix(c, s, a + b, |a|);
    assert (a + b)[..|a|] == a;
    assert Uses(a, pool) by { assert forall i :: 0 <= i < |a| ==> a[i] == (a + b)[i]; }
    PoolRun(a, pool);
    AttachNeverLowersWork(c, s, a);
    SteadySuffix(c, s, a, b);
    FruitlessWalk(c, From(c, s, a), entries, b);
    FromConcat(c, s, a, b);
  }

  lemma OpenParts(a: seq<Op>, b: seq<Op>)
    ensures OpenGates(a + b) <==> OpenGates(a) && OpenGates(b)
  {
    if OpenGates(a + b) {
      forall k | 0 <= k < |a| && a[k].Swap? ensures a[k].gate { assert (a + b)[k] == a[k]; }
      forall k | 0 <= k < |b| && b[k].Swap? ensures b[k].gate { assert (a + b)[|a| + k] == b[k]; }
    }
  }

  // ---------- entries the chain already holds ----------

  // The chain already holds this entry's block.
  predicate Held(c: Crypto, full: seq<Block>, e: Orphan) {
    e.height < |full| && c.blockHash(full[e.height].header) == e.hash
  }

  ghost predicate NoneHeld(c: Crypto, full: seq<Block>, entries: seq<Orphan>) {
    forall e :: e in entries ==> !Held(c, full, e)
  }

  // A pooled block that was put on the chain at its height and left the pool.
  lemma NoneHeldPush(c: Crypto, full: seq<Block>, before: seq<Orphan>, after: seq<Orphan>, b: Block, hash: Hash)
    requires NoneHeld(c, full, before) && c.blockHash(b.header) == hash
    requires forall e :: e in after ==> e in before && e.hash != hash
    ensures NoneHeld(c, full + [b], after) && NoneHeld(c, full, after)
  {
    forall e | e in after ensures !Held(c, full + [b], e) && !Held(c, full, e) {
      assert !Held(c, full, e);
    }
  }

  // A prefix of the chain, and on it blocks that left the pool.
  lemma NoneHeldSwap(c: Crypto, full: seq<Block>, before: seq<Orphan>, after: seq<Orphan>, fork: nat,
                     branch: seq<Block>)
    requires NoneHeld(c, full, before) && fork <= |full|
    requires forall e :: e in after ==> e in before
    requires forall e, i :: e in after && 0 <= i < |branch| ==> e.hash != c.blockHash(branch[i].header)
    ensures NoneHeld(c, full[..fork] + branch, after)
  {
    var chain := full[..fork] + branch;
    forall e | e in after ensures !Held(c, chain, e) {
      assert !Held(c, full, e);
      if e.height < |chain| {
        assert chain[e.height] == if e.height < fork then full[e.height] else branch[e.height - fork];
      }
    }
  }

  // Appending a list, complete or not, puts a prefix of it on the chain.
  lemma {:induction false} AddAllPushes(c: Crypto, s: State, bs: seq<Block>) returns (n: nat)
    ensures n <= |bs| && AddAll(c, s, bs).state.blocks == s.blocks + bs[..n]
    ensures AddAll(c, s, bs).ok ==> n == |bs|
  {
    hide Add;
    if bs == [] {
      n := 0;
    } else {
      var before := bs[..|bs| - 1];
      n := AddAllPushes(c, s, before);
      assert before[..n] == bs[..n];
      if AddAll(c, s, before).ok {
        AddNeverLowersWork(c, AddAll(c, s, before).state, bs[|bs| - 1]);
        AppendNumber(c, AddAll(c, s, before).state, bs[|bs| - 1]);
        if AddAll(c, s, bs).state.blocks != AddAll(c, s, before).state.blocks {
          n := |bs|;
          assert before + [bs[|bs| - 1]] == bs[..n];
        }
      }
    }
  }

  /** A swap leaves the kept prefix and on it the branch; a failed one leaves a prefix of the old chain. */
  lemma SwapBlocks(c: Crypto, s: State, fork: nat, branch: seq<Block>, gate: bool) returns (n: nat)
    ensures n <= |s.blocks|
    ensures var r := Replace(c, s, fork, branch, gate);
            if r.ok then n == fork && r.state.blocks == s.blocks[..fork] + branch else r.state.blocks == s.blocks[..n]
  {
    hide AddAll, Linked, WorkSum, PoolWithBlocks, ReplayAll, RewardAt, SupplyAfter;
    n := |s.blocks|;
    assert s.blocks[..n] == s.blocks;
    if SwapAllowed(c, s.blocks, fork, branch, gate) {
      var low := Rollback(c, s, fork);
      var applied := AddAll(c, low, branch);
      var m := AddAllPushes(c, low, branch);
      if applied.ok {
        n := fork;
        assert branch[..m] == branch;
      } else {
        var again := Rollback(c, applied.state, fork);
        var k := AddAllPushes(c, again, s.blocks[fork..]);
        n := fork + k;
        RolledBack(c, s, fork);
        RolledBack(c, applied.state, fork);
        assert again.blocks == s.blocks[..fork];
        assert s.blocks[..fork] + s.blocks[fork..][..k] == s.blocks[..n];
      }
    }
  }

  lemma RolledBack(c: Crypto, s: State, fork: nat)
    requires fork <= |s.blocks|
    ensures Rollback(c, s, fork).blocks == s.blocks[..fork]
  {
    hide PoolWithBlocks, ReplayAll, RewardAt, SupplyAfter;
  }
}
