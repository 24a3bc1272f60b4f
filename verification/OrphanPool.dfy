/**
 The pool of blocks that do not attach to the tip, and the attach loop that extends the chain with
 them or adopts a heavier branch.  The reorg-penalty verdict depends on the clock, so every swap
 attempt takes an arbitrary one.
 */
module OrphanPool {
  import opened Words
  import opened Transactions
  import opened DagVotes
  import opened Protocol
  import opened Reorg
  import opened History
  import opened ChainState
  import opened Branches
  import opened AttachRuns
  import opened Adoption

  lemma FewerBlocks(before: seq<Orphan>, after: seq<Orphan>)
    requires forall e :: e in after ==> e in before
    ensures forall b :: b in BlocksOf(after) ==> b in BlocksOf(before)
  {
    forall b | b in BlocksOf(after) ensures b in BlocksOf(before) {
      var i :| 0 <= i < |after| && BlocksOf(after)[i] == b;
      assert after[i] in before;
      var j :| 0 <= j < |before| && before[j] == after[i];
      assert BlocksOf(before)[j] == b;
    }
  }

  lemma BranchIsPooled(entries: seq<Orphan>, branch: seq<Orphan>, fork: nat, parent: Hash, gate: bool)
    requires Followed(entries, branch, fork, parent)
    ensures OpUses(Swap(fork, BlocksOf(branch), gate), BlocksOf(entries))
    ensures branch != [] ==> branch[0] in entries
  {
    hide Extending;
    forall i | 0 <= i < |branch| ensures BlocksOf(branch)[i] in BlocksOf(entries) {
      assert branch[i] in entries;
      var j :| 0 <= j < |entries| && entries[j] == branch[i];
      assert BlocksOf(entries)[j] == branch[i].block;
    }
  }

  class Pool {
    const crypto: Crypto
    var entries: seq<Orphan>
    var nextSequence: nat

    ghost predicate Valid()
      reads this
    {
      PoolOk(crypto, entries, nextSequence)
    }

    constructor (crypto: Crypto)
      ensures Valid() && entries == [] && this.crypto == crypto
    {
      this.crypto := crypto;
      entries, nextSequence := [], 0;
    }

    // OrphanPool_FindByHashLocked.
    method FindByHash(hash: Hash) returns (found: Option<nat>)
      ensures match found case Some(i) => i < |entries| && entries[i].hash == hash
                          case None => forall i :: 0 <= i < |entries| ==> entries[i].hash != hash
    {
      for i := 0 to |entries|
        invariant forall j :: 0 <= j < i ==> entries[j].hash != hash
      {
        if entries[i].hash == hash {
          return Some(i);
        }
      }
      found := None;
    }

    // OrphanPool_EvictOldestLocked: the entry inserted first goes.
    method EvictOldest()
      requires Valid() && entries != []
      modifies this`entries
      ensures Valid() && entries == old(entries)[1..]
    {
      var oldest := 0;
      for i := 1 to |entries|
        invariant oldest == 0
      {
        if entries[i].sequence < entries[oldest].sequence {
          oldest := i;
        }
      }
      WithoutKeeps(crypto, entries, nextSequence, oldest);
      entries := entries[..oldest] + entries[oldest + 1..];
    }

    // Evict from the front until one more entry fits.
    method MakeRoom()
      requires Valid()
      modifies this`entries
      ensures Valid() && |entries| < MAX_ORPHANS
      ensures entries == old(entries)[Max(0, old(|entries|) - (MAX_ORPHANS - 1))..]
    {
      hide PoolOk;
      SizeBound(crypto, entries, nextSequence);
      ghost var start := entries;
      ghost var gone := 0;
      assert start[0..] == start;
      while |entries| >= MAX_ORPHANS
        invariant Valid() && 0 <= gone <= |start| && entries == start[gone..]
        invariant |start| <= MAX_ORPHANS && (gone > 0 ==> |entries| >= MAX_ORPHANS - 1)
        decreases |entries|
      {
        EvictOldest();
        assert start[gone..][1..] == start[gone + 1..];
        gone := gone + 1;
      }
    }

    /** OrphanPool_Insert: no duplicates, at most 512 entries, oldest evicted first. */
    method Insert(block: Block, height: u64, observedAt: u64)
      requires Valid()
      modifies this
      ensures Valid()
      ensures if exists i :: 0 <= i < old(|entries|) && old(entries)[i].hash == crypto.blockHash(block.header)
              then entries == old(entries)
              else entries == old(entries)[Max(0, old(|entries|) - (MAX_ORPHANS - 1))..] +
                              [Orphan(block, height, observedAt, old(nextSequence), crypto.blockHash(block.header))]
    {
      hide PoolOk;
      var hash := crypto.blockHash(block.header);
      var known := FindByHash(hash);
      if known.Some? {
        return;
      }
      MakeRoom();
      var e := Orphan(block, height, observedAt, nextSequence, hash);
      PushKeeps(crypto, entries, nextSequence, e);
      entries, nextSequence := entries + [e], nextSequence + 1;
    }

    // OrphanPool_FindChildLocked: the first entry that extends the given hash.
    method FindChild(height: nat, prevHash: Hash) returns (found: Option<nat>)
      ensures match found
              case Some(i) => i < |entries| && Extending(entries[i], height, prevHash) &&
                              (forall j :: 0 <= j < i ==> !Extending(entries[j], height, prevHash)) &&
                              FirstExtending(entries, height, prevHash) == Some(entries[i])
              case None => (forall i :: 0 <= i < |entries| ==> !Extending(entries[i], height, prevHash)) &&
                           FirstExtending(entries, height, prevHash) == None
    {
      hide FirstExtending;
      for i := 0 to |entries|
        invariant forall j :: 0 <= j < i ==> !Extending(entries[j], height, prevHash)
      {
        if entries[i].height == height && entries[i].block.header.prevHash == prevHash {
          FirstIs(entries, height, prevHash, i);
          return Some(i);
        }
      }
      FirstIs(entries, height, prevHash, |entries|);
      found := None;
    }

    /** OrphanPool_CollectBranchLocked: the branch of first children follows prevHash links over
        consecutive heights, cannot be extended from the pool, and carries its earliest observation. */
    method CollectBranch(fork: nat, parent: Hash) returns (branch: seq<Orphan>, observedAt: u64)
      ensures Collected(entries, branch, fork, parent) && Followed(entries, branch, fork, parent)
      ensures forall i :: 0 <= i < |branch| ==> observedAt <= branch[i].observedAt
      ensures branch != [] && observedAt != 0 ==> exists i :: 0 <= i < |branch| && branch[i].observedAt == observedAt
    {
      hide FirstExtending, Extending, Followed, FirstSteps;
      branch := [];
      NoSteps(entries, fork, parent);
      var expected := parent;
      var earliest := TWO_64 - 1;
      while true
        invariant expected == ParentAt(branch, |branch|, parent)
        invariant FirstSteps(entries, branch, fork, parent) && Followed(entries, branch, fork, parent)
        invariant 0 <= earliest < TWO_64
        invariant forall i :: 0 <= i < |branch| ==> earliest <= branch[i].observedAt
        invariant earliest == TWO_64 - 1 || exists i :: 0 <= i < |branch| && branch[i].observedAt == earliest
        decreases Tallest(entries) - (fork + |branch|)
      {
        HeightBelow(entries, fork + |branch|, expected);
        var child := FindChild(fork + |branch|, expected);
        if child.None? {
          break;
        }
        var e := entries[child.value];
        FirstStepsPush(entries, branch, fork, parent, e);
        FollowedPush(entries, branch, fork, parent, e);
        ghost var shorter := branch;
        branch := branch + [e];
        assert forall i :: 0 <= i < |shorter| ==> branch[i] == shorter[i];
        assert branch[|shorter|].observedAt == e.observedAt;
        if e.observedAt < earliest {
          earliest := e.observedAt;
        }
        expected := e.hash;
      }
      observedAt := if earliest == TWO_64 - 1 then 0 else earliest;
    }

    // OrphanPool_DropByHashLocked (and Take, which differs only in who frees the block).
    method Drop(hash: Hash)
      requires Valid()
      modifies this`entries
      ensures Valid() && |entries| <= old(|entries|)
      ensures (exists i :: 0 <= i < old(|entries|) && old(entries)[i].hash == hash) ==> |entries| == old(|entries|) - 1
      ensures forall e :: e in entries <==> e in old(entries) && e.hash != hash
    {
      hide PoolOk;
      var i := FindByHash(hash);
      if i.Some? {
        WithoutKeeps(crypto, entries, nextSequence, i.value);
        WithoutMembers(crypto, entries, nextSequence, i.value);
        entries := entries[..i.value] + entries[i.value + 1..];
      }
    }

    // No entry can be appended to the chain as it stands.
    ghost predicate Exhausted(full: seq<Block>)
      reads this
    {
      var tip := if |full| > 0 then crypto.blockHash(full[|full| - 1].header) else 0;
      forall e :: e in entries ==> !Extending(e, |full|, tip)
    }

    /** OrphanPool_ExtendTip: performs `ops`, all appends of pooled blocks onto the tip they extend; ends
        because every round removes an entry, leaves none that extends the tip, and removes none that it
        did not append or offer. */
    method ExtendTip(chain: Chain) returns (attached: nat, ghost ops: seq<Op>)
      requires Valid() && chain.Valid() && chain.crypto == crypto
      modifies this`entries, chain
      ensures Valid() && chain.Valid() && |entries| + attached <= old(|entries|)
      ensures forall e :: e in entries ==> e in old(entries)
      ensures Uses(ops, BlocksOf(old(entries))) && Offers(crypto, old(chain.Abs()), old(entries), ops)
      ensures forall e :: e in old(entries) && e !in entries ==> Append(e.block) in ops
      ensures chain.Abs() == From(crypto, old(chain.Abs()), ops)
      ensures attached == Attached(crypto, old(chain.Abs()), ops)
      ensures ChainWork(chain.full) >= old(ChainWork(chain.full)) + attached
      ensures Exhausted(chain.full)
      ensures old(NoneHeld(crypto, chain.full, entries)) ==> NoneHeld(crypto, chain.full, entries)
    {
      hide PoolOk, Backed, TableOk, Add, Extending, ChainWork, FirstExtending, NoneHeld, Offers, OpUses, BlocksOf;
      attached, ops := 0, [];
      ghost var s, pool := chain.Abs(), entries;
      NoOffers(crypto, s, pool);
      while true
        invariant Valid() && chain.Valid() && |entries| + attached <= |pool|
        invariant forall e :: e in entries ==> e in pool
        invariant forall e :: e in pool && e !in entries ==> Append(e.block) in ops
        invariant Uses(ops, BlocksOf(pool)) && Offers(crypto, s, pool, ops)
        invariant chain.Abs() == From(crypto, s, ops) && attached == Attached(crypto, s, ops)
        invariant NoneHeld(crypto, s.blocks, pool) ==> NoneHeld(crypto, chain.full, entries)
        decreases |entries|
      {
        var size := |chain.blocks|;
        TipHeader(chain.blocks, chain.disk, chain.full);
        var tipHash := if size > 0 then crypto.blockHash(chain.blocks[size - 1].header) else 0;
        var child := FindChild(size, tipHash);
        if child.None? {
          AllAppends(crypto, s, pool, ops);
          AppendsRaiseWork(crypto, s, ops);
          break;
        }
        var e := entries[child.value];
        ghost var before, full := entries, chain.full;
        FromOne(crypto, s, ops, Append(e.block));
        OneUse(ops, pool, e);
        OffersPush(crypto, s, pool, ops, e);
        AppendNumber(crypto, chain.Abs(), e.block);
        var ok := chain.AddBlock(e.block);
        Drop(e.hash);
        OnlyOne(crypto, before, nextSequence, e);
        if NoneHeld(crypto, full, before) { NoneHeldPush(crypto, full, before, entries, e.block, e.hash); }
        ops := ops + [Append(e.block)];
        if ok {
          attached := attached + 1;
        }
      }
    }

    /** OrphanPool_TryAdoptBranch: walks the forks from the tip down and performs `ops`, at each fork the
        swap of what the pool collects there, until one succeeds.  If none does, every fork of the chain
        was tried; if one does, every shallower fork was tried and refused first, and exactly the adopted
        branch leaves the pool. */
    method TryAdopt(chain: Chain, forced: bool) returns (adopted: nat, ghost ops: seq<Op>)
      requires Valid() && chain.Valid() && chain.crypto == crypto
      modifies this`entries, chain
      ensures Valid() && chain.Valid()
      ensures forall e :: e in entries ==> e in old(entries)
      ensures if adopted > 0 then |entries| < old(|entries|) else entries == old(entries)
      ensures adopted > 0 ==> ops != [] && TakenOut(crypto, old(entries), entries, ops[|ops| - 1], adopted)
      ensures Uses(ops, BlocksOf(old(entries))) && Descends(crypto, old(chain.Abs()), old(entries), ops)
      ensures chain.Abs() == From(crypto, old(chain.Abs()), ops)
      ensures adopted == Attached(crypto, old(chain.Abs()), ops)
      ensures adopted == 0 ==> Fruitless(crypto, old(chain.Abs()), ops) &&
                               TriedAbove(crypto, old(chain.Abs()), old(entries), ops, 0)
      ensures adopted > 0 ==> AdoptsLast(crypto, old(chain.Abs()), old(entries), ops)
      ensures forced ==> OpenGates(ops)
      ensures old(NoneHeld(crypto, chain.full, entries)) ==> NoneHeld(crypto, chain.full, entries)
    {
      hide PoolOk, Backed, TableOk, Replace, Extending, Followed, From, Attached, OpUses, BlocksOf, NoneHeld;
      hide Collected, Descends, TriedAbove, Fruitless, AdoptsLast, TakenOut, Walk, OpenGates, Uses;
      adopted, ops := 0, [];
      SameLength(chain.blocks, chain.disk, chain.full);
      ghost var s := chain.Abs();
      WalkStart(crypto, s, entries, forced);
      var fork := |chain.blocks|;
      while fork >= 1
        invariant 0 <= fork && Valid() && chain.Valid() && entries == old(entries)
        invariant chain.Abs() == From(crypto, s, ops) && Walk(crypto, s, entries, ops, fork, forced)
        invariant NoneHeld(crypto, s.blocks, entries) ==> NoneHeld(crypto, chain.full, entries)
      {
        SameLength(chain.blocks, chain.disk, chain.full);
        if fork <= |chain.blocks| {
          HeaderAt(chain.blocks, chain.disk, chain.full, fork - 1);
          var parent := crypto.blockHash(chain.blocks[fork - 1].header);
          var branch, observedAt := CollectBranch(fork, parent);
          if branch == [] {
            WalkSkip(crypto, s, entries, ops, fork, forced);
          } else {
            var gate: bool := *;
            gate := forced || gate;
            ghost var swap := Swap(fork, BlocksOf(branch), gate);
            ghost var full, before := chain.full, entries;
            BranchIsPooled(entries, branch, fork, parent, gate);
            WalkOn(crypto, s, entries, ops, swap, branch, forced);
            ghost var n := SwapBlocks(crypto, chain.Abs(), fork, BlocksOf(branch), gate);
            var ok := chain.ReplaceBranch(fork, BlocksOf(branch), gate);
            ops := ops + [swap];
            if ok {
              DropBranch(branch);
              BranchLeft(crypto, before, entries, nextSequence, branch, full, swap);
              adopted := |branch|;
              return;
            }
            NoneHeldPrefix(crypto, full, entries, n);
          }
        } else {
          WalkSkip(crypto, s, entries, ops, fork, forced);
        }
        fork := fork - 1;
      }
      WalkEnd(crypto, s, entries, ops, forced);
    }

    // Drop every entry of an adopted branch: exactly those go.
    method DropBranch(branch: seq<Orphan>)
      requires Valid() && branch != [] && branch[0] in entries
      modifies this`entries
      ensures Valid() && |entries| < old(|entries|)
      ensures forall e :: e in entries <==>
                e in old(entries) && forall i :: 0 <= i < |branch| ==> branch[i].hash != e.hash
    {
      hide PoolOk;
      for i := 0 to |branch|
        invariant Valid() && |entries| <= old(|entries|)
        invariant i == 0 ==> entries == old(entries)
        invariant i > 0 ==> |entries| < old(|entries|)
        invariant forall e :: e in entries <==> e in old(entries) && forall j :: 0 <= j < i ==> branch[j].hash != e.hash
      {
        Drop(branch[i].hash);
      }
    }

    /** OrphanPool_PruneStale: exactly the blocks the chain already holds go; a rival block at a
        passed height stays, since a heavier branch may start there. */
    method PruneStale(chain: Chain)
      requires Valid() && chain.Valid() && chain.crypto == crypto
      modifies this`entries
      ensures Valid() && |entries| <= old(|entries|)
      ensures forall e :: e in entries <==> e in old(entries) && !Held(crypto, chain.full, e)
      ensures NoneHeld(crypto, chain.full, old(entries)) ==> entries == old(entries)
    {
      hide PoolOk, Backed, TableOk;
      ghost var pool := entries;
      var doomed: seq<Hash> := [];
      for i := 0 to |entries|
        invariant entries == pool
        invariant forall h :: h in doomed <==>
                    exists j :: 0 <= j < i && entries[j].hash == h && Held(crypto, chain.full, entries[j])
      {
        var e := entries[i];
        if e.height < |chain.blocks| {
          HeaderAt(chain.blocks, chain.disk, chain.full, e.height);
          if crypto.blockHash(chain.blocks[e.height].header) == e.hash {
            doomed := doomed + [e.hash];
          }
        } else {
          SameLength(chain.blocks, chain.disk, chain.full);
        }
      }
      assert doomed != [] ==> doomed[0] in doomed;
      for i := 0 to |doomed|
        invariant Valid() && |entries| <= |pool| && (i == 0 ==> entries == pool)
        invariant forall e :: e in entries ==> e in pool
        invariant forall e :: e in pool ==> (e in entries <==> e.hash !in doomed[..i])
      {
        Drop(doomed[i]);
        assert doomed[..i + 1] == doomed[..i] + [doomed[i]];
      }
      assert doomed[..|doomed|] == doomed;
      forall e | e in pool ensures e.hash in doomed <==> Held(crypto, chain.full, e) {
        DoomedIff(crypto, pool, nextSequence, doomed, chain.full, e);
      }
    }

    /** OrphanPool_AttemptAttachForced: performs the run `ops` out of the pool and ends because every
        productive pass shrinks the pool.  Out of a safe pool, or if the run turns out undisturbed, it
        never lowers the cumulative work, raises it if it attaches anything, and leaves nothing in the
        pool that extends the tip; and if the penalty held no swap back, no fork of the final chain has a
        collected branch, out of the pool as it was before pruning (`rest`), that could be adopted. */
    method AttemptAttach(chain: Chain, forced: bool)
      returns (attached: nat, ghost ops: seq<Op>, ghost rest: seq<Orphan>)
      requires Valid() && chain.Valid() && chain.crypto == crypto
      modifies this`entries, chain
      ensures Valid() && chain.Valid()
      ensures |entries| <= old(|entries|) && (attached > 0 ==> |entries| < old(|entries|))
      ensures Uses(ops, BlocksOf(old(entries))) && (forced ==> OpenGates(ops))
      ensures chain.Abs() == From(crypto, old(chain.Abs()), ops)
      ensures attached == Attached(crypto, old(chain.Abs()), ops)
      ensures old(Calm(crypto, chain.Abs(), BlocksOf(entries))) &&
              (old(SafePool(chain.Abs(), BlocksOf(entries))) || Undisturbed(crypto, old(chain.Abs()), ops)) ==>
                && FullInv(crypto, chain.Abs()) && Exhausted(chain.full)
                && ChainWork(chain.full) >= old(ChainWork(chain.full))
                && (attached > 0 ==> ChainWork(chain.full) > old(ChainWork(chain.full)))
                && (OpenGates(ops) ==> NothingAdoptable(crypto, chain.Abs(), rest))
      ensures forall e :: e in rest ==> e in old(entries)
      ensures forall e :: e in old(entries) && e !in rest ==> UsedUp(crypto, old(chain.Abs()), ops, e.block)
      ensures forall e :: e in entries <==> e in rest && !Held(crypto, chain.full, e)
      ensures old(NoneHeld(crypto, chain.full, entries)) ==> entries == rest
    {
      hide PoolOk, Backed, TableOk, From, Attached, Extending, FullInv, Undisturbed, SafePool, Steady, Uses;
      hide NameRecipients, Fruitless, ChainWork, NoneHeld, TriedAbove, OpenGates, NothingAdoptable, Descends;
      hide AdoptsLast, TakenOut, Offers, UsedUp;
      attached, ops, rest := 0, [], [];
      EmptyRun(crypto, chain.Abs(), BlocksOf(entries));
      if entries == [] {
        NothingPooled(crypto, chain.Abs());
        NothingOpen();
        return;
      }
      NothingOpen();
      ghost var s, pool := chain.Abs(), entries;
      while true
        invariant Valid() && chain.Valid() && |entries| <= |pool| && (attached > 0 ==> |entries| < |pool|)
        invariant forall e :: e in entries ==> e in pool
        invariant forall e :: e in pool && e !in entries ==> UsedUp(crypto, s, ops, e.block)
        invariant Uses(ops, BlocksOf(pool)) && (forced ==> OpenGates(ops))
        invariant chain.Abs() == From(crypto, s, ops) && attached == Attached(crypto, s, ops)
        invariant NoneHeld(crypto, s.blocks, pool) ==> NoneHeld(crypto, chain.full, entries)
        decreases |entries|
      {
        FewerBlocks(pool, entries);
        ghost var extendOps, adoptOps;
        var extended, adopted;
        ghost var small := BlocksOf(entries);
        ghost var mid := chain.Abs();
        ghost var held := entries;
        extended, extendOps := ExtendTip(chain);
        FromConcat(crypto, s, ops, extendOps);
        UsesConcat(ops, extendOps, small, BlocksOf(pool));
        AppendsAreOpen(crypto, mid, held, extendOps);
        UsedByAppends(crypto, s, ops, extendOps, held, entries);
        OpenParts(ops, extendOps);
        ops := ops + extendOps;
        FewerBlocks(pool, entries);
        small, mid, held := BlocksOf(entries), chain.Abs(), entries;
        adopted, adoptOps := TryAdopt(chain, forced);
        if adopted > 0 { UsedBySwap(crypto, s, ops, adoptOps, held, entries, adopted); }
        UsedMore(crypto, s, ops, adoptOps);
        FromConcat(crypto, s, ops, adoptOps);
        UsesConcat(ops, adoptOps, small, BlocksOf(pool));
        OpenParts(ops, adoptOps);
        attached := attached + extended + adopted;
        if extended == 0 && adopted == 0 {
          if Calm(crypto, s, BlocksOf(pool)) && SafePool(s, BlocksOf(pool)) {
            SafeIsUndisturbed(crypto, s, ops + adoptOps, BlocksOf(pool));
          }
          if Calm(crypto, s, BlocksOf(pool)) && Undisturbed(crypto, s, ops + adoptOps) {
            UndisturbedWork(crypto, s, ops + adoptOps, BlocksOf(pool));
            StillExhausted(crypto, s, ops, adoptOps, BlocksOf(pool));
            if OpenGates(ops + adoptOps) { LastPass(crypto, s, ops, adoptOps, BlocksOf(pool), entries); }
          }
          ops := ops + adoptOps;
          break;
        }
        ops := ops + adoptOps;
      }
      rest := entries;
      PruneStale(chain);
    }
  }

  // The operation was a swap of this many blocks; they left the pool, and nothing else did.
  ghost predicate TakenOut(c: Crypto, before: seq<Orphan>, after: seq<Orphan>, op: Op, count: nat) {
    && op.Swap? && |op.branch| == count
    && (forall e, i :: e in after && 0 <= i < |op.branch| ==> e.hash != c.blockHash(op.branch[i].header))
    && forall e :: e in before && e !in after ==> e.block in op.branch
  }

  // The run appended this block, accepted or not, or adopted a branch that holds it.
  ghost predicate UsedUp(c: Crypto, s: State, ops: seq<Op>, b: Block) {
    exists k :: 0 <= k < |ops| && UsedAt(c, s, ops, k, b)
  }

  predicate UsedAt(c: Crypto, s: State, ops: seq<Op>, k: nat, b: Block)
    requires k < |ops|
  {
    ops[k] == Append(b) || (ops[k].Swap? && b in ops[k].branch && Performed(c, From(c, s, ops[..k]), ops[k]))
  }

  // A longer run uses up no less.
  lemma UsedMore(c: Crypto, s: State, a: seq<Op>, b: seq<Op>)
    ensures forall x :: UsedUp(c, s, a, x) ==> UsedUp(c, s, a + b, x)
  {
    hide Performed, From;
    forall x | UsedUp(c, s, a, x) ensures UsedUp(c, s, a + b, x) {
      var k :| 0 <= k < |a| && UsedAt(c, s, a, k, x);
      assert (a + b)[..k] == a[..k] && (a + b)[k] == a[k];
      assert UsedAt(c, s, a + b, k, x);
    }
  }

  lemma UsedByAppends(c: Crypto, s: State, a: seq<Op>, b: seq<Op>, before: seq<Orphan>, after: seq<Orphan>)
    requires forall e :: e in before && e !in after ==> Append(e.block) in b
    ensures forall e :: e in before && e !in after ==> UsedUp(c, s, a + b, e.block)
    ensures forall x :: UsedUp(c, s, a, x) ==> UsedUp(c, s, a + b, x)
  {
    hide Performed, From;
    UsedMore(c, s, a, b);
    forall e | e in before && e !in after ensures UsedUp(c, s, a + b, e.block) {
      var k :| 0 <= k < |b| && b[k] == Append(e.block);
      assert UsedAt(c, s, a + b, |a| + k, e.block);
    }
  }

  lemma UsedBySwap(c: Crypto, s: State, a: seq<Op>, b: seq<Op>, before: seq<Orphan>, after: seq<Orphan>, count: nat)
    requires AdoptsLast(c, From(c, s, a), before, b) && TakenOut(c, before, after, b[|b| - 1], count)
    ensures forall e :: e in before && e !in after ==> UsedUp(c, s, a + b, e.block)
  {
    hide Performed, From, Fruitless, TriedAbove, Attached;
    var n := |b| - 1;
    FromConcat(c, s, a, b[..n]);
    assert (a + b)[..|a| + n] == a + b[..n];
    forall e | e in before && e !in after ensures UsedUp(c, s, a + b, e.block) {
      assert UsedAt(c, s, a + b, |a| + n, e.block);
    }
  }

  // Every operation appends a pooled block that extends the tip at that time.
  ghost predicate Offers(c: Crypto, s: State, entries: seq<Orphan>, ops: seq<Op>) {
    forall k :: 0 <= k < |ops| ==> Offered(c, From(c, s, ops[..k]).blocks, entries, ops[k])
  }

  ghost predicate Offered(c: Crypto, blocks: seq<Block>, entries: seq<Orphan>, op: Op) {
    op.Append? && exists e :: e in entries && e.block == op.block && Extending(e, |blocks|, TipHash(c, blocks))
  }

  function TipHash(c: Crypto, blocks: seq<Block>): Hash {
    if |blocks| > 0 then c.blockHash(blocks[|blocks| - 1].header) else 0
  }

  lemma NoOffers(c: Crypto, s: State, entries: seq<Orphan>)
    ensures Offers(c, s, entries, [])
  {
  }

  lemma OffersPush(c: Crypto, s: State, entries: seq<Orphan>, ops: seq<Op>, e: Orphan)
    requires Offers(c, s, entries, ops) && e in entries
    requires var blocks := From(c, s, ops).blocks; Extending(e, |blocks|, TipHash(c, blocks))
    ensures Offers(c, s, entries, ops + [Append(e.block)])
  {
    hide Extending, From, TipHash;
    var longer := ops + [Append(e.block)];
    assert Offered(c, From(c, s, ops).blocks, entries, Append(e.block));
    forall k | 0 <= k < |longer| ensures Offered(c, From(c, s, longer[..k]).blocks, entries, longer[k]) {
      assert longer[..k] == ops[..k];
      if k == |ops| { assert ops[..k] == ops; } else { assert longer[k] == ops[k]; }
    }
  }

  lemma AllAppends(c: Crypto, s: State, entries: seq<Orphan>, ops: seq<Op>)
    requires Offers(c, s, entries, ops)
    ensures forall k :: 0 <= k < |ops| ==> ops[k].Append?
  {
    hide From;
    forall k | 0 <= k < |ops| ensures ops[k].Append? {
      assert Offered(c, From(c, s, ops[..k]).blocks, entries, ops[k]);
    }
  }

  lemma AppendsAreOpen(c: Crypto, s: State, entries: seq<Orphan>, ops: seq<Op>)
    requires Offers(c, s, entries, ops)
    ensures OpenGates(ops)
  {
    hide Offers;
    AllAppends(c, s, entries, ops);
  }

  lemma NothingOpen()
    ensures OpenGates([])
  {
  }

  lemma NothingPooled(c: Crypto, s: State)
    ensures NothingAdoptable(c, s, [])
  {
    hide Adoptable;
    forall fork: nat, branch | 0 < fork <= |s.blocks| && branch != []
      ensures !Collected([], branch, fork, HashBelow(c, s.blocks, fork))
    {
      assert FirstExtending([], fork, ParentAt(branch, 0, HashBelow(c, s.blocks, fork))) == None;
    }
  }

  // Hashes tell the entries of a pool apart.
  lemma OnlyOne(c: Crypto, entries: seq<Orphan>, next: nat, e: Orphan)
    requires PoolOk(c, entries, next) && e in entries
    ensures e.hash == c.blockHash(e.block.header)
    ensures forall x :: x in entries && x.hash == e.hash ==> x == e
  {
    var i :| 0 <= i < |entries| && entries[i] == e;
    assert EntryOk(c, entries[i], next);
  }

  lemma OneUse(ops: seq<Op>, pool: seq<Orphan>, e: Orphan)
    requires Uses(ops, BlocksOf(pool)) && e in pool
    ensures Uses(ops + [Append(e.block)], BlocksOf(pool))
  {
    var i :| 0 <= i < |pool| && pool[i] == e;
    assert BlocksOf(pool)[i] == e.block;
    UsesConcat(ops, [Append(e.block)], BlocksOf(pool), BlocksOf(pool));
  }

  lemma NoneHeldPrefix(c: Crypto, full: seq<Block>, entries: seq<Orphan>, n: nat)
    requires n <= |full|
    ensures NoneHeld(c, full, entries) ==> NoneHeld(c, full[..n], entries)
  {
    if NoneHeld(c, full, entries) {
      forall e | e in entries ensures !Held(c, full[..n], e) { assert !Held(c, full, e); }
    }
  }

  // Once the entries with a swapped-in branch's hashes are gone.
  lemma BranchLeft(c: Crypto, before: seq<Orphan>, after: seq<Orphan>, next: nat, branch: seq<Orphan>,
                   full: seq<Block>, op: Op)
    requires op.Swap? && op.branch == BlocksOf(branch) && 0 < op.fork <= |full|
    requires PoolOk(c, before, next) && Followed(before, branch, op.fork, HashBelow(c, full, op.fork))
    requires forall e :: e in after <==> e in before && forall i :: 0 <= i < |branch| ==> branch[i].hash != e.hash
    ensures TakenOut(c, before, after, op, |branch|)
    ensures NoneHeld(c, full, before) ==> NoneHeld(c, full[..op.fork] + op.branch, after)
  {
    hide PoolOk, Followed, NoneHeld;
    HashesOfBranch(c, before, next, branch, op.fork, HashBelow(c, full, op.fork));
    LeftWithBranch(c, before, next, branch, op.fork, HashBelow(c, full, op.fork));
    if NoneHeld(c, full, before) { NoneHeldSwap(c, full, before, after, op.fork, op.branch); }
  }

  // What leaves the pool with a branch's hashes is the branch.
  lemma LeftWithBranch(c: Crypto, entries: seq<Orphan>, next: nat, branch: seq<Orphan>, fork: nat, parent: Hash)
    requires PoolOk(c, entries, next) && Followed(entries, branch, fork, parent)
    ensures forall e, i :: e in entries && 0 <= i < |branch| && branch[i].hash == e.hash ==>
              e.block in BlocksOf(branch)
  {
    hide Extending, PoolOk;
    forall e, i | e in entries && 0 <= i < |branch| && branch[i].hash == e.hash ensures e.block in BlocksOf(branch) {
      assert branch[i] in entries;
      OnlyOne(c, entries, next, e);
      assert BlocksOf(branch)[i] == e.block;
    }
  }

  lemma HashesOfBranch(c: Crypto, entries: seq<Orphan>, next: nat, branch: seq<Orphan>, fork: nat, parent: Hash)
    requires PoolOk(c, entries, next) && Followed(entries, branch, fork, parent)
    ensures forall i :: 0 <= i < |branch| ==> branch[i].hash == c.blockHash(BlocksOf(branch)[i].header)
  {
    hide Extending;
    forall i | 0 <= i < |branch| ensures branch[i].hash == c.blockHash(BlocksOf(branch)[i].header) {
      assert branch[i] in entries;
      var j :| 0 <= j < |entries| && entries[j] == branch[i];
      assert EntryOk(c, entries[j], next);
    }
  }

  lemma TipHeader(blocks: seq<Stored>, disk: seq<Block>, full: seq<Block>)
    requires Backed(blocks, disk, full)
    ensures |blocks| == |full|
    ensures |blocks| > 0 ==> blocks[|blocks| - 1].header == full[|full| - 1].header
  {
  }

  lemma HeaderAt(blocks: seq<Stored>, disk: seq<Block>, full: seq<Block>, i: nat)
    requires Backed(blocks, disk, full) && i < |blocks|
    ensures |blocks| == |full| && blocks[i].header == full[i].header
  {
  }

  lemma DoomedIff(c: Crypto, pool: seq<Orphan>, next: nat, doomed: seq<Hash>, full: seq<Block>, e: Orphan)
    requires PoolOk(c, pool, next) && e in pool
    requires forall h :: h in doomed <==> exists j :: 0 <= j < |pool| && pool[j].hash == h && Held(c, full, pool[j])
    ensures e.hash in doomed <==> Held(c, full, e)
  {
  }
}
