/**
 Pooled blocks that do not attach to the tip, and the branches they form: a branch follows hash
 links over consecutive heights, and the collected one takes the first child stored at each step.
 */
module Branches {
  import opened Words
  import opened Transactions

  const MAX_ORPHANS: nat := 512

  datatype Orphan = Orphan(block: Block, height: u64, observedAt: u64, sequence: nat, hash: Hash)

  ghost predicate PoolOk(c: Crypto, entries: seq<Orphan>, next: nat) {
    && |entries| <= MAX_ORPHANS
    && (forall i :: 0 <= i < |entries| ==> EntryOk(c, entries[i], next))
    && (forall i, j :: 0 <= i < j < |entries| ==> entries[i].hash != entries[j].hash)
    && (forall i, j :: 0 <= i < j < |entries| ==> entries[i].sequence < entries[j].sequence)
  }

  predicate EntryOk(c: Crypto, e: Orphan, next: nat) {
    e.hash == c.blockHash(e.block.header) && e.sequence < next
  }

  function Without(entries: seq<Orphan>, i: nat): seq<Orphan>
    requires i < |entries|
  {
    entries[..i] + entries[i + 1..]
  }

  lemma WithoutKeeps(c: Crypto, entries: seq<Orphan>, next: nat, i: nat)
    requires PoolOk(c, entries, next) && i < |entries|
    ensures PoolOk(c, Without(entries, i), next)
  {
  }

  lemma WithoutMembers(c: Crypto, entries: seq<Orphan>, next: nat, i: nat)
    requires PoolOk(c, entries, next) && i < |entries|
    ensures forall e :: e in Without(entries, i) <==> e in entries && e.hash != entries[i].hash
  {
    forall e ensures e in Without(entries, i) <==> e in entries && e.hash != entries[i].hash {
      if e in entries && e.hash != entries[i].hash {
        var j :| 0 <= j < |entries| && entries[j] == e;
        assert Without(entries, i)[if j < i then j else j - 1] == e;
      }
    }
  }

  // An entry at this height whose block extends this hash.
  predicate Extending(e: Orphan, height: nat, prevHash: Hash) {
    e.height == height && e.block.header.prevHash == prevHash
  }

  // Every collected entry is pooled and extends the one before it, one height up.
  ghost predicate Followed(entries: seq<Orphan>, branch: seq<Orphan>, fork: nat, parent: Hash) {
    forall i :: 0 <= i < |branch| ==>
      branch[i] in entries && Extending(branch[i], fork + i, ParentAt(branch, i, parent))
  }

  function ParentAt(branch: seq<Orphan>, i: nat, parent: Hash): Hash
    requires i <= |branch|
  {
    if i == 0 then parent else branch[i - 1].hash
  }

  // The entry stored first among those that extend the given hash.
  function FirstExtending(entries: seq<Orphan>, height: nat, prevHash: Hash): Option<Orphan> {
    if entries == [] then None else
    var earlier := FirstExtending(entries[..|entries| - 1], height, prevHash);
    var last := entries[|entries| - 1];
    if earlier.None? && Extending(last, height, prevHash) then Some(last) else earlier
  }

  lemma {:induction false} FirstIs(entries: seq<Orphan>, height: nat, prevHash: Hash, i: nat)
    requires forall j :: 0 <= j < i && j < |entries| ==> !Extending(entries[j], height, prevHash)
    ensures i >= |entries| ==> FirstExtending(entries, height, prevHash) == None
    ensures i < |entries| && Extending(entries[i], height, prevHash) ==>
              FirstExtending(entries, height, prevHash) == Some(entries[i])
    decreases |entries|
  {
    hide Extending;
    if entries != [] {
      var n := |entries| - 1;
      FirstIs(entries[..n], height, prevHash, if i < n then i else n);
    }
  }

  lemma {:induction false} FirstFacts(entries: seq<Orphan>, height: nat, prevHash: Hash)
    ensures match FirstExtending(entries, height, prevHash)
            case Some(e) => e in entries && Extending(e, height, prevHash)
            case None => forall e :: e in entries ==> !Extending(e, height, prevHash)
  {
    hide Extending;
    if entries != [] {
      FirstFacts(entries[..|entries| - 1], height, prevHash);
      assert entries == entries[..|entries| - 1] + [entries[|entries| - 1]];
    }
  }

  // The branch of first children, as far as it goes.
  predicate Collected(entries: seq<Orphan>, branch: seq<Orphan>, fork: nat, parent: Hash) {
    && FirstSteps(entries, branch, fork, parent)
    && FirstExtending(entries, fork + |branch|, ParentAt(branch, |branch|, parent)) == None
  }

  predicate FirstSteps(entries: seq<Orphan>, branch: seq<Orphan>, fork: nat, parent: Hash) {
    forall i :: 0 <= i < |branch| ==>
      FirstExtending(entries, fork + i, ParentAt(branch, i, parent)) == Some(branch[i])
  }

  lemma FirstStepsPush(entries: seq<Orphan>, branch: seq<Orphan>, fork: nat, parent: Hash, e: Orphan)
    requires FirstSteps(entries, branch, fork, parent)
    requires FirstExtending(entries, fork + |branch|, ParentAt(branch, |branch|, parent)) == Some(e)
    ensures FirstSteps(entries, branch + [e], fork, parent)
  {
    hide FirstExtending;
    var longer := branch + [e];
    forall i | 0 <= i < |longer|
      ensures FirstExtending(entries, fork + i, ParentAt(longer, i, parent)) == Some(longer[i])
    {
      assert ParentAt(longer, i, parent) == ParentAt(branch, i, parent);
      if i < |branch| { assert longer[i] == branch[i]; } else { assert longer[i] == e; }
    }
  }

  /** It is a branch of the pool, and no entry extends it. */
  lemma CollectedIsFollowed(entries: seq<Orphan>, branch: seq<Orphan>, fork: nat, parent: Hash)
    requires Collected(entries, branch, fork, parent)
    ensures Followed(entries, branch, fork, parent)
    ensures forall e :: e in entries ==> !Extending(e, fork + |branch|, ParentAt(branch, |branch|, parent))
  {
    hide Extending, FirstExtending, ParentAt;
    FirstFacts(entries, fork + |branch|, ParentAt(branch, |branch|, parent));
    forall i | 0 <= i < |branch|
      ensures branch[i] in entries && Extending(branch[i], fork + i, ParentAt(branch, i, parent))
    {
      FirstFacts(entries, fork + i, ParentAt(branch, i, parent));
    }
  }

  // Another entry extends the same parent as the i-th of the branch.
  predicate RivalAt(entries: seq<Orphan>, branch: seq<Orphan>, fork: nat, parent: Hash, i: nat, rival: Orphan)
    requires i < |branch|
  {
    rival in entries && rival != branch[i] && Extending(rival, fork + i, ParentAt(branch, i, parent))
  }

  ghost predicate Unrivalled(entries: seq<Orphan>, branch: seq<Orphan>, fork: nat, parent: Hash) {
    forall i, rival :: 0 <= i < |branch| ==> !RivalAt(entries, branch, fork, parent, i, rival)
  }

  // Without rivals every branch of the pool runs along the collected one.
  lemma {:induction false} RunsAlong(entries: seq<Orphan>, branch: seq<Orphan>, other: seq<Orphan>, fork: nat,
                                     parent: Hash)
    requires Collected(entries, branch, fork, parent) && Unrivalled(entries, branch, fork, parent)
    requires Followed(entries, other, fork, parent)
    ensures other <= branch
    decreases |other|
  {
    hide FirstExtending, Extending, RivalAt, Collected;
    if other != [] {
      var n := |other| - 1;
      FollowedPrefix(entries, other, fork, parent, n);
      RunsAlong(entries, branch, other[..n], fork, parent);
      var prev := ParentAt(branch, n, parent);
      assert ParentAt(other, n, parent) == prev;
      assert other[n] in entries && Extending(other[n], fork + n, prev);
      CollectedIsFollowed(entries, branch, fork, parent);
      if n < |branch| { SoleChild(entries, branch, fork, parent, n, other[n]); }
    }
  }

  lemma SoleChild(entries: seq<Orphan>, branch: seq<Orphan>, fork: nat, parent: Hash, i: nat, e: Orphan)
    requires Unrivalled(entries, branch, fork, parent) && i < |branch|
    requires e in entries && Extending(e, fork + i, ParentAt(branch, i, parent))
    ensures e == branch[i]
  {
    hide Extending, ParentAt;
    assert !RivalAt(entries, branch, fork, parent, i, e);
  }

  lemma FollowedPrefix(entries: seq<Orphan>, branch: seq<Orphan>, fork: nat, parent: Hash, n: nat)
    requires Followed(entries, branch, fork, parent) && n <= |branch|
    ensures Followed(entries, branch[..n], fork, parent)
  {
    hide Extending;
    forall i | 0 <= i < n
      ensures branch[..n][i] in entries && Extending(branch[..n][i], fork + i, ParentAt(branch[..n], i, parent))
    {
      assert ParentAt(branch[..n], i, parent) == ParentAt(branch, i, parent);
      assert branch[i] in entries && Extending(branch[i], fork + i, ParentAt(branch, i, parent));
    }
  }

  /** Every branch of the pool from this fork is part of the collected one, which is then the longest,
      if and only if no collected entry has a rival. */
  lemma OnlyBranchIff(entries: seq<Orphan>, branch: seq<Orphan>, fork: nat, parent: Hash)
    requires Collected(entries, branch, fork, parent)
    ensures (forall other :: Followed(entries, other, fork, parent) ==> other <= branch) <==>
            Unrivalled(entries, branch, fork, parent)
  {
    hide Collected, FirstExtending, Extending, RivalAt, Followed;
    if Unrivalled(entries, branch, fork, parent) {
      forall other | Followed(entries, other, fork, parent) ensures other <= branch {
        RunsAlong(entries, branch, other, fork, parent);
      }
    } else {
      var i, rival :| 0 <= i < |branch| && RivalAt(entries, branch, fork, parent, i, rival);
      RivalBranch(entries, branch, fork, parent, i, rival);
    }
  }

  lemma RivalBranch(entries: seq<Orphan>, branch: seq<Orphan>, fork: nat, parent: Hash, i: nat, rival: Orphan)
    requires Collected(entries, branch, fork, parent) && i < |branch|
    requires RivalAt(entries, branch, fork, parent, i, rival)
    ensures Followed(entries, branch[..i] + [rival], fork, parent) && !(branch[..i] + [rival] <= branch)
  {
    hide Extending, FirstExtending, Collected;
    CollectedIsFollowed(entries, branch, fork, parent);
    FollowedPrefix(entries, branch, fork, parent, i);
    FollowedPush(entries, branch[..i], fork, parent, rival) by {
      assert ParentAt(branch[..i], i, parent) == ParentAt(branch, i, parent);
    }
    assert (branch[..i] + [rival])[i] == rival;
  }

  // No two pooled entries share height and parent.
  predicate SoleChildren(entries: seq<Orphan>) {
    forall i, j :: 0 <= i < j < |entries| ==>
      !Extending(entries[j], entries[i].height, entries[i].block.header.prevHash)
  }

  /** In particular the collected branch is the longest if no two pooled entries share height and
      parent. */
  lemma LongestIfSoleChildren(entries: seq<Orphan>, branch: seq<Orphan>, other: seq<Orphan>, fork: nat, parent: Hash)
    requires Collected(entries, branch, fork, parent) && Followed(entries, other, fork, parent)
    requires SoleChildren(entries)
    ensures |other| <= |branch|
  {
    hide FirstExtending, Collected, Followed, Extending;
    CollectedIsFollowed(entries, branch, fork, parent);
    forall i, rival | 0 <= i < |branch| ensures !RivalAt(entries, branch, fork, parent, i, rival) {
      FollowedAt(entries, branch, fork, parent, i);
      if rival in entries && Extending(rival, fork + i, ParentAt(branch, i, parent)) {
        SoleInPool(entries, branch[i], rival, fork + i, ParentAt(branch, i, parent));
      }
    }
    RunsAlong(entries, branch, other, fork, parent);
  }

  lemma SoleInPool(entries: seq<Orphan>, e: Orphan, other: Orphan, height: nat, prevHash: Hash)
    requires SoleChildren(entries) && e in entries && other in entries
    requires Extending(e, height, prevHash) && Extending(other, height, prevHash)
    ensures e == other
  {
    var p :| 0 <= p < |entries| && entries[p] == e;
    var q :| 0 <= q < |entries| && entries[q] == other;
    SameSlot(entries, p, q, height, prevHash);
  }

  lemma SameSlot(entries: seq<Orphan>, p: nat, q: nat, height: nat, prevHash: Hash)
    requires SoleChildren(entries) && p < |entries| && q < |entries|
    requires Extending(entries[p], height, prevHash) && Extending(entries[q], height, prevHash)
    ensures p == q
  {
  }

  lemma FollowedAt(entries: seq<Orphan>, branch: seq<Orphan>, fork: nat, parent: Hash, i: nat)
    requires Followed(entries, branch, fork, parent) && i < |branch|
    ensures branch[i] in entries && Extending(branch[i], fork + i, ParentAt(branch, i, parent))
  {
  }

  function Sample(nonce: u64, height: u64, prevHash: Hash, sequence: nat): Orphan {
    Orphan(Block(Header(height, 0, nonce, prevHash, 0, 0, 1, 0, 0, 0), []), height, 0, sequence, nonce)
  }

  /** A pool whose collected branch is not the longest: A and B extend the parent, C extends B, and A
      was stored first. */
  lemma NotAlwaysLongest()
    ensures var a, b, d := Sample(1, 1, 0, 0), Sample(2, 1, 0, 1), Sample(3, 2, 2, 2);
            && (exists c: Crypto :: PoolOk(c, [a, b, d], 3))
            && Collected([a, b, d], [a], 1, 0)
            && Followed([a, b, d], [b, d], 1, 0)
  {
    var a, b, d := Sample(1, 1, 0, 0), Sample(2, 1, 0, 1), Sample(3, 2, 2, 2);
    var c := Crypto(_ => 0, _ => 0, (_, _, _) => true, (h: Header) => h.nonce, (_, _, _) => 0);
    assert PoolOk(c, [a, b, d], 3);
    FirstIs([a, b, d], 1, 0, 0);
    FirstIs([a, b, d], 2, 1, 3);
    assert ParentAt([a], 1, 0) == 1 && ParentAt([b, d], 1, 0) == 2;
  }

  function BlocksOf(branch: seq<Orphan>): (blocks: seq<Block>)
    ensures |blocks| == |branch|
    ensures forall i :: 0 <= i < |branch| ==> blocks[i] == branch[i].block
  {
    seq(|branch|, i requires 0 <= i < |branch| => branch[i].block)
  }

  function Tallest(entries: seq<Orphan>): nat {
    if entries == [] then 0 else Max(Tallest(entries[..|entries| - 1]), entries[|entries| - 1].height + 1)
  }

  lemma {:induction false} TallestBounds(entries: seq<Orphan>, e: Orphan)
    requires e in entries
    ensures e.height < Tallest(entries)
  {
    var last := entries[|entries| - 1];
    assert entries == entries[..|entries| - 1] + [last];
    if e != last { TallestBounds(entries[..|entries| - 1], e); }
  }

  lemma HeightBelow(entries: seq<Orphan>, height: nat, prevHash: Hash)
    ensures FirstExtending(entries, height, prevHash).Some? ==> height < Tallest(entries)
  {
    hide FirstExtending, Tallest;
    FirstFacts(entries, height, prevHash);
    var first := FirstExtending(entries, height, prevHash);
    if first.Some? { TallestBounds(entries, first.value); }
  }

  lemma NoSteps(entries: seq<Orphan>, fork: nat, parent: Hash)
    ensures FirstSteps(entries, [], fork, parent) && Followed(entries, [], fork, parent)
  {
  }

  lemma FollowedPush(entries: seq<Orphan>, branch: seq<Orphan>, fork: nat, parent: Hash, e: Orphan)
    requires Followed(entries, branch, fork, parent) && e in entries
    requires Extending(e, fork + |branch|, ParentAt(branch, |branch|, parent))
    ensures Followed(entries, branch + [e], fork, parent)
  {
    var longer := branch + [e];
    forall i | 0 <= i < |longer|
      ensures longer[i] in entries && Extending(longer[i], fork + i, ParentAt(longer, i, parent))
    {
      assert ParentAt(longer, i, parent) == ParentAt(branch, i, parent);
      if i < |branch| { assert longer[i] == branch[i]; } else { assert longer[i] == e; }
    }
  }

  lemma SizeBound(c: Crypto, entries: seq<Orphan>, next: nat)
    requires PoolOk(c, entries, next)
    ensures |entries| <= MAX_ORPHANS
  {
  }

  lemma PushKeeps(c: Crypto, entries: seq<Orphan>, next: nat, e: Orphan)
    requires PoolOk(c, entries, next) && |entries| < MAX_ORPHANS
    requires e.hash == c.blockHash(e.block.header) && e.sequence == next
    requires forall i :: 0 <= i < |entries| ==> entries[i].hash != e.hash
    ensures PoolOk(c, entries + [e], next + 1)
  {
  }

  // ---------- the longest branch ----------

  // The length of the longest branch from here whose first entry is among the first n stored.
  function ReachOf(entries: seq<Orphan>, n: nat, height: nat, prevHash: Hash): nat
    requires n <= |entries|
    decreases Max(Tallest(entries) - height, 0), n
  {
    if n == 0 then 0 else
    var rest := ReachOf(entries, n - 1, height, prevHash);
    var e := entries[n - 1];
    if !Extending(e, height, prevHash) then rest else
    TallestBounds(entries, e);
    Max(rest, 1 + ReachOf(entries, |entries|, height + 1, e.hash))
  }

  function Reach(entries: seq<Orphan>, height: nat, prevHash: Hash): nat {
    ReachOf(entries, |entries|, height, prevHash)
  }

  lemma {:induction false} ReachThrough(entries: seq<Orphan>, n: nat, height: nat, prevHash: Hash, j: nat)
    requires j < n <= |entries| && Extending(entries[j], height, prevHash)
    ensures ReachOf(entries, n, height, prevHash) >= 1 + Reach(entries, height + 1, entries[j].hash)
  {
    hide Extending, Tallest;
    if j < n - 1 { ReachThrough(entries, n - 1, height, prevHash, j); }
  }

  // No branch of the pool is longer.
  lemma {:induction false} ReachBounds(entries: seq<Orphan>, branch: seq<Orphan>, height: nat, prevHash: Hash)
    requires Followed(entries, branch, height, prevHash)
    ensures |branch| <= Reach(entries, height, prevHash)
    decreases |branch|
  {
    hide Extending, ReachOf;
    if branch != [] {
      FollowedAt(entries, branch, height, prevHash, 0);
      FollowedRest(entries, branch, height, prevHash);
      ReachBounds(entries, branch[1..], height + 1, branch[0].hash);
      var j :| 0 <= j < |entries| && entries[j] == branch[0];
      ReachThrough(entries, |entries|, height, prevHash, j);
    }
  }

  lemma FollowedRest(entries: seq<Orphan>, branch: seq<Orphan>, fork: nat, parent: Hash)
    requires Followed(entries, branch, fork, parent) && branch != []
    ensures Followed(entries, branch[1..], fork + 1, branch[0].hash)
  {
    hide Extending;
    var rest := branch[1..];
    forall i | 0 <= i < |rest|
      ensures rest[i] in entries && Extending(rest[i], fork + 1 + i, ParentAt(rest, i, branch[0].hash))
    {
      FollowedAt(entries, branch, fork, parent, i + 1);
      assert ParentAt(rest, i, branch[0].hash) == ParentAt(branch, i + 1, parent);
    }
  }

  lemma FollowedCons(entries: seq<Orphan>, e: Orphan, rest: seq<Orphan>, fork: nat, parent: Hash)
    requires e in entries && Extending(e, fork, parent) && Followed(entries, rest, fork + 1, e.hash)
    ensures Followed(entries, [e] + rest, fork, parent)
  {
    hide Extending;
    var branch := [e] + rest;
    forall i | 0 <= i < |branch|
      ensures branch[i] in entries && Extending(branch[i], fork + i, ParentAt(branch, i, parent))
    {
      if i > 0 {
        FollowedAt(entries, rest, fork + 1, e.hash, i - 1);
        assert ParentAt(branch, i, parent) == ParentAt(rest, i - 1, e.hash);
      }
    }
  }

  // And some branch is that long.
  lemma {:induction false} ReachAttained(entries: seq<Orphan>, n: nat, height: nat, prevHash: Hash)
    returns (branch: seq<Orphan>)
    requires n <= |entries|
    ensures Followed(entries, branch, height, prevHash) && |branch| == ReachOf(entries, n, height, prevHash)
    decreases Max(Tallest(entries) - height, 0), n
  {
    hide Extending, Tallest, Followed;
    if n == 0 {
      branch := [];
      NoSteps(entries, height, prevHash);
    } else {
      var e := entries[n - 1];
      branch := ReachAttained(entries, n - 1, height, prevHash);
      if Extending(e, height, prevHash) {
        HeightOf(entries, e, height, prevHash);
        var rest := ReachAttained(entries, |entries|, height + 1, e.hash);
        FollowedCons(entries, e, rest, height, prevHash);
        branch := if |branch| < 1 + |rest| then [e] + rest else branch;
      }
    }
  }

  lemma HeightOf(entries: seq<Orphan>, e: Orphan, height: nat, prevHash: Hash)
    requires e in entries && Extending(e, height, prevHash)
    ensures height < Tallest(entries)
  {
    hide Tallest;
    TallestBounds(entries, e);
  }

  // No sibling of a collected entry starts a longer branch than the collected one has left.
  ghost predicate NoDeeperSibling(entries: seq<Orphan>, branch: seq<Orphan>, fork: nat, parent: Hash) {
    forall i, rival :: 0 <= i < |branch| && RivalAt(entries, branch, fork, parent, i, rival) ==>
      1 + Reach(entries, fork + i + 1, rival.hash) <= |branch| - i
  }

  /** The collected branch is the longest of the pool if and only if no sibling of a collected entry
      starts a longer branch than the collected one has left. */
  lemma LongestIff(entries: seq<Orphan>, branch: seq<Orphan>, fork: nat, parent: Hash)
    requires Collected(entries, branch, fork, parent)
    ensures (forall other :: Followed(entries, other, fork, parent) ==> |other| <= |branch|) <==>
            NoDeeperSibling(entries, branch, fork, parent)
  {
    hide Collected, Followed, RivalAt, ReachOf;
    if NoDeeperSibling(entries, branch, fork, parent) {
      ReachAlong(entries, branch, fork, parent, 0);
      forall other | Followed(entries, other, fork, parent) ensures |other| <= |branch| {
        ReachBounds(entries, other, fork, parent);
      }
    } else {
      var i, rival :| 0 <= i < |branch| && RivalAt(entries, branch, fork, parent, i, rival) &&
        1 + Reach(entries, fork + i + 1, rival.hash) > |branch| - i;
      var other := DeeperBranch(entries, branch, fork, parent, i, rival);
    }
  }

  // Below a deeper sibling there is a longer branch.
  lemma DeeperBranch(entries: seq<Orphan>, branch: seq<Orphan>, fork: nat, parent: Hash, i: nat, rival: Orphan)
    returns (other: seq<Orphan>)
    requires Collected(entries, branch, fork, parent) && i < |branch|
    requires RivalAt(entries, branch, fork, parent, i, rival)
    ensures Followed(entries, other, fork, parent) && |other| == i + 1 + Reach(entries, fork + i + 1, rival.hash)
  {
    hide Collected, Followed, Extending, ReachOf;
    var rest := ReachAttained(entries, |entries|, fork + i + 1, rival.hash);
    FollowedCons(entries, rival, rest, fork + i, ParentAt(branch, i, parent));
    CollectedIsFollowed(entries, branch, fork, parent);
    other := Spliced(entries, branch, [rival] + rest, fork, parent, i);
  }

  // A branch up to i followed by one from the same parent.
  lemma Spliced(entries: seq<Orphan>, branch: seq<Orphan>, rest: seq<Orphan>, fork: nat, parent: Hash, i: nat)
    returns (other: seq<Orphan>)
    requires Followed(entries, branch, fork, parent) && i <= |branch|
    requires Followed(entries, rest, fork + i, ParentAt(branch, i, parent))
    ensures Followed(entries, other, fork, parent) && |other| == i + |rest|
  {
    hide Extending;
    other := branch[..i] + rest;
    forall j | 0 <= j < |other|
      ensures other[j] in entries && Extending(other[j], fork + j, ParentAt(other, j, parent))
    {
      if j < i {
        FollowedAt(entries, branch, fork, parent, j);
        assert ParentAt(other, j, parent) == ParentAt(branch, j, parent);
      } else {
        FollowedAt(entries, rest, fork + i, ParentAt(branch, i, parent), j - i);
        assert ParentAt(other, j, parent) == ParentAt(rest, j - i, ParentAt(branch, i, parent));
      }
    }
  }

  // From position i on, nothing reaches further than the collected branch.
  lemma {:induction false} ReachAlong(entries: seq<Orphan>, branch: seq<Orphan>, fork: nat, parent: Hash, i: nat)
    requires Collected(entries, branch, fork, parent) && NoDeeperSibling(entries, branch, fork, parent)
    requires i <= |branch|
    ensures Reach(entries, fork + i, ParentAt(branch, i, parent)) <= |branch| - i
    decreases |branch| - i
  {
    hide Collected, Followed, Extending, ReachOf, RivalAt;
    CollectedIsFollowed(entries, branch, fork, parent);
    var best := ReachAttained(entries, |entries|, fork + i, ParentAt(branch, i, parent));
    if best != [] {
      FollowedAt(entries, best, fork + i, ParentAt(branch, i, parent), 0);
      FollowedRest(entries, best, fork + i, ParentAt(branch, i, parent));
      ReachBounds(entries, best[1..], fork + i + 1, best[0].hash);
      if i < |branch| {
        ReachAlong(entries, branch, fork, parent, i + 1);
        OwnOrRival(entries, branch, fork, parent, i, best[0]);
      }
    }
  }

  lemma OwnOrRival(entries: seq<Orphan>, branch: seq<Orphan>, fork: nat, parent: Hash, i: nat, e: Orphan)
    requires i < |branch| && e in entries && Extending(e, fork + i, ParentAt(branch, i, parent))
    ensures e == branch[i] || RivalAt(entries, branch, fork, parent, i, e)
  {
  }
}
