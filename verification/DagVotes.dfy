/**
 The miner-voted DAG size: the recurrence each epoch's size follows, what the memo table of
 `Chain_ExtendDagEpochsLocked` must hold, and the proof-of-work verdict that depends on it.
 */
module DagVotes {
  import opened Words
  import opened Transactions
  import opened Targets
  import opened Emission

  const DAG_MIN_SIZE: nat := 0x8000_0000
  const DAG_BASE_SIZE: nat := 0x8000_0000
  const DAG_MAX_SIZE: nat := 0x2_0000_0000
  const DAG_EPOCH_STEP: nat := 0x4000_0000
  const VOTE_HOLD: u8 := 1
  const VOTE_DOWN: u8 := 2

  function CountVotes(headers: seq<Header>, lo: nat, hi: nat, vote: u8): nat
    requires lo <= hi <= |headers|
    decreases hi
  {
    if lo == hi then 0 else
    CountVotes(headers, lo, hi - 1, vote) + if headers[hi - 1].vote == vote then 1 else 0
  }

  function EpochVotes(headers: seq<Header>, k: nat, vote: u8): nat
    requires (k + 1) * EPOCH_LENGTH <= |headers|
  {
    CountVotes(headers, k * EPOCH_LENGTH, (k + 1) * EPOCH_LENGTH, vote)
  }

  predicate DownQualified(headers: seq<Header>, k: nat)
    requires (k + 1) * EPOCH_LENGTH <= |headers|
  {
    EpochVotes(headers, k, VOTE_DOWN) * 8 > EPOCH_LENGTH * 7
  }

  predicate Brake(headers: seq<Header>, k: nat)
    requires (k + 1) * EPOCH_LENGTH <= |headers|
  {
    (EpochVotes(headers, k, VOTE_HOLD) + EpochVotes(headers, k, VOTE_DOWN)) * 2 > EPOCH_LENGTH
  }

  function NextSize(size: nat, down: bool, priorDown: bool, brake: bool): nat {
    if down && priorDown then
      if size > DAG_MIN_SIZE + DAG_EPOCH_STEP then size - DAG_EPOCH_STEP else DAG_MIN_SIZE
    else if brake then size
    else if size + DAG_EPOCH_STEP < DAG_MAX_SIZE then size + DAG_EPOCH_STEP else DAG_MAX_SIZE
  }

  // The from-scratch recurrence: epoch k's size from the votes of epoch k-1.
  function DagSize(headers: seq<Header>, k: nat): nat
    requires k * EPOCH_LENGTH <= |headers|
  {
    if k == 0 then DAG_BASE_SIZE
    else NextSize(DagSize(headers, k - 1), DownQualified(headers, k - 1),
                  k >= 2 && DownQualified(headers, k - 2), Brake(headers, k - 1))
  }

  function DagSeed(c: Crypto, headers: seq<Header>, height: nat): Hash
    requires height / EPOCH_LENGTH * EPOCH_LENGTH <= |headers|
  {
    if height / EPOCH_LENGTH == 0 then 0
    else c.blockHash(headers[height / EPOCH_LENGTH * EPOCH_LENGTH - 1])
  }

  predicate PowOk(c: Crypto, headers: seq<Header>, h: Header)
    requires h.blockNumber == |headers|
  {
    var t := TargetValue(h.difficultyTarget);
    t.Some? &&
    c.powHash(h, DagSize(headers, h.blockNumber / EPOCH_LENGTH), DagSeed(c, headers, h.blockNumber)) <= t.value
  }

  // ---------- the memo table ----------

  datatype DagEpoch = DagEpoch(size: nat, downQualified: bool)

  ghost predicate TableOk(headers: seq<Header>, table: seq<DagEpoch>, computed: nat) {
    && computed <= |table|
    && (computed > 0 ==> (computed - 1) * EPOCH_LENGTH <= |headers|)
    && (forall k :: 0 <= k < computed ==> table[k].size == SizeOr(headers, k))
    && (forall k :: 0 <= k < computed - 1 ==> table[k].downQualified == QualifiedOr(headers, k))
  }

  // Total versions, so that the table invariant can quantify over epochs.
  function SizeOr(headers: seq<Header>, k: nat): nat {
    if k * EPOCH_LENGTH <= |headers| then DagSize(headers, k) else 0
  }
  predicate QualifiedOr(headers: seq<Header>, k: nat) {
    (k + 1) * EPOCH_LENGTH <= |headers| && DownQualified(headers, k)
  }

  lemma {:induction false} CountVotesLocal(headers: seq<Header>, more: seq<Header>, lo: nat, hi: nat, vote: u8)
    requires lo <= hi <= |headers|
    ensures CountVotes(headers + more, lo, hi, vote) == CountVotes(headers, lo, hi, vote)
    decreases hi
  {
    if lo < hi { CountVotesLocal(headers, more, lo, hi - 1, vote); }
  }

  lemma EpochVotesLocal(headers: seq<Header>, more: seq<Header>, k: nat)
    requires (k + 1) * EPOCH_LENGTH <= |headers|
    ensures DownQualified(headers + more, k) == DownQualified(headers, k)
    ensures Brake(headers + more, k) == Brake(headers, k)
  {
    CountVotesLocal(headers, more, k * EPOCH_LENGTH, (k + 1) * EPOCH_LENGTH, VOTE_HOLD);
    CountVotesLocal(headers, more, k * EPOCH_LENGTH, (k + 1) * EPOCH_LENGTH, VOTE_DOWN);
  }

  lemma {:induction false} DagSizeLocal(headers: seq<Header>, more: seq<Header>, k: nat)
    requires k * EPOCH_LENGTH <= |headers|
    ensures DagSize(headers + more, k) == DagSize(headers, k)
  {
    if k > 0 {
      DagSizeLocal(headers, more, k - 1);
      EpochVotesLocal(headers, more, k - 1);
      if k >= 2 { EpochVotesLocal(headers, more, k - 2); }
    }
  }

  // Appending blocks never invalidates the table.
  lemma TableSurvivesAppend(headers: seq<Header>, more: seq<Header>, table: seq<DagEpoch>, computed: nat)
    requires TableOk(headers, table, computed)
    ensures TableOk(headers + more, table, computed)
  {
    forall k | 0 <= k < computed ensures table[k].size == SizeOr(headers + more, k) {
      assert k <= computed - 1;
      ScaleMonotone(k, computed - 1, EPOCH_LENGTH);
      DagSizeLocal(headers, more, k);
    }
    forall k | 0 <= k < computed - 1 ensures table[k].downQualified == QualifiedOr(headers + more, k) {
      ScaleMonotone(k + 1, computed - 1, EPOCH_LENGTH);
      EpochVotesLocal(headers, more, k);
    }
  }

  // ---------- properties of the recurrence ----------

  // The seven sizes from DAG_MIN_SIZE to DAG_MAX_SIZE in whole steps.
  predicate InBand(size: nat) {
    || size == 0x8000_0000 || size == 0xC000_0000
    || size == 0x1_0000_0000 || size == 0x1_4000_0000 || size == 0x1_8000_0000
    || size == 0x1_C000_0000 || size == 0x2_0000_0000
  }

  lemma BandIsTheWholeBand(size: nat)
    ensures InBand(size) <==> DAG_MIN_SIZE <= size <= DAG_MAX_SIZE && size % DAG_EPOCH_STEP == 0
    ensures InBand(size) ==> size % 32 == 0
  {
  }

  lemma NextSizeInBand(size: nat, down: bool, prior: bool, brake: bool)
    requires InBand(size)
    ensures var next := NextSize(size, down, prior, brake);
            InBand(next) && next <= size + DAG_EPOCH_STEP && size <= next + DAG_EPOCH_STEP
  {
  }

  /** Sizes stay in the band (so they are addressable in 32-byte lanes) and move at most one step. */
  lemma {:induction false} DagSizeInBand(headers: seq<Header>, k: nat)
    requires k * EPOCH_LENGTH <= |headers|
    ensures InBand(DagSize(headers, k))
    ensures k > 0 ==> && DagSize(headers, k) <= DagSize(headers, k - 1) + DAG_EPOCH_STEP
                      && DagSize(headers, k - 1) <= DagSize(headers, k) + DAG_EPOCH_STEP
  {
    if k > 0 {
      DagSizeInBand(headers, k - 1);
      NextSizeInBand(DagSize(headers, k - 1), DownQualified(headers, k - 1),
        k >= 2 && DownQualified(headers, k - 2), Brake(headers, k - 1));
    }
  }

  function Restrictiveness(vote: u8): nat {
    if vote == VOTE_DOWN then 2 else if vote == VOTE_HOLD then 1 else 0
  }

  ghost predicate MoreRestrictive(strict: seq<Header>, lax: seq<Header>) {
    |strict| == |lax| &&
    forall i :: 0 <= i < |lax| ==> Restrictiveness(lax[i].vote) <= Restrictiveness(strict[i].vote)
  }

  lemma {:induction false} RestrictiveCounts(strict: seq<Header>, lax: seq<Header>, lo: nat, hi: nat)
    requires MoreRestrictive(strict, lax) && lo <= hi <= |lax|
    ensures CountVotes(lax, lo, hi, VOTE_DOWN) <= CountVotes(strict, lo, hi, VOTE_DOWN)
    ensures CountVotes(lax, lo, hi, VOTE_HOLD) + CountVotes(lax, lo, hi, VOTE_DOWN)
            <= CountVotes(strict, lo, hi, VOTE_HOLD) + CountVotes(strict, lo, hi, VOTE_DOWN)
    decreases hi
  {
    if lo < hi {
      RestrictiveCounts(strict, lax, lo, hi - 1);
      assert Restrictiveness(lax[hi - 1].vote) <= Restrictiveness(strict[hi - 1].vote);
    }
  }

  lemma RestrictiveEpoch(strict: seq<Header>, lax: seq<Header>, k: nat)
    requires MoreRestrictive(strict, lax) && (k + 1) * EPOCH_LENGTH <= |lax|
    ensures DownQualified(lax, k) ==> DownQualified(strict, k)
    ensures Brake(lax, k) ==> Brake(strict, k)
    ensures DownQualified(lax, k) ==> Brake(lax, k)
  {
    RestrictiveCounts(strict, lax, k * EPOCH_LENGTH, (k + 1) * EPOCH_LENGTH);
  }

  // Braking harder on a size that is not larger gives a size that is not larger.
  lemma NextSizeMonotone(strictSize: nat, laxSize: nat, down: bool, prior: bool, brake: bool,
                         down': bool, prior': bool, brake': bool)
    requires InBand(strictSize) && InBand(laxSize) && strictSize <= laxSize
    requires (down ==> down') && (prior ==> prior') && (brake ==> brake') && (down ==> brake)
    ensures NextSize(strictSize, down', prior', brake') <= NextSize(laxSize, down, prior, brake)
  {
  }

  /** Making any votes more restrictive never raises the size of any epoch. */
  lemma {:induction false} RestrictingNeverGrows(strict: seq<Header>, lax: seq<Header>, k: nat)
    requires MoreRestrictive(strict, lax) && k * EPOCH_LENGTH <= |lax|
    ensures DagSize(strict, k) <= DagSize(lax, k)
  {
    hide NextSize, DownQualified, Brake, InBand;
    if k > 0 {
      RestrictingNeverGrows(strict, lax, k - 1);
      DagSizeInBand(strict, k - 1);
      DagSizeInBand(lax, k - 1);
      RestrictiveEpoch(strict, lax, k - 1);
      if k >= 2 { RestrictiveEpoch(strict, lax, k - 2); }
      NextSizeMonotone(DagSize(strict, k - 1), DagSize(lax, k - 1),
        DownQualified(lax, k - 1), k >= 2 && DownQualified(lax, k - 2), Brake(lax, k - 1),
        DownQualified(strict, k - 1), k >= 2 && DownQualified(strict, k - 2), Brake(strict, k - 1));
    }
  }

  // ---------- the rule, from the votes themselves ----------

  // The heights of epoch k that carry this vote.
  function Voters(headers: seq<Header>, k: nat, vote: u8): set<nat>
    requires (k + 1) * 350_000 <= |headers|
  {
    set i: nat | k * 350_000 <= i < (k + 1) * 350_000 && headers[i].vote == vote
  }

  lemma {:induction false} CountIsCardinality(headers: seq<Header>, lo: nat, hi: nat, vote: u8)
    requires lo <= hi <= |headers|
    ensures CountVotes(headers, lo, hi, vote) == |set i: nat | lo <= i < hi && headers[i].vote == vote|
    decreases hi
  {
    var voters := set i: nat | lo <= i < hi && headers[i].vote == vote;
    if lo == hi {
      assert voters == {};
    } else {
      CountIsCardinality(headers, lo, hi - 1, vote);
      var before := set i: nat | lo <= i < hi - 1 && headers[i].vote == vote;
      if headers[hi - 1].vote == vote {
        assert voters == before + {hi - 1};
      } else {
        assert voters == before;
      }
    }
  }

  lemma VotesAreVoters(headers: seq<Header>, k: nat, vote: u8)
    requires (k + 1) * 350_000 <= |headers|
    ensures EpochVotes(headers, k, vote) == |Voters(headers, k, vote)|
  {
    hide CountVotes;
    CountIsCardinality(headers, k * 350_000, (k + 1) * 350_000, vote);
  }

  /** Epoch 0 has 2 GiB.  The size falls by 1 GiB exactly when it is above 2 GiB and more than seven
      eighths of the last epoch and of the one before it voted down; it rises by 1 GiB exactly when it
      is below 8 GiB and at most half of the last epoch voted hold or down; otherwise it stays. */
  lemma SizeRule(headers: seq<Header>, k: nat)
    requires (k + 1) * 350_000 <= |headers|
    ensures DagSize(headers, 0) == 0x8000_0000
    ensures var size, next := DagSize(headers, k), DagSize(headers, k + 1);
            var falls := && size > 0x8000_0000 && 8 * |Voters(headers, k, 2)| > 7 * 350_000
                         && k > 0 && 8 * |Voters(headers, k - 1, 2)| > 7 * 350_000;
            var rises := && size < 0x2_0000_0000
                         && 2 * (|Voters(headers, k, 1)| + |Voters(headers, k, 2)|) <= 350_000;
            && (next == size - 0x4000_0000 <==> falls)
            && (next == size + 0x4000_0000 <==> rises)
            && (!falls && !rises ==> next == size)
  {
    hide EpochVotes, Voters;
    DagSizeInBand(headers, k);
    VotesAreVoters(headers, k, 1);
    VotesAreVoters(headers, k, 2);
    if k > 0 { VotesAreVoters(headers, k - 1, 2); }
    BandIsTheWholeBand(DagSize(headers, k));
  }

  /** The seed of an epoch is the hash of the last block before it; epoch 0's is zero. */
  lemma SeedRule(c: Crypto, headers: seq<Header>, k: nat, j: nat)
    requires j < 350_000 && k * 350_000 <= |headers|
    ensures (k * 350_000 + j) / EPOCH_LENGTH == k
    ensures DagSeed(c, headers, k * 350_000 + j) == if k == 0 then 0 else c.blockHash(headers[k * 350_000 - 1])
  {
    assert (k * 350_000 + j) / 350_000 == k;
  }
}
