/**
 The emission schedule of `CalculateBlockRewardAtHeight` and `GetInflationRateRewardAtHeight`.
 Outside phase one the source reads and writes the global `g_currentReward`; that hidden state
 is the `current` argument here.
 */
module Emission {
  import opened Words
  import opened Targets

  const MONEY_CAP: nat := TWO_64 - 1
  const TAIL_EMISSION: u64 := 750_000_000_000
  const PHASE_ONE_BLOCKS: nat := 3_000_000
  const EPOCH_LENGTH: nat := 350_000

  // What an epoch boundary sets: 1.5% of the supply spread over the epoch.
  function EpochReward(supply: nat): u64 {
    Max(supply * 15 % TWO_256 / (1000 * EPOCH_LENGTH) % TWO_64, TAIL_EMISSION)
  }

  function InflationReward(supply: nat, height: nat, current: u64): u64 {
    if height == 0 then TAIL_EMISSION
    else if height % EPOCH_LENGTH == 0 then EpochReward(supply)
    else Max(current, TAIL_EMISSION)
  }

  predicate BeforeCap(supply: nat, height: nat) {
    height < PHASE_ONE_BLOCKS && supply < MONEY_CAP
  }

  // The curve as computed: the sum that rounds the division up is taken in 64 bits and can wrap.
  function CurveReward(supply: nat, height: nat): u64
    requires BeforeCap(supply, height)
  {
    var remaining := MONEY_CAP - supply;
    var blocksLeft := PHASE_ONE_BLOCKS - height;
    Min(Max(remaining / 0x10_0000, (remaining + blocksLeft - 1) % TWO_64 / blocksLeft), remaining)
  }

  function RewardAt(supply: nat, height: nat, current: u64): u64 {
    if BeforeCap(supply, height) && CurveReward(supply, height) > TAIL_EMISSION
    then CurveReward(supply, height)
    else InflationReward(supply, height, current)
  }

  predicate PhaseOne(supply: nat, height: nat) {
    BeforeCap(supply, height) && CurveReward(supply, height) > TAIL_EMISSION
  }

  // Heights at which the result does not depend on the hidden current reward.
  predicate Memoryless(supply: nat, height: nat) {
    PhaseOne(supply, height) || height % EPOCH_LENGTH == 0
  }

  // ---------- the intended curve ----------

  function CeilDiv(n: nat, d: nat): nat
    requires d > 0
  {
    (n + d - 1) / d
  }

  function IntendedReward(supply: nat, height: nat): nat
    requires BeforeCap(supply, height)
  {
    Max((MONEY_CAP - supply) / 0x10_0000, CeilDiv(MONEY_CAP - supply, PHASE_ONE_BLOCKS - height))
  }

  lemma QuotientAtLeast(n: nat, d: nat, q: nat)
    requires d > 0 && q * d <= n
    ensures q <= n / d
  {
    if n / d < q {
      ScaleMonotone(n / d + 1, q, d);
    }
  }

  lemma QuotientAtMost(n: nat, d: nat, q: nat)
    requires d > 0 && n < (q + 1) * d
    ensures n / d <= q
  {
    if n / d > q { ScaleMonotone(q + 1, n / d, d); }
  }

  lemma CeilDivWithin(n: nat, d: nat)
    requires d > 0
    ensures n <= CeilDiv(n, d) * d
    ensures CeilDiv(n, d) <= n
  {
    var q := CeilDiv(n, d);
    assert n + d - 1 == q * d + (n + d - 1) % d;
    QuotientAtMost(n + d - 1, d, n) by { assert (n + 1) * d == n * d + d; ScaleMonotone(1, d, n); }
  }

  lemma CeilDivAtMost(n: nat, d: nat, q: nat)
    requires d > 0 && n <= q * d
    ensures CeilDiv(n, d) <= q
  {
    assert (q + 1) * d == q * d + d;
    QuotientAtMost(n + d - 1, d, q);
  }

  // While the sum wraps, rounding up gives 0 and only the shifted curve remains.
  lemma WrappedShare(supply: nat, height: nat)
    requires BeforeCap(supply, height) && supply + 2 <= PHASE_ONE_BLOCKS - height
    ensures CurveReward(supply, height) == (MONEY_CAP - supply) / 0x10_0000
  {
    var left := PHASE_ONE_BLOCKS - height;
    var wrapped := (MONEY_CAP - supply + left - 1) % TWO_64;
    assert wrapped == left - 2 - supply;
    QuotientAtMost(wrapped, left, 0);
  }

  /** The computed reward is the intended curve exactly when the 64-bit sum does not wrap or more
      than 2^20 blocks are left. */
  lemma CurveExact(supply: nat, height: nat)
    requires BeforeCap(supply, height)
    ensures CurveReward(supply, height) == IntendedReward(supply, height) <==>
            !(supply + 2 <= PHASE_ONE_BLOCKS - height <= 0x10_0000)
  {
    hide CurveReward, IntendedReward;
    var left := PHASE_ONE_BLOCKS - height;
    if left < supply + 2 {
      CurvePlain(supply, height);
    } else if left <= 0x10_0000 {
      CurveWrapsShort(supply, height);
    } else {
      CurveWrapsLong(supply, height);
    }
  }

  lemma CurvePlain(supply: nat, height: nat)
    requires BeforeCap(supply, height) && PHASE_ONE_BLOCKS - height < supply + 2
    ensures CurveReward(supply, height) == IntendedReward(supply, height)
  {
    var remaining, left := MONEY_CAP - supply, PHASE_ONE_BLOCKS - height;
    CeilDivWithin(remaining, left);
    assert (remaining + left - 1) % TWO_64 == remaining + left - 1;
  }

  // With at most 2^20 blocks left the share that wrapped away exceeds the shifted curve.
  lemma CurveWrapsShort(supply: nat, height: nat)
    requires BeforeCap(supply, height) && supply + 2 <= PHASE_ONE_BLOCKS - height <= 0x10_0000
    ensures CurveReward(supply, height) != IntendedReward(supply, height)
  {
    hide CurveReward;
    var remaining, left := MONEY_CAP - supply, PHASE_ONE_BLOCKS - height;
    WrappedShare(supply, height);
    ScaleMonotone(left, 0x10_0000, 0x1000_0000_0000);
    QuotientAtLeast(remaining + left - 1, left, 0x1000_0000_0000);
  }

  lemma CurveWrapsLong(supply: nat, height: nat)
    requires BeforeCap(supply, height) && supply + 2 <= PHASE_ONE_BLOCKS - height
    requires PHASE_ONE_BLOCKS - height > 0x10_0000
    ensures CurveReward(supply, height) == IntendedReward(supply, height)
  {
    hide CurveReward;
    var remaining, left := MONEY_CAP - supply, PHASE_ONE_BLOCKS - height;
    WrappedShare(supply, height);
    ScaleMonotone(0x10_0001, left, 0xFFF_FFFF_FFF0);
    CeilDivAtMost(remaining, left, 0xFFF_FFFF_FFF0);
  }

  // A concrete state in which the computed reward falls short of the intended one.
  lemma CurveCanWrap()
    ensures BeforeCap(0, 2_999_990)
    ensures CurveReward(0, 2_999_990) == 17_592_186_044_415
    ensures IntendedReward(0, 2_999_990) == 1_844_674_407_370_955_162
  {
  }

  // ---------- runs from an empty chain, with any fees ----------

  datatype Point = Point(supply: nat, reward: u64)

  function Emit(fees: seq<nat>, start: u64): Point {
    if fees == [] then Point(0, RewardAt(0, 0, start)) else
    var p := Emit(fees[..|fees| - 1], start);
    var supply := p.supply + p.reward + fees[|fees| - 1];
    Point(supply, RewardAt(supply, |fees|, p.reward))
  }

  // Either nothing was minted yet, or more than the wrapping range was.
  predicate OnCurve(supply: nat, height: nat) {
    supply >= PHASE_ONE_BLOCKS || (supply == 0 && height == 0)
  }

  lemma CurveOnRuns(supply: nat, height: nat)
    requires BeforeCap(supply, height) && OnCurve(supply, height)
    ensures CurveReward(supply, height) == IntendedReward(supply, height)
    ensures IntendedReward(supply, height) <= MONEY_CAP - supply
  {
    CurveExact(supply, height);
    CeilDivWithin(MONEY_CAP - supply, PHASE_ONE_BLOCKS - height);
  }

  lemma RewardNotBelowCurve(supply: nat, height: nat, current: u64)
    ensures RewardAt(supply, height, current) >= TAIL_EMISSION
    ensures BeforeCap(supply, height) ==> RewardAt(supply, height, current) >= CurveReward(supply, height)
  {
  }

  lemma ShareFalls(remaining: nat, left: nat, minted: nat)
    requires left >= 2 && CeilDiv(remaining, left) <= minted <= remaining
    ensures CeilDiv(remaining - minted, left - 1) <= CeilDiv(remaining, left)
  {
    var share := CeilDiv(remaining, left);
    CeilDivWithin(remaining, left);
    assert share * (left - 1) == share * left - share;
    CeilDivAtMost(remaining - minted, left - 1, share);
  }

  // Minting at least the curve's reward never raises the curve.
  lemma CurveFalls(supply: nat, height: nat, minted: nat)
    requires OnCurve(supply, height) && BeforeCap(supply, height)
    requires minted >= CurveReward(supply, height) && minted >= TAIL_EMISSION
    requires BeforeCap(supply + minted, height + 1)
    ensures CurveReward(supply + minted, height + 1) <= CurveReward(supply, height)
  {
    CurveOnRuns(supply, height);
    CurveOnRuns(supply + minted, height + 1);
    ShareFalls(MONEY_CAP - supply, PHASE_ONE_BLOCKS - height, minted);
  }

  // One block later phase one has not been re-entered.
  lemma PhaseOneNotReentered(supply: nat, height: nat, current: u64, fee: nat)
    requires OnCurve(supply, height)
    requires PhaseOne(supply + RewardAt(supply, height, current) + fee, height + 1)
    ensures PhaseOne(supply, height)
    ensures OnCurve(supply + RewardAt(supply, height, current) + fee, height + 1)
    ensures RewardAt(supply + RewardAt(supply, height, current) + fee, height + 1,
                     RewardAt(supply, height, current)) <= RewardAt(supply, height, current)
  {
    RewardNotBelowCurve(supply, height, current);
    CurveFalls(supply, height, RewardAt(supply, height, current) + fee);
  }

  lemma {:induction false} RunOnCurve(fees: seq<nat>, start: u64)
    ensures OnCurve(Emit(fees, start).supply, |fees|)
    ensures Emit(fees, start).reward >= TAIL_EMISSION
  {
    if fees == [] {
      CurveOnRuns(0, 0);
    } else {
      RunOnCurve(fees[..|fees| - 1], start);
    }
  }

  /** On every run, a phase-one reward equals the intended curve and never exceeds what remains. */
  lemma EmissionMatchesCurve(fees: seq<nat>, start: u64)
    requires PhaseOne(Emit(fees, start).supply, |fees|)
    ensures Emit(fees, start).reward == IntendedReward(Emit(fees, start).supply, |fees|)
    ensures Emit(fees, start).supply + Emit(fees, start).reward <= MONEY_CAP
  {
    RunOnCurve(fees, start);
    CurveOnRuns(Emit(fees, start).supply, |fees|);
    assert Emit(fees, start).reward == CurveReward(Emit(fees, start).supply, |fees|);
  }

  /** If a run is in phase one now, it was in phase one at every earlier height, and the reward
      never rose on the way. */
  lemma {:induction false} PhaseOneIsInitial(fees: seq<nat>, start: u64, k: nat)
    requires k <= |fees| && PhaseOne(Emit(fees, start).supply, |fees|)
    ensures PhaseOne(Emit(fees[..k], start).supply, k)
    ensures Emit(fees, start).reward <= Emit(fees[..k], start).reward
    decreases |fees|
  {
    hide PhaseOne, RewardAt, OnCurve;
    if k < |fees| {
      var before := fees[..|fees| - 1];
      var p := Emit(before, start);
      RunOnCurve(before, start);
      var hidden := if before == [] then start else Emit(before[..|before| - 1], start).reward;
      assert p.reward == RewardAt(p.supply, |before|, hidden);
      PhaseOneNotReentered(p.supply, |before|, hidden, fees[|fees| - 1]);
      PhaseOneIsInitial(before, start, k);
      assert before[..k] == fees[..k];
    } else {
      assert fees[..k] == fees;
    }
  }

  lemma {:induction false} SupplyGrows(fees: seq<nat>, start: u64, k: nat)
    requires k <= |fees|
    ensures Emit(fees[..k], start).supply <= Emit(fees, start).supply
    decreases |fees|
  {
    if k < |fees| {
      SupplyGrows(fees[..|fees| - 1], start, k);
      assert fees[..|fees| - 1][..k] == fees[..k];
    } else {
      assert fees[..k] == fees;
    }
  }

  /** By height 3,000,000 the supply has reached 2^64 - 1, whatever the fees were. */
  lemma {:induction false} CapReached(fees: seq<nat>, start: u64)
    requires |fees| >= PHASE_ONE_BLOCKS
    ensures Emit(fees, start).supply >= MONEY_CAP
  {
    hide RewardAt, OnCurve;
    var almost := fees[..PHASE_ONE_BLOCKS - 1];
    var p := Emit(almost, start);
    var done := fees[..PHASE_ONE_BLOCKS];
    assert done[..|done| - 1] == almost;
    if p.supply < MONEY_CAP {
      RunOnCurve(almost, start);
      LastReward(p.supply, Emit(almost[..|almost| - 1], start).reward);
    }
    SupplyGrows(fees, start, PHASE_ONE_BLOCKS);
  }

  // The last height of phase one pays out whatever remains.
  lemma LastReward(supply: nat, current: u64)
    requires supply < MONEY_CAP && OnCurve(supply, PHASE_ONE_BLOCKS - 1)
    ensures RewardAt(supply, PHASE_ONE_BLOCKS - 1, current) >= MONEY_CAP - supply
  {
    hide RewardAt, CurveReward;
    CurveOnRuns(supply, PHASE_ONE_BLOCKS - 1);
    RewardNotBelowCurve(supply, PHASE_ONE_BLOCKS - 1, current);
  }

  // ---------- the hidden state outside phase one ----------

  /** Recomputing the reward with another hidden value gives the same answer for every pair of
      hidden values exactly at memoryless heights. */
  lemma HiddenStateMatters(supply: nat, height: nat)
    ensures (forall g: u64, h: u64 :: RewardAt(supply, height, g) == RewardAt(supply, height, h))
            <==> Memoryless(supply, height)
  {
    if !Memoryless(supply, height) {
      assert RewardAt(supply, height, TAIL_EMISSION) != RewardAt(supply, height, TAIL_EMISSION + 1);
    }
  }

  // Off those heights the hidden reward is what comes out, once it is at least the tail emission.
  lemma HiddenRewardIsKept(supply: nat, height: nat, current: u64)
    requires !Memoryless(supply, height) && current >= TAIL_EMISSION
    ensures RewardAt(supply, height, current) == current
  {
  }

  // Outside phase one a boundary sets the reward and every other height keeps it.
  lemma SettledReward(supply: nat, height: nat, current: u64)
    requires height > 0 && !PhaseOne(supply, height) && current >= TAIL_EMISSION
    ensures RewardAt(supply, height, current) == if height % EPOCH_LENGTH == 0 then EpochReward(supply) else current
  {
    hide CurveReward, EpochReward;
  }

  // Once out of phase one, with a reward that recomputing keeps, the next block leaves it so.
  lemma StaysSettled(supply: nat, height: nat, reward: u64, fee: nat)
    requires height > 0 && !PhaseOne(supply, height) && OnCurve(supply, height)
    requires reward >= TAIL_EMISSION && RewardAt(supply, height, reward) == reward
    ensures var after := supply + reward + fee;
            var next := RewardAt(after, height + 1, reward);
            && !PhaseOne(after, height + 1) && OnCurve(after, height + 1)
            && next >= TAIL_EMISSION && RewardAt(after, height + 1, next) == next
            && next == if (height + 1) % EPOCH_LENGTH == 0 then EpochReward(after) else reward
  {
    hide RewardAt, PhaseOne, EpochReward;
    var after := supply + reward + fee;
    if PhaseOne(after, height + 1) { PhaseOneNotReentered(supply, height, reward, fee); }
    RewardNotBelowCurve(after, height + 1, reward);
    SettledReward(after, height + 1, reward);
    SettledReward(after, height + 1, RewardAt(after, height + 1, reward));
  }

  // A supply and height in phase one keep every smaller supply at a later height of it in phase one.
  lemma PhaseOneSpreads(supply: nat, height: nat, less: nat, later: nat)
    requires PhaseOne(supply, height) && less <= supply && height <= later < PHASE_ONE_BLOCKS
    requires OnCurve(less, later)
    ensures PhaseOne(less, later)
  {
    hide CurveReward, IntendedReward, OnCurve;
    CurveAtMostIntended(supply, height);
    IntendedGrows(supply, height, less, later);
    CurveOnRuns(less, later);
  }

  lemma CurveAtMostIntended(supply: nat, height: nat)
    requires BeforeCap(supply, height)
    ensures CurveReward(supply, height) <= IntendedReward(supply, height)
  {
    var left := PHASE_ONE_BLOCKS - height;
    var sum := MONEY_CAP - supply + left - 1;
    WrapsDown(sum);
    QuotientMonotone(sum % TWO_64, sum, left);
  }

  lemma WrapsDown(n: nat)
    ensures n % TWO_64 <= n
  {
  }

  lemma QuotientMonotone(a: nat, b: nat, d: nat)
    requires d > 0 && a <= b
    ensures a / d <= b / d
  {
    QuotientAtLeast(b, d, a / d);
  }

  lemma IntendedGrows(supply: nat, height: nat, less: nat, later: nat)
    requires BeforeCap(supply, height) && less <= supply && height <= later < PHASE_ONE_BLOCKS
    ensures IntendedReward(supply, height) <= IntendedReward(less, later)
  {
    var r, r' := MONEY_CAP - supply, MONEY_CAP - less;
    var d, d' := PHASE_ONE_BLOCKS - height, PHASE_ONE_BLOCKS - later;
    QuotientMonotone(r, r', 0x10_0000);
    CeilDivWithin(r', d');
    ScaleMonotone(d', d, CeilDiv(r', d'));
    CeilDivAtMost(r, d, CeilDiv(r', d'));
  }

  /** The reward by case, with its constants: the curve while it is above the tail emission, 1.5% of the
      supply per epoch at an epoch's first block, and otherwise the reward in force, never below the
      tail emission.  Supplies so large that the quotient leaves 64 bits wrap. */
  lemma RewardByCase(supply: nat, height: nat, current: u64)
    ensures var reward := RewardAt(supply, height, current);
            var curve := height < 3_000_000 && supply < 0xFFFF_FFFF_FFFF_FFFF;
            if curve && CurveReward(supply, height) > 750_000_000_000 then reward == CurveReward(supply, height)
            else if height == 0 then reward == 750_000_000_000
            else if height % 350_000 == 0 then
              if 15 * supply < TWO_64 * 350_000_000 then
                reward >= 750_000_000_000 &&
                (350_000_000 * reward <= 15 * supply < 350_000_000 * (reward + 1) ||
                 (reward == 750_000_000_000 && 15 * supply < 350_000_000 * 750_000_000_001))
              else reward == Max(15 * supply % TWO_256 / 350_000_000 % TWO_64, 750_000_000_000)
            else reward == if current > 750_000_000_000 then current else 750_000_000_000
  {
    hide CurveReward;
    if 15 * supply < TWO_64 * 350_000_000 { EpochRewardIs(supply); }
  }

  lemma EpochRewardIs(supply: nat)
    requires supply * 15 < TWO_64 * 350_000_000
    ensures EpochReward(supply) == Max(supply * 15 / 350_000_000, 750_000_000_000)
    ensures var r := supply * 15 / 350_000_000;
            350_000_000 * r <= 15 * supply < 350_000_000 * (r + 1)
  {
    var n := supply * 15;
    assert n % TWO_256 == n;
    assert n / 350_000_000 < TWO_64;
  }

  /** For instance, at the cap one block after phase one a smaller hidden reward is kept as it is. */
  lemma HiddenRewardExample()
    ensures RewardAt(MONEY_CAP, PHASE_ONE_BLOCKS + 1, 800_000_000_000) == 800_000_000_000
    ensures RewardAt(MONEY_CAP, PHASE_ONE_BLOCKS + 1, 900_000_000_000) == 900_000_000_000
  {
  }
}
