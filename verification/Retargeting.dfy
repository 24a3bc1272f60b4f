/**
 The retarget code as it runs: normalisation loops, the replay of every adjustment boundary, and
 the verifier that carries the expected target forward instead of replaying it.
 */
module Retargeting {
  import opened Words
  import opened Transactions
  import opened Targets

  // The two normalisation loops of Chain_ComputeTargetAtHeight; both terminate for every input.
  method NormaliseLoops(m: nat, e: nat) returns (bits: u32)
    ensures bits == Normalise(m, e)
  {
    hide Compact;
    var mantissa: nat, exponent: nat := m, e;
    while mantissa > MAX_MANTISSA
      invariant ShrinkMantissa(mantissa, exponent) == ShrinkMantissa(m, e)
    {
      mantissa, exponent := mantissa / 256, exponent + 1;
    }
    ghost var start := (mantissa, exponent);
    while 0 < mantissa < 32768 && exponent > 3
      invariant GrowMantissa(mantissa, exponent) == GrowMantissa(start.0, start.1)
      invariant mantissa <= MAX_MANTISSA
      decreases exponent
    {
      mantissa, exponent := mantissa * 256, exponent - 1;
    }
    bits := Compact(mantissa, exponent);
  }

  // Chain_ComputeTargetAtHeight.
  method ComputeTargetAtHeight(headers: seq<Header>, height: nat, current: u32) returns (bits: u32)
    ensures bits == TargetAtBoundary(headers, height, current)
  {
    hide Normalise, ClampTime, Mantissa, Exponent;
    if height < ADJUSTMENT_INTERVAL {
      return INITIAL_DIFFICULTY;
    }
    if height > |headers| {
      return 0;
    }
    var last := headers[height - 1].timestamp;
    var first := headers[height - ADJUSTMENT_INTERVAL].timestamp;
    var actual := 0;
    if last > first {
      actual := last - first;
    }
    if actual == 0 {
      return current;
    }
    if Mantissa(current) == 0 || Exponent(current) == 0 {
      return INITIAL_DIFFICULTY;
    }
    bits := NormaliseLoops(Mantissa(current) * ClampTime(actual) / TARGET_TIME, Exponent(current));
  }

  // Chain_GetTargetForHeight: replay every boundary at or below `height`.
  method GetTargetForHeight(headers: seq<Header>, height: nat) returns (bits: u32)
    ensures bits == TargetFor(headers, height)
  {
    hide TargetAtBoundary;
    bits := INITIAL_DIFFICULTY;
    var h := ADJUSTMENT_INTERVAL;
    ghost var k := 0;
    while h <= height
      invariant h == (k + 1) * ADJUSTMENT_INTERVAL
      invariant k * ADJUSTMENT_INTERVAL <= height
      invariant bits == TargetAfter(headers, k)
    {
      bits := ComputeTargetAtHeight(headers, h, bits);
      h, k := h + ADJUSTMENT_INTERVAL, k + 1;
    }
    assert k == height / ADJUSTMENT_INTERVAL;
  }

  /** The difficulty loop of VerifyChainFully: the target carried from block to block is, at every
      height, the one a fresh replay of the headers below would give. */
  method VerifyTargets(headers: seq<Header>) returns (ok: bool)
    ensures ok <==> forall i :: 0 <= i < |headers| ==>
              headers[i].difficultyTarget == TargetFor(headers[..i], i)
  {
    hide TargetAfter, TargetFor, TargetAtBoundary;
    var expected := INITIAL_DIFFICULTY;
    for i := 0 to |headers|
      invariant i > 0 ==> expected == TargetFor(headers, i - 1)
      invariant forall k :: 0 <= k < i ==> headers[k].difficultyTarget == TargetFor(headers[..k], k)
    {
      TargetForSteps(headers, i);
      if i < ADJUSTMENT_INTERVAL {
        expected := INITIAL_DIFFICULTY;
      } else if i % ADJUSTMENT_INTERVAL == 0 {
        expected := ComputeTargetAtHeight(headers, i, expected);
      }
      TargetForPrefix(headers, i);
      if headers[i].difficultyTarget != expected {
        return false;
      }
    }
    ok := true;
  }

  // Between boundaries the required target does not move; at a boundary it is one retarget on.
  lemma TargetForSteps(headers: seq<Header>, i: nat)
    ensures i < ADJUSTMENT_INTERVAL ==> TargetFor(headers, i) == INITIAL_DIFFICULTY
    ensures i >= ADJUSTMENT_INTERVAL && i % ADJUSTMENT_INTERVAL != 0 ==>
              TargetFor(headers, i) == TargetFor(headers, i - 1)
    ensures i >= ADJUSTMENT_INTERVAL && i % ADJUSTMENT_INTERVAL == 0 ==>
              TargetFor(headers, i) == TargetAtBoundary(headers, i, TargetFor(headers, i - 1))
  {
    hide TargetAtBoundary;
    var k := i / ADJUSTMENT_INTERVAL;
    if i >= ADJUSTMENT_INTERVAL {
      if i % ADJUSTMENT_INTERVAL != 0 {
        assert (i - 1) / ADJUSTMENT_INTERVAL == k;
      } else {
        assert (i - 1) / ADJUSTMENT_INTERVAL == k - 1;
        assert k * ADJUSTMENT_INTERVAL == i;
      }
    }
  }
}
