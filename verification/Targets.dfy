/**
 Compact difficulty targets, the retarget rule and block work, at the level of numbers.
 The byte and limb code that computes the same values is in CompactBytes and UInt256.
 */
module Targets {
  import opened Words
  import opened Transactions

  const ADJUSTMENT_INTERVAL: nat := 3840
  const INITIAL_DIFFICULTY: u32 := 0x1f0c1422
  const TARGET_TIME: nat := 90 * 1000 * 3839   // milliseconds between the window's first and last block
  const MAX_MANTISSA: nat := 0x7fffff

  function Pow256(n: nat): (p: nat)
    ensures p > 0
  {
    if n == 0 then 1 else 256 * Pow256(n - 1)
  }

  function Exponent(bits: u32): nat { bits / 0x100_0000 }
  function Mantissa(bits: u32): nat { bits % 0x80_0000 }
  predicate Negative(bits: u32) { bits / 0x80_0000 % 2 == 1 }

  // The number a compact target stands for; None where the decoder refuses it.
  function TargetValue(bits: u32): Option<nat> {
    if Negative(bits) || Mantissa(bits) == 0 then None
    else if Exponent(bits) <= 3 then Some(Mantissa(bits) / Pow256(3 - Exponent(bits)))
    else if Exponent(bits) - 3 > 29 then None
    else Some(Mantissa(bits) * Pow256(Exponent(bits) - 3))
  }

  // Expected number of hashes for a target.
  function BlockWork(bits: u32): Option<nat> {
    match TargetValue(bits)
    case None => None
    case Some(t) => if t == 0 then None else Some(TWO_256 / (t + 1))
  }

  // ---------- retargeting ----------

  function ShrinkMantissa(m: nat, e: nat): (nat, nat)
    decreases m
  {
    if m > MAX_MANTISSA then ShrinkMantissa(m / 256, e + 1) else (m, e)
  }

  function GrowMantissa(m: nat, e: nat): (nat, nat)
    decreases e
  {
    if 0 < m < 32768 && e > 3 then GrowMantissa(m * 256, e - 1) else (m, e)
  }

  function ClampTime(actual: nat): nat {
    if actual > TARGET_TIME * 2 then TARGET_TIME * 2
    else if actual < TARGET_TIME / 2 then TARGET_TIME / 2
    else actual
  }

  // Build the compact form of m * 256^(e-3), saturating at both ends.
  function Compact(m: nat, e: nat): (bits: u32)
    requires m <= MAX_MANTISSA
  {
    if e > 32 then 32 * 0x100_0000 + MAX_MANTISSA
    else Max(e, 1) * 0x100_0000 + Max(m, 1)
  }

  lemma {:induction false} NormalisedRange(m: nat, e: nat)
    ensures GrowMantissa(m, e).0 <= MAX_MANTISSA || GrowMantissa(m, e) == (m, e)
    decreases e
  {
    if 0 < m < 32768 && e > 3 { NormalisedRange(m * 256, e - 1); }
  }

  lemma {:induction false} ShrinkRange(m: nat, e: nat)
    ensures ShrinkMantissa(m, e).0 <= MAX_MANTISSA
    decreases m
  {
    if m > MAX_MANTISSA { ShrinkRange(m / 256, e + 1); }
  }

  function Normalise(m: nat, e: nat): (bits: u32) {
    var s := ShrinkMantissa(m, e);
    var g := GrowMantissa(s.0, s.1);
    ShrinkRange(m, e);
    NormalisedRange(s.0, s.1);
    Compact(g.0, g.1)
  }

  function Retarget(current: u32, actual: nat): u32 {
    if actual == 0 then current
    else if Mantissa(current) == 0 || Exponent(current) == 0 then INITIAL_DIFFICULTY
    else Normalise(Mantissa(current) * ClampTime(actual) / TARGET_TIME, Exponent(current))
  }

  function WindowSpan(headers: seq<Header>, height: nat): nat
    requires ADJUSTMENT_INTERVAL <= height <= |headers|
  {
    var last, first := headers[height - 1].timestamp, headers[height - ADJUSTMENT_INTERVAL].timestamp;
    if last > first then last - first else 0
  }

  // Chain_ComputeTargetAtHeight.
  function TargetAtBoundary(headers: seq<Header>, height: nat, current: u32): u32 {
    if height < ADJUSTMENT_INTERVAL then INITIAL_DIFFICULTY
    else if height > |headers| then 0
    else Retarget(current, WindowSpan(headers, height))
  }

  // The target after k adjustment boundaries.
  function TargetAfter(headers: seq<Header>, k: nat): u32 {
    if k == 0 then INITIAL_DIFFICULTY
    else TargetAtBoundary(headers, k * ADJUSTMENT_INTERVAL, TargetAfter(headers, k - 1))
  }

  // Chain_GetTargetForHeight.
  function TargetFor(headers: seq<Header>, height: nat): u32 {
    TargetAfter(headers, height / ADJUSTMENT_INTERVAL)
  }

  // ---------- properties of a retarget ----------

  // The compact forms the rule ever produces: non-negative, in decoder range, full-width mantissa.
  predicate Normal(bits: u32) {
    && !Negative(bits)
    && 3 <= Exponent(bits) <= 32
    && 1 <= Mantissa(bits)
    && (Exponent(bits) > 3 ==> Mantissa(bits) >= 32768)
  }

  lemma CompactFields(m: nat, e: nat)
    requires 1 <= m <= MAX_MANTISSA && e < 256
    ensures e * 0x100_0000 + m < 0x1_0000_0000
    ensures Exponent(e * 0x100_0000 + m) == e && Mantissa(e * 0x100_0000 + m) == m
    ensures !Negative(e * 0x100_0000 + m)
  {
    assert (e * 0x100_0000 + m) / 0x80_0000 == 2 * e;
  }

  lemma NormalValue(bits: u32)
    requires Normal(bits)
    ensures TargetValue(bits) == Some(Mantissa(bits) * Pow256(Exponent(bits) - 3))
    ensures TargetValue(bits).value >= 1
  {
    ScaleMonotone(1, Mantissa(bits), Pow256(Exponent(bits) - 3));
  }

  lemma ScaleMonotone(a: nat, b: nat, p: nat)
    requires a <= b
    ensures a * p <= b * p
  {
  }

  // The scaled mantissa lies between half and double the old one, and moves the way time moved.
  lemma ScaledMantissa(m: nat, clamped: nat)
    requires TARGET_TIME / 2 <= clamped <= TARGET_TIME * 2
    ensures m <= 2 * (m * clamped / TARGET_TIME) + 1
    ensures m * clamped / TARGET_TIME <= 2 * m
    ensures clamped >= TARGET_TIME ==> m * clamped / TARGET_TIME >= m
    ensures clamped <= TARGET_TIME ==> m * clamped / TARGET_TIME <= m
  {
    ScaleMonotone(172_755_000, clamped, m);
    ScaleMonotone(clamped, 691_020_000, m);
    if clamped >= TARGET_TIME { ScaleMonotone(345_510_000, clamped, m); }
    if clamped <= TARGET_TIME { ScaleMonotone(clamped, 345_510_000, m); }
    QuotientBounds(m, m * clamped);
  }

  lemma QuotientBounds(m: nat, product: nat)
    ensures 172_755_000 * m <= product ==> m <= 2 * (product / 345_510_000) + 1
    ensures product <= 691_020_000 * m ==> product / 345_510_000 <= 2 * m
    ensures 345_510_000 * m <= product ==> m <= product / 345_510_000
    ensures product <= 345_510_000 * m ==> product / 345_510_000 <= m
  {
    var q := product / 345_510_000;
    assert 345_510_000 * q <= product < 345_510_000 * q + 345_510_000;
  }

  lemma GrowKeepsValue(m: nat, e: nat)
    requires e >= 3 && m <= MAX_MANTISSA
    ensures var g := GrowMantissa(m, e);
            g.1 >= 3 && g.0 * Pow256(g.1 - 3) == m * Pow256(e - 3) &&
            g.1 <= e && g.0 <= MAX_MANTISSA && (m > 0 ==> g.0 > 0 && (g.1 > 3 ==> g.0 >= 32768))
    decreases e
  {
    if 0 < m < 32768 && e > 3 {
      assert Pow256(e - 3) == 256 * Pow256(e - 4);
      assert m * 256 * Pow256(e - 4) == m * (256 * Pow256(e - 4));
      GrowKeepsValue(m * 256, e - 1);
    }
  }

  // Normalising a mantissa of at most twice the range, at a decodable exponent.
  lemma NormaliseValue(m: nat, e: nat)
    requires 1 <= m <= 2 * MAX_MANTISSA && 3 <= e <= 32
    ensures Normal(Normalise(m, e))
    ensures TargetValue(Normalise(m, e)).value <= m * Pow256(e - 3)
    ensures m <= MAX_MANTISSA ==> TargetValue(Normalise(m, e)).value == m * Pow256(e - 3)
    ensures m > MAX_MANTISSA ==> TargetValue(Normalise(m, e)).value >= MAX_MANTISSA * Pow256(e - 3)
  {
    hide Normalise, TargetValue, Pow256, Normal;
    if m > MAX_MANTISSA { NormaliseLarge(m, e); } else { NormaliseSmall(m, e); }
  }

  lemma NormaliseSmall(m: nat, e: nat)
    requires 1 <= m <= MAX_MANTISSA && 3 <= e <= 32
    ensures Normal(Normalise(m, e)) && TargetValue(Normalise(m, e)) == Some(m * Pow256(e - 3))
  {
    hide TargetValue, Pow256;
    assert ShrinkMantissa(m, e) == (m, e);
    GrowKeepsValue(m, e);
    CompactFields(GrowMantissa(m, e).0, GrowMantissa(m, e).1);
    NormalValue(Normalise(m, e));
  }

  lemma NormaliseLarge(m: nat, e: nat)
    requires MAX_MANTISSA < m <= 2 * MAX_MANTISSA && 3 <= e <= 32
    ensures Normal(Normalise(m, e)) && TargetValue(Normalise(m, e)).Some?
    ensures MAX_MANTISSA * Pow256(e - 3) <= TargetValue(Normalise(m, e)).value <= m * Pow256(e - 3)
    ensures TargetValue(Normalise(m, e)).value ==
            if e < 32 then m / 256 * (256 * Pow256(e - 3)) else MAX_MANTISSA * Pow256(e - 3)
  {
    hide TargetValue, Pow256;
    var p, q := Pow256(e - 3), m / 256;
    assert ShrinkMantissa(m, e) == (q, e + 1);
    assert GrowMantissa(q, e + 1) == (q, e + 1);
    ScaleMonotone(MAX_MANTISSA, m, p);
    if e == 32 {
      CompactFields(MAX_MANTISSA, 32);
    } else {
      CompactFields(q, e + 1);
      Pow256Next(e - 3);
      assert q * (256 * p) == (q * 256) * p;
      ScaleMonotone(q * 256, m, p);
      ScaleMonotone(MAX_MANTISSA, q * 256, p);
    }
    NormalValue(Normalise(m, e));
  }

  lemma Pow256Next(n: nat)
    ensures Pow256(n + 1) == 256 * Pow256(n)
  {
  }

  lemma HalvingBound(m: nat, scaled: nat, p: nat)
    requires m <= 2 * scaled + 1
    ensures m * p <= 2 * (scaled * p) + p
  {
    ScaleMonotone(m, 2 * scaled + 1, p);
    assert (2 * scaled + 1) * p == 2 * (scaled * p) + p;
  }

  // How far a target that normalises scaled * p can be from m * p.
  lemma ScaledArithmetic(m: nat, scaled: nat, p: nat, v: nat)
    requires 1 <= m <= MAX_MANTISSA && scaled <= 2 * m && m <= 2 * scaled + 1
    requires v <= scaled * p
    requires if scaled <= MAX_MANTISSA then v == scaled * p else v >= MAX_MANTISSA * p
    ensures v <= 2 * (m * p) && m * p <= 2 * v + p
    ensures scaled >= m ==> v >= m * p
    ensures scaled <= m ==> v <= m * p
  {
    ScaleMonotone(scaled, 2 * m, p);
    assert 2 * m * p == 2 * (m * p);
    HalvingBound(m, scaled, p);
    ScaleMonotone(m, MAX_MANTISSA, p);
    if scaled <= m { ScaleMonotone(scaled, m, p); } else { ScaleMonotone(m, scaled, p); }
  }

  /** One retarget keeps the compact form normal, at most doubles the target, at least halves it up
      to one unit of the old mantissa, and moves in the direction of the measured time. */
  lemma RetargetBounds(current: u32, actual: nat)
    requires Normal(current)
    ensures Normal(Retarget(current, actual))
    ensures TargetValue(Retarget(current, actual)).value <= 2 * TargetValue(current).value
    ensures TargetValue(current).value <=
            2 * TargetValue(Retarget(current, actual)).value + Pow256(Exponent(current) - 3)
    ensures actual >= TARGET_TIME ==>
              TargetValue(Retarget(current, actual)).value >= TargetValue(current).value
    ensures actual <= TARGET_TIME ==>
              TargetValue(Retarget(current, actual)).value <= TargetValue(current).value
  {
    NormalValue(current);
    if actual != 0 {
      var m, e := Mantissa(current), Exponent(current);
      var scaled := m * ClampTime(actual) / TARGET_TIME;
      ScaledMantissa(m, ClampTime(actual));
      if scaled == 0 {
        assert Retarget(current, actual) == Normalise(0, 3) == Compact(0, 3);
        CompactFields(1, 3);
        NormalValue(Compact(0, 3));
      } else {
        NormaliseValue(scaled, e);
        ScaledArithmetic(m, scaled, Pow256(e - 3), TargetValue(Normalise(scaled, e)).value);
      }
    }
  }

  // Every target the chain can require decodes to a nonzero value.
  lemma {:induction false} ReachableTargetNormal(headers: seq<Header>, k: nat)
    requires k * ADJUSTMENT_INTERVAL <= |headers|
    ensures Normal(TargetAfter(headers, k))
    ensures TargetValue(TargetAfter(headers, k)).Some? && TargetValue(TargetAfter(headers, k)).value >= 1
  {
    if k != 0 {
      ReachableTargetNormal(headers, k - 1);
      RetargetBounds(TargetAfter(headers, k - 1), WindowSpan(headers, k * ADJUSTMENT_INTERVAL));
    }
    NormalValue(TargetAfter(headers, k));
  }

  // The target depends only on the headers below the last boundary.
  lemma {:induction false} TargetIsLocal(headers: seq<Header>, other: seq<Header>, k: nat)
    requires k * ADJUSTMENT_INTERVAL <= |headers| && k * ADJUSTMENT_INTERVAL <= |other|
    requires headers[..k * ADJUSTMENT_INTERVAL] == other[..k * ADJUSTMENT_INTERVAL]
    ensures TargetAfter(headers, k) == TargetAfter(other, k)
  {
    hide TargetAtBoundary;
    if k != 0 {
      var n := (k - 1) * ADJUSTMENT_INTERVAL;
      var b := k * ADJUSTMENT_INTERVAL;
      assert headers[..n] == headers[..b][..n] == other[..b][..n] == other[..n];
      TargetIsLocal(headers, other, k - 1);
      BoundaryIsLocal(headers, other, b, TargetAfter(headers, k - 1));
    }
  }

  lemma BoundaryIsLocal(headers: seq<Header>, other: seq<Header>, height: nat, current: u32)
    requires ADJUSTMENT_INTERVAL <= height <= |headers| && height <= |other| && headers[..height] == other[..height]
    ensures TargetAtBoundary(headers, height, current) == TargetAtBoundary(other, height, current)
  {
    hide Retarget;
    var first, last := height - ADJUSTMENT_INTERVAL, height - 1;
    assert headers[last] == headers[..height][last] == other[..height][last] == other[last];
    assert headers[first] == headers[..height][first] == other[..height][first] == other[first];
  }

  lemma TargetForPrefix(headers: seq<Header>, height: nat)
    requires height <= |headers|
    ensures TargetFor(headers, height) == TargetFor(headers[..height], height)
  {
    var k := height / ADJUSTMENT_INTERVAL;
    assert headers[..height][..k * ADJUSTMENT_INTERVAL] == headers[..k * ADJUSTMENT_INTERVAL];
    TargetIsLocal(headers, headers[..height], k);
  }

  // ---------- work ----------

  lemma {:induction false} Pow256Values()
    ensures Pow256(29) * 0x100_0000 == TWO_256
  {
    assert Pow256(8) == TWO_64 by { assert Pow256(4) == 0x1_0000_0000; }
    assert Pow256(16) == TWO_64 * TWO_64 by { assert Pow256(12) == TWO_64 * 0x1_0000_0000; }
    assert Pow256(24) == TWO_64 * TWO_64 * TWO_64 by { assert Pow256(20) == TWO_64 * TWO_64 * 0x1_0000_0000; }
    assert Pow256(28) == TWO_64 * TWO_64 * TWO_64 * 0x1_0000_0000;
  }

  lemma {:induction false} Pow256Monotone(m: nat, n: nat)
    requires m <= n
    ensures Pow256(m) <= Pow256(n)
    decreases n
  {
    if m < n { Pow256Monotone(m, n - 1); }
  }

  lemma TargetValueBound(bits: u32)
    requires TargetValue(bits).Some?
    ensures TargetValue(bits).value < TWO_256 / 2
  {
    Pow256Values();
    var m := Mantissa(bits);
    if Exponent(bits) > 3 {
      Pow256Monotone(Exponent(bits) - 3, 29);
      ScaleMonotone(m, MAX_MANTISSA, Pow256(Exponent(bits) - 3));
      assert MAX_MANTISSA * Pow256(Exponent(bits) - 3) <= MAX_MANTISSA * Pow256(29);
    }
  }

  lemma DivideAntitone(n: nat, a: nat, b: nat)
    requires 0 < a <= b
    ensures n / b <= n / a
  {
    var q := n / b;
    ScaleMonotone(a, b, q);
    assert q * a <= n;
    if n / a < q {
      assert (n / a + 1) * a <= q * a by { ScaleMonotone(n / a + 1, q, a); }
    }
  }

  // Smaller targets never have less work; work is at least 2 and fits 256 bits.
  lemma WorkAntitone(easy: u32, hard: u32)
    requires BlockWork(easy).Some? && BlockWork(hard).Some?
    requires TargetValue(hard).value <= TargetValue(easy).value
    ensures BlockWork(easy).value <= BlockWork(hard).value
    ensures 2 <= BlockWork(easy).value < TWO_256
  {
    TargetValueBound(easy);
    DivideAntitone(TWO_256, TargetValue(hard).value + 1, TargetValue(easy).value + 1);
    DivideAntitone(TWO_256, TargetValue(easy).value + 1, TWO_256 / 2);
    DivideAntitone(TWO_256, 2, TargetValue(easy).value + 1);
  }

  /** The work of a target: how often it plus one goes into 2^256, for every target that decodes above 0. */
  lemma WorkIsExpectedHashes(bits: u32)
    ensures BlockWork(bits).Some? <==> TargetValue(bits).Some? && TargetValue(bits).value > 0
    ensures BlockWork(bits).Some? ==>
              var w, t := BlockWork(bits).value, TargetValue(bits).value;
              w * (t + 1) <= 0x1_0000000000000000_0000000000000000_0000000000000000_0000000000000000 < (w + 1) * (t + 1)
  {
    hide TargetValue;
    if BlockWork(bits).Some? {
      var w, d := BlockWork(bits).value, TargetValue(bits).value + 1;
      assert TWO_256 == w * d + TWO_256 % d;
      assert (w + 1) * d == w * d + d;
    }
  }
}
