/**
 What a retarget does to the number a compact target stands for, written out with its constants:
 the new value is the old one times the measured time over the target time, rounded down to a step
 of the mantissa.  Compact forms are unique, so this determines the target itself.
 */
module RetargetLaw {
  import opened Words
  import opened Transactions
  import opened Targets
  import opened Emission

  // The value of a compact form, field by field.
  lemma CompactMeaning(exponent: nat, mantissa: nat, sign: nat)
    requires exponent < 0x100 && mantissa < 0x80_0000 && sign <= 1
    ensures 0 <= exponent * 0x100_0000 + sign * 0x80_0000 + mantissa < 0x1_0000_0000
    ensures TargetValue(exponent * 0x100_0000 + sign * 0x80_0000 + mantissa) ==
            if sign == 1 || mantissa == 0 || exponent > 32 then None
            else if exponent <= 3 then Some(mantissa / Pow256(3 - exponent))
            else Some(mantissa * Pow256(exponent - 3))
  {
    hide Pow256;
    var bits := exponent * 0x100_0000 + sign * 0x80_0000 + mantissa;
    assert bits / 0x80_0000 == 2 * exponent + sign;
    assert Exponent(bits) == exponent && Mantissa(bits) == mantissa;
    assert Negative(bits) <==> sign == 1;
  }

  // A target of value v0 whose mantissa counts steps of this size, after a window of span milliseconds.
  predicate Rescaled(v0: nat, step: nat, top: bool, span: nat, v: nat)
    requires step > 0
  {
    var limited := if span > 691_020_000 then 691_020_000 else if span < 172_755_000 then 172_755_000 else span;
    if v0 * limited < 345_510_000 * step then
      v == step
    else if v0 * limited < 345_510_000 * (0x80_0000 * step) then
      v % step == 0 && 345_510_000 * v <= v0 * limited < 345_510_000 * (v + step)
    else if !top then
      v % (256 * step) == 0 && 345_510_000 * v <= v0 * limited < 345_510_000 * (v + 256 * step)
    else
      v == 0x7f_ffff * step
  }

  lemma Multiples(q: nat, step: nat)
    requires step > 0
    ensures q * step % step == 0 && q * step / step == q
  {
    var n := q * step;
    assert (q + 1) * step == n + step;
    QuotientAtLeast(n, step, q);
    QuotientAtMost(n, step, q);
    assert n == n / step * step + n % step;
  }

  // The scaled mantissa and its remainder, in units of the value.
  lemma ScaledProduct(m: nat, limited: nat, p: nat)
    requires p > 0
    ensures var q := m * limited / 345_510_000;
            345_510_000 * (q * p) <= m * p * limited < 345_510_000 * ((q + 1) * p)
  {
    var product := m * limited;
    var q := product / 345_510_000;
    assert 345_510_000 * q <= product && product + 1 <= 345_510_000 * (q + 1);
    ScaleMonotone(345_510_000 * q, product, p);
    ScaleMonotone(product + 1, 345_510_000 * (q + 1), p);
    assert m * p * limited == product * p;
    assert (product + 1) * p == product * p + p;
    assert 345_510_000 * q * p == 345_510_000 * (q * p);
    assert 345_510_000 * (q + 1) * p == 345_510_000 * ((q + 1) * p);
  }

  lemma SmallCase(v0: nat, p: nat, top: bool, span: nat, q: nat, limited: nat)
    requires p > 0 && 1 <= q <= 0x7f_ffff
    requires limited == if span > 691_020_000 then 691_020_000 else if span < 172_755_000 then 172_755_000 else span
    requires 345_510_000 * (q * p) <= v0 * limited < 345_510_000 * ((q + 1) * p)
    ensures Rescaled(v0, p, top, span, q * p)
  {
    ScaleMonotone(1, q, p);
    ScaleMonotone(q + 1, 0x80_0000, p);
    assert (q + 1) * p == q * p + p;
    Multiples(q, p);
  }

  lemma LargeCase(v0: nat, p: nat, top: bool, span: nat, q: nat, limited: nat, v: nat)
    requires p > 0 && q > 0x7f_ffff
    requires limited == if span > 691_020_000 then 691_020_000 else if span < 172_755_000 then 172_755_000 else span
    requires 345_510_000 * (q * p) <= v0 * limited < 345_510_000 * ((q + 1) * p)
    requires v == if top then 0x7f_ffff * p else q / 256 * (256 * p)
    ensures Rescaled(v0, p, top, span, v)
  {
    ScaleMonotone(0x80_0000, q, p);
    ScaleMonotone(1, 0x80_0000, p);
    if !top {
      var r := q / 256;
      assert v == (r * 256) * p;
      ScaleMonotone(r * 256, q, p);
      ScaleMonotone(q + 1, r * 256 + 256, p);
      assert (r * 256 + 256) * p == v + 256 * p;
      Multiples(r, 256 * p);
    }
  }

  /** For every normal target and every span, the new value is the old one scaled by the measured time,
      limited to between half and twice the target time, in whole steps of the mantissa. */
  lemma RetargetScales(current: u32, span: nat)
    requires Normal(current) && span > 0
    ensures Normal(Retarget(current, span)) && TargetValue(Retarget(current, span)).Some?
    ensures Rescaled(TargetValue(current).value, Pow256(Exponent(current) - 3), Exponent(current) == 32, span,
                     TargetValue(Retarget(current, span)).value)
  {
    hide TargetValue, Pow256, Normalise, Rescaled, Retarget, Normal, Mantissa, Exponent, ClampTime;
    RetargetBounds(current, span);
    NormalValue(current);
    NormalValue(Retarget(current, span));
    RetargetUnfolds(current, span);
    var m, e, p := Mantissa(current), Exponent(current), Pow256(Exponent(current) - 3);
    var limited := ClampTime(span);
    var q := m * limited / 345_510_000;
    ScaledProduct(m, limited, p);
    if q == 0 {
      SmallestTarget(current, span);
    } else if q <= MAX_MANTISSA {
      NormaliseSmall(q, e);
      SmallCase(m * p, p, e == 32, span, q, limited);
    } else {
      NormaliseLarge(q, e);
      LargeCase(m * p, p, e == 32, span, q, limited, TargetValue(Normalise(q, e)).value);
    }
  }

  lemma RetargetUnfolds(current: u32, span: nat)
    requires Normal(current) && span > 0
    ensures var q := Mantissa(current) * ClampTime(span) / 345_510_000;
            Retarget(current, span) == Normalise(q, Exponent(current)) && q <= 2 * MAX_MANTISSA
    ensures 3 <= Exponent(current) <= 32
    ensures ClampTime(span) ==
            if span > 691_020_000 then 691_020_000 else if span < 172_755_000 then 172_755_000 else span
  {
    hide Normalise;
    ScaledMantissa(Mantissa(current), ClampTime(span));
  }

  // A mantissa scaled below 1 stays at 1; it was 1 at the lowest exponent already.
  lemma SmallestTarget(current: u32, span: nat)
    requires Normal(current) && span > 0 && Mantissa(current) * ClampTime(span) / 345_510_000 == 0
    ensures Rescaled(TargetValue(current).value, Pow256(Exponent(current) - 3), Exponent(current) == 32, span,
                     TargetValue(Retarget(current, span)).value)
  {
    ScaledMantissa(Mantissa(current), ClampTime(span));
    assert Mantissa(current) == 1 && Exponent(current) == 3;
    NormalValue(current);
    assert Retarget(current, span) == Normalise(0, 3) == Compact(0, 3);
    CompactFields(1, 3);
    NormalValue(Compact(0, 3));
    assert Pow256(0) == 1;
  }

  lemma NormalMantissa(bits: u32)
    requires Normal(bits)
    ensures 1 <= Mantissa(bits) <= MAX_MANTISSA && 3 <= Exponent(bits) <= 32
  {
  }

  lemma Doubled(v0: nat, step: nat, top: bool, span: nat, v: nat)
    requires 0 < step <= v0 && span >= 691_020_000 && Rescaled(v0, step, top, span, v)
    ensures 2 * v0 < 0x80_0000 * step ==> v <= 2 * v0 < v + step
    ensures !top ==> v <= 2 * v0 < v + 256 * step
  {
  }

  lemma Halved(v0: nat, step: nat, top: bool, span: nat, v: nat)
    requires 0 < 2 * step <= v0 <= 0x7f_ffff * step && span <= 172_755_000 && Rescaled(v0, step, top, span, v)
    ensures 2 * v <= v0 < 2 * (v + step)
  {
  }

  /** A window of at least twice the target time doubles the value up to a step, and one of at most half
      of it halves it, off the two ends of the range. */
  lemma RetargetExtremes(current: u32, span: nat)
    requires Normal(current) && span > 0
    ensures TargetValue(current).Some? && TargetValue(Retarget(current, span)).Some?
    ensures var v0, v, step := TargetValue(current).value, TargetValue(Retarget(current, span)).value,
                               Pow256(Exponent(current) - 3);
            && (span >= 691_020_000 && 2 * v0 < 0x80_0000 * step ==> v <= 2 * v0 < v + step)
            && (span >= 691_020_000 && Exponent(current) < 32 ==> v <= 2 * v0 < v + 256 * step)
            && (span <= 172_755_000 && v0 >= 2 * step ==> 2 * v <= v0 < 2 * (v + step))
  {
    hide TargetValue, Pow256, Retarget, Rescaled, Normal, Mantissa, Exponent;
    RetargetScales(current, span);
    NormalValue(current);
    NormalMantissa(current);
    var v0, v, step := TargetValue(current).value, TargetValue(Retarget(current, span)).value,
                       Pow256(Exponent(current) - 3);
    ScaleMonotone(Mantissa(current), MAX_MANTISSA, step);
    ScaleMonotone(1, Mantissa(current), step);
    if span >= 691_020_000 { Doubled(v0, step, Exponent(current) == 32, span, v); }
    if span <= 172_755_000 && v0 >= 2 * step { Halved(v0, step, Exponent(current) == 32, span, v); }
  }

  // Equal values mean equal compact forms.
  lemma NormalUnique(a: u32, b: u32)
    requires Normal(a) && Normal(b) && TargetValue(a) == TargetValue(b)
    ensures a == b
  {
    hide TargetValue, Pow256;
    NormalValue(a);
    NormalValue(b);
    if Exponent(a) < Exponent(b) {
      LowerExponent(a, b);
    } else if Exponent(b) < Exponent(a) {
      LowerExponent(b, a);
    } else {
      SameProduct(Mantissa(a), Mantissa(b), Pow256(Exponent(a) - 3));
      FieldsDetermine(a);
      FieldsDetermine(b);
    }
  }

  lemma SameProduct(x: nat, y: nat, p: nat)
    requires p > 0 && x * p == y * p
    ensures x == y
  {
    Multiples(x, p);
    Multiples(y, p);
  }

  lemma FieldsDetermine(bits: u32)
    requires !Negative(bits)
    ensures bits == Exponent(bits) * 0x100_0000 + Mantissa(bits)
  {
    var h := bits / 0x80_0000;
    assert bits == h * 0x80_0000 + Mantissa(bits);
    assert h == 2 * Exponent(bits) + h % 2;
  }

  lemma LowerExponent(a: u32, b: u32)
    requires Normal(a) && Normal(b) && Exponent(a) < Exponent(b)
    ensures Mantissa(a) * Pow256(Exponent(a) - 3) < Mantissa(b) * Pow256(Exponent(b) - 3)
  {
    hide Pow256;
    var p, r := Pow256(Exponent(a) - 3), Pow256(Exponent(b) - 3);
    Pow256Next(Exponent(a) - 3);
    Pow256Monotone(Exponent(a) - 2, Exponent(b) - 3);
    ScaleMonotone(Mantissa(a), MAX_MANTISSA, p);
    ScaleMonotone(32768, Mantissa(b), r);
    assert 32768 * r >= 32768 * (256 * p);
  }

  // ---------- over headers ----------

  // From one required target to the next, given the window's first and last timestamps.
  predicate Retargeted(current: u32, first: nat, last: nat, next: u32) {
    if last <= first then next == current
    else Normal(current) && Normal(next) &&
         NormalFollows(current, last - first, next)
  }

  predicate NormalFollows(current: u32, span: nat, next: u32)
    requires Normal(current) && Normal(next)
  {
    TargetValue(current).Some? && TargetValue(next).Some? &&
    Rescaled(TargetValue(current).value, Pow256(Exponent(current) - 3), Exponent(current) == 32, span,
             TargetValue(next).value)
  }

  /** The required target by height: the initial one for 3840 blocks, unchanged between boundaries, and
      at a boundary the last one rescaled by the time between the first and last block of the 3840
      below. */
  lemma TargetForLaw(headers: seq<Header>, height: nat)
    requires height <= |headers|
    ensures height < 3840 ==> TargetFor(headers, height) == 0x1f0c_1422
    ensures height % 3840 != 0 ==> TargetFor(headers, height) == TargetFor(headers, height - 1)
    ensures height >= 3840 && height % 3840 == 0 ==>
              Retargeted(TargetFor(headers, height - 1), headers[height - 3840].timestamp,
                         headers[height - 1].timestamp, TargetFor(headers, height))
  {
    hide Retarget, Rescaled, Normal, TargetValue;
    var k := height / 3840;
    if height % 3840 != 0 {
      assert (height - 1) / 3840 == k;
    } else if k > 0 {
      assert (height - 1) / 3840 == k - 1 && height == k * 3840;
      var current := TargetAfter(headers, k - 1);
      ReachableTargetNormal(headers, k - 1);
      var span := WindowSpan(headers, height);
      if span > 0 { RetargetScales(current, span); } else { NoSpan(current); }
    }
  }

  lemma NoSpan(current: u32)
    ensures Retarget(current, 0) == current
  {
  }
}
