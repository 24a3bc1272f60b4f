/**
 Targets and hashes as 32 big-endian bytes: decoding a compact target, comparing, loading limbs,
 block work, and the epoch inflation quotient, as the byte and limb loops compute them.
 */
module CompactBytes {
  import opened Words
  import opened Targets
  import opened Emission
  import opened UInt256

  function BigEndian(s: seq<u8>): nat {
    if s == [] then 0 else BigEndian(s[..|s| - 1]) * 256 + s[|s| - 1]
  }

  lemma {:induction false} BigEndianAppend(s: seq<u8>, t: seq<u8>)
    ensures BigEndian(s + t) == BigEndian(s) * Pow256(|t|) + BigEndian(t)
  {
    if t == [] {
      assert s + t == s;
    } else {
      var init := t[..|t| - 1];
      assert (s + t)[..|s + t| - 1] == s + init;
      BigEndianAppend(s, init);
      hide BigEndian, Pow256;
      BigEndianLast(s + t);
      BigEndianLast(t);
      Pow256Next(|init|);
      MulAssoc(BigEndian(s), Pow256(|init|), 256);
    }
  }

  lemma BigEndianLast(s: seq<u8>)
    requires s != []
    ensures BigEndian(s) == BigEndian(s[..|s| - 1]) * 256 + s[|s| - 1]
  {
  }

  lemma {:induction false} BigEndianBound(s: seq<u8>)
    ensures BigEndian(s) < Pow256(|s|)
  {
    if s != [] { BigEndianBound(s[..|s| - 1]); }
  }

  lemma {:induction false} BigEndianZeros(s: seq<u8>)
    requires forall i :: 0 <= i < |s| ==> s[i] == 0
    ensures BigEndian(s) == 0
  {
    if s != [] { BigEndianZeros(s[..|s| - 1]); }
  }

  // Three bytes of a mantissa among zeros.
  lemma ThreeBytes(s: seq<u8>, p: nat, m: nat)
    requires |s| == 32 && p <= 29 && m < 0x100_0000
    requires s[p] == m / 0x1_0000 && s[p + 1] == m / 0x100 % 0x100 && s[p + 2] == m % 0x100
    requires forall i :: 0 <= i < 32 && !(p <= i < p + 3) ==> s[i] == 0
    ensures BigEndian(s) == m * Pow256(29 - p)
  {
    hide Pow256;
    var a, b, c := s[..p], s[p..p + 3], s[p + 3..];
    assert s == a + (b + c);
    BigEndianZeros(a);
    BigEndianZeros(c);
    BigEndianAppend(b, c);
    BigEndianAppend(a, b + c);
    ThreeByteValue(b, m);
  }

  lemma ThreeByteValue(b: seq<u8>, m: nat)
    requires |b| == 3 && m < 0x100_0000
    requires b[0] == m / 0x1_0000 && b[1] == m / 0x100 % 0x100 && b[2] == m % 0x100
    ensures BigEndian(b) == m
  {
    assert b[..2][..1] == b[..1] && b[..1][..0] == [];
    assert BigEndian(b[..1]) == b[0];
    assert BigEndian(b[..2]) == 256 * (b[0] as int) + b[1];
  }

  lemma ShiftedMantissa(m: nat, n: nat)
    requires m < 0x80_0000
    ensures m / Pow256(n) < 0x80_0000
  {
    QuotientAtMost(m, Pow256(n), m) by {
      ScaleMonotone(1, Pow256(n), m + 1);
      assert (m + 1) * Pow256(n) >= m + 1;
    }
  }

  // Clear the buffer and place the three mantissa bytes.
  method WriteMantissa(target: array<u8>, at: nat, mantissa: nat)
    requires target.Length == 32 && at <= 29 && mantissa < 0x80_0000
    modifies target
    ensures BigEndian(target[..]) == mantissa * Pow256(29 - at)
  {
    hide BigEndian, Pow256;
    for i := 0 to 32
      invariant forall j :: 0 <= j < i ==> target[j] == 0
    {
      target[i] := 0;
    }
    target[at] := mantissa / 0x1_0000;
    target[at + 1] := mantissa / 0x100 % 0x100;
    target[at + 2] := mantissa % 0x100;
    ThreeBytes(target[..], at, mantissa);
  }

  /** DecodeCompactTarget: accepts exactly the targets that have a value and writes that value. */
  method DecodeCompactTarget(bits: u32, target: array<u8>) returns (ok: bool)
    requires target.Length == 32
    modifies target
    ensures ok <==> TargetValue(bits).Some?
    ensures ok ==> BigEndian(target[..]) == TargetValue(bits).value
  {
    hide BigEndian, Pow256;
    var exponent, mantissa := Exponent(bits), Mantissa(bits);
    if Negative(bits) || mantissa == 0 {
      return false;
    }
    if exponent <= 3 {
      ShiftedMantissa(mantissa, 3 - exponent);
      NoShift();
      WriteMantissa(target, 29, mantissa / Pow256(3 - exponent));
    } else {
      if exponent - 3 > 29 {
        return false;
      }
      WriteMantissa(target, 32 - (exponent - 3) - 3, mantissa);
    }
    ok := true;
  }

  lemma NoShift()
    ensures Pow256(0) == 1
  {
  }

  lemma FirstByteDecides(s: seq<u8>, t: seq<u8>, i: nat)
    requires |s| == |t| && i < |s| && s[..i] == t[..i] && s[i] < t[i]
    ensures BigEndian(s) < BigEndian(t)
  {
    hide Pow256;
    var n := |s| - i - 1;
    assert s == s[..i + 1] + s[i + 1..] && t == t[..i + 1] + t[i + 1..];
    BigEndianAppend(s[..i + 1], s[i + 1..]);
    BigEndianAppend(t[..i + 1], t[i + 1..]);
    BigEndianBound(s[i + 1..]);
    assert s[..i + 1][..i] == s[..i] && t[..i + 1][..i] == t[..i];
    ScaleMonotone(BigEndian(s[..i + 1]) + 1, BigEndian(t[..i + 1]), Pow256(n));
    assert (BigEndian(s[..i + 1]) + 1) * Pow256(n) == BigEndian(s[..i + 1]) * Pow256(n) + Pow256(n);
  }

  /** CompareHashToTarget: byte order is number order. */
  method CompareHashToTarget(hash: seq<u8>, target: seq<u8>) returns (r: int)
    requires |hash| == |target| == 32
    ensures r == if BigEndian(hash) < BigEndian(target) then -1
                 else if BigEndian(hash) > BigEndian(target) then 1 else 0
  {
    hide BigEndian;
    for i := 0 to 32
      invariant hash[..i] == target[..i]
    {
      if hash[i] < target[i] {
        FirstByteDecides(hash, target, i);
        return -1;
      }
      if hash[i] > target[i] {
        FirstByteDecides(target, hash, i);
        return 1;
      }
    }
    assert hash == hash[..32] == target[..32] == target;
    r := 0;
  }

  // ---------- limbs from bytes ----------

  method LoadLimb(bytes: seq<u8>) returns (value: u64)
    requires |bytes| == 8
    ensures value == BigEndian(bytes)
  {
    value := 0;
    for i := 0 to 8
      invariant value == BigEndian(bytes[..i])
    {
      assert bytes[..i + 1][..i] == bytes[..i];
      EightByteBound(bytes[..i + 1]);
      value := value * 256 + bytes[i];
    }
    assert bytes[..8] == bytes;
  }

  lemma Pow256Bases()
    ensures Pow256(8) == Base(1) && Pow256(16) == Base(2) && Pow256(24) == Base(3)
  {
    assert Pow256(4) == 0x1_0000_0000;
    assert Pow256(8) == 0x1_0000_0000 * 0x1_0000_0000;
    Pow256Sum(8, 8);
    Pow256Sum(8, 16);
  }

  lemma {:induction false} Pow256Sum(m: nat, n: nat)
    ensures Pow256(m + n) == Pow256(m) * Pow256(n)
  {
    hide Pow256;
    if m == 0 {
      NoShift();
    } else {
      Pow256Sum(m - 1, n);
      Pow256Next(m - 1);
      Pow256Next(m - 1 + n);
      MulAssoc(256, Pow256(m - 1), Pow256(n));
    }
  }

  lemma EightByteBound(s: seq<u8>)
    requires |s| <= 8
    ensures BigEndian(s) < TWO_64
  {
    BigEndianBound(s);
    Pow256Monotone(|s|, 8);
    Pow256Bases();
  }

  lemma LimbsOfBytes(bytes: seq<u8>, limbs: seq<u64>)
    requires |bytes| == 32 && |limbs| == 4
    requires limbs[0] == BigEndian(bytes[24..32]) && limbs[1] == BigEndian(bytes[16..24])
    requires limbs[2] == BigEndian(bytes[8..16]) && limbs[3] == BigEndian(bytes[0..8])
    ensures Value(limbs) == BigEndian(bytes)
  {
    hide BigEndian, Pow256, Low;
    Pow256Bases();
    ValueUnfolded(limbs);
    var a, b, c, d := bytes[0..8], bytes[8..16], bytes[16..24], bytes[24..32];
    assert bytes == a + (b + (c + d));
    BigEndianAppend(c, d);
    BigEndianAppend(b, c + d);
    BigEndianAppend(a, b + (c + d));
  }

  /** uint256_from_be_bytes. */
  method FromBigEndian(bytes: seq<u8>) returns (limbs: array<u64>)
    requires |bytes| == 32
    ensures fresh(limbs) && limbs.Length == 4
    ensures Value(limbs[..]) == BigEndian(bytes)
  {
    hide BigEndian, Value;
    limbs := new u64[4](_ => 0);
    for k := 0 to 4
      invariant fresh(limbs) && limbs.Length == 4
      invariant forall j :: 0 <= j < k ==> limbs[j] == BigEndian(bytes[(3 - j) * 8..(3 - j) * 8 + 8])
    {
      var limb := LoadLimb(bytes[(3 - k) * 8..(3 - k) * 8 + 8]);
      limbs[k] := limb;
    }
    LimbsOfBytes(bytes, limbs[..]);
  }

  // ---------- block work ----------

  method Complement(a: array<u64>)
    requires a.Length == 4
    modifies a
    ensures Value(a[..]) == TWO_256 - 1 - old(Value(a[..]))
  {
    hide Low, Value;
    ghost var x := a[..];
    for i := 0 to 4
      invariant forall j :: 0 <= j < i ==> a[j] == TWO_64 - 1 - x[j]
      invariant forall j :: i <= j < 4 ==> a[j] == x[j]
    {
      a[i] := TWO_64 - 1 - a[i];
    }
    ComplementValue(x, a[..]);
  }

  lemma ComplementValue(x: seq<u64>, y: seq<u64>)
    requires |x| == |y| == 4 && forall j :: 0 <= j < 4 ==> y[j] == TWO_64 - 1 - x[j]
    ensures Value(y) == TWO_256 - 1 - Value(x)
  {
    hide Low;
    ValueUnfolded(x);
    ValueUnfolded(y);
  }

  // 2^256 / (t + 1) without ever forming 2^256.
  lemma WorkFormula(t: nat)
    requires t < TWO_256
    ensures (TWO_256 - 1 - t) / (t + 1) + 1 == TWO_256 / (t + 1)
  {
    DivAddMultiple(TWO_256 - 1 - t, 1, t + 1);
  }

  /** Chain_ComputeBlockWork: defined exactly when the target decodes to at least 1, and then exactly
      floor(2^256 / (target + 1)). */
  method ComputeBlockWork(bits: u32) returns (ok: bool, work: array<u64>)
    ensures fresh(work) && work.Length == 4
    ensures ok <==> BlockWork(bits).Some?
    ensures ok ==> Value(work[..]) == BlockWork(bits).value
  {
    hide Value, TargetValue, BigEndian;
    work := new u64[4](_ => 0);
    var bytes := new u8[32](_ => 0);
    var decoded := DecodeCompactTarget(bits, bytes);
    if !decoded {
      return false, work;
    }
    var denominator := FromBigEndian(bytes[..]);
    var numerator := FromBigEndian(bytes[..]);
    ghost var t := TargetValue(bits).value;
    TargetValueBound(bits);
    // The source also tests this sum for overflow; a decoded target is below 2^255, so it never is.
    var overflow := AddU64(denominator, 1);
    ValueBound(denominator[..]);
    WorkFormula(t);
    Complement(numerator);
    var divided;
    divided, work := Divide(numerator, denominator);
    overflow := AddU64(work, 1);
    ValueBound(work[..]);
    WorkFits(t);
    ok := !overflow;
  }

  lemma WorkFits(t: nat)
    ensures TWO_256 / (t + 1) < TWO_256 <==> t != 0
    ensures t == 0 ==> TWO_256 / (t + 1) == TWO_256
  {
    if t != 0 { DivideAntitone(TWO_256, 2, t + 1); }
  }

  // ---------- epoch inflation ----------

  // The limb-by-limb long division of GetInflationRateRewardAtHeight, most significant limb first.
  method DivideLimbs(a: array<u64>, divisor: u64) returns (q: array<u64>)
    requires a.Length == 4 && divisor > 0
    ensures fresh(q) && q.Length == 4
    ensures Value(q[..]) == Value(a[..]) / divisor
  {
    hide Value, LongDivided;
    q := new u64[4](_ => 0);
    var remainder: nat := 0;
    LongDividedStart(a[..], q[..], divisor);
    for i := 4 downto 0
      invariant fresh(q) && q.Length == 4 && a[..] == old(a[..])
      invariant LongDivided(a[..], q[..], i, divisor, remainder)
    {
      var current := remainder * TWO_64 + a[i];
      LongDividedStep(a[..], q[..], i, divisor, remainder);
      ghost var before := q[..];
      var digit: u64 := current / divisor;
      q[i] := digit;
      assert q[..] == before[i := digit];
      remainder := current % divisor;
    }
    LongDividedEnd(a[..], q[..], divisor, remainder);
  }

  // Quotient and remainder of the limbs from i up.
  ghost predicate LongDivided(a: seq<u64>, q: seq<u64>, i: nat, d: nat, r: nat)
    requires |a| == |q| == 4 && i <= 4
  {
    From(a, i) == From(q, i) * d + r && r < d
  }

  lemma LongDividedStart(a: seq<u64>, q: seq<u64>, d: nat)
    requires |a| == |q| == 4 && d > 0
    ensures LongDivided(a, q, 4, d, 0)
  {
  }

  lemma LongDividedStep(a: seq<u64>, q: seq<u64>, i: nat, d: u64, r: nat)
    requires |a| == |q| == 4 && i < 4 && d > 0 && LongDivided(a, q, i + 1, d, r)
    ensures var c := r * TWO_64 + a[i];
            var digit: int := c / d;
            digit < TWO_64 && LongDivided(a, q[i := digit as u64], i, d, c % d)
  {
    hide From;
    var c := r * TWO_64 + a[i];
    LimbQuotient(r, a[i], d);
    var q' := q[i := (c / d) as u64];
    FromStep(a, i);
    FromStep(q', i);
    FromAgrees(q, q', i + 1);
    LongDivisionStep(From(a, i + 1), From(q, i + 1), a[i], r, d);
  }

  lemma LongDividedEnd(a: seq<u64>, q: seq<u64>, d: nat, r: nat)
    requires |a| == |q| == 4 && d > 0 && LongDivided(a, q, 0, d, r)
    ensures Value(q) == Value(a) / d
  {
    hide From, Value;
    FromZero(a);
    FromZero(q);
    assert (Value(q) + 1) * d == Value(q) * d + d;
    DivUnique(Value(a), d, Value(q));
  }

  // The number formed by limbs i and above.
  function From(s: seq<u64>, i: nat): nat
    requires |s| == 4 && i <= 4
  {
    if i == 4 then 0
    else if i == 3 then s[3]
    else if i == 2 then s[2] + TWO_64 * s[3]
    else if i == 1 then s[1] + TWO_64 * (s[2] + TWO_64 * s[3])
    else s[0] + TWO_64 * (s[1] + TWO_64 * (s[2] + TWO_64 * s[3]))
  }

  lemma FromStep(s: seq<u64>, i: nat)
    requires |s| == 4 && i < 4
    ensures From(s, i) == s[i] + TWO_64 * From(s, i + 1)
  {
  }

  lemma FromAgrees(s: seq<u64>, t: seq<u64>, i: nat)
    requires |s| == |t| == 4 && i <= 4 && forall j :: i <= j < 4 ==> s[j] == t[j]
    ensures From(s, i) == From(t, i)
  {
  }

  lemma FromZero(s: seq<u64>)
    requires |s| == 4
    ensures From(s, 0) == Value(s)
  {
    ValueUnfolded(s);
  }

  lemma LimbQuotient(r: nat, x: u64, d: u64)
    requires r < d
    ensures (r * TWO_64 + x) / d < TWO_64
  {
    ScaleMonotone(r + 1, d, TWO_64);
    assert (TWO_64 - 1 + 1) * d == TWO_64 * d;
    QuotientAtMost(r * TWO_64 + x, d, TWO_64 - 1);
  }

  lemma LongDivisionStep(high: nat, q: nat, x: nat, r: nat, d: nat)
    requires d > 0 && high == q * d + r
    ensures var c := r * TWO_64 + x;
            x + TWO_64 * high == (c / d + TWO_64 * q) * d + c % d
  {
    var c := r * TWO_64 + x;
    assert c == c / d * d + c % d;
    assert (c / d + TWO_64 * q) * d == c / d * d + TWO_64 * (q * d);
  }

  function Multiple(i: nat, s: nat): nat { i * s % TWO_256 }

  lemma NextMultiple(i: nat, s: nat, v: nat, overflow: bool)
    requires v < TWO_256 && s < TWO_256 && v + (if overflow then TWO_256 else 0) == Multiple(i, s) + s
    ensures v == Multiple(i + 1, s)
  {
    assert i * s + s == (i + 1) * s;
    WrapAdd(i * s, s);
    assert (Multiple(i, s) + s) % TWO_256 == v;
  }

  method TimesFifteen(supply: array<u64>) returns (multiplied: array<u64>)
    requires supply.Length == 4
    ensures fresh(multiplied) && multiplied.Length == 4
    ensures Value(multiplied[..]) == Value(supply[..]) * 15 % TWO_256
  {
    hide Value, Multiple;
    ghost var s := Value(supply[..]);
    multiplied := new u64[4](_ => 0);
    ZeroValue(multiplied[..]);
    NoMultiple(s);
    ValueBound(supply[..]);
    for i := 0 to 15
      invariant fresh(multiplied) && multiplied.Length == 4 && supply[..] == old(supply[..])
      invariant Value(multiplied[..]) == Multiple(i, s)
    {
      var overflow := Add(multiplied, supply);
      ValueBound(multiplied[..]);
      NextMultiple(i, s, Value(multiplied[..]), overflow);
    }
    FifteenFold(s);
  }

  lemma NoMultiple(s: nat)
    ensures Multiple(0, s) == 0
  {
  }

  lemma FifteenFold(s: nat)
    ensures Multiple(15, s) == s * 15 % TWO_256
  {
  }

  /** The inflation branch of GetInflationRateRewardAtHeight over limbs. */
  method EpochInflation(supply: array<u64>) returns (perBlock: u64)
    requires supply.Length == 4
    ensures perBlock == Value(supply[..]) * 15 % TWO_256 / (1000 * EPOCH_LENGTH) % TWO_64
  {
    hide Value;
    var multiplied := TimesFifteen(supply);
    var quotient := DivideLimbs(multiplied, 350_000_000);
    LowestLimb(quotient[..]);
    perBlock := quotient[0];
  }

  lemma LowestLimb(s: seq<u64>)
    requires |s| == 4
    ensures s[0] == Value(s) % TWO_64
  {
    hide Low;
    ValueUnfolded(s);
    assert Value(s) == s[0] + TWO_64 * (s[1] + TWO_64 * (s[2] + TWO_64 * s[3]));
  }
}
