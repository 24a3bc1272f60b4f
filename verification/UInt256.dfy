/**
 256-bit arithmetic over four 64-bit limbs, least significant first, changed in place with carries
 and borrows.  Each operation is proved against the number its limbs stand for.
 */
module UInt256 {
  import opened Words
  import opened Targets
  import opened Emission

  // 2^(64 i), and the number held by the lowest i limbs.
  function Base(i: nat): nat
    requires i <= 4
  {
    if i == 0 then 1
    else if i == 1 then 0x1_0000_0000_0000_0000
    else if i == 2 then 0x1_0000_0000_0000_0000_0000_0000_0000_0000
    else if i == 3 then 0x1_0000_0000_0000_0000_0000_0000_0000_0000_0000_0000_0000_0000
    else TWO_256
  }

  function Low(s: seq<u64>, i: nat): nat
    requires |s| == 4 && i <= 4
  {
    if i == 0 then 0 else Low(s, i - 1) + s[i - 1] * Base(i - 1)
  }

  function Value(s: seq<u64>): nat
    requires |s| == 4
  {
    Low(s, 4)
  }

  lemma ValueUnfolded(s: seq<u64>)
    requires |s| == 4
    ensures Low(s, 1) == s[0]
    ensures Low(s, 2) == s[0] + Base(1) * s[1]
    ensures Low(s, 3) == s[0] + Base(1) * s[1] + Base(2) * s[2]
    ensures Value(s) == s[0] + Base(1) * s[1] + Base(2) * s[2] + Base(3) * s[3]
    ensures Value(s) < TWO_256
  {
    assert Low(s, 0) == 0 && Low(s, 1) == Low(s, 0) + s[0] * Base(0);
    assert Low(s, 2) == Low(s, 1) + s[1] * Base(1);
    assert Low(s, 3) == Low(s, 2) + s[2] * Base(2);
    assert Low(s, 4) == Low(s, 3) + s[3] * Base(3);
  }

  lemma {:induction false} LowAgrees(s: seq<u64>, t: seq<u64>, i: nat)
    requires |s| == |t| == 4 && i <= 4 && s[..i] == t[..i]
    ensures Low(s, i) == Low(t, i)
  {
    if i > 0 {
      assert s[..i - 1] == s[..i][..i - 1] && t[..i - 1] == t[..i][..i - 1];
      assert s[i - 1] == s[..i][i - 1] && t[i - 1] == t[..i][i - 1];
      LowAgrees(s, t, i - 1);
    }
  }

  lemma LowBound(s: seq<u64>, i: nat)
    requires |s| == 4 && i <= 4
    ensures Low(s, i) < Base(i)
  {
    ValueUnfolded(s);
  }

  // ---------- one limb ----------

  // The carry test of the source is right for every limb, also when limb plus carry wraps to 0.
  function AddLimb(x: u64, y: u64, carry: u64): (r: (u64, u64))
    requires carry <= 1
    ensures r.1 <= 1 && r.0 + r.1 * TWO_64 == x + y + carry
  {
    var sum := (x + (y + carry) % TWO_64) % TWO_64;
    (sum, if (if carry == 1 then sum <= x else sum < x) then 1 else 0)
  }

  // Likewise the borrow test.
  function SubLimb(x: u64, y: u64, borrow: u64): (r: (u64, u64))
    requires borrow <= 1
    ensures r.1 <= 1 && r.0 + y + borrow == x + r.1 * TWO_64
  {
    var difference := (x - (y + borrow) % TWO_64) % TWO_64;
    (difference, if (if borrow == 1 then difference >= x else difference > x) then 1 else 0)
  }

  // ---------- in-place operations ----------

  // Everything above limb k, as a number.
  function High(s: seq<u64>, k: nat): nat
    requires |s| == 4 && k < 4
  {
    if k == 3 then 0
    else if k == 2 then s[3]
    else if k == 1 then s[2] + Base(1) * s[3]
    else s[1] + Base(1) * s[2] + Base(2) * s[3]
  }

  lemma ValueSplit(s: seq<u64>, k: nat)
    requires |s| == 4 && k < 4
    ensures Value(s) == Low(s, k) + (s[k] + High(s, k) * TWO_64) * Base(k)
  {
    hide Low, High, Base;
    if k == 0 {
      SplitAt0(s);
    } else if k == 1 {
      SplitAt1(s);
    } else if k == 2 {
      SplitAt2(s);
    } else {
      SplitAt3(s);
    }
  }

  lemma SplitAt0(s: seq<u64>)
    requires |s| == 4
    ensures Value(s) == Low(s, 0) + (s[0] + High(s, 0) * TWO_64) * Base(0)
  {
    hide Low;
    ValueUnfolded(s);
    LowZero(s);
  }

  lemma SplitAt1(s: seq<u64>)
    requires |s| == 4
    ensures Value(s) == Low(s, 1) + (s[1] + High(s, 1) * TWO_64) * Base(1)
  {
    hide Low;
    ValueUnfolded(s);
  }

  lemma SplitAt2(s: seq<u64>)
    requires |s| == 4
    ensures Value(s) == Low(s, 2) + (s[2] + High(s, 2) * TWO_64) * Base(2)
  {
    hide Low;
    ValueUnfolded(s);
  }

  lemma SplitAt3(s: seq<u64>)
    requires |s| == 4
    ensures Value(s) == Low(s, 3) + (s[3] + High(s, 3) * TWO_64) * Base(3)
  {
    hide Low;
    ValueUnfolded(s);
  }

  lemma LowZero(s: seq<u64>)
    requires |s| == 4
    ensures Low(s, 0) == 0
  {
  }

  // Changing one limb changes the number by that limb's difference at its place value.
  lemma UpdateLimb(s: seq<u64>, k: nat, v: u64)
    requires |s| == 4 && k < 4
    ensures Value(s[k := v]) == Value(s) - s[k] * Base(k) + v * Base(k)
  {
    hide Low, Base, Value;
    var t := s[k := v];
    ValueSplit(s, k);
    ValueSplit(t, k);
    LowAgrees(s, t, k);
    assert High(t, k) == High(s, k);
    assert (s[k] + High(s, k) * TWO_64) * Base(k) == s[k] * Base(k) + (High(s, k) * TWO_64) * Base(k);
    assert (v + High(s, k) * TWO_64) * Base(k) == v * Base(k) + (High(s, k) * TWO_64) * Base(k);
  }

  lemma ScaledSuccessor(x: nat, base: nat)
    ensures (x + 1) * base == x * base + base
  {
  }

  // One more in limb k, either absorbed there or carried on.
  lemma BumpLimb(s: seq<u64>, k: nat)
    requires |s| == 4 && k < 4
    ensures var t := s[k := (s[k] + 1) % TWO_64];
            Value(t) + (if t[k] == 0 then Base(k + 1) else 0) == Value(s) + Base(k)
  {
    hide Low, Base, Value;
    var v := (s[k] + 1) % TWO_64;
    UpdateLimb(s, k, v);
    BaseStep(k);
    ScaledSuccessor(s[k], Base(k));
    if s[k] == TWO_64 - 1 {
      assert v == 0;
    } else {
      assert v == s[k] + 1;
    }
  }

  /** uint256_add_u64. */
  method AddU64(a: array<u64>, amount: u64) returns (overflow: bool)
    requires a.Length == 4
    modifies a
    ensures Value(a[..]) + (if overflow then TWO_256 else 0) == old(Value(a[..])) + amount
  {
    hide Low, Value, Base;
    ghost var start := a[..];
    TopBase();
    OneBase();
    var before := a[0];
    a[0] := (a[0] + amount) % TWO_64;
    UpdateLimb(start, 0, a[0]);
    assert a[..] == start[0 := a[0]];
    if a[0] < before {
      for i := 1 to 4
        invariant Value(a[..]) + Base(i) == Value(start) + amount
      {
        BumpLimb(a[..], i);
        ghost var here := a[..];
        a[i] := (a[i] + 1) % TWO_64;
        assert a[..] == here[i := (here[i] + 1) % TWO_64];
        if a[i] != 0 {
          return false;
        }
      }
      return true;
    }
    return false;
  }

  lemma CarryScaled(x: nat, y: nat, z: nat, carry: nat, next: nat, base: nat)
    requires z + next * TWO_64 == x + y + carry
    ensures z * base + next * (TWO_64 * base) == x * base + y * base + carry * base
  {
    assert (z + next * TWO_64) * base == (x + y + carry) * base;
  }

  lemma BaseStep(i: nat)
    requires i < 4
    ensures Base(i + 1) == TWO_64 * Base(i)
  {
  }

  /** uint256_add; the operands may be the same object. */
  method Add(a: array<u64>, b: array<u64>) returns (overflow: bool)
    requires a.Length == 4 && b.Length == 4
    modifies a
    ensures Value(a[..]) + (if overflow then TWO_256 else 0) == old(Value(a[..])) + old(Value(b[..]))
  {
    hide Base, AddLimb;
    ghost var x, y := a[..], b[..];
    var carry: u64 := 0;
    for i := 0 to 4
      invariant carry <= 1
      invariant forall j :: i <= j < 4 ==> a[j] == x[j] && b[j] == y[j]
      invariant Low(a[..], i) + carry * Base(i) == Low(x, i) + Low(y, i)
    {
      ghost var here := a[..];
      var r := AddLimb(a[i], b[i], carry);
      a[i] := r.0;
      LowAgrees(here, a[..], i);
      CarryScaled(x[i], y[i], r.0, carry, r.1, Base(i));
      BaseStep(i);
      carry := r.1;
    }
    overflow := carry > 0;
    TopBase();
  }

  lemma TopBase()
    ensures Base(4) == TWO_256 && Base(0) == 1
  {
  }

  // The highest differing limb decides.
  lemma TopLimbDecides(s: seq<u64>, t: seq<u64>, k: nat)
    requires |s| == |t| == 4 && k < 4 && s[k] > t[k]
    requires forall j :: k < j < 4 ==> s[j] == t[j]
    ensures Value(s) > Value(t)
  {
    hide Value, Low, Base;
    ValueSplit(s, k);
    ValueSplit(t, k);
    LowBound(t, k);
    assert High(s, k) == High(t, k);
    var h := High(t, k) * TWO_64;
    ScaleMonotone(t[k] + h + 1, s[k] + h, Base(k));
    assert (t[k] + h + 1) * Base(k) == (t[k] + h) * Base(k) + Base(k);
  }

  /** uint256_cmp: the sign of the difference. */
  method Compare(a: array<u64>, b: array<u64>) returns (r: int)
    requires a.Length == 4 && b.Length == 4
    ensures r == if Value(a[..]) > Value(b[..]) then 1 else if Value(a[..]) < Value(b[..]) then -1 else 0
  {
    hide Low, Value;
    for i := 4 downto 0
      invariant forall j :: i <= j < 4 ==> a[j] == b[j]
    {
      if a[i] > b[i] {
        TopLimbDecides(a[..], b[..], i);
        return 1;
      }
      if a[i] < b[i] {
        TopLimbDecides(b[..], a[..], i);
        return -1;
      }
    }
    assert a[..] == b[..];
    r := 0;
  }

  lemma BorrowScaled(x: nat, y: nat, z: nat, borrow: nat, next: nat, base: nat)
    requires z + y + borrow == x + next * TWO_64
    ensures z * base + y * base + borrow * base == x * base + next * (TWO_64 * base)
  {
    assert (z + y + borrow) * base == (x + next * TWO_64) * base;
  }

  /** uint256_subtract: refuses exactly when it would underflow, and then leaves `a` alone. */
  method Subtract(a: array<u64>, b: array<u64>) returns (ok: bool)
    requires a.Length == 4 && b.Length == 4
    modifies a
    ensures ok <==> old(Value(a[..])) >= old(Value(b[..]))
    ensures ok ==> Value(a[..]) == old(Value(a[..])) - old(Value(b[..]))
    ensures !ok ==> a[..] == old(a[..])
  {
    hide Base, SubLimb, Low;
    var order := Compare(a, b);
    if order < 0 {
      return false;
    }
    ok := true;
    SubtractLoop(a, b);
  }

  method SubtractLoop(a: array<u64>, b: array<u64>)
    requires a.Length == 4 && b.Length == 4 && Value(a[..]) >= Value(b[..])
    modifies a
    ensures Value(a[..]) == old(Value(a[..])) - old(Value(b[..]))
  {
    hide Base, SubLimb;
    ghost var x, y := a[..], b[..];
    var borrow: u64 := 0;
    for i := 0 to 4
      invariant borrow <= 1
      invariant forall j :: i <= j < 4 ==> a[j] == x[j] && b[j] == y[j]
      invariant Low(a[..], i) + Low(y, i) == Low(x, i) + borrow * Base(i)
    {
      ghost var here := a[..];
      var r := SubLimb(a[i], b[i], borrow);
      a[i] := r.0;
      LowAgrees(here, a[..], i);
      BorrowScaled(x[i], y[i], r.0, borrow, r.1, Base(i));
      BaseStep(i);
      borrow := r.1;
    }
    TopBase();
    LowBound(a[..], 4);
  }

  // (limb << 1) | bit: the shifted limb is even, so the bit-or is a sum.
  function ShiftedLimb(x: u64, bit: u64): (r: u64)
    requires bit <= 1
    ensures r + TWO_64 * (x / 0x8000_0000_0000_0000) == x + x + bit
  {
    (x + x) % TWO_64 + bit
  }

  lemma DoubleValue(s: seq<u64>, t: seq<u64>, bit: nat, c0: nat, c1: nat, c2: nat, c3: nat)
    requires |s| == |t| == 4
    requires t[0] + TWO_64 * c0 == s[0] + s[0] + bit
    requires t[1] + TWO_64 * c1 == s[1] + s[1] + c0
    requires t[2] + TWO_64 * c2 == s[2] + s[2] + c1
    requires t[3] + TWO_64 * c3 == s[3] + s[3] + c2
    ensures Value(t) + c3 * TWO_256 == 2 * Value(s) + bit
  {
    hide Low;
    ValueUnfolded(s);
    ValueUnfolded(t);
  }

  /** Shift the whole number left by one bit and bring a bit in; the bit that falls out is counted. */
  method ShiftIn(r: array<u64>, bit: u64)
    requires r.Length == 4 && bit <= 1
    modifies r
    ensures Value(r[..]) + old(r[3]) / 0x8000_0000_0000_0000 * TWO_256 == 2 * old(Value(r[..])) + bit
  {
    hide Low, Value;
    ghost var x := r[..];
    for i := 3 downto 0
      invariant forall j :: 0 <= j <= i ==> r[j] == x[j]
      invariant forall j :: i < j < 4 ==> r[j] == ShiftedLimb(x[j], x[j - 1] / 0x8000_0000_0000_0000)
    {
      r[i + 1] := ShiftedLimb(r[i + 1], r[i] / 0x8000_0000_0000_0000);
    }
    r[0] := ShiftedLimb(r[0], bit);
    hide ShiftedLimb;
    DoubleValue(x, r[..], bit, x[0] / 0x8000_0000_0000_0000, x[1] / 0x8000_0000_0000_0000,
      x[2] / 0x8000_0000_0000_0000, x[3] / 0x8000_0000_0000_0000);
  }

  // ---------- division ----------

  function Pow2(n: nat): (p: nat)
    ensures p > 0
  {
    if n == 0 then 1 else 2 * Pow2(n - 1)
  }

  lemma Pow2Step(n: nat)
    ensures Pow2(0) == 1 && Pow2(n + 1) == 2 * Pow2(n)
  {
  }

  lemma {:induction false} Pow2Add(m: nat, n: nat)
    ensures Pow2(m + n) == Pow2(m) * Pow2(n)
  {
    hide Pow2;
    if m == 0 {
      Pow2Step(0);
    } else {
      Pow2Add(m - 1, n);
      Pow2Step(m - 1);
      Pow2Step(m - 1 + n);
      MulAssoc(2, Pow2(m - 1), Pow2(n));
    }
  }

  lemma Pow2Of64()
    ensures Pow2(64) == TWO_64
  {
    hide Pow2;
    Pow2Step(0);
    Pow2Add(1, 1);
    Pow2Add(2, 2);
    Pow2Add(4, 4);
    Pow2Add(8, 8);
    Pow2Add(16, 16);
    Pow2Add(32, 32);
  }

  lemma {:induction false} Pow2Base(k: nat)
    requires k <= 4
    ensures Pow2(64 * k) == Base(k)
  {
    hide Base;
    TopBase();
    if k > 0 {
      Pow2Base(k - 1);
      Pow2Of64();
      Pow2Add(64, 64 * (k - 1));
      BaseStep(k - 1);
    }
  }

  lemma DivUnique(n: nat, d: nat, q: nat)
    requires d > 0 && q * d <= n < (q + 1) * d
    ensures n / d == q
  {
    QuotientAtLeast(n, d, q);
    QuotientAtMost(n, d, q);
  }

  lemma DivFacts(n: nat, d: nat)
    requires d > 0
    ensures n / d * d <= n < n / d * d + d
  {
  }

  lemma DivDiv(n: nat, a: nat, b: nat)
    requires a > 0 && b > 0
    ensures a * b > 0 && n / (a * b) == n / a / b
  {
    var m := n / a;
    var q := m / b;
    DivFacts(n, a);
    DivFacts(m, b);
    assert q * (a * b) == (q * b) * a;
    ScaleMonotone(q * b, m, a);
    ScaleMonotone(m + 1, (q + 1) * b, a) by { assert (q + 1) * b == q * b + b; }
    assert (m + 1) * a == m * a + a;
    assert (q + 1) * (a * b) == ((q + 1) * b) * a;
    assert a * b > 0 by { ScaleMonotone(1, a, b); }
    DivUnique(n, a * b, q);
  }

  lemma DivAddMultiple(x: nat, m: nat, d: nat)
    requires d > 0
    ensures (x + m * d) / d == x / d + m
  {
    DivFacts(x, d);
    assert (x / d + m) * d == x / d * d + m * d;
    assert (x / d + m + 1) * d == x / d * d + m * d + d;
    DivUnique(x + m * d, d, x / d + m);
  }

  lemma TopOfValue(s: seq<u64>, k: nat)
    requires |s| == 4 && k < 4
    ensures Base(k) > 0 && Value(s) / Base(k) == s[k] + High(s, k) * TWO_64
  {
    hide Value, Low, High;
    var top := s[k] + High(s, k) * TWO_64;
    ValueSplit(s, k);
    LowBound(s, k);
    assert (top + 1) * Base(k) == top * Base(k) + Base(k);
    DivUnique(Value(s), Base(k), top);
  }

  lemma MulAssoc(a: nat, b: nat, c: nat)
    ensures a * (b * c) == (a * b) * c
  {
  }

  // Even multiples of p do not disturb the bit at p.
  lemma LimbBit(x: nat, h: nat, p: nat, half: nat, n: nat)
    requires p > 0 && n == (2 * half) * p
    ensures (x + h * n) / p % 2 == x / p % 2
  {
    var m := h * (2 * half);
    assert h * n == m * p by { MulAssoc(h, 2 * half, p); }
    DivAddMultiple(x, m, p);
    assert m == 2 * (h * half);
  }

  lemma HalfLimb(j: nat)
    requires j < 64
    ensures TWO_64 == (2 * Pow2(63 - j)) * Pow2(j)
  {
    Pow2Of64();
    Pow2Add(64 - j, j);
  }

  // The bit the loop reads out of a limb is the bit of the number.
  lemma BitOfValue(s: seq<u64>, bit: nat)
    requires |s| == 4 && bit < 256
    ensures Value(s) / Pow2(bit) % 2 == s[bit / 64] / Pow2(bit % 64) % 2
  {
    hide Value, Low, Base, High, Pow2;
    var k, j := bit / 64, bit % 64;
    Pow2Base(k);
    Pow2Add(64 * k, j);
    assert bit == 64 * k + j;
    TopOfValue(s, k);
    DivDiv(Value(s), Base(k), Pow2(j));
    HalfLimb(j);
    LimbBit(s[k], High(s, k), Pow2(j), Pow2(63 - j), TWO_64);
  }

  lemma OneBase()
    ensures Base(1) == TWO_64
  {
  }

  // Long division one bit further: N / 2^b from N / 2^(b+1).
  lemma NextBit(n: nat, b: nat)
    ensures n / Pow2(b) == 2 * (n / Pow2(b + 1)) + n / Pow2(b) % 2
  {
    DivDiv(n, Pow2(b), 2);
    assert Pow2(b + 1) == Pow2(b) * 2;
  }

  // What the loop holds after the bits from 255 down to `bit`: quotient and remainder of the top bits.
  ghost predicate Divided(n: nat, d: nat, top: nat, q: nat, r: nat, bit: nat) {
    q == top * Pow2(bit) && n / Pow2(bit) == top * d + r && r < d
  }

  lemma DoubleStep(n1: nat, n2: nat, b: nat, top: nat, d: nat, r: nat)
    requires n1 == 2 * n2 + b && n2 == top * d + r
    ensures n1 == (2 * top) * d + (2 * r + b)
    ensures n1 == (2 * top + 1) * d + (2 * r + b - d)
    ensures 2 * r + b <= n1
  {
    assert (2 * top) * d == 2 * (top * d);
    assert (2 * top + 1) * d == (2 * top) * d + d;
    ScaleMonotone(0, top, d);
  }

  lemma DividedNext(n: nat, d: nat, top: nat, q: nat, r: nat, bit: nat)
    requires d > 0 && Divided(n, d, top, q, r, bit + 1)
    ensures var r2 := 2 * r + n / Pow2(bit) % 2;
            && r2 <= n / Pow2(bit)
            && (r2 < d ==> Divided(n, d, 2 * top, q, r2, bit))
            && (r2 >= d ==> Divided(n, d, 2 * top + 1, q + Pow2(bit), r2 - d, bit))
  {
    NextBit(n, bit);
    DoubleStep(n / Pow2(bit), n / Pow2(bit + 1), n / Pow2(bit) % 2, top, d, r);
    TwiceScaled(top, Pow2(bit), Pow2(bit + 1));
    hide Pow2;
  }

  lemma TwiceScaled(top: nat, p: nat, pp: nat)
    requires pp == 2 * p
    ensures top * pp == (2 * top) * p && top * pp + p == (2 * top + 1) * p
  {
    assert top * (2 * p) == (2 * top) * p;
    assert (2 * top + 1) * p == (2 * top) * p + p;
  }

  lemma DividedStart(n: nat, d: nat)
    requires n < TWO_256 && d > 0
    ensures Divided(n, d, 0, 0, 0, 256)
  {
    Pow2Base(4);
    TopBase();
    DivUnique(n, Pow2(256), 0);
  }

  lemma DividedEnd(n: nat, d: nat, top: nat, q: nat, r: nat)
    requires d > 0 && Divided(n, d, top, q, r, 0)
    ensures q == n / d
  {
    assert (top + 1) * d == top * d + d;
    DivUnique(n, d, top);
  }

  // Setting a clear bit of one limb adds that power of two to the number.
  lemma SetBit(s: seq<u64>, bit: nat)
    requires |s| == 4 && bit < 256 && s[bit / 64] + Pow2(bit % 64) < TWO_64
    ensures Value(s[bit / 64 := s[bit / 64] + Pow2(bit % 64)]) == Value(s) + Pow2(bit)
  {
    hide Low, Pow2, Base, Value;
    var k, p := bit / 64, Pow2(bit % 64);
    UpdateLimb(s, k, s[k] + p);
    Pow2Base(k);
    Pow2Add(64 * k, bit % 64);
    assert 64 * k + bit % 64 == bit;
    AddScaled(s[k], p, Base(k));
  }

  lemma AddScaled(x: nat, y: nat, base: nat)
    ensures (x + y) * base == x * base + base * y
  {
  }

  // A multiple of 2p below n = 2hp leaves room for p.
  lemma LimbRoom(x: nat, p: nat, h: nat, n: nat)
    requires p > 0 && x < n == (2 * h) * p && x / p % 2 == 0
    ensures x + p < n
  {
    var m := x / p;
    DivFacts(x, p);
    if m > 2 * h - 2 {
      ScaleMonotone(2 * h, m + (if m % 2 == 0 then 0 else 1), p);
    }
    ScaleMonotone(m + 2, 2 * h, p);
    assert (m + 2) * p == m * p + 2 * p;
  }

  // A quotient whose bits from `bit` down are still unset has room for this one.
  lemma RoomForBit(s: seq<u64>, bit: nat, top: nat)
    requires |s| == 4 && bit < 256 && Value(s) == top * Pow2(bit + 1)
    ensures s[bit / 64] + Pow2(bit % 64) < TWO_64
  {
    hide Value;
    BitOfValue(s, bit);
    TwiceScaled(top, Pow2(bit), Pow2(bit + 1));
    hide Pow2;
    DivAddMultiple(0, 2 * top, Pow2(bit));
    HalfLimb(bit % 64);
    LimbRoom(s[bit / 64], Pow2(bit % 64), Pow2(63 - bit % 64), TWO_64);
  }

  /** uint256_divide: restoring long division is exact for every nonzero denominator. */
  method Divide(n: array<u64>, d: array<u64>) returns (ok: bool, q: array<u64>)
    requires n.Length == 4 && d.Length == 4
    ensures fresh(q) && q.Length == 4
    ensures ok <==> Value(d[..]) != 0
    ensures ok ==> Value(q[..]) == Value(n[..]) / Value(d[..])
  {
    hide Low, Value, Divided, Pow2;
    q := new u64[4](_ => 0);
    ZeroValue(q[..]);
    if d[0] == 0 && d[1] == 0 && d[2] == 0 && d[3] == 0 {
      ZeroValue(d[..]);
      return false, q;
    }
    NonzeroValue(d[..]);
    var r := new u64[4](_ => 0);
    ZeroValue(r[..]);
    ghost var num, den := Value(n[..]), Value(d[..]);
    ValueBound(n[..]);
    DividedStart(num, den);
    var bit: nat := 256;
    ghost var top: nat := 0;
    while bit > 0
      invariant bit <= 256
      invariant fresh(q) && fresh(r) && q != r && q.Length == r.Length == 4
      invariant n[..] == old(n[..]) && d[..] == old(d[..])
      invariant Divided(num, den, top, Value(q[..]), Value(r[..]), bit)
    {
      bit := bit - 1;
      top := DivideBit(n, d, q, r, bit, top);
    }
    DividedEnd(num, den, top, Value(q[..]), Value(r[..]));
    ok := true;
  }

  method DivideBit(n: array<u64>, d: array<u64>, q: array<u64>, r: array<u64>, bit: nat, ghost top: nat)
    returns (ghost top': nat)
    requires n.Length == 4 && d.Length == 4 && q.Length == 4 && r.Length == 4 && bit < 256
    requires q != r && q != n && q != d && r != n && r != d
    requires Value(d[..]) > 0 && Divided(Value(n[..]), Value(d[..]), top, Value(q[..]), Value(r[..]), bit + 1)
    modifies q, r
    ensures Divided(Value(n[..]), Value(d[..]), top', Value(q[..]), Value(r[..]), bit)
  {
    hide Low, Value, Divided, Pow2;
    ghost var num, den, quo, rem := Value(n[..]), Value(d[..]), Value(q[..]), Value(r[..]);
    DividedNext(num, den, top, quo, rem, bit);
    BringDown(n, r, bit);
    top' := 2 * top;
    var order := Compare(r, d);
    if order >= 0 {
      var _ := Subtract(r, d);
      DividedQuotient(num, den, top, quo, rem, bit + 1);
      SetQuotientBit(q, bit, top);
      top' := 2 * top + 1;
    }
  }

  // Shift the numerator's next bit into the remainder; nothing is lost as long as the result is at
  // most the numerator's prefix.
  method BringDown(n: array<u64>, r: array<u64>, bit: nat)
    requires n.Length == 4 && r.Length == 4 && r != n && bit < 256
    requires 2 * Value(r[..]) + Value(n[..]) / Pow2(bit) % 2 <= Value(n[..]) / Pow2(bit)
    modifies r
    ensures Value(r[..]) == 2 * old(Value(r[..])) + Value(n[..]) / Pow2(bit) % 2
  {
    hide Low, Value, Pow2;
    var incoming := n[bit / 64] / Pow2(bit % 64) % 2;
    BitOfValue(n[..], bit);
    ValueBound(n[..]);
    QuotientWithin(Value(n[..]), Pow2(bit));
    ShiftIn(r, incoming);
    ValueBound(r[..]);
  }

  method SetQuotientBit(q: array<u64>, bit: nat, ghost top: nat)
    requires q.Length == 4 && bit < 256 && Value(q[..]) == top * Pow2(bit + 1)
    modifies q
    ensures Value(q[..]) == old(Value(q[..])) + Pow2(bit)
  {
    hide Low, Value, Pow2;
    RoomForBit(q[..], bit, top);
    SetBit(q[..], bit);
    ghost var before := q[..];
    q[bit / 64] := q[bit / 64] + Pow2(bit % 64);
    assert q[..] == before[bit / 64 := before[bit / 64] + Pow2(bit % 64)];
  }

  lemma DividedQuotient(n: nat, d: nat, top: nat, q: nat, r: nat, bit: nat)
    requires Divided(n, d, top, q, r, bit)
    ensures q == top * Pow2(bit)
  {
  }

  lemma QuotientWithin(n: nat, d: nat)
    requires d > 0
    ensures n / d <= n
  {
    QuotientAtMost(n, d, n) by { ScaleMonotone(1, d, n + 1); assert (n + 1) * d >= n + 1; }
  }

  lemma ValueBound(s: seq<u64>)
    requires |s| == 4
    ensures Value(s) < TWO_256
  {
    ValueUnfolded(s);
  }

  lemma ZeroValue(s: seq<u64>)
    requires |s| == 4 && s[0] == s[1] == s[2] == s[3] == 0
    ensures Value(s) == 0
  {
    ValueUnfolded(s);
  }

  lemma NonzeroValue(s: seq<u64>)
    requires |s| == 4 && !(s[0] == 0 && s[1] == 0 && s[2] == 0 && s[3] == 0)
    ensures Value(s) > 0
  {
    ValueUnfolded(s);
  }
}
