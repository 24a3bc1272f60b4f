/**
 Triangular probing: from bucket h the s-th probe of a table of n buckets is h + s(s+1)/2 mod n.
 Over a power of two the first n probes are distinct, so they visit every bucket.
 */
module Probing {
  predicate IsPow2(n: nat) {
    n == 1 || (n > 1 && n % 2 == 0 && IsPow2(n / 2))
  }

  function Tri(s: nat): nat { s * (s + 1) / 2 }

  function Probe(h: nat, s: nat, n: nat): (i: nat)
    requires n > 0
    ensures i < n
  {
    (h + Tri(s)) % n
  }

  lemma TriNext(s: nat)
    ensures Tri(s + 1) == Tri(s) + s + 1
    ensures 2 * Tri(s) == s * (s + 1)
  {
    TriEven(s);
    TriEven(s + 1);
    assert (s + 1) * (s + 2) == s * (s + 1) + 2 * (s + 1);
  }

  lemma {:induction false} TriEven(s: nat)
    ensures s * (s + 1) % 2 == 0
  {
    if s > 0 {
      TriEven(s - 1);
      assert s * (s + 1) == (s - 1) * s + 2 * s;
    }
  }

  lemma Scale(a: int, b: int, n: nat)
    requires a <= b
    ensures a * n <= b * n
  {
  }

  lemma ModUnique(v: nat, n: nat, q: nat, r: nat)
    requires n > 0 && v == q * n + r && r < n
    ensures v % n == r
  {
    var a := v / n;
    assert v == a * n + v % n;
    if a < q {
      Scale(a + 1, q, n);
    } else if a > q {
      Scale(q + 1, a, n);
    }
  }

  lemma ModShift(x: nat, q: nat, n: nat)
    requires n > 0
    ensures (x + q * n) % n == x % n
  {
    assert x == x / n * n + x % n;
    assert (x / n + q) * n == x / n * n + q * n;
    ModUnique(x + q * n, n, x / n + q, x % n);
  }

  lemma ModPlus(x: nat, y: nat, n: nat)
    requires n > 0
    ensures (x % n + y) % n == (x + y) % n
  {
    assert x == x / n * n + x % n;
    ModShift(x % n + y, x / n, n);
  }

  // The step the loops take: add one more than last time and mask.
  lemma ProbeNext(h: nat, s: nat, n: nat)
    requires n > 0
    ensures Probe(h, s + 1, n) == (Probe(h, s, n) + (s + 1)) % n
    ensures Probe(h, 0, n) == h % n
  {
    TriNext(s);
    ModPlus(h + Tri(s), s + 1, n);
  }

  // If a power of two divides a product with an odd factor, it divides the other factor.
  lemma {:induction false} OddFactor(m: nat, a: nat, b: nat)
    requires IsPow2(m) && a % 2 == 1 && a * b % m == 0
    ensures b % m == 0
  {
    if m > 1 {
      var k := a * b / m;
      var half := m / 2;
      assert a * b == 2 * (half * k);
      OddTimes(a, b);
      var c := b / 2;
      assert a * b == 2 * (a * c);
      assert a * c == half * k;
      ModShift(0, k, half);
      OddFactor(half, a, c);
      var j := c / half;
      assert b == 2 * (half * j);
      assert b == j * m;
      ModShift(0, j, m);
    }
  }

  lemma OddTimes(a: nat, b: nat)
    requires a % 2 == 1 && a * b % 2 == 0
    ensures b % 2 == 0
  {
    assert a * b == 2 * (a / 2 * b) + b;
  }

  lemma NotMultiple(x: nat, m: nat)
    requires 0 < x < m
    ensures x % m != 0
  {
  }

  lemma DivisibleDifference(x: nat, y: nat, n: nat)
    requires n > 0 && x <= y && x % n == y % n
    ensures (y - x) % n == 0
  {
    assert x == x / n * n + x % n && y == y / n * n + y % n;
    if x / n > y / n { Scale(y / n + 1, x / n, n); }
    var q := y / n - x / n;
    assert y - x == q * n;
    ModShift(0, q, n);
  }

  lemma TriDifference(s: nat, t: nat)
    requires s <= t
    ensures 2 * (Tri(t) - Tri(s)) == (t - s) * (t + s + 1)
    ensures Tri(s) <= Tri(t)
  {
    hide Tri;
    TriNext(s);
    TriNext(t);
    SquareDifference(s, t - s);
  }

  lemma SquareDifference(s: nat, d: nat)
    ensures (s + d) * (s + d + 1) == s * (s + 1) + d * (s + d + s + 1)
    ensures d * (s + d + s + 1) >= 0
  {
    assert (s + d) * (s + d + 1) == s * (s + d + 1) + d * (s + d + 1);
    assert s * (s + d + 1) == s * (s + 1) + s * d;
    assert d * (s + d + 1) + s * d == d * (s + d + s + 1);
  }

  // Two numbers of opposite parity, both below 2n, cannot multiply to a multiple of 2n.
  lemma OppositeParity(a: nat, b: nat, n: nat)
    requires IsPow2(n) && 0 < a < 2 * n && 0 < b < 2 * n && a % 2 != b % 2
    ensures a * b % (2 * n) != 0
  {
    if a * b % (2 * n) == 0 {
      if a % 2 == 1 {
        OddFactor(2 * n, a, b);
        NotMultiple(b, 2 * n);
      } else {
        assert b * a == a * b;
        OddFactor(2 * n, b, a);
        NotMultiple(a, 2 * n);
      }
    }
  }

  lemma DoubleMultiple(d: nat, n: nat)
    requires n > 0 && d % n == 0
    ensures 2 * d % (2 * n) == 0
  {
    var k := d / n;
    assert d == k * n;
    assert 2 * d == 0 + k * (2 * n);
    ModShift(0, k, 2 * n);
  }

  /** The first n probes are pairwise distinct. */
  lemma ProbesDistinct(h: nat, s: nat, t: nat, n: nat)
    requires IsPow2(n) && s < t < n
    ensures Probe(h, s, n) != Probe(h, t, n)
  {
    hide Tri;
    TriDifference(s, t);
    OppositeParity(t - s, t + s + 1, n);
    if Probe(h, s, n) == Probe(h, t, n) {
      DivisibleDifference(h + Tri(s), h + Tri(t), n);
      DoubleMultiple(Tri(t) - Tri(s), n);
    }
  }

  // ---------- coverage, by counting ----------

  function Below(n: nat): (r: set<nat>)
    ensures |r| == n
    ensures forall i: nat :: i in r <==> i < n
  {
    if n == 0 then {} else Below(n - 1) + {n - 1}
  }

  function Visited(h: nat, k: nat, n: nat): set<nat>
    requires n > 0
  {
    if k == 0 then {} else Visited(h, k - 1, n) + {Probe(h, k - 1, n)}
  }

  lemma {:induction false} VisitedAt(h: nat, k: nat, n: nat, i: nat) returns (s: nat)
    requires n > 0 && i in Visited(h, k, n)
    ensures s < k && Probe(h, s, n) == i
  {
    hide Probe;
    if i in Visited(h, k - 1, n) {
      s := VisitedAt(h, k - 1, n, i);
    } else {
      s := k - 1;
    }
  }

  lemma {:induction false} VisitedCount(h: nat, k: nat, n: nat)
    requires IsPow2(n) && k <= n
    ensures |Visited(h, k, n)| == k
  {
    hide Probe, IsPow2;
    if k > 0 {
      VisitedCount(h, k - 1, n);
      if Probe(h, k - 1, n) in Visited(h, k - 1, n) {
        var s := VisitedAt(h, k - 1, n, Probe(h, k - 1, n));
        ProbesDistinct(h, s, k - 1, n);
      }
    }
  }

  lemma SubsetSameSize(a: set<nat>, b: set<nat>)
    requires a <= b && |a| == |b|
    ensures a == b
  {
    assert |b - a| == |b| - |a|;
  }

  /** Triangular probing visits every bucket within n steps. */
  lemma ProbesCover(h: nat, i: nat, n: nat) returns (s: nat)
    requires IsPow2(n) && i < n
    ensures s < n && Probe(h, s, n) == i
  {
    hide Probe;
    VisitedCount(h, n, n);
    forall j | j in Visited(h, n, n) ensures j in Below(n) {
      var _ := VisitedAt(h, n, n, j);
    }
    SubsetSameSize(Visited(h, n, n), Below(n));
    assert i in Below(n);
    s := VisitedAt(h, n, n, i);
  }
}
