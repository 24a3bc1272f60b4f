/**
 What the memory-hard hash depends on: the accumulator is the exclusive or of 32 lanes chosen by the
 message, and the final digest binds the header, nonce, height and accumulator.
 */
module PowBinding {
  import opened Words
  import opened Transactions
  import opened Targets
  import UInt256
  import opened ByteOrder
  import opened Framing
  import opened BlockWire
  import opened ProofOfWork

  // ---------- the accumulator ----------

  function Bit(x: nat, i: nat): nat { if i == 0 then x % 2 else Bit(x / 2, i - 1) }

  lemma {:induction false} XorBit(x: nat, y: nat, n: nat, i: nat)
    requires i < n
    ensures Bit(XorBits(x, y, n), i) == (Bit(x, i) + Bit(y, i)) % 2
  {
    hide Bit;
    LowestBit((x + y) % 2, XorBits(x / 2, y / 2, n - 1), i);
    LowestBit(x % 2, x / 2, i);
    LowestBit(y % 2, y / 2, i);
    if i > 0 { XorBit(x / 2, y / 2, n - 1, i - 1); } else { Parity(x, y); }
  }

  lemma LowestBit(bit: nat, rest: nat, i: nat)
    requires bit < 2
    ensures Bit(bit + 2 * rest, i) == if i == 0 then bit else Bit(rest, i - 1)
  {
    assert (bit + 2 * rest) / 2 == rest && (bit + 2 * rest) % 2 == bit;
  }

  lemma Parity(x: nat, y: nat)
    ensures (x + y) % 2 == (x % 2 + y % 2) % 2
  {
  }

  lemma XorByte(x: u8, y: u8, i: nat)
    requires i < 8
    ensures Bit(Xor(x, y), i) == (Bit(x, i) + Bit(y, i)) % 2
  {
    XorBit(x, y, 8, i);
  }

  function FirstFour(d: Bytes32): nat {
    var d0: nat, d1: nat, d2: nat, d3: nat := d[0], d[1], d[2], d[3];
    d0 + 256 * d1 + 65_536 * d2 + 16_777_216 * d3
  }

  // The lane of one round, from the message and the epoch seed.
  function RoundLane(b: Blake2b, seed: Bytes32, m: Message, laneCount: nat, round: nat): Bytes32
    requires laneCount > 0
  {
    var d := b.digest32(b.digest32(m.bytes) + Little(m.nonce, 8) + Little(m.height, 8) + Little(round, 4));
    var index := FirstFour(d) % laneCount;
    var lanes := b.digest64(seed + Little(index / 2, 8));
    if index % 2 == 0 then lanes[..32] else lanes[32..]
  }

  lemma FourBytes(d: Bytes32)
    ensures LittleEndian(d[..4]) == FirstFour(d)
  {
    assert d[..4][1..] == d[1..4] && d[1..4][1..] == d[2..4] && d[2..4][1..] == d[3..4] && d[3..4][1..] == [];
    assert LittleEndian(d[3..4]) == d[3];
    assert LittleEndian(d[2..4]) == d[2] + 256 * LittleEndian(d[3..4]);
    assert LittleEndian(d[1..4]) == d[1] + 256 * LittleEndian(d[2..4]);
  }

  lemma LaneOfRound(b: Blake2b, seed: Bytes32, m: Message, laneCount: nat, round: nat)
    requires laneCount > 0
    ensures ReadLane(b, FromSeed(seed), LaneIndex(b, b.digest32(m.bytes), m.nonce, m.height, round, laneCount)) ==
            Some(RoundLane(b, seed, m, laneCount, round))
  {
    hide LittleEndian, Little;
    FourBytes(b.digest32(b.digest32(m.bytes) + Little(m.nonce, 8) + Little(m.height, 8) + Little(round, 4)));
  }

  // The rounds whose lane has this bit set in this byte.
  function OddRounds(b: Blake2b, seed: Bytes32, m: Message, laneCount: nat, rounds: nat, j: nat, i: nat): set<nat>
    requires laneCount > 0 && j < 32
  {
    set r: nat | r < rounds && Bit(RoundLane(b, seed, m, laneCount, r)[j], i) == 1
  }

  lemma {:induction false} BitIsBit(x: nat, i: nat)
    ensures Bit(x, i) == 0 || Bit(x, i) == 1
  {
    if i > 0 { BitIsBit(x / 2, i - 1); }
  }

  /** Bit i of byte j of the accumulator is set exactly when an odd number of the rounds' lanes have it
      set. */
  lemma {:induction false} AccumulatorBits(b: Blake2b, seed: Bytes32, m: Message, laneCount: nat, rounds: nat,
                                           j: nat, i: nat)
    requires laneCount > 0 && j < 32 && i < 8
    ensures var acc := Mix(b, FromSeed(seed), m, laneCount, rounds);
            acc.Some? && Bit(acc.value[j], i) == |OddRounds(b, seed, m, laneCount, rounds, j, i)| % 2
  {
    hide LaneIndex, ReadLane, RoundLane, Xor, Bit, OddRounds;
    if rounds == 0 {
      NoRounds(b, seed, m, laneCount, j, i);
      ZeroBit(i);
    } else {
      var lane := RoundLane(b, seed, m, laneCount, rounds - 1);
      AccumulatorBits(b, seed, m, laneCount, rounds - 1, j, i);
      LaneOfRound(b, seed, m, laneCount, rounds - 1);
      XorByte(Mix(b, FromSeed(seed), m, laneCount, rounds - 1).value[j], lane[j], i);
      OneMoreRound(b, seed, m, laneCount, rounds - 1, j, i);
    }
  }

  lemma NoRounds(b: Blake2b, seed: Bytes32, m: Message, laneCount: nat, j: nat, i: nat)
    requires laneCount > 0 && j < 32
    ensures OddRounds(b, seed, m, laneCount, 0, j, i) == {}
  {
  }

  lemma OneMoreRound(b: Blake2b, seed: Bytes32, m: Message, laneCount: nat, rounds: nat, j: nat, i: nat)
    requires laneCount > 0 && j < 32
    ensures |OddRounds(b, seed, m, laneCount, rounds + 1, j, i)| ==
            |OddRounds(b, seed, m, laneCount, rounds, j, i)| + Bit(RoundLane(b, seed, m, laneCount, rounds)[j], i)
  {
    hide RoundLane, Bit;
    var before, after := OddRounds(b, seed, m, laneCount, rounds, j, i),
                         OddRounds(b, seed, m, laneCount, rounds + 1, j, i);
    var last := RoundLane(b, seed, m, laneCount, rounds)[j];
    BitIsBit(last, i);
    if Bit(last, i) == 1 {
      assert after == before + {rounds};
    } else {
      assert after == before;
    }
  }

  lemma {:induction false} ZeroBit(i: nat)
    ensures Bit(0, i) == 0
  {
    if i > 0 { ZeroBit(i - 1); }
  }

  // ---------- binding ----------

  // The 32-byte digest has no collision among these inputs.
  ghost predicate NoDigestCollisions(b: Blake2b, inputs: set<Bytes>) {
    forall x, y :: x in inputs && y in inputs && b.digest32(x) == b.digest32(y) ==> x == y
  }

  // Everything digested for a message once its lanes are mixed.
  function Digested(b: Blake2b, m: Message, acc: Bytes32): set<Bytes> {
    var tail := Little(m.nonce, 8) + Little(m.height, 8);
    var first := b.digest32(m.bytes) + m.bytes + tail;
    {acc, first, b.digest32(first) + b.digest32(acc) + tail}
  }

  lemma SplitThree(a: Bytes, b: Bytes, d: Bytes, a': Bytes, b': Bytes, d': Bytes)
    requires |a| == |a'| && |d| == |d'| && a + b + d == a' + b' + d'
    ensures a == a' && b == b' && d == d'
  {
    Parts3(a, b, d);
    Parts3(a', b', d');
  }

  lemma SameTail(nonce: u64, height: u64, nonce': u64, height': u64)
    requires Little(nonce, 8) + Little(height, 8) == Little(nonce', 8) + Little(height', 8)
    ensures nonce == nonce' && height == height'
  {
    hide Little;
    SplitThree(Little(nonce, 8), Little(height, 8), [], Little(nonce', 8), Little(height', 8), []) by {
      assert Little(nonce, 8) + Little(height, 8) + [] == Little(nonce, 8) + Little(height, 8);
      assert Little(nonce', 8) + Little(height', 8) + [] == Little(nonce', 8) + Little(height', 8);
    }
    SameNumber(nonce, nonce');
    SameNumber(height, height');
  }

  lemma SameNumber(x: u64, y: u64)
    requires Little(x, 8) == Little(y, 8)
    ensures x == y
  {
    hide Little, Pow256;
    Widths8();
    LittleRoundTrip(x, 8);
    LittleRoundTrip(y, 8);
  }

  /** Equal final digests come from equal messages and equal accumulators, unless the digest collides on
      what was digested. */
  lemma FinishBinds(b: Blake2b, m: Message, acc: Bytes32, m': Message, acc': Bytes32)
    requires NoDigestCollisions(b, Digested(b, m, acc) + Digested(b, m', acc'))
    requires Finish(b, m, acc) == Finish(b, m', acc')
    ensures m == m' && acc == acc'
  {
    hide Little;
    var tail, tail' := Little(m.nonce, 8) + Little(m.height, 8), Little(m'.nonce, 8) + Little(m'.height, 8);
    var first, first' := b.digest32(m.bytes) + m.bytes + tail, b.digest32(m'.bytes) + m'.bytes + tail';
    var last, last' := b.digest32(first) + b.digest32(acc) + tail, b.digest32(first') + b.digest32(acc') + tail';
    var inputs := Digested(b, m, acc) + Digested(b, m', acc');
    assert last in inputs && last' in inputs && first in inputs && first' in inputs && acc in inputs && acc' in inputs;
    assert last == last';
    SplitThree(b.digest32(first), b.digest32(acc), tail, b.digest32(first'), b.digest32(acc'), tail');
    SameTail(m.nonce, m.height, m'.nonce, m'.height);
    assert first == first';
    SplitThree(b.digest32(m.bytes), m.bytes, tail, b.digest32(m'.bytes), m'.bytes, tail');
  }

  /** Equal light hashes come from the same header and from lanes with the same exclusive or, unless the
      digest collides on what was digested. */
  lemma LightHashBinds(b: Blake2b, h: Header, n: nat, seed: Bytes32, h': Header, n': nat, seed': Bytes32)
    requires LightHash(b, h, n, seed).Some? && LightHash(b, h, n, seed) == LightHash(b, h', n', seed')
    requires n >= 32 && n' >= 32
    requires var acc, acc' := Mix(b, FromSeed(seed), MessageOf(h), n / 32, 32),
                              Mix(b, FromSeed(seed'), MessageOf(h'), n' / 32, 32);
             acc.Some? && acc'.Some? &&
             NoDigestCollisions(b, Digested(b, MessageOf(h), acc.value) + Digested(b, MessageOf(h'), acc'.value))
    ensures h == h'
    ensures Mix(b, FromSeed(seed), MessageOf(h), n / 32, 32) == Mix(b, FromSeed(seed'), MessageOf(h'), n' / 32, 32)
  {
    hide Mix, Finish, HeaderBytes, Digested, NoDigestCollisions;
    var acc := Mix(b, FromSeed(seed), MessageOf(h), n / 32, 32);
    var acc' := Mix(b, FromSeed(seed'), MessageOf(h'), n' / 32, 32);
    FinishBinds(b, MessageOf(h), acc.value, MessageOf(h'), acc'.value);
    HeaderRoundTrip(h);
    HeaderRoundTrip(h');
  }

  // ---------- the seed matters ----------

  // A digest that lets the accumulator through, visits lane r in round r, and puts the seed's first
  // byte into lane 0 only.
  function Transparent(): Blake2b {
    Blake2b(
      (x: Bytes) =>
        if |x| == 32 then x
        else if |x| == 80 then x[32..64]
        else if |x| == 52 then x[48..52] + seq(28, i => 0)
        else seq(32, i => 0),
      (x: Bytes) =>
        if |x| == 40 && x[32] == 0 then seq(32, i => x[0]) + seq(32, i => 0) else seq(64, i => 0))
  }

  function SeedOf(first: u8): Bytes32 { [first] + seq(31, i => 0) }

  lemma RoundIndex(m: Message, round: nat)
    requires |m.bytes| == 96 && round < 32
    ensures LaneIndex(Transparent(), Transparent().digest32(m.bytes), m.nonce, m.height, round, 32) == round
  {
    hide Little, LittleEndian;
    var b := Transparent();
    var front := b.digest32(m.bytes) + Little(m.nonce, 8) + Little(m.height, 8);
    var x := front + Little(round, 4);
    assert |front| == 48 && x[48..52] == Little(round, 4);
    SmallLittle(round);
    assert b.digest32(x)[..4] == Little(round, 4);
  }

  lemma SmallLittle(n: nat)
    requires n < 256
    ensures Little(n, 4) == [n, 0, 0, 0] && Little(n, 8) == [n, 0, 0, 0, 0, 0, 0, 0]
    ensures LittleEndian(Little(n, 4)) == n
  {
    Widths8();
    LittleRoundTrip(n, 4);
    ZeroLittle(3);
    ZeroLittle(7);
  }

  lemma {:induction false} ZeroLittle(width: nat)
    ensures Little(0, width) == seq(width, i => 0)
  {
    if width > 0 { ZeroLittle(width - 1); }
  }

  lemma LaneBytes(first: u8, i: nat)
    requires i < 32
    ensures SeedLane(Transparent(), SeedOf(first), i) == if i == 0 then seq(32, k => first) else seq(32, k => 0)
  {
    SmallLittle(i / 2);
    var x := SeedOf(first) + Little(i / 2, 8);
    assert |x| == 40 && x[32] == i / 2 && x[0] == first;
  }

  lemma {:induction false} MixIsFirst(first: u8, m: Message, rounds: nat)
    requires |m.bytes| == 96 && 1 <= rounds <= 32
    ensures Mix(Transparent(), FromSeed(SeedOf(first)), m, 32, rounds) == Some(seq(32, k => first))
  {
    hide LaneIndex, SeedLane, Xor, Transparent, SeedOf;
    RoundIndex(m, rounds - 1);
    LaneBytes(first, rounds - 1);
    XorZero(first);
    if rounds > 1 {
      MixIsFirst(first, m, rounds - 1);
      assert XorAll(seq(32, k => first), seq(32, k => 0)) == seq(32, k => first);
    } else {
      assert XorAll(seq(32, k => 0), seq(32, k => first)) == seq(32, k => first);
    }
  }

  lemma XorZero(x: u8)
    ensures Xor(x, 0) == x && Xor(0, x) == x
  {
    XorBitsZero(x, 8);
  }

  lemma {:induction false} XorBitsZero(x: nat, n: nat)
    requires x < UInt256.Pow2(n)
    ensures XorBits(x, 0, n) == x && XorBits(0, x, n) == x
  {
    if n > 0 { XorBitsZero(x / 2, n - 1); }
  }

  /** Two seeds under which the same header has two different hashes: the DAG does enter the hash. */
  lemma SeedEntersTheHash(h: Header)
    ensures LightHash(Transparent(), h, 1024, SeedOf(0)) != LightHash(Transparent(), h, 1024, SeedOf(1))
  {
    hide Mix, Finish;
    MixIsFirst(0, MessageOf(h), 32);
    MixIsFirst(1, MessageOf(h), 32);
    TransparentFinish(MessageOf(h), seq(32, k => 0));
    TransparentFinish(MessageOf(h), seq(32, k => 1));
    assert seq(32, k => 0)[0] != seq(32, k => 1)[0];
  }

  lemma TransparentFinish(m: Message, acc: Bytes32)
    requires |m.bytes| == 96
    ensures Finish(Transparent(), m, acc) == acc
  {
    var b := Transparent();
    var tail := Little(m.nonce, 8) + Little(m.height, 8);
    var first := b.digest32(m.bytes) + m.bytes + tail;
    var last := b.digest32(first) + b.digest32(acc) + tail;
    assert |last| == 80 && last[32..64] == acc;
  }
}
