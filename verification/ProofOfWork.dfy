/**
 The memory-hard hash and the mining DAG.  The heavy path reads 32-byte lanes out of the DAG built
 last; the light path derives the same lanes from the epoch seed.  Blake2b is a pair of function
 values, and whether an allocation succeeds is an input.
 */
module ProofOfWork {
  import opened Words
  import opened Transactions
  import opened Targets
  import opened Emission
  import opened DagVotes
  import opened UInt256
  import opened CompactBytes
  import opened ByteOrder
  import opened Framing
  import opened BlockWire

  type Bytes32 = s: seq<u8> | |s| == 32 witness seq(32, i => 0)
  type Bytes64 = s: seq<u8> | |s| == 64 witness seq(64, i => 0)

  datatype Blake2b = Blake2b(digest32: Bytes -> Bytes32, digest64: Bytes -> Bytes64)

  const ROUNDS: nat := 32
  const UINT32_MAX: nat := 0xFFFF_FFFF

  // Where a hash takes its lanes from: a filled buffer, or the epoch seed.
  datatype Lanes = FromBuffer(dag: Bytes) | FromSeed(seed: Bytes32)

  function ReadLane(b: Blake2b, lanes: Lanes, i: nat): Option<Bytes32> {
    match lanes
    case FromBuffer(dag) => if |dag| < 32 * i + 32 then None else Some(dag[32 * i..32 * i + 32])
    case FromSeed(seed) => Some(SeedLane(b, seed, i))
  }

  function SeedLane(b: Blake2b, seed: Bytes32, i: nat): Bytes32 {
    var digest := b.digest64(seed + Little(i / 2, 8));
    if i % 2 == 1 then digest[32..] else digest[..32]
  }

  // The byte a complete DAG holds at position k.
  function DagByte(b: Blake2b, seed: Bytes32, k: nat): u8 {
    b.digest64(seed + Little(k / 64, 8))[k % 64]
  }

  function LaneIndex(b: Blake2b, messageSeed: Bytes32, nonce: u64, height: u64, round: nat, laneCount: nat): (i: nat)
    requires laneCount > 0
    ensures i < laneCount
  {
    LittleEndian(b.digest32(messageSeed + Little(nonce, 8) + Little(height, 8) + Little(round, 4))[..4]) % laneCount
  }

  // Exclusive or of the lowest n bits, bit by bit.
  function XorBits(x: nat, y: nat, n: nat): nat {
    if n == 0 then 0 else (x + y) % 2 + 2 * XorBits(x / 2, y / 2, n - 1)
  }

  lemma {:induction false} XorBound(x: nat, y: nat, n: nat)
    ensures XorBits(x, y, n) < Pow2(n)
  {
    if n > 0 { XorBound(x / 2, y / 2, n - 1); }
  }

  function Xor(x: u8, y: u8): u8 {
    XorBound(x, y, 8);
    assert Pow2(8) == 256;
    XorBits(x, y, 8)
  }

  function XorAll(a: Bytes32, l: Bytes32): Bytes32 { seq(32, i requires 0 <= i < 32 => Xor(a[i], l[i])) }

  datatype Message = Message(bytes: Bytes, nonce: u64, height: u64)

  // The accumulator after some rounds; None once a lane cannot be read.
  function Mix(b: Blake2b, lanes: Lanes, m: Message, laneCount: nat, rounds: nat): Option<Bytes32>
    requires laneCount > 0
  {
    if rounds == 0 then Some(seq(32, i => 0))
    else
      var acc := Mix(b, lanes, m, laneCount, rounds - 1);
      var lane := ReadLane(b, lanes, LaneIndex(b, b.digest32(m.bytes), m.nonce, m.height, rounds - 1, laneCount));
      if acc.None? || lane.None? then None else Some(XorAll(acc.value, lane.value))
  }

  function Finish(b: Blake2b, m: Message, acc: Bytes32): Bytes32 {
    var tail := Little(m.nonce, 8) + Little(m.height, 8);
    var base := b.digest32(b.digest32(m.bytes) + m.bytes + tail);
    b.digest32(base + b.digest32(acc) + tail)
  }

  // The hash over a DAG of this many bytes whose lanes come from the given source.
  function HashOf(b: Blake2b, lanes: Lanes, dagBytes: nat, m: Message): Option<Bytes32> {
    if dagBytes < 32 || dagBytes % 32 != 0 || dagBytes / 32 > UINT32_MAX then None
    else
      var acc := Mix(b, lanes, m, dagBytes / 32, ROUNDS);
      if acc.None? then None else Some(Finish(b, m, acc.value))
  }

  function LightHash(b: Blake2b, h: Header, dagBytes: nat, seed: Bytes32): Option<Bytes32> {
    HashOf(b, FromSeed(seed), dagBytes, MessageOf(h))
  }

  function MessageOf(h: Header): Message { Message(HeaderBytes(h), h.nonce, h.blockNumber) }

  // ---------- heavy equals light ----------

  // A buffer built from this seed.
  predicate Built(b: Blake2b, dag: Bytes, seed: Bytes32) {
    forall k :: 0 <= k < |dag| ==> dag[k] == DagByte(b, seed, k)
  }

  // Lane i of a DAG is the half of digest i/2 that the light path computes.
  lemma LaneOfDag(b: Blake2b, dag: Bytes, seed: Bytes32, i: nat)
    requires Built(b, dag, seed) && 32 * i + 32 <= |dag|
    ensures dag[32 * i..32 * i + 32] == SeedLane(b, seed, i)
  {
    hide Little;
    forall j | 0 <= j < 32 ensures dag[32 * i + j] == SeedLane(b, seed, i)[j] {
      assert (32 * i + j) / 64 == i / 2 && (32 * i + j) % 64 == 32 * (i % 2) + j;
    }
  }

  lemma {:induction false} MixAgrees(b: Blake2b, dag: Bytes, seed: Bytes32, m: Message, rounds: nat)
    requires Built(b, dag, seed) && |dag| >= 32
    ensures Mix(b, FromBuffer(dag), m, |dag| / 32, rounds) == Mix(b, FromSeed(seed), m, |dag| / 32, rounds)
    ensures Mix(b, FromSeed(seed), m, |dag| / 32, rounds).Some?
  {
    hide LaneIndex, XorAll, Built, SeedLane;
    if rounds > 0 {
      MixAgrees(b, dag, seed, m, rounds - 1);
      var i := LaneIndex(b, b.digest32(m.bytes), m.nonce, m.height, rounds - 1, |dag| / 32);
      LaneOfDag(b, dag, seed, i);
    }
  }

  /** A DAG built from a seed gives the light hash for that seed and size, for every message. */
  lemma HeavyIsLight(b: Blake2b, dag: Bytes, seed: Bytes32, m: Message)
    requires Built(b, dag, seed)
    ensures HashOf(b, FromBuffer(dag), |dag|, m) == HashOf(b, FromSeed(seed), |dag|, m)
  {
    hide Mix, Built, Finish;
    if |dag| >= 32 { MixAgrees(b, dag, seed, m, ROUNDS); }
  }

  /** The light path answers exactly for whole numbers of lanes that fit 32 bits. */
  lemma LightAnswersIff(b: Blake2b, seed: Bytes32, dagBytes: nat, m: Message)
    ensures HashOf(b, FromSeed(seed), dagBytes, m).Some? <==>
              dagBytes >= 32 && dagBytes % 32 == 0 && dagBytes / 32 <= UINT32_MAX
  {
    hide Mix, Finish;
    if dagBytes >= 32 { SeedMixAnswers(b, seed, m, dagBytes / 32, ROUNDS); }
  }

  lemma {:induction false} SeedMixAnswers(b: Blake2b, seed: Bytes32, m: Message, laneCount: nat, rounds: nat)
    requires laneCount > 0
    ensures Mix(b, FromSeed(seed), m, laneCount, rounds).Some?
  {
    hide LaneIndex, XorAll, SeedLane;
    if rounds > 0 { SeedMixAnswers(b, seed, m, laneCount, rounds - 1); }
  }

  // ---------- the verdict ----------

  predicate Verdict(b: Blake2b, h: Header, dagBytes: nat, seed: Bytes32) {
    var hash, target := LightHash(b, h, dagBytes, seed), TargetValue(h.difficultyTarget);
    target.Some? && hash.Some? && BigEndian(hash.value) <= target.value
  }

  // The proof-of-work hash as a number, as block acceptance uses it.
  function PowNumber(b: Blake2b, h: Header, dagBytes: nat, seed: Hash): u256 {
    var hash := LightHash(b, h, dagBytes, Big(seed, 32));
    if hash.Some? then U256(hash.value) else 0
  }

  /** With this hash, the acceptance rule of the chain is the verdict: every size the vote recurrence
      can produce has a light hash, so no header is ever judged by a missing one. */
  lemma AcceptanceIsTheVerdict(c: Crypto, b: Blake2b, headers: seq<Header>, h: Header)
    requires h.blockNumber == |headers|
    requires forall header, size, seed :: c.powHash(header, size, seed) == PowNumber(b, header, size, seed)
    ensures PowOk(c, headers, h) <==>
              Verdict(b, h, DagSize(headers, h.blockNumber / EPOCH_LENGTH), Big(DagSeed(c, headers, h.blockNumber), 32))
  {
    hide HashOf, Big, TargetValue, DagSize, DagSeed, InBand;
    var k := h.blockNumber / EPOCH_LENGTH;
    var size, seed := DagSize(headers, k), DagSeed(c, headers, h.blockNumber);
    DagSizeInBand(headers, k);
    BandHasLanes(size);
    LightAnswersIff(b, Big(seed, 32), size, MessageOf(h));
    assert c.powHash(h, size, seed) == PowNumber(b, h, size, seed);
  }

  lemma BandHasLanes(size: nat)
    requires InBand(size)
    ensures size >= 32 && size % 32 == 0 && size / 32 <= UINT32_MAX
  {
  }

  // ---------- the process-global context ----------

  // Which DAG is ready, and what can happen to it: a build asked for, with or without the memory it
  // needs, and a shutdown.
  datatype Dag = Dag(epoch: u64, dagBytes: nat, seed: Bytes32)
  datatype DagOp = Ensure(wanted: Dag, memory: bool) | Stop

  function Ready(ready: Option<Dag>, op: DagOp): Option<Dag> {
    match op
    case Stop => None
    case Ensure(wanted, memory) =>
      if wanted.dagBytes < 32 || wanted.dagBytes % 32 != 0 || ready == Some(wanted) then ready
      else if memory then Some(wanted) else None
  }

  function ReadyAfter(ready: Option<Dag>, ops: seq<DagOp>): Option<Dag> {
    if ops == [] then ready else Ready(ReadyAfter(ready, ops[..|ops| - 1]), ops[|ops| - 1])
  }

  class PowContext {
    const blake: Blake2b
    var created: bool
    var buf: array?<u8>
    var cap: nat
    var len: nat
    var dagReady: bool
    var dagEpoch: u64
    var dagSeed: Bytes32

    // A ready context holds the complete DAG of its recorded seed.
    ghost predicate Valid()
      reads this, if buf != null then {buf} else {}
    {
      && len <= cap
      && (buf == null ==> cap == 0)
      && (buf != null ==> cap <= buf.Length)
      && (!created ==> buf == null)
      && (dagReady ==> created && buf != null && len == cap && Built(blake, buf[..len], dagSeed))
    }

    // The DAG that is ready now.
    function Current(): Option<Dag>
      reads this
    {
      if dagReady && created then Some(Dag(dagEpoch, len, dagSeed)) else None
    }

    // The DAG matches what the caller asks for.
    predicate Usable(epoch: u64, dagBytes: nat, seed: Bytes32)
      reads this
    {
      dagReady && created && dagEpoch == epoch && len == dagBytes && dagSeed == seed
    }

    constructor (blake: Blake2b)
      ensures Valid() && !dagReady && this.blake == blake
    {
      this.blake := blake;
      created, buf, cap, len := false, null, 0, 0;
      dagReady, dagEpoch, dagSeed := false, 0, seq(32, i => 0);
    }

    // Block_ShutdownPowContext.
    method Shutdown()
      requires Valid()
      modifies this
      ensures Valid() && !dagReady && buf == null && Current() == None
    {
      created, buf, cap, len := false, null, 0, 0;
      dagReady := false;
    }

    // Autolykos2_DagClear.
    method DagClear()
      requires Valid() && !dagReady
      modifies this`len, buf
      ensures Valid() && (buf != null ==> len == 0)
    {
      if buf != null {
        var buffer: array<u8> := buf;
        forall k | 0 <= k < cap { buffer[k] := 0; }
        len := 0;
      }
    }

    // Autolykos2_DagAllocate; on failure nothing changes.
    method DagAllocate(dagBytes: nat, memory: bool) returns (ok: bool)
      requires Valid() && created && !dagReady
      modifies this`buf, this`cap, this`len
      ensures Valid() && ok == memory
      ensures if ok then buf != null && fresh(buf) && cap == dagBytes
              else buf == old(buf) && cap == old(cap) && len == old(len)
    {
      if !memory {
        return false;
      }
      buf := new u8[if dagBytes == 0 then 1 else dagBytes](_ => 0);
      cap := dagBytes;
      len := Min(len, dagBytes);
      ok := true;
    }

    // Autolykos2_DagGenerate: 64 bytes for each counter value.
    method DagGenerate(seed: Bytes32) returns (ok: bool)
      requires Valid() && !dagReady
      modifies this`len, buf
      ensures Valid() && (ok <==> buf != null && cap > 0)
      ensures ok ==> len == cap && Built(blake, buf[..len], seed)
      ensures !ok ==> len == old(len)
    {
      hide Little, DagByte;
      if buf == null || cap == 0 {
        return false;
      }
      var buffer: array<u8> := buf;
      var offset, counter := 0, 0;
      while offset < cap
        invariant 0 <= offset <= cap && (offset == 64 * counter || offset == cap) && 0 <= counter
        invariant forall k :: 0 <= k < offset ==> buffer[k] == DagByte(blake, seed, k)
      {
        var digest := blake.digest64(seed + Little(counter, 8));
        var chunk := Min(cap - offset, 64);
        ghost var done := buffer[..offset];
        forall k | 0 <= k < chunk { buffer[offset + k] := digest[k]; }
        ChunkBytes(blake, seed, counter);
        assert forall k :: 0 <= k < offset ==> buffer[k] == done[k];
        forall k | offset <= k < offset + chunk ensures buffer[k] == DagByte(blake, seed, k) {
          var j := k - offset;
          assert buffer[offset + j] == digest[j] == DagByte(blake, seed, 64 * counter + j);
        }
        offset, counter := offset + chunk, counter + 1;
      }
      len := cap;
      ok := true;
    }

    /** Block_EnsureAutolykos2Dag: a true answer leaves a usable DAG; a build that fails leaves none,
        so nothing can be hashed against a stale or partial buffer. */
    method EnsureDag(epoch: u64, dagBytes: nat, seed: Bytes32, memory: bool) returns (ok: bool)
      requires Valid()
      modifies this, buf
      ensures Valid()
      ensures ok ==> Usable(epoch, dagBytes, seed)
      ensures ok <==> dagBytes >= 32 && dagBytes % 32 == 0 && (old(Usable(epoch, dagBytes, seed)) || memory)
      ensures !ok && dagBytes >= 32 && dagBytes % 32 == 0 ==> !dagReady
      ensures old(Usable(epoch, dagBytes, seed)) ==> buf == old(buf) && dagReady
      ensures Current() == Ready(old(Current()), Ensure(Dag(epoch, dagBytes, seed), memory))
      ensures buf == null || buf == old(buf) || fresh(buf)
    {
      hide Built;
      if dagBytes < 32 || dagBytes % 32 != 0 {
        return false;
      }
      if dagReady && created && dagEpoch == epoch && len == dagBytes && dagSeed == seed {
        return true;
      }
      created := true;
      dagReady := false;
      DagClear();
      ok := DagAllocate(dagBytes, memory);
      if ok {
        ok := DagGenerate(seed);
      }
      if ok {
        dagEpoch, dagSeed, dagReady := epoch, seed, true;
      }
    }

    // ReadDagLaneFromContext, or ReadDagLaneFromSeed when a seed is given.
    method TakeLane(fromSeed: Option<Bytes32>, i: nat) returns (lane: Option<Bytes32>)
      requires Valid() && (fromSeed.None? ==> buf != null)
      ensures lane == ReadLane(blake, if fromSeed.Some? then FromSeed(fromSeed.value) else FromBuffer(buf[..len]), i)
    {
      if fromSeed.Some? {
        var digest := blake.digest64(fromSeed.value + Little(i / 2, 8));
        lane := Some(if i % 2 == 1 then digest[32..] else digest[..32]);
      } else if len < 32 * i + 32 {
        lane := None;
      } else {
        assert buf[..len][32 * i..32 * i + 32] == buf[32 * i..32 * i + 32];
        lane := Some(buf[32 * i..32 * i + 32]);
      }
    }

    /** Autolykos2_HashCore: 32 rounds into an accumulator that each lane is XORed into. */
    method HashCore(m: Message, laneCount: nat, fromSeed: Option<Bytes32>) returns (hash: Option<Bytes32>)
      requires Valid() && laneCount > 0 && (fromSeed.None? ==> buf != null)
      ensures var lanes := if fromSeed.Some? then FromSeed(fromSeed.value) else FromBuffer(buf[..len]);
              var mixed := Mix(blake, lanes, m, laneCount, ROUNDS);
              hash == if mixed.None? then None else Some(Finish(blake, m, mixed.value))
    {
      hide LaneIndex, ReadLane, Xor, Finish, Built;
      ghost var lanes := if fromSeed.Some? then FromSeed(fromSeed.value) else FromBuffer(buf[..len]);
      var messageSeed := blake.digest32(m.bytes);
      var acc := new u8[32](_ => 0);
      assert acc[..] == seq(32, i => 0);
      for round := 0 to ROUNDS
        invariant Mix(blake, lanes, m, laneCount, round) == Some(acc[..])
      {
        var i := LaneIndex(blake, messageSeed, m.nonce, m.height, round, laneCount);
        var lane := TakeLane(fromSeed, i);
        if lane.None? {
          MixStaysNone(blake, lanes, m, laneCount, round + 1, ROUNDS);
          return None;
        }
        XorInto(acc, lane.value);
      }
      hash := Some(Finish(blake, m, acc[..]));
    }

    // Autolykos2_Hash.
    method HashWithDag(m: Message) returns (hash: Option<Bytes32>)
      requires Valid()
      ensures hash == if buf == null then None else HashOf(blake, FromBuffer(buf[..len]), len, m)
    {
      hide Mix, Finish, Built;
      if buf == null || len < 32 || len % 32 != 0 || len / 32 > UINT32_MAX {
        return None;
      }
      hash := HashCore(m, len / 32, None);
    }

    /** Block_PowHashHeavy: whenever it answers, it is the light hash for the seed and size asked for;
        it answers exactly when the DAG is usable and the light path would answer. */
    method PowHashHeavy(h: Header, epoch: u64, dagBytes: nat, seed: Bytes32) returns (hash: Option<Bytes32>)
      requires Valid()
      ensures hash == if Usable(epoch, dagBytes, seed) then LightHash(blake, h, dagBytes, seed) else None
    {
      hide HashOf, Built, MessageOf;
      if !(dagReady && created && dagEpoch == epoch && len == dagBytes && dagSeed == seed) {
        return None;
      }
      HeavyIsLight(blake, buf[..len], seed, MessageOf(h));
      hash := HashWithDag(MessageOf(h));
    }

    // Block_PowHashLight.
    method PowHashLight(h: Header, dagBytes: nat, seed: Bytes32) returns (hash: Option<Bytes32>)
      requires Valid()
      ensures hash == LightHash(blake, h, dagBytes, seed)
    {
      hide Mix, Finish, Built, MessageOf;
      if dagBytes < 32 || dagBytes % 32 != 0 || dagBytes / 32 > UINT32_MAX {
        return None;
      }
      hash := HashCore(MessageOf(h), dagBytes / 32, Some(seed));
    }

    /** Block_HasValidProofOfWorkWithParams: the verdict does not depend on the DAG's state. */
    method HasValidProofOfWork(h: Header, epoch: u64, dagBytes: nat, seed: Bytes32) returns (ok: bool)
      requires Valid()
      ensures ok <==> Verdict(blake, h, dagBytes, seed)
    {
      hide LightHash, Built, BigEndian, TargetValue;
      var target := new u8[32];
      ok := DecodeCompactTarget(h.difficultyTarget, target);
      if !ok {
        return;
      }
      var hash := PowHashHeavy(h, epoch, dagBytes, seed);
      if hash.None? {
        hash := PowHashLight(h, dagBytes, seed);
      }
      if hash.None? {
        return false;
      }
      var order := CompareHashToTarget(hash.value, target[..]);
      ok := order <= 0;
    }

    /** Over every sequence of builds, failed builds, shutdowns and seed changes: the heavy path answers
        exactly for the DAG the sequence left ready, with the light hash, and the verdict is the same as
        without any DAG. */
    method RunThenJudge(ops: seq<DagOp>, h: Header, wanted: Dag) returns (heavy: Option<Bytes32>, ok: bool)
      requires Valid()
      modifies this, buf
      ensures Valid() && Current() == ReadyAfter(old(Current()), ops)
      ensures heavy == if Current() == Some(wanted) then LightHash(blake, h, wanted.dagBytes, wanted.seed) else None
      ensures ok <==> Verdict(blake, h, wanted.dagBytes, wanted.seed)
    {
      hide Built, Ready, LightHash, Verdict;
      ghost var start := Current();
      for i := 0 to |ops|
        invariant Valid() && (buf == null || buf == old(buf) || fresh(buf))
        invariant Current() == ReadyAfter(start, ops[..i])
      {
        ReadyNext(start, ops, i);
        match ops[i] {
          case Stop =>
            Stopped(Current());
            Shutdown();
          case Ensure(dag, memory) =>
            var _ := EnsureDag(dag.epoch, dag.dagBytes, dag.seed, memory);
        }
      }
      assert ops[..|ops|] == ops;
      heavy := PowHashHeavy(h, wanted.epoch, wanted.dagBytes, wanted.seed);
      ok := HasValidProofOfWork(h, wanted.epoch, wanted.dagBytes, wanted.seed);
    }
  }

  lemma Stopped(ready: Option<Dag>)
    ensures Ready(ready, Stop) == None
  {
  }

  lemma ReadyNext(ready: Option<Dag>, ops: seq<DagOp>, i: nat)
    requires i < |ops|
    ensures ReadyAfter(ready, ops[..i + 1]) == Ready(ReadyAfter(ready, ops[..i]), ops[i])
  {
    hide Ready;
    assert ops[..i + 1][..i] == ops[..i];
  }

  lemma {:induction false} MixStaysNone(b: Blake2b, lanes: Lanes, m: Message, laneCount: nat, k: nat, rounds: nat)
    requires laneCount > 0 && k <= rounds && Mix(b, lanes, m, laneCount, k).None?
    ensures Mix(b, lanes, m, laneCount, rounds).None?
  {
    if k < rounds { MixStaysNone(b, lanes, m, laneCount, k, rounds - 1); }
  }

  lemma ChunkBytes(b: Blake2b, seed: Bytes32, counter: nat)
    ensures forall j :: 0 <= j < 64 ==> DagByte(b, seed, 64 * counter + j) == b.digest64(seed + Little(counter, 8))[j]
  {
    hide Little;
    forall j | 0 <= j < 64 ensures DagByte(b, seed, 64 * counter + j) == b.digest64(seed + Little(counter, 8))[j] {
      assert (64 * counter + j) / 64 == counter && (64 * counter + j) % 64 == j;
    }
  }

  // Lines 225-227 of autolykos2.c.
  method XorInto(acc: array<u8>, lane: Bytes32)
    requires acc.Length == 32
    modifies acc
    ensures acc[..] == XorAll(old(acc[..]), lane)
  {
    hide Xor;
    for i := 0 to 32
      invariant forall k :: 0 <= k < i ==> acc[k] == Xor(old(acc[k]), lane[k])
      invariant forall k :: i <= k < 32 ==> acc[k] == old(acc[k])
    {
      acc[i] := Xor(acc[i], lane[i]);
    }
  }
}
