/**
 Blocks as packet payloads: height, 96-byte header, transaction count, then 232 bytes for each
 signed transaction, native integers being little-endian.
 */
module BlockWire {
  import opened Words
  import opened Targets
  import opened Transactions
  import opened ByteOrder
  import opened Framing

  const HEADER_BYTES: nat := 96
  const TX_BYTES: nat := 232
  const PREFIX_BYTES: nat := 112     // height, header, transaction count

  // ---------- fixed-size records ----------

  function U32(s: Bytes): u32
    requires |s| == 4
  {
    Widths8();
    ReadLittle(s, 4)
  }

  function U64(s: Bytes): u64
    requires |s| == 8
  {
    Widths8();
    ReadLittle(s, 8)
  }

  function U256(s: Bytes): u256
    requires |s| == 32
  {
    Widths();
    ReadBig(s, 32)
  }

  function KeyAt(s: Bytes): PublicKey
    requires |s| == 33
  {
    Widths();
    ReadBig(s, 33)
  }

  function ReservedAt(s: Bytes): Reserved
    requires |s| == 6
  {
    Widths8();
    ReadBig(s, 6)
  }

  function SignatureAt(s: Bytes): Signature
    requires |s| == 64
  {
    Widths();
    ReadBig(s, 64)
  }

  function HeaderBytes(h: Header): (s: Bytes)
    ensures |s| == HEADER_BYTES
  {
    Little(h.blockNumber, 8) + Little(h.timestamp, 8) + Little(h.nonce, 8)
    + Big(h.prevHash, 32) + Big(h.merkleRoot, 32) + Little(h.difficultyTarget, 4)
    + [h.version, h.vote, h.spare1, h.spare2]
  }

  function HeaderOf(s: Bytes): Header
    requires |s| == HEADER_BYTES
  {
    Header(U64(s[0..8]), U64(s[8..16]), U64(s[16..24]), U256(s[24..56]), U256(s[56..88]), U32(s[88..92]),
           s[92], s[93], s[94], s[95])
  }

  // The four amounts and times, the three addresses, then key, version and padding.
  function AmountBytes(tx: Transaction): (s: Bytes)
    ensures |s| == 32
  {
    Little(tx.timestamp, 8) + Little(tx.fee, 8) + Little(tx.amount1, 8) + Little(tx.amount2, 8)
  }

  function PartyBytes(tx: Transaction): (s: Bytes)
    ensures |s| == 96
  {
    Big(tx.sender, 32) + Big(tx.recipient1, 32) + Big(tx.recipient2, 32)
  }

  function KeyBytes(tx: Transaction): (s: Bytes)
    ensures |s| == 40
  {
    Big(tx.publicKey, 33) + [tx.version] + Big(tx.reserved, 6)
  }

  function TxBytes(t: SignedTx): (s: Bytes)
    ensures |s| == TX_BYTES
  {
    AmountBytes(t.tx) + PartyBytes(t.tx) + KeyBytes(t.tx) + Big(t.signature, 64)
  }

  function TxOf(s: Bytes): SignedTx
    requires |s| == TX_BYTES
  {
    SignedTx(Transaction(U64(s[0..8]), U64(s[8..16]), U64(s[16..24]), U64(s[24..32]),
                         U256(s[32..64]), U256(s[64..96]), U256(s[96..128]),
                         KeyAt(s[128..161]), s[161], ReservedAt(s[162..168])),
             SignatureAt(s[168..232]))
  }

  // Both directions for one field.
  lemma LittleField(n: nat, width: nat)
    requires n < Pow256(width)
    ensures ReadLittle(Little(n, width), width) == n
  {
    LittleRoundTrip(n, width);
  }

  lemma BigField(n: nat, width: nat)
    requires n < Pow256(width)
    ensures ReadBig(Big(n, width), width) == n
  {
    BigRoundTrip(n, width);
  }

  lemma LittleBack(s: Bytes, width: nat)
    requires |s| == width
    ensures Little(ReadLittle(s, width), width) == s
  {
    LittleUnique(s);
  }

  lemma BigBack(s: Bytes, width: nat)
    requires |s| == width
    ensures Big(ReadBig(s, width), width) == s
  {
    BigUnique(s);
  }

  lemma HeaderRoundTrip(h: Header)
    ensures HeaderOf(HeaderBytes(h)) == h
  {
    hide Little, Big, ReadLittle, ReadBig, Pow256;
    Widths();
    var s := HeaderBytes(h);
    assert s[0..8] == Little(h.blockNumber, 8);
    assert s[8..16] == Little(h.timestamp, 8);
    assert s[16..24] == Little(h.nonce, 8);
    assert s[24..56] == Big(h.prevHash, 32);
    assert s[56..88] == Big(h.merkleRoot, 32);
    assert s[88..92] == Little(h.difficultyTarget, 4);
    LittleField(h.blockNumber, 8);
    LittleField(h.timestamp, 8);
    LittleField(h.nonce, 8);
    BigField(h.prevHash, 32);
    BigField(h.merkleRoot, 32);
    LittleField(h.difficultyTarget, 4);
  }

  lemma HeaderExact(s: Bytes)
    requires |s| == HEADER_BYTES
    ensures HeaderBytes(HeaderOf(s)) == s
  {
    hide Little, Big, ReadLittle, ReadBig, Pow256;
    LittleBack(s[0..8], 8);
    LittleBack(s[8..16], 8);
    LittleBack(s[16..24], 8);
    BigBack(s[24..56], 32);
    BigBack(s[56..88], 32);
    LittleBack(s[88..92], 4);
  }

  // Where the parts of a concatenation are.
  lemma Parts3(a: Bytes, b: Bytes, d: Bytes)
    ensures var s := a + b + d;
            s[0..|a|] == a && s[|a|..|a| + |b|] == b && s[|a| + |b|..|a| + |b| + |d|] == d
  {
    var s := a + b + d;
    forall i | 0 <= i < |b| ensures s[|a| + i] == b[i] { assert (a + b)[|a| + i] == b[i]; }
    forall i | 0 <= i < |d| ensures s[|a| + |b| + i] == d[i] {}
    assert s[|a| + |b|..|a| + |b| + |d|] == d;
  }

  lemma Parts4(a: Bytes, b: Bytes, d: Bytes, e: Bytes)
    ensures var s := a + b + d + e;
            && s[0..|a|] == a && s[|a|..|a| + |b|] == b
            && s[|a| + |b|..|a| + |b| + |d|] == d && s[|a| + |b| + |d|..|a| + |b| + |d| + |e|] == e
  {
    Parts3(a, b, d);
    var t, s := a + b + d, a + b + d + e;
    assert s[0..|a|] == t[0..|a|];
    assert s[|a|..|a| + |b|] == t[|a|..|a| + |b|];
    assert s[|a| + |b|..|a| + |b| + |d|] == t[|a| + |b|..|a| + |b| + |d|];
    forall i | 0 <= i < |e| ensures s[|t| + i] == e[i] {}
    assert s[|t|..|t| + |e|] == e;
  }

  lemma AmountFields(tx: Transaction)
    ensures var s := AmountBytes(tx);
            && U64(s[0..8]) == tx.timestamp && U64(s[8..16]) == tx.fee
            && U64(s[16..24]) == tx.amount1 && U64(s[24..32]) == tx.amount2
  {
    hide Little, ReadLittle, Pow256;
    Widths8();
    Parts4(Little(tx.timestamp, 8), Little(tx.fee, 8), Little(tx.amount1, 8), Little(tx.amount2, 8));
    LittleField(tx.timestamp, 8);
    LittleField(tx.fee, 8);
    LittleField(tx.amount1, 8);
    LittleField(tx.amount2, 8);
  }

  lemma PartyFields(tx: Transaction)
    ensures var s := PartyBytes(tx);
            U256(s[0..32]) == tx.sender && U256(s[32..64]) == tx.recipient1 && U256(s[64..96]) == tx.recipient2
  {
    hide Big, ReadBig, Pow256;
    Widths();
    Parts3(Big(tx.sender, 32), Big(tx.recipient1, 32), Big(tx.recipient2, 32));
    BigField(tx.sender, 32);
    BigField(tx.recipient1, 32);
    BigField(tx.recipient2, 32);
  }

  lemma KeyFields(tx: Transaction)
    ensures var s := KeyBytes(tx);
            KeyAt(s[0..33]) == tx.publicKey && s[33] == tx.version && ReservedAt(s[34..40]) == tx.reserved
  {
    hide Big, ReadBig, Pow256;
    Widths();
    Parts3(Big(tx.publicKey, 33), [tx.version], Big(tx.reserved, 6));
    BigField(tx.publicKey, 33);
    BigField(tx.reserved, 6);
  }

  lemma SignatureField(x: Signature)
    ensures SignatureAt(Big(x, 64)) == x
  {
    hide Big, ReadBig, Pow256;
    Widths();
    BigField(x, 64);
  }

  // A slice of a slice.
  lemma SubSlice(s: Bytes, from: nat, lo: nat, hi: nat, end: nat)
    requires lo <= hi <= end && from + end <= |s|
    ensures s[from..from + end][lo..hi] == s[from + lo..from + hi]
  {
    var a, b := s[from..from + end][lo..hi], s[from + lo..from + hi];
    assert |a| == |b|;
    forall i | 0 <= i < |a| ensures a[i] == b[i] {
      assert a[i] == s[from..from + end][lo + i] == s[from + (lo + i)];
    }
  }

  lemma TxRoundTrip(t: SignedTx)
    ensures TxOf(TxBytes(t)) == t
  {
    hide AmountBytes, PartyBytes, KeyBytes, Big, U64, U256, KeyAt, ReservedAt, SignatureAt;
    var s := TxBytes(t);
    Parts4(AmountBytes(t.tx), PartyBytes(t.tx), KeyBytes(t.tx), Big(t.signature, 64));
    AmountFields(t.tx);
    PartyFields(t.tx);
    KeyFields(t.tx);
    SignatureField(t.signature);
    AmountSlices(s);
    PartySlices(s);
    assert s[128..168][33] == s[161];
  }

  lemma AmountSlices(s: Bytes)
    requires |s| == TX_BYTES
    ensures s[0..32][0..8] == s[0..8] && s[0..32][8..16] == s[8..16]
    ensures s[0..32][16..24] == s[16..24] && s[0..32][24..32] == s[24..32]
  {
  }

  lemma PartySlices(s: Bytes)
    requires |s| == TX_BYTES
    ensures s[32..128][0..32] == s[32..64] && s[32..128][32..64] == s[64..96] && s[32..128][64..96] == s[96..128]
    ensures s[128..168][0..33] == s[128..161] && s[128..168][34..40] == s[162..168]
  {
    SubSlice(s, 32, 0, 32, 96);
    SubSlice(s, 32, 32, 64, 96);
    SubSlice(s, 32, 64, 96, 96);
    SubSlice(s, 128, 0, 33, 40);
    SubSlice(s, 128, 34, 40, 40);
  }

  lemma TxExact(s: Bytes)
    requires |s| == TX_BYTES
    ensures TxBytes(TxOf(s)) == s
  {
    hide AmountBytes, PartyBytes, KeyBytes, Big, TxOf, SignatureAt;
    var t := TxOf(s);
    AmountsBack(s);
    PartiesBack(s);
    KeyBack(s);
    assert Big(t.signature, 64) == s[168..232] by { SignatureBack(s); }
    assert s == s[0..32] + s[32..128] + s[128..168] + s[168..232];
  }

  lemma AmountsBack(s: Bytes)
    requires |s| == TX_BYTES
    ensures AmountBytes(TxOf(s).tx) == s[0..32]
  {
    hide Little, ReadLittle, ReadBig, Pow256, U256, KeyAt, ReservedAt, SignatureAt;
    LittleBack(s[0..8], 8);
    LittleBack(s[8..16], 8);
    LittleBack(s[16..24], 8);
    LittleBack(s[24..32], 8);
  }

  lemma PartiesBack(s: Bytes)
    requires |s| == TX_BYTES
    ensures PartyBytes(TxOf(s).tx) == s[32..128]
  {
    hide Big, ReadLittle, ReadBig, Pow256, U64, KeyAt, ReservedAt, SignatureAt;
    BigBack(s[32..64], 32);
    BigBack(s[64..96], 32);
    BigBack(s[96..128], 32);
  }

  lemma KeyBack(s: Bytes)
    requires |s| == TX_BYTES
    ensures KeyBytes(TxOf(s).tx) == s[128..168]
  {
    hide Big, ReadLittle, ReadBig, Pow256, U64, U256, SignatureAt;
    BigBack(s[128..161], 33);
    BigBack(s[162..168], 6);
  }

  lemma SignatureBack(s: Bytes)
    requires |s| == TX_BYTES
    ensures Big(TxOf(s).signature, 64) == s[168..232]
  {
    hide Big, ReadLittle, ReadBig, Pow256, U64, U256, KeyAt, ReservedAt;
    BigBack(s[168..232], 64);
  }

  // ---------- payloads ----------

  function TxsBytes(txs: seq<SignedTx>): (s: Bytes)
    ensures |s| == |txs| * TX_BYTES
  {
    if txs == [] then [] else TxsBytes(txs[..|txs| - 1]) + TxBytes(txs[|txs| - 1])
  }

  // The payload broadcast for a block at a height.
  function Payload(height: u64, b: Block): (s: Bytes)
    ensures |s| == PREFIX_BYTES + |b.txs| * TX_BYTES
  {
    Little(height, 8) + HeaderBytes(b.header) + Little(|b.txs|, 8) + TxsBytes(b.txs)
  }

  // The block a receiver stores: the announced height replaces the header's own number.
  function Renumbered(b: Block, height: u64): Block { b.(header := b.header.(blockNumber := height)) }

  // Lines 1670-1688 of net_node.c.
  method Serialise(height: u64, b: Block) returns (payload: Bytes)
    ensures payload == Payload(height, b)
  {
    hide Little, HeaderBytes, TxBytes;
    var prefix := Little(height, 8) + HeaderBytes(b.header) + Little(|b.txs|, 8);
    payload := prefix;
    for i := 0 to |b.txs|
      invariant payload == prefix + TxsBytes(b.txs[..i])
    {
      assert b.txs[..i + 1][..i] == b.txs[..i];
      payload := payload + TxBytes(b.txs[i]);
    }
    assert b.txs[..|b.txs|] == b.txs;
  }

  // The first count records after the prefix.
  function TxsAt(payload: Bytes, count: nat): (txs: seq<SignedTx>)
    requires |payload| >= PREFIX_BYTES + count * TX_BYTES
    ensures |txs| == count
  {
    if count == 0 then []
    else
      var at := PREFIX_BYTES + (count - 1) * TX_BYTES;
      TxsAt(payload, count - 1) + [TxOf(payload[at..at + TX_BYTES])]
  }

  function CountOf(payload: Bytes): u64
    requires |payload| >= PREFIX_BYTES
  {
    U64(payload[104..112])
  }

  predicate Readable(payload: Bytes) {
    |payload| >= PREFIX_BYTES && CountOf(payload) <= (|payload| - PREFIX_BYTES) / TX_BYTES
  }

  function HeightOf(payload: Bytes): u64
    requires |payload| >= PREFIX_BYTES
  {
    U64(payload[0..8])
  }

  function BlockAt(payload: Bytes): (b: Block)
    requires Readable(payload)
  {
    Renumbered(Block(HeaderOf(payload[8..104]), TxsAt(payload, CountOf(payload))), HeightOf(payload))
  }

  function Decoded(payload: Bytes): Option<Block> {
    if Readable(payload) then Some(BlockAt(payload)) else None
  }

  // Node_ParseAndAcceptBlock up to its chain-dependent checks (lines 495-545).
  method ParseBlock(payload: Bytes) returns (result: Option<Block>)
    ensures result == Decoded(payload)
  {
    hide HeaderOf, TxOf, U64;
    if |payload| < 8 + HEADER_BYTES + 8 {
      return None;
    }
    var offset := 0;
    var height := U64(payload[offset..offset + 8]);
    offset := offset + 8;
    var header := HeaderOf(payload[offset..offset + HEADER_BYTES]).(blockNumber := height);
    offset := offset + HEADER_BYTES;
    var txCount := U64(payload[offset..offset + 8]);
    offset := offset + 8;
    if txCount > (|payload| - offset) / TX_BYTES {
      return None;
    }
    var txs := [];
    for i := 0 to txCount
      invariant offset == PREFIX_BYTES + i * TX_BYTES
      invariant txs == TxsAt(payload, i)
    {
      txs := txs + [TxOf(payload[offset..offset + TX_BYTES])];
      offset := offset + TX_BYTES;
    }
    result := Some(Block(header, txs));
  }

  lemma {:induction false} TxsRoundTrip(prefix: Bytes, txs: seq<SignedTx>, tail: Bytes)
    requires |prefix| == PREFIX_BYTES
    ensures TxsAt(prefix + TxsBytes(txs) + tail, |txs|) == txs
  {
    hide TxOf, TxBytes;
    if txs != [] {
      var init, last := txs[..|txs| - 1], txs[|txs| - 1];
      var s := prefix + TxsBytes(txs) + tail;
      assert s == prefix + TxsBytes(init) + (TxBytes(last) + tail);
      TxsRoundTrip(prefix, init, TxBytes(last) + tail);
      var at := PREFIX_BYTES + |init| * TX_BYTES;
      assert s[at..at + TX_BYTES] == TxBytes(last);
      TxRoundTrip(last);
    }
  }

  lemma {:induction false} TxsExact(payload: Bytes, count: nat)
    requires |payload| >= PREFIX_BYTES + count * TX_BYTES
    ensures TxsBytes(TxsAt(payload, count)) == payload[PREFIX_BYTES..PREFIX_BYTES + count * TX_BYTES]
  {
    hide TxOf, TxBytes;
    if count > 0 {
      TxsExact(payload, count - 1);
      var at := PREFIX_BYTES + (count - 1) * TX_BYTES;
      TxExact(payload[at..at + TX_BYTES]);
      var txs := TxsAt(payload, count);
      assert txs[..count - 1] == TxsAt(payload, count - 1);
    }
  }

  /** Parsing undoes serialising, whatever follows the payload, up to the announced height. */
  lemma PayloadRoundTrip(height: u64, b: Block, tail: Bytes)
    requires |b.txs| < TWO_64
    ensures Decoded(Payload(height, b) + tail) == Some(Renumbered(b, height))
  {
    hide Little, HeaderBytes, HeaderOf, TxsBytes, TxsAt, ReadLittle, Pow256;
    Widths();
    var s := Payload(height, b) + tail;
    var prefix := Little(height, 8) + HeaderBytes(b.header) + Little(|b.txs|, 8);
    assert s[0..8] == Little(height, 8);
    assert s[8..104] == HeaderBytes(b.header);
    assert s[104..112] == Little(|b.txs|, 8);
    LittleField(height, 8);
    LittleField(|b.txs|, 8);
    HeaderRoundTrip(b.header);
    assert s == prefix + TxsBytes(b.txs) + tail;
    TxsRoundTrip(prefix, b.txs, tail);
  }

  /** The parser accepts exactly the payloads that start with some block's encoding, and reports the
      block encoded there. */
  lemma DecodedIsExact(payload: Bytes)
    ensures match Decoded(payload)
            case Some(b) =>
              exists number: u64, tail: Bytes :: payload == Payload(b.header.blockNumber, Renumbered(b, number)) + tail
            case None =>
              forall height: u64, b: Block, tail: Bytes :: |b.txs| < TWO_64 ==> payload != Payload(height, b) + tail
  {
    hide Payload, Decoded;
    match Decoded(payload)
    case Some(b) => AcceptedPayload(payload);
    case None =>
      forall height: u64, b: Block, tail: Bytes | |b.txs| < TWO_64 ensures payload != Payload(height, b) + tail {
        PayloadRoundTrip(height, b, tail);
      }
  }

  lemma AcceptedPayload(payload: Bytes)
    requires Decoded(payload).Some?
    ensures var b := Decoded(payload).value;
            exists number: u64, tail: Bytes :: payload == Payload(b.header.blockNumber, Renumbered(b, number)) + tail
  {
    hide Little, HeaderBytes, HeaderOf, TxsBytes, TxsAt, ReadLittle, Pow256;
    var b := BlockAt(payload);
    var sent := HeaderOf(payload[8..104]);
    var count := CountOf(payload);
    var end := PREFIX_BYTES + count * TX_BYTES;
    LittleBack(payload[0..8], 8);
    LittleBack(payload[104..112], 8);
    HeaderExact(payload[8..104]);
    TxsExact(payload, count);
    var tail := payload[end..];
    assert Renumbered(b, sent.blockNumber).header == sent;
    assert payload == payload[0..8] + payload[8..104] + payload[104..112] + payload[112..end] + tail;
    assert payload == Payload(b.header.blockNumber, Renumbered(b, sent.blockNumber)) + tail;
  }

  // ---------- packets ----------

  const PACKET_TYPE_MAX: nat := 12

  predicate ValidType(t: u8) { 0 < t < PACKET_TYPE_MAX }

  // Node_SendPacket: a type byte before the payload, framed.
  method SendPacket(packetType: u8, payload: Bytes) returns (wire: Option<Bytes>)
    ensures wire.Some? <==> ValidType(packetType) && |payload| < MAX_PAYLOAD
    ensures wire.Some? ==> Parse(wire.value) == Parsed([[packetType] + payload], [], true)
  {
    hide Parse;
    if !(0 < packetType < PACKET_TYPE_MAX) {
      return None;
    }
    wire := SendFramed([packetType] + payload);
  }

  // Node_DecodePacket, on a delivered frame.
  function DecodePacket(frame: Bytes): Option<(u8, Bytes)> {
    if |frame| >= 1 && ValidType(frame[0]) then Some((frame[0], frame[1..])) else None
  }

  /** Encode, frame, split anywhere, reassemble and parse: the block that was sent, if its packet fits
      one frame. */
  lemma BlockSurvivesTheWire(packetType: u8, height: u64, b: Block, chunks: seq<Bytes>)
    requires ValidType(packetType) && |Payload(height, b)| < MAX_PAYLOAD
    requires Joined(chunks) == Frame([packetType] + Payload(height, b))
    ensures Parse(Joined(chunks)) == Parsed([[packetType] + Payload(height, b)], [], true)
    ensures var packet := DecodePacket([packetType] + Payload(height, b));
            packet.Some? && packet.value.0 == packetType && Decoded(packet.value.1) == Some(Renumbered(b, height))
  {
    hide Parse, Decoded, Payload, Big, Frame, Joined;
    var frame := [packetType] + Payload(height, b);
    FramesRoundTrip([frame]);
    SingleFrame(frame);
    assert frame[1..] == Payload(height, b);
    PayloadRoundTrip(height, b, []);
    assert Payload(height, b) + [] == Payload(height, b);
  }

  // The network cuts a stream wherever it likes: pieces of the given sizes, then whatever is left.
  method Cut(wire: Bytes, sizes: seq<nat>) returns (chunks: seq<Bytes>)
    ensures Joined(chunks) == wire
  {
    chunks := [];
    var rest := wire;
    for i := 0 to |sizes|
      invariant Joined(chunks) + rest == wire
    {
      var n := Min(sizes[i], |rest|);
      JoinedPush(chunks, rest[..n]);
      assert rest[..n] + rest[n..] == rest;
      chunks, rest := chunks + [rest[..n]], rest[n..];
    }
    JoinedPush(chunks, rest);
    chunks := chunks + [rest];
  }

  lemma JoinedPush(chunks: seq<Bytes>, chunk: Bytes)
    ensures Joined(chunks + [chunk]) == Joined(chunks) + chunk
  {
    assert (chunks + [chunk])[..|chunks|] == chunks;
  }

  /** Serialise, send, cut anywhere, feed to a fresh connection, decode and parse: the block arrives,
      numbered by its announced height, exactly when its packet fits one frame. */
  method Transmit(packetType: u8, height: u64, b: Block, sizes: seq<nat>) returns (received: Option<Block>)
    ensures received == if ValidType(packetType) && |Payload(height, b)| < MAX_PAYLOAD
                        then Some(Renumbered(b, height)) else None
  {
    hide Parse, Payload, Decoded;
    var payload := Serialise(height, b);
    var wire := SendPacket(packetType, payload);
    if wire.None? {
      return None;
    }
    var chunks := Cut(wire.value, sizes);
    var connection := new Connection();
    assert [] + Joined(chunks) == wire.value;
    var _ := connection.FeedAll(chunks);
    assert connection.delivered == [[packetType] + payload];
    var packet := DecodePacket(connection.delivered[0]);
    assert packet == Some((packetType, payload)) by { assert ([packetType] + payload)[1..] == payload; }
    FitsCount(height, b);
    PayloadRoundTrip(height, b, []);
    assert payload + [] == payload;
    received := ParseBlock(packet.value.1);
  }

  lemma FitsCount(height: u64, b: Block)
    requires |Payload(height, b)| < MAX_PAYLOAD
    ensures |b.txs| < TWO_64
  {
  }
}
