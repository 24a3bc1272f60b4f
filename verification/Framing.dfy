/**
 Length-prefixed frames over a byte stream.  The decoder keeps a partly filled header and payload
 between calls; Parse is the same stream read in one piece.
 */
module Framing {
  import opened Words
  import opened CompactBytes
  import opened ByteOrder

  const HEADER_SIZE: nat := 4
  const MAX_PAYLOAD: nat := 1024 * 1024

  type Bytes = seq<u8>

  // Complete frames, the incomplete remainder, and whether no header announced too long a payload.
  datatype Parsed = Parsed(frames: seq<Bytes>, rest: Bytes, ok: bool)

  function Announced(s: Bytes): nat
    requires |s| >= HEADER_SIZE
  {
    BigEndian(s[..HEADER_SIZE])
  }

  function Parse(s: Bytes): Parsed {
    if |s| < HEADER_SIZE then Parsed([], s, true)
    else
      var n := Announced(s);
      if n > MAX_PAYLOAD then Parsed([], [], false)
      else if |s| < HEADER_SIZE + n then Parsed([], s, true)
      else Prepend([s[HEADER_SIZE..HEADER_SIZE + n]], Parse(s[HEADER_SIZE + n..]))
  }

  function Prepend(frames: seq<Bytes>, p: Parsed): Parsed { p.(frames := frames + p.frames) }

  // TcpConnection_SendFramed, for a payload it accepts.
  function Frame(payload: Bytes): Bytes { Big(|payload|, HEADER_SIZE) + payload }

  function Frames(payloads: seq<Bytes>): Bytes {
    if payloads == [] then [] else Frame(payloads[0]) + Frames(payloads[1..])
  }

  function Joined(chunks: seq<Bytes>): Bytes {
    if chunks == [] then [] else Joined(chunks[..|chunks| - 1]) + chunks[|chunks| - 1]
  }

  // What remains after the last complete frame is short of its own header or payload.
  predicate Incomplete(s: Bytes) {
    |s| < HEADER_SIZE || (Announced(s) <= MAX_PAYLOAD && |s| < HEADER_SIZE + Announced(s))
  }

  // ---------- the parse itself ----------

  lemma PrependTwice(a: seq<Bytes>, b: seq<Bytes>, p: Parsed)
    ensures Prepend(a, Prepend(b, p)) == Prepend(a + b, p)
  {
    assert a + (b + p.frames) == a + b + p.frames;
  }

  // One whole frame at the front.
  lemma ParseFrame(head: Bytes, payload: Bytes, t: Bytes)
    requires |head| == HEADER_SIZE && BigEndian(head) == |payload| <= MAX_PAYLOAD
    ensures Parse(head + payload + t) == Prepend([payload], Parse(t))
  {
    hide BigEndian;
    var s := head + payload + t;
    assert s[..HEADER_SIZE] == head;
    assert s[HEADER_SIZE..HEADER_SIZE + |payload|] == payload;
    assert s[HEADER_SIZE + |payload|..] == t;
  }

  lemma ParseOversize(head: Bytes, t: Bytes)
    requires |head| == HEADER_SIZE && BigEndian(head) > MAX_PAYLOAD
    ensures Parse(head + t) == Parsed([], [], false)
  {
    hide BigEndian;
    assert (head + t)[..HEADER_SIZE] == head;
  }

  /** Chunking is invisible: a stream parsed in two pieces, the second after the first one's
      remainder, yields the frames, remainder and verdict of the whole. */
  lemma {:induction false} ParseSplit(a: Bytes, b: Bytes)
    ensures Parse(a + b) == if Parse(a).ok then Prepend(Parse(a).frames, Parse(Parse(a).rest + b))
                            else Parse(a)
    decreases |a|
  {
    hide BigEndian;
    if |a| >= HEADER_SIZE {
      var n := Announced(a);
      assert (a + b)[..HEADER_SIZE] == a[..HEADER_SIZE];
      if n <= MAX_PAYLOAD && |a| >= HEADER_SIZE + n {
        var payload, t := a[HEADER_SIZE..HEADER_SIZE + n], a[HEADER_SIZE + n..];
        ParseSplit(t, b);
        assert (a + b)[HEADER_SIZE..HEADER_SIZE + n] == payload;
        assert (a + b)[HEADER_SIZE + n..] == t + b;
        if Parse(t).ok { PrependTwice([payload], Parse(t).frames, Parse(Parse(t).rest + b)); }
      }
    }
  }

  /** The decoder inverts the encoder on every list of payloads that each fit a frame. */
  lemma {:induction false} FramesRoundTrip(payloads: seq<Bytes>)
    requires forall i :: 0 <= i < |payloads| ==> |payloads[i]| <= MAX_PAYLOAD
    ensures Parse(Frames(payloads)) == Parsed(payloads, [], true)
  {
    hide BigEndian, Big, Parse;
    if payloads == [] {
      assert Parse([]) == Parsed([], [], true) by { ParseShort([]); }
    } else {
      var p := payloads[0];
      FramesRoundTrip(payloads[1..]);
      Widths8();
      BigRoundTrip(|p|, HEADER_SIZE);
      ParseFrame(Big(|p|, HEADER_SIZE), p, Frames(payloads[1..]));
    }
  }

  lemma ParseShort(s: Bytes)
    requires |s| < HEADER_SIZE
    ensures Parse(s) == Parsed([], s, true)
  {
  }

  predicate StartsWithFrame(s: Bytes) {
    |s| >= HEADER_SIZE && Announced(s) <= MAX_PAYLOAD && |s| >= HEADER_SIZE + Announced(s)
  }

  // A first frame is what the encoder makes of its payload.
  lemma FirstFrame(s: Bytes)
    requires StartsWithFrame(s)
    ensures var end := HEADER_SIZE + Announced(s);
            var payload := s[HEADER_SIZE..end];
            s == Frame(payload) + s[end..] && Parse(s) == Prepend([payload], Parse(s[end..]))
  {
    hide BigEndian, Big;
    BigUnique(s[..HEADER_SIZE]);
  }

  lemma NoFrame(s: Bytes)
    requires !StartsWithFrame(s)
    ensures Parse(s).frames == [] && (Parse(s).ok ==> Parse(s).rest == s && Incomplete(s))
  {
    hide BigEndian;
  }

  /** And the encoder inverts the decoder: an accepted stream is its frames followed by an incomplete
      remainder, so no other reading of the stream exists. */
  lemma {:induction false} ParseIsExact(s: Bytes)
    ensures Parse(s).ok ==> s == Frames(Parse(s).frames) + Parse(s).rest && Incomplete(Parse(s).rest)
    ensures forall i :: 0 <= i < |Parse(s).frames| ==> |Parse(s).frames[i]| <= MAX_PAYLOAD
    decreases |s|
  {
    hide Parse, Frame, Incomplete, BigEndian;
    if StartsWithFrame(s) {
      FirstFrame(s);
      var end := HEADER_SIZE + Announced(s);
      ParseIsExact(s[end..]);
      FramesCons(s[HEADER_SIZE..end], Parse(s[end..]).frames);
    } else {
      NoFrame(s);
    }
  }

  lemma FramesCons(payload: Bytes, rest: seq<Bytes>)
    ensures Frames([payload] + rest) == Frame(payload) + Frames(rest)
  {
    assert ([payload] + rest)[1..] == rest;
  }

  lemma SingleFrame(payload: Bytes)
    ensures Frames([payload]) == Frame(payload)
  {
    assert Frames([payload]) == Frame(payload) + Frames([]);
  }

  // ---------- the connection ----------

  class Connection {
    const header: array<u8>
    var headerBytesRead: nat
    var expected: u32
    var frame: array?<u8>
    var frameBytesRead: nat
    // The frames handed to the data callback, oldest first.
    var delivered: seq<Bytes>

    ghost predicate Valid()
      reads this, header, if frame != null then {frame} else {}
    {
      && header.Length == HEADER_SIZE
      && headerBytesRead <= HEADER_SIZE
      && frameBytesRead <= expected
      && (frame != null ==> header != frame)
      && if headerBytesRead < HEADER_SIZE then frame == null && expected == 0
         else && frame != null && frame.Length == expected == BigEndian(header[..]) <= MAX_PAYLOAD
              && frameBytesRead < expected
    }

    // The bytes of the current frame received so far.
    ghost function Pending(): Bytes
      requires Valid()
      reads this, header, if frame != null then {frame} else {}
    {
      header[..headerBytesRead] + if frame == null then [] else frame[..frameBytesRead]
    }

    constructor ()
      ensures Valid() && fresh(header) && frame == null && delivered == [] && Pending() == []
    {
      header := new u8[4](_ => 0);
      headerBytesRead, expected, frame, frameBytesRead, delivered := 0, 0, null, 0, [];
    }

    method ResetFraming()
      requires header.Length == HEADER_SIZE
      modifies this`headerBytesRead, this`expected, this`frame, this`frameBytesRead, header
      ensures Valid() && frame == null && Pending() == [] && header[..] == [0, 0, 0, 0]
    {
      forall k | 0 <= k < HEADER_SIZE { header[k] := 0; }
      headerBytesRead, expected, frameBytesRead, frame := 0, 0, 0, null;
    }

    // Lines 112-154: header bytes, and what a complete header decides.
    method TakeHeader(input: Bytes, offset: nat) returns (next: nat, ok: bool)
      requires Valid() && headerBytesRead < HEADER_SIZE && offset < |input|
      modifies this, header
      ensures Valid() && offset < next <= |input| && (frame == null || fresh(frame))
      ensures var whole := Parse(old(Pending()) + input[offset..]);
              if ok then Prepend(old(delivered), whole) == Prepend(delivered, Parse(Pending() + input[next..]))
              else whole == Parsed([], [], false) && delivered == old(delivered) && Pending() == []
    {
      hide BigEndian, Parse;
      var take := Min(|input| - offset, HEADER_SIZE - headerBytesRead);
      ghost var before := Pending();
      assert before == header[..headerBytesRead];
      forall k | 0 <= k < take { header[headerBytesRead + k] := input[offset + k]; }
      headerBytesRead, next, ok := headerBytesRead + take, offset + take, true;
      assert header[..headerBytesRead] == before + input[offset..next];
      assert before + input[offset..] == header[..headerBytesRead] + input[next..];
      assert frame == null;
      if headerBytesRead < HEADER_SIZE {
        assert Pending() == header[..headerBytesRead];
        return;
      }
      assert header[..headerBytesRead] == header[..];
      ok := DecideHeader(input[next..]);
    }

    // Lines 124-153: what a complete header decides about the bytes that follow.
    method DecideHeader(ghost rest: Bytes) returns (ok: bool)
      requires header.Length == headerBytesRead == HEADER_SIZE && frame == null && expected == frameBytesRead == 0
      modifies this, header
      ensures Valid() && (frame == null || fresh(frame))
      ensures var whole := Parse(old(header[..]) + rest);
              if ok then Prepend(old(delivered), whole) == Prepend(delivered, Parse(Pending() + rest))
              else whole == Parsed([], [], false) && delivered == old(delivered) && Pending() == []
    {
      hide BigEndian, Parse;
      ok := true;
      ghost var head := header[..];
      assert head == header[..headerBytesRead];
      var length := DecodeLength();
      expected := length;
      if expected > MAX_PAYLOAD {
        ParseOversize(head, rest);
        ResetFraming();
        ok := false;
      } else if expected == 0 {
        assert head + rest == head + [] + rest;
        ParseFrame(head, [], rest);
        PrependTwice(delivered, [[]], Parse(rest));
        delivered := delivered + [[]];
        headerBytesRead, expected := 0, 0;
        assert Pending() + rest == rest;
      } else {
        frame := new u8[expected](_ => 0);
        frameBytesRead := 0;
        assert Pending() == head;
      }
    }

    // The header as ntohl reads it.
    method DecodeLength() returns (length: u32)
      requires header.Length == HEADER_SIZE
      ensures length == BigEndian(header[..])
    {
      BigUnique(header[..]);
      Widths8();
      var n: nat := 0;
      for i := 0 to HEADER_SIZE
        invariant n == BigEndian(header[..i])
      {
        assert header[..i + 1][..i] == header[..i];
        n := n * 256 + header[i];
      }
      assert header[..HEADER_SIZE] == header[..];
      length := n;
    }

    // Lines 156-178: payload bytes, and delivery once the frame is complete.
    method TakePayload(input: Bytes, offset: nat) returns (next: nat)
      requires Valid() && headerBytesRead == HEADER_SIZE && offset <= |input|
      modifies this, frame
      ensures Valid() && offset <= next <= |input| && (frame == null || frame == old(frame))
      ensures offset < |input| ==> offset < next
      ensures Prepend(old(delivered), Parse(old(Pending()) + input[offset..])) ==
              Prepend(delivered, Parse(Pending() + input[next..]))
    {
      hide BigEndian, Parse;
      var take := Min(|input| - offset, expected - frameBytesRead);
      ghost var before := frame[..frameBytesRead];
      ghost var head := header[..];
      assert head == header[..headerBytesRead];
      var buffer: array<u8> := frame;
      assert Pending() == head + before;
      forall k | 0 <= k < take { buffer[frameBytesRead + k] := input[offset + k]; }
      assert header[..] == head;
      frameBytesRead, next := frameBytesRead + take, offset + take;
      assert buffer[..frameBytesRead] == before + input[offset..next];
      assert (head + before) + input[offset..] == (head + buffer[..frameBytesRead]) + input[next..];
      if frameBytesRead == expected {
        ParseFrame(head, buffer[..], input[next..]);
        assert buffer[..frameBytesRead] == buffer[..];
        PrependTwice(delivered, [buffer[..]], Parse(input[next..]));
        delivered := delivered + [buffer[..]];
        headerBytesRead, expected, frameBytesRead, frame := 0, 0, 0, null;
        assert Pending() + input[next..] == input[next..];
      } else {
        assert Pending() == head + buffer[..frameBytesRead];
      }
    }

    /** TcpConnection_FeedFramedData: delivers and keeps what one parse of the pending bytes followed
        by the input says. */
    method Feed(input: Bytes) returns (ok: bool)
      requires Valid()
      modifies this, header, frame
      ensures Valid() && (frame == null || frame == old(frame) || fresh(frame))
      ensures var whole := Parse(old(Pending()) + input);
              ok == whole.ok && delivered == old(delivered) + whole.frames && Pending() == whole.rest
    {
      hide BigEndian, Parse;
      ghost var goal := Prepend(delivered, Parse(Pending() + input));
      var offset := 0;
      ok := true;
      while offset < |input|
        invariant Valid() && offset <= |input| && (frame == null || frame == old(frame) || fresh(frame))
        invariant Prepend(delivered, Parse(Pending() + input[offset..])) == goal
      {
        if headerBytesRead < HEADER_SIZE {
          offset, ok := TakeHeader(input, offset);
          if !ok {
            return;
          }
          if headerBytesRead < HEADER_SIZE {
            continue;
          }
        }
        offset := TakePayload(input, offset);
      }
      PendingIsIncomplete();
      assert Pending() + input[offset..] == Pending();
    }

    lemma PendingIsIncomplete()
      requires Valid()
      ensures Parse(Pending()) == Parsed([], Pending(), true)
    {
      if headerBytesRead == HEADER_SIZE {
        assert header[..headerBytesRead] == header[..];
        assert Pending()[..HEADER_SIZE] == header[..];
      }
    }

    /** The receive loop, which stops at the first refusal: however the stream was cut into chunks,
        the frames, the verdict and the state left are those of the whole stream. */
    method FeedAll(chunks: seq<Bytes>) returns (ok: bool)
      requires Valid()
      modifies this, header, frame
      ensures Valid()
      ensures var whole := Parse(old(Pending()) + Joined(chunks));
              ok == whole.ok && delivered == old(delivered) + whole.frames && Pending() == whole.rest
    {
      hide BigEndian, Parse;
      ok := true;
      PendingIsIncomplete();
      ghost var start := Pending();
      assert start + Joined(chunks[..0]) == start;
      for i := 0 to |chunks|
        invariant Valid() && (frame == null || frame == old(frame) || fresh(frame))
        invariant var whole := Parse(start + Joined(chunks[..i]));
                  whole.ok && delivered == old(delivered) + whole.frames && Pending() == whole.rest
      {
        JoinedPrefix(chunks, i);
        ghost var sofar := start + Joined(chunks[..i]);
        ParseSplit(sofar, chunks[i]);
        assert start + Joined(chunks[..i + 1]) == sofar + chunks[i];
        ok := Feed(chunks[i]);
        if !ok {
          RefusalIsFinal(start, chunks, i + 1);
          return;
        }
      }
      assert chunks[..|chunks|] == chunks;
    }
  }

  lemma JoinedPrefix(chunks: seq<Bytes>, i: nat)
    requires i < |chunks|
    ensures Joined(chunks[..i + 1]) == Joined(chunks[..i]) + chunks[i]
  {
    assert chunks[..i + 1][..i] == chunks[..i];
  }

  // A refused prefix decides the whole stream.
  lemma {:induction false} RefusalIsFinal(start: Bytes, chunks: seq<Bytes>, i: nat)
    requires i <= |chunks| && !Parse(start + Joined(chunks[..i])).ok
    ensures Parse(start + Joined(chunks)) == Parse(start + Joined(chunks[..i]))
    decreases |chunks| - i
  {
    hide Parse, Joined;
    if i == |chunks| {
      assert chunks[..i] == chunks;
    } else {
      JoinedPrefix(chunks, i);
      ParseSplit(start + Joined(chunks[..i]), chunks[i]);
      assert start + Joined(chunks[..i + 1]) == start + Joined(chunks[..i]) + chunks[i];
      RefusalIsFinal(start, chunks, i + 1);
    }
  }

  // TcpConnection_SendFramed: the bytes put on the socket, or a refusal.
  method SendFramed(payload: Bytes) returns (wire: Option<Bytes>)
    ensures wire.None? <==> |payload| > MAX_PAYLOAD
    ensures wire.Some? ==> Parse(wire.value) == Parsed([payload], [], true)
  {
    hide Parse, Big, BigEndian;
    if |payload| > MAX_PAYLOAD {
      return None;
    }
    wire := Some(Big(|payload|, HEADER_SIZE) + payload);
    FramesRoundTrip([payload]);
    SingleFrame(payload);
  }
}
