/** LWNX framing: `buildPacket` lays a request out, and `parsePacket` is the
    byte-at-a-time recogniser whose module-level globals become an explicit
    `ParserState`. The three copies of the codec in the repository share one
    state machine; they differ only in what `parsePacket` returns on a byte
    that does not complete a valid frame. */
module Packet {
  import opened Common
  import opened Crc

  /** The first byte of every frame. */
  const StartByte: uint8 := 0xAA

  /** `parsePacket` abandons a frame whose announced payload-plus-CRC size exceeds this. */
  const MaxRemaining := 1019

  /** The 16-bit flags word: payload length (command byte plus data) in the
      top ten bits, the write bit in bit 0. Python's `write & 0x1` is 0 or 1
      for every integer, negative ones included, as Euclidean `% 2` is. */
  function Flags(payloadLength: nat, write: int): nat
  {
    payloadLength * 64 + write % 2
  }

  /** Little-endian 16-bit value of two bytes. */
  function Le16(lo: uint8, hi: uint8): (r: nat)
    ensures r < 0x10000
  {
    lo + 256 * hi
  }

  /** `x & 0xFF` and `(x >> 8) & 0xFF` for a non-negative `x`. */
  function LowByte(x: nat): uint8 { x % 256 }
  function HighByte(x: nat): uint8 { (x / 256) % 256 }

  lemma SplitJoin(x: nat)
    ensures Le16(LowByte(x), HighByte(x)) == x % 0x10000
  {
    var q := x / 256;
    assert x == 256 * q + x % 256;
    assert q == 256 * (q / 256) + q % 256;
    assert x == 0x10000 * (q / 256) + 256 * (q % 256) + x % 256;
  }

  /** A 16-bit word survives being split into its two bytes. */
  lemma WordBytes(x: nat)
    requires x < 0x10000
    ensures Le16(LowByte(x), HighByte(x)) == x
  {
    SplitJoin(x);
  }

  /** `buildPacket(command, write, data)`. */
  function BuildPacket(command: uint8, write: int, data: seq<uint8>): (r: seq<uint8>)
    ensures |r| == |data| + 6
    ensures r[0] == StartByte && r[3] == command && r[4..|data| + 4] == data
    ensures Le16(r[1], r[2]) == Flags(|data| + 1, write) % 0x10000
    ensures |data| + 1 < 1024 ==> Le16(r[1], r[2]) == Flags(|data| + 1, write)
    ensures Le16(r[|r| - 2], r[|r| - 1]) == CreateCrc(r[..|r| - 2])
  {
    var flags := Flags(|data| + 1, write);
    var head := [StartByte, LowByte(flags), HighByte(flags), command];
    SplitJoin(flags);
    Layout(head, data, []);
    var r := AppendCrc(head + data);
    assert r[..|r| - 2] == head + data;
    r
  }

  /** The trailing little-endian CRC `buildPacket` appends to the header and payload. */
  function AppendCrc(h: seq<uint8>): (r: seq<uint8>)
    ensures |r| == |h| + 2 && r[..|h|] == h
    ensures Le16(r[|r| - 2], r[|r| - 1]) == CreateCrc(h)
  {
    var crc := CreateCrc(h);
    WordBytes(crc);
    var r := h + [LowByte(crc), HighByte(crc)];
    assert r[..|h|] == h;
    r
  }

  lemma Layout(head: seq<uint8>, data: seq<uint8>, tail: seq<uint8>)
    ensures (head + data + tail)[..|head| + |data|] == head + data
    ensures (head + data + tail)[|head|..|head| + |data|] == data
  {
  }

  // ---------------------------------------------------------------------
  // The recogniser.

  /** `packetParseState` 0, 1, 2 and 3. */
  datatype Stage = AwaitStart | AwaitFlagsLow | AwaitFlagsHigh | AwaitBody

  /** The four globals `packetParseState`, `packetPayloadSize`, `packetSize`
      and `packetData`. */
  datatype ParserState = ParserState(stage: Stage, payloadSize: int, size: int, data: seq<uint8>)

  /** The globals as `waitForPacket` resets them (and as the module initialises them). */
  const Reset := ParserState(AwaitStart, 0, 0, [])

  /** The flags word of a buffer holding at least the header's first three bytes. */
  function BufferFlags(data: seq<uint8>): nat
    requires |data| >= 3
  {
    Le16(data[1], data[2])
  }

  /** The shape the globals always have: each stage knows how much of the
      header it holds, and in the body stage the bytes still expected plus
      the bytes held add up to the frame length the flags announce. */
  predicate Valid(s: ParserState)
  {
    match s.stage
    case AwaitStart => true
    case AwaitFlagsLow => s.data == [StartByte]
    case AwaitFlagsHigh => |s.data| == 2 && s.data[0] == StartByte
    case AwaitBody =>
      && 3 <= |s.data| == s.size
      && s.data[0] == StartByte
      && 1 <= s.payloadSize
      && BufferFlags(s.data) / 64 + 2 <= MaxRemaining
      && s.size + s.payloadSize == BufferFlags(s.data) / 64 + 5
  }

  /** A finished buffer whose trailing little-endian CRC matches the CRC of
      everything before it. */
  predicate CrcOk(data: seq<uint8>)
  {
    |data| >= 2 && Le16(data[|data| - 2], data[|data| - 1]) == CreateCrc(data[..|data| - 2])
  }

  /** A complete frame as the recogniser delimits it, whatever its CRC:
      the start byte, and flags whose length field matches the frame's
      length and does not exceed the parser's limit. */
  predicate Framed(p: seq<uint8>)
  {
    && 5 <= |p|
    && p[0] == StartByte
    && Le16(p[1], p[2]) / 64 + 5 == |p|
    && |p| - 3 <= MaxRemaining
  }

  /** A complete frame the recogniser accepts: delimited as above, with a
      matching trailing CRC. */
  predicate WellFramed(p: seq<uint8>)
  {
    Framed(p) && CrcOk(p)
  }

  /** What one call of `parsePacket(byte)` leaves behind and returns:
      `ret` is `Some(true)` for Python's `True` and `None` for falling off the end. */
  datatype Parsed = Parsed(state: ParserState, ret: Option<bool>)

  predicate Completes(s: ParserState, byte: uint8)
  {
    s.stage == AwaitBody && s.payloadSize == 1 && CrcOk(s.data + [byte])
  }

  /** `parsePacket(byte)` of the canonical codec (and of its identical copy
      in the V9 test script). */
  function ParsePacket(s: ParserState, byte: uint8): (r: Parsed)
    requires Valid(s)
    ensures Valid(r.state)
    ensures r.ret != Some(false)
    ensures r.ret == Some(true) <==> Completes(s, byte)
    ensures r.ret == Some(true) ==> r.state.stage == AwaitStart && r.state.data == s.data + [byte] && |r.state.data| >= 5
    ensures s.stage == AwaitStart && byte != StartByte ==> r.state == s
    ensures s.stage == AwaitStart && byte == StartByte ==> r.state.stage == AwaitFlagsLow && r.state.data == [StartByte]
    ensures s.stage == AwaitBody ==> r.state.data == s.data + [byte] && (r.state.stage == AwaitStart <==> s.payloadSize == 1)
  {
    match s.stage
    case AwaitStart =>
      if byte == StartByte then Parsed(s.(stage := AwaitFlagsLow, data := [StartByte]), None)
      else Parsed(s, None)
    case AwaitFlagsLow =>
      Parsed(s.(stage := AwaitFlagsHigh, data := s.data + [byte]), None)
    case AwaitFlagsHigh => ParseFlagsHigh(s, byte)
    case AwaitBody => ParseBody(s, byte)
  }

  /** State 2: the second flags byte fixes how many bytes are still to come. */
  function ParseFlagsHigh(s: ParserState, byte: uint8): (r: Parsed)
    requires Valid(s) && s.stage == AwaitFlagsHigh
    ensures Valid(r.state) && r.ret == None
    ensures r.state.stage == AwaitStart <==> Le16(s.data[1], byte) / 64 + 2 > MaxRemaining
  {
    var data := s.data + [byte];
    var remaining := BufferFlags(data) / 64 + 2;
    Parsed(ParserState(if remaining > MaxRemaining then AwaitStart else AwaitBody, remaining, 3, data), None)
  }

  /** State 3: one more byte of payload or CRC; the last one decides. */
  function ParseBody(s: ParserState, byte: uint8): (r: Parsed)
    requires Valid(s) && s.stage == AwaitBody
    ensures Valid(r.state)
    ensures r.ret != Some(false)
    ensures r.ret == Some(true) <==> Completes(s, byte)
    ensures r.ret == Some(true) ==> r.state.stage == AwaitStart && r.state.data == s.data + [byte] && |r.state.data| >= 5
    ensures r.state.data == s.data + [byte]
    ensures s.payloadSize == 1 ==> r.state.stage == AwaitStart
    ensures s.payloadSize > 1 ==> r.state.stage == AwaitBody && r.state.payloadSize == s.payloadSize - 1 && r.ret == None
  {
    var remaining := s.payloadSize - 1;
    if remaining == 0 then FinishBody(s, byte)
    else Parsed(ParserState(AwaitBody, remaining, s.size + 1, s.data + [byte]), None)
  }

  /** The last expected byte: the parser goes back to state 0 whatever the
      CRC, and returns `True` exactly when the trailing CRC matches. */
  function FinishBody(s: ParserState, byte: uint8): (r: Parsed)
    requires Valid(s) && s.stage == AwaitBody && s.payloadSize == 1
    ensures r.state == ParserState(AwaitStart, 0, s.size + 1, s.data + [byte])
    ensures r.ret == Some(true) <==> CrcOk(s.data + [byte])
    ensures r.ret != Some(false)
  {
    var data := s.data + [byte];
    var size := s.size + 1;
    assert size == |data|;
    var crc := Le16(data[size - 2], data[size - 1]);
    var matches := crc == CreateCrc(data[..|data| - 2]);
    assert matches <==> CrcOk(data);
    Parsed(ParserState(AwaitStart, 0, size, data), if matches then Some(true) else None)
  }

  /** Soundness: whenever `parsePacket` returns `True`, the buffer holds a
      complete, CRC-valid frame of the length its flags announce. */
  lemma CompletionIsWellFramed(s: ParserState, byte: uint8)
    requires Valid(s) && ParsePacket(s, byte).ret == Some(true)
    ensures WellFramed(ParsePacket(s, byte).state.data)
  {
    var data := s.data + [byte];
    assert data[..3] == s.data[..3];
  }

  /** After the second flags byte the parser expects `(flags >> 6) + 2` more
      bytes, and gives the frame up when that exceeds 1019. */
  lemma HeaderRemaining(s: ParserState, byte: uint8)
    requires Valid(s) && s.stage == AwaitFlagsHigh
    ensures ParsePacket(s, byte).state.payloadSize == Le16(s.data[1], byte) / 64 + 2
    ensures ParsePacket(s, byte).state.stage == AwaitStart <==> Le16(s.data[1], byte) / 64 + 2 > MaxRemaining
    ensures ParsePacket(s, byte).ret == None
  {
    assert (s.data + [byte])[1] == s.data[1];
  }

  /** `parse_packet(byte)` of the `sf45_working` copy: the same state machine,
      but it returns `False` where the canonical copy returns `None`. */
  function ParsePacketSf45(s: ParserState, byte: uint8): (r: (ParserState, bool))
    requires Valid(s)
    ensures Valid(r.0)
    ensures r.1 <==> Completes(s, byte)
  {
    var p := ParsePacket(s, byte);
    (p.state, p.ret == Some(true))
  }

  /** The two copies agree on the globals, and `parse_packet(b) == True`
      holds exactly when `parsePacket(b) == True` does; the only difference
      is `False` in place of `None`. */
  lemma Sf45Delta(s: ParserState, byte: uint8)
    requires Valid(s)
    ensures ParsePacketSf45(s, byte).0 == ParsePacket(s, byte).state
    ensures ParsePacketSf45(s, byte).1 <==> ParsePacket(s, byte).ret == Some(true)
    ensures !ParsePacketSf45(s, byte).1 <==> ParsePacket(s, byte).ret == None
  {
  }

  // ---------------------------------------------------------------------
  // Feeding a byte sequence.

  /** The globals after `parsePacket` has seen every byte of `bytes`, in order. */
  function Feed(s: ParserState, bytes: seq<uint8>): (r: ParserState)
    requires Valid(s)
    ensures Valid(r)
    decreases |bytes|
  {
    if |bytes| == 0 then s else ParsePacket(Feed(s, bytes[..|bytes| - 1]), bytes[|bytes| - 1]).state
  }

  /** What `parsePacket` returns on byte `i` of `bytes`. */
  function ReturnAt(s: ParserState, bytes: seq<uint8>, i: nat): Option<bool>
    requires Valid(s) && i < |bytes|
  {
    ParsePacket(Feed(s, bytes[..i]), bytes[i]).ret
  }

  lemma FeedSnoc(s: ParserState, bytes: seq<uint8>, i: nat)
    requires Valid(s) && i < |bytes|
    ensures Feed(s, bytes[..i + 1]) == ParsePacket(Feed(s, bytes[..i]), bytes[i]).state
  {
    assert bytes[..i + 1][..i] == bytes[..i];
  }

  /** The globals after the first `k` bytes of a frame, fed from stage 0. */
  predicate FedPrefix(p: seq<uint8>, k: nat, r: ParserState)
    requires 5 <= |p| && k <= |p|
  {
    if k == 0 then r.stage == AwaitStart
    else if k == 1 then r.stage == AwaitFlagsLow && r.data == p[..1]
    else if k == 2 then r.stage == AwaitFlagsHigh && r.data == p[..2]
    else if k < |p| then r.stage == AwaitBody && r.data == p[..k] && r.size == k && r.payloadSize == |p| - k
    else r.stage == AwaitStart && r.data == p
  }

  /** One byte of a frame moves the parser from one prefix shape to the next. */
  lemma FedPrefixStep(p: seq<uint8>, k: nat, r: ParserState)
    requires Framed(p) && k < |p|
    requires Valid(r) && FedPrefix(p, k, r)
    ensures FedPrefix(p, k + 1, ParsePacket(r, p[k]).state)
    ensures ParsePacket(r, p[k]).ret == Some(true) <==> k == |p| - 1 && CrcOk(p)
  {
    if k < 3 {
      FedHeaderStep(p, k, r);
    } else if k < |p| - 1 {
      FedBodyStep(p, k, r);
    } else {
      FedLastStep(p, k, r);
    }
  }

  lemma FedHeaderStep(p: seq<uint8>, k: nat, r: ParserState)
    requires Framed(p) && k < 3
    requires Valid(r) && FedPrefix(p, k, r)
    ensures FedPrefix(p, k + 1, ParsePacket(r, p[k]).state)
    ensures ParsePacket(r, p[k]).ret == None
  {
    if k == 1 {
      assert p[..2] == p[..1] + [p[1]];
    } else if k == 2 {
      assert p[..3] == p[..2] + [p[2]];
    }
  }

  lemma FedBodyStep(p: seq<uint8>, k: nat, r: ParserState)
    requires Framed(p) && 3 <= k < |p| - 1
    requires Valid(r) && FedPrefix(p, k, r)
    ensures FedPrefix(p, k + 1, ParsePacket(r, p[k]).state)
    ensures ParsePacket(r, p[k]).ret == None
  {
    assert p[..k + 1] == p[..k] + [p[k]];
  }

  lemma FedLastStep(p: seq<uint8>, k: nat, r: ParserState)
    requires Framed(p) && 3 <= k == |p| - 1
    requires Valid(r) && FedPrefix(p, k, r)
    ensures FedPrefix(p, k + 1, ParsePacket(r, p[k]).state)
    ensures ParsePacket(r, p[k]).ret == Some(true) <==> CrcOk(p)
  {
    assert p[..k] + [p[k]] == p;
  }

  lemma {:induction false} FeedFrame(s: ParserState, p: seq<uint8>, k: nat)
    requires Valid(s) && s.stage == AwaitStart
    requires Framed(p) && k <= |p|
    ensures FedPrefix(p, k, Feed(s, p[..k]))
    decreases k, 1
  {
    if k == 0 {
      assert p[..0] == [];
    } else {
      FeedFrameStep(s, p, k - 1);
    }
  }

  lemma {:induction false} FeedFrameStep(s: ParserState, p: seq<uint8>, j: nat)
    requires Valid(s) && s.stage == AwaitStart
    requires Framed(p) && j < |p|
    ensures FedPrefix(p, j + 1, Feed(s, p[..j + 1]))
    decreases j + 1, 0
  {
    FeedFrame(s, p, j);
    FeedPrefixStep(s, p, j);
  }

  lemma FeedPrefixStep(s: ParserState, p: seq<uint8>, k: nat)
    requires Valid(s) && Framed(p) && k < |p|
    requires FedPrefix(p, k, Feed(s, p[..k]))
    ensures FedPrefix(p, k + 1, Feed(s, p[..k + 1]))
  {
    FedPrefixStep(p, k, Feed(s, p[..k]));
    FeedSnoc(s, p, k);
  }

  /** Feeding a well-framed byte sequence to a parser in stage 0 completes a
      CRC-valid frame on the last byte and on no earlier byte, and leaves the
      whole frame in the buffer. */
  lemma FrameParses(s: ParserState, p: seq<uint8>)
    requires Valid(s) && s.stage == AwaitStart
    requires WellFramed(p)
    ensures forall i :: 0 <= i < |p| ==> (ReturnAt(s, p, i) == Some(true) <==> i == |p| - 1)
    ensures Feed(s, p).data == p
    ensures Feed(s, p).stage == AwaitStart
  {
    forall i | 0 <= i < |p|
      ensures ReturnAt(s, p, i) == Some(true) <==> i == |p| - 1
    {
      FeedFrame(s, p, i);
      FedPrefixStep(p, i, Feed(s, p[..i]));
    }
    FeedFrame(s, p, |p|);
    assert p[..|p|] == p;
  }

  /** A delimited frame whose CRC does not match is consumed without a
      `True`, and the parser ends in stage 0 holding it, ready for the next
      frame. */
  lemma BadFrameRejected(s: ParserState, p: seq<uint8>)
    requires Valid(s) && s.stage == AwaitStart
    requires Framed(p) && !CrcOk(p)
    ensures forall i :: 0 <= i < |p| ==> ReturnAt(s, p, i) == None
    ensures Feed(s, p).data == p
    ensures Feed(s, p).stage == AwaitStart
  {
    forall i | 0 <= i < |p|
      ensures ReturnAt(s, p, i) == None
    {
      FeedFrame(s, p, i);
      FedPrefixStep(p, i, Feed(s, p[..i]));
    }
    FeedFrame(s, p, |p|);
    assert p[..|p|] == p;
  }

  /** Feeding two byte sequences one after the other. */
  lemma {:induction false} FeedAppend(s: ParserState, a: seq<uint8>, b: seq<uint8>)
    requires Valid(s)
    ensures Feed(s, a + b) == Feed(Feed(s, a), b)
    decreases |b|
  {
    if |b| == 0 {
      assert a + b == a;
    } else {
      var n := |b| - 1;
      DropLastConcat(a, b);
      FeedAppend(s, a, b[..n]);
    }
  }

  lemma DropLastConcat<T>(a: seq<T>, b: seq<T>)
    requires |b| > 0
    ensures (a + b)[..|a + b| - 1] == a + b[..|b| - 1]
    ensures (a + b)[|a + b| - 1] == b[|b| - 1]
  {
  }

  /** Recovery: after a delimited frame with a bad CRC, the next
      well-formed frame is accepted on its last byte and on no earlier
      byte, and the parser ends holding it. */
  lemma RecoversAfterBadFrame(s: ParserState, bad: seq<uint8>, good: seq<uint8>)
    requires Valid(s) && s.stage == AwaitStart
    requires Framed(bad) && !CrcOk(bad) && WellFramed(good)
    ensures var t := Feed(s, bad);
      && t.stage == AwaitStart
      && (forall i :: 0 <= i < |good| ==> (ReturnAt(t, good, i) == Some(true) <==> i == |good| - 1))
      && Feed(s, bad + good) == Feed(t, good)
      && Feed(s, bad + good).data == good
      && Feed(s, bad + good).stage == AwaitStart
  {
    BadFrameRejected(s, bad);
    FrameParses(Feed(s, bad), good);
    FeedAppend(s, bad, good);
  }

  /** `buildPacket` produces a frame the recogniser accepts, provided the
      payload is short enough for the parser's 1019-byte limit. */
  lemma BuildIsWellFramed(command: uint8, write: int, data: seq<uint8>)
    requires |data| + 1 <= 1017
    ensures WellFramed(BuildPacket(command, write, data))
  {
  }

  /** Round trip: feeding `buildPacket(command, write, data)` byte by byte to
      a parser in stage 0 returns `True` on the last byte and on no earlier
      byte, and leaves the whole frame, command byte included, in the buffer. */
  lemma BuildThenParse(s: ParserState, command: uint8, write: int, data: seq<uint8>)
    requires Valid(s) && s.stage == AwaitStart
    requires |data| + 1 <= 1017
    ensures var p := BuildPacket(command, write, data);
      && (forall i :: 0 <= i < |p| ==> (ReturnAt(s, p, i) == Some(true) <==> i == |p| - 1))
      && Feed(s, p).data == p
      && Feed(s, p).data[3] == command
  {
    BuildIsWellFramed(command, write, data);
    FrameParses(s, BuildPacket(command, write, data));
  }
}
