/** The request/response layer of the LWNX codec: `waitForPacket` and the
    bounded retry of `executeCommand`, the sensor set-up commands of
    `initLiDARSystem`, and the `sf45_working` configuration helpers. Serial
    reads become a finite byte stream per attempt: the bytes that arrive
    before the attempt's timeout. */
module Transport {
  import opened Common
  import opened Bits
  import opened Packet

  // ---------------------------------------------------------------------
  // waitForPacket

  /** The frame a parser in state `s` hands back for `command` while it is
      fed `stream`: the buffer right after the first byte that completes a
      CRC-valid frame whose command byte is `command`. Valid frames for other
      commands are passed over. */
  function WaitFrom(s: ParserState, stream: seq<uint8>, command: int): Option<seq<uint8>>
    requires Valid(s)
    decreases |stream|
  {
    if |stream| == 0 then None
    else
      var p := ParsePacket(s, stream[0]);
      if p.ret == Some(true) && p.state.data[3] == command then Some(p.state.data)
      else WaitFrom(p.state, stream[1..], command)
  }

  /** The frame `waitForPacket` returns for this stream, which starts with
      resetting the parser. */
  function Reply(stream: seq<uint8>, command: int): Option<seq<uint8>>
  {
    WaitFrom(Reset, stream, command)
  }

  /** `waitForPacket(port, command)`: reset the parser, then feed it bytes
      until a valid frame for `command` completes, or the stream ends, which
      stands for the timeout. */
  method WaitForPacket(command: int, stream: seq<uint8>) returns (response: Option<seq<uint8>>, consumed: nat)
    ensures response == Reply(stream, command)
    ensures consumed <= |stream|
    ensures response.Some? ==> WellFramed(response.value) && response.value[3] == command
    ensures response.None? ==> consumed == |stream|
  {
    var s := Reset;
    var i := 0;
    while i < |stream|
      invariant 0 <= i <= |stream|
      invariant Valid(s)
      invariant Reply(stream, command) == WaitFrom(s, stream[i..], command)
    {
      assert stream[i..][1..] == stream[i + 1..];
      var p := ParsePacket(s, stream[i]);
      if p.ret == Some(true) && p.state.data[3] == command {
        CompletionIsWellFramed(s, stream[i]);
        return Some(p.state.data), i + 1;
      }
      s := p.state;
      i := i + 1;
    }
    return None, |stream|;
  }

  lemma ConcatAssoc(a: seq<uint8>, b: seq<uint8>, c: seq<uint8>)
    ensures a + b + c == a + (b + c)
  {
  }

  lemma ConsumeOne(p: seq<uint8>, k: nat, rest: seq<uint8>)
    requires k < |p|
    ensures (p[k..] + rest)[0] == p[k]
    ensures (p[k..] + rest)[1..] == p[k + 1..] + rest
  {
  }

  /** A well-framed frame fed from stage 0 is handed back whole when it
      carries the command, and otherwise passed over, leaving the parser in
      stage 0 for whatever follows. */
  lemma {:induction false} WaitThroughFrame(s: ParserState, p: seq<uint8>, rest: seq<uint8>, command: int, k: nat)
    requires Valid(s) && s.stage == AwaitStart
    requires WellFramed(p) && k < |p|
    ensures Feed(s, p).stage == AwaitStart
    ensures WaitFrom(Feed(s, p[..k]), p[k..] + rest, command)
         == if p[3] == command then Some(p) else WaitFrom(Feed(s, p), rest, command)
    decreases |p| - k
  {
    assert Framed(p) && CrcOk(p);
    FeedFrame(s, p, k);
    FeedFrame(s, p, k + 1);
    FeedFrame(s, p, |p|);
    assert p[..|p|] == p;
    FeedSnoc(s, p, k);
    FedPrefixStep(p, k, Feed(s, p[..k]));
    ConsumeOne(p, k, rest);
    if k + 1 < |p| {
      WaitThroughFrame(s, p, rest, command, k + 1);
    } else {
      assert p[k + 1..] + rest == rest;
      assert p[..k + 1] == p;
    }
  }

  lemma WaitFrame(s: ParserState, p: seq<uint8>, rest: seq<uint8>, command: int)
    requires Valid(s) && s.stage == AwaitStart
    requires WellFramed(p)
    ensures Feed(s, p).stage == AwaitStart
    ensures WaitFrom(s, p + rest, command) == if p[3] == command then Some(p) else WaitFrom(Feed(s, p), rest, command)
  {
    WaitThroughFrame(s, p, rest, command, 0);
    assert p[..0] == [] && p[0..] == p;
  }

  /** The sensor answering with exactly the frame `buildPacket` makes for
      the command is read back as that frame, whatever follows it. */
  lemma ReplyToBuiltFrame(command: uint8, write: int, data: seq<uint8>, rest: seq<uint8>)
    requires |data| + 1 <= 1017
    ensures Reply(BuildPacket(command, write, data) + rest, command) == Some(BuildPacket(command, write, data))
  {
    BuildIsWellFramed(command, write, data);
    WaitFrame(Reset, BuildPacket(command, write, data), rest, command);
  }

  /** A valid frame for a different command is skipped: the reply is the
      next frame, the one for the command waited for. */
  lemma ReplySkipsOtherCommand(other: uint8, command: uint8, w1: int, d1: seq<uint8>, w2: int, d2: seq<uint8>, rest: seq<uint8>)
    requires other != command
    requires |d1| + 1 <= 1017 && |d2| + 1 <= 1017
    ensures Reply(BuildPacket(other, w1, d1) + BuildPacket(command, w2, d2) + rest, command)
         == Some(BuildPacket(command, w2, d2))
  {
    var q := BuildPacket(other, w1, d1);
    var p := BuildPacket(command, w2, d2);
    BuildIsWellFramed(other, w1, d1);
    BuildIsWellFramed(command, w2, d2);
    ConcatAssoc(q, p, rest);
    WaitFrame(Reset, q, p + rest, command);
    WaitFrame(Feed(Reset, q), p, rest, command);
  }

  // ---------------------------------------------------------------------
  // executeCommand

  /** The bytes the sensor sends during attempt `k`; attempts the caller
      does not describe receive nothing. */
  function Attempt(attempts: seq<seq<uint8>>, k: nat): seq<uint8>
  {
    if k < |attempts| then attempts[k] else []
  }

  const MaxAttempts := 4

  /** The first `n` attempts all time out. */
  predicate Silent(attempts: seq<seq<uint8>>, command: int, n: nat)
  {
    forall k :: 0 <= k < n ==> Reply(Attempt(attempts, k), command).None?
  }

  lemma SilentSnoc(attempts: seq<seq<uint8>>, command: int, n: nat)
    requires Silent(attempts, command, n) && Reply(Attempt(attempts, n), command).None?
    ensures Silent(attempts, command, n + 1)
  {
  }

  /** The wait-and-retry loop of `executeCommand`: after each write, wait
      for the reply; at most four writes in all. It returns the first reply
      and raises once four waits have come back empty; it never returns
      `None`. `writes` is the number of writes. */
  method Retry(command: uint8, attempts: seq<seq<uint8>>) returns (r: Result<seq<uint8>>, writes: nat)
    ensures 1 <= writes <= MaxAttempts
    ensures Silent(attempts, command, writes - 1)
    ensures r.Ok? ==> Reply(Attempt(attempts, writes - 1), command) == Some(r.value)
    ensures r.Ok? ==> WellFramed(r.value) && r.value[3] == command
    ensures r.Err? ==> r == Err(NoResponse) && writes == MaxAttempts
    ensures r.Err? <==> Silent(attempts, command, MaxAttempts)
  {
    var retries := MaxAttempts;
    writes := 0;
    while retries > 0
      invariant 0 <= retries <= MaxAttempts
      invariant writes + retries == MaxAttempts
      invariant Silent(attempts, command, writes)
    {
      var stream := Attempt(attempts, writes);
      var response, _ := WaitForPacket(command, stream);
      if response.Some? {
        retries := retries - 1;
        writes := writes + 1;
        return Ok(response.value), writes;
      }
      SilentSnoc(attempts, command, writes);
      retries := retries - 1;
      writes := writes + 1;
    }
    return Err(NoResponse), writes;
  }

  /** `executeCommand(port, command, write, data)`: build the request frame,
      then write it and wait for the reply, retrying as above. `packet` is
      the frame written to the port on every attempt. */
  method ExecuteCommand(command: uint8, write: int, data: seq<uint8>, attempts: seq<seq<uint8>>)
    returns (r: Result<seq<uint8>>, packet: seq<uint8>, writes: nat)
    ensures packet == BuildPacket(command, write, data)
    ensures 1 <= writes <= MaxAttempts
    ensures Silent(attempts, command, writes - 1)
    ensures r.Ok? ==> Reply(Attempt(attempts, writes - 1), command) == Some(r.value)
    ensures r.Ok? ==> WellFramed(r.value) && r.value[3] == command
    ensures r.Err? ==> r == Err(NoResponse) && writes == MaxAttempts
    ensures r.Err? <==> Silent(attempts, command, MaxAttempts)
  {
    packet := BuildPacket(command, write, data);
    r, writes := Retry(command, attempts);
  }

  // ---------------------------------------------------------------------
  // Configuration commands.

  /** One `executeCommand(port, command, write, payload)` call. The payload
      is a list of Python integers; `buildPacket` turns the frame into a
      `bytearray`, which raises `ValueError` unless every element is a byte. */
  datatype Request = Request(command: uint8, write: int, payload: seq<int>)

  /** The frame written for a request, or the `ValueError` of `bytearray`. */
  function Encode(req: Request): (r: Result<seq<uint8>>)
    ensures r.Ok? <==> AllBytes(req.payload)
    ensures r.Ok? ==> r.value == BuildPacket(req.command, req.write, req.payload)
  {
    if AllBytes(req.payload) then Ok(BuildPacket(req.command, req.write, req.payload))
    else Err(ValueError)
  }

  /** The requests `initLiDARSystem` issues, in order, and the error that
      ends it early, if any. The IEEE-754 bit strings of the two scan angles
      (`float_to_bin`) are inputs here. */
  datatype InitPlan = InitPlan(requests: seq<Request>, failure: Option<PyError>)

  function InitLiDARSystem(enable: int, update: int, speed: int, highWord: string, lowWord: string): (r: InitPlan)
    ensures |r.requests| >= 4
    ensures r.requests[0] == Request(0, 0, [])
    ensures r.requests[1] == Request(96, 1, [enable])
    ensures r.requests[2] == Request(66, 1, [update])
    ensures r.requests[3] == Request(27, 1, [8, 1, 0, 0])
    ensures enable != 1 ==> r == InitPlan(r.requests[..4], None)
    ensures enable == 1 && 0 <= speed < 0x10000 ==>
      |r.requests| >= 5 && r.requests[4] == Request(85, 1, [speed % 256, speed / 256])
    ensures enable == 1 ==> (r.failure.None? <==> SplitWord(highWord).Ok? && SplitWord(lowWord).Ok?)
    ensures enable == 1 && r.failure.None? ==>
      && |r.requests| == 7
      && r.requests[5] == AngleRequest(99, SplitWord(highWord).value)
      && r.requests[6] == AngleRequest(98, SplitWord(lowWord).value)
  {
    var base := [Request(0, 0, []), Request(96, 1, [enable]), Request(66, 1, [update]), Request(27, 1, [8, 1, 0, 0])];
    if enable != 1 then InitPlan(base, None)
    else
      var (msbs, lsbs) := ConvertSpeed(speed).value;
      assert 0 <= speed < 0x10000 ==> (msbs, lsbs) == (speed / 256, speed % 256) by {
        if 0 <= speed < 0x10000 {
          ConvertSpeedBytes(speed);
        }
      }
      var withSpeed := base + [Request(85, 1, [lsbs, msbs])];
      AngleRequests(withSpeed, highWord, lowWord)
  }

  /** A scan-angle request: the four bytes of the word, `msb, lsb, dk1, dk2`
      as `High_bin_to_Dec` returns them, sent as `[dk1, dk2, lsb, msb]`. */
  function AngleRequest(command: uint8, word: (int, int, int, int)): Request
  {
    Request(command, 1, [word.2, word.3, word.1, word.0])
  }

  /** The two scan-angle requests that end `initLiDARSystem`, each sent only
      when its bit string splits into four bytes. */
  function AngleRequests(sent: seq<Request>, highWord: string, lowWord: string): (r: InitPlan)
    ensures |sent| <= |r.requests| <= |sent| + 2
    ensures forall i :: 0 <= i < |sent| ==> r.requests[i] == sent[i]
    ensures r.failure.None? <==> SplitWord(highWord).Ok? && SplitWord(lowWord).Ok?
    ensures r.failure.None? ==>
      && |r.requests| == |sent| + 2
      && r.requests[|sent|] == AngleRequest(99, SplitWord(highWord).value)
      && r.requests[|sent| + 1] == AngleRequest(98, SplitWord(lowWord).value)
  {
    match SplitWord(highWord)
    case Err(e) => InitPlan(sent, Some(e))
    case Ok(high) =>
      var withHigh := sent + [AngleRequest(99, high)];
      match SplitWord(lowWord)
      case Err(e) => InitPlan(withHigh, Some(e))
      case Ok(low) => InitPlan(withHigh + [AngleRequest(98, low)], None)
  }

  /** With the bit strings `float_to_bin` produces (32 binary digits), the
      scan-angle payloads hold the word's bytes least significant first. */
  lemma InitAnglePayloads(speed: int, highWord: string, lowWord: string)
    requires |highWord| == 32 && AllBinDigits(highWord)
    requires |lowWord| == 32 && AllBinDigits(lowWord)
    ensures var r := InitLiDARSystem(1, 12, speed, highWord, lowWord);
      && r.failure.None? && |r.requests| == 7
      && AllBytes(r.requests[5].payload) && AllBytes(r.requests[6].payload)
      && (var p := r.requests[5].payload;
          p[3] * 0x100_0000 + p[2] * 0x1_0000 + p[0] * 0x100 + p[1] == BinValue(highWord))
      && (var q := r.requests[6].payload;
          q[3] * 0x100_0000 + q[2] * 0x1_0000 + q[0] * 0x100 + q[1] == BinValue(lowWord))
  {
    AngleRequestValue(99, highWord);
    AngleRequestValue(98, lowWord);
  }

  /** The payload of a scan-angle request built from 32 binary digits is
      four bytes that recombine to the digits' value. */
  lemma AngleRequestValue(command: uint8, word: string)
    requires |word| == 32 && AllBinDigits(word)
    ensures SplitWord(word).Ok?
    ensures var p := AngleRequest(command, SplitWord(word).value).payload;
      && |p| == 4 && AllBytes(p)
      && p[3] * 0x100_0000 + p[2] * 0x1_0000 + p[0] * 0x100 + p[1] == BinValue(word)
  {
    SplitWordValue(word);
  }

  /** `set_update_rate(value)`: rejects values outside 1..12, and for every
      accepted value sends command 66 with the fixed payload `[3]`. */
  function SetUpdateRate(value: int): (r: Result<Request>)
    ensures r.Err? <==> value < 1 || value > 12
    ensures r.Err? ==> r.error == InvalidArgument
    ensures r.Ok? ==> r.value == Request(66, 1, [3])
  {
    if value < 1 || value > 12 then Err(InvalidArgument) else Ok(Request(66, 1, [3]))
  }

  /** The argument of `set_update_rate` only decides whether the call is
      accepted; it never reaches the sensor. */
  lemma UpdateRateIgnoresValue(a: int, b: int)
    requires 1 <= a <= 12 && 1 <= b <= 12
    ensures SetUpdateRate(a) == SetUpdateRate(b)
  {
  }

  /** `set_default_distance_output(use_last_return)`: command 27 selecting
      last-return or first-return raw distance, plus yaw angle. */
  function SetDefaultDistanceOutput(useLastReturn: bool): (r: Request)
    ensures r.command == 27 && r.write == 1 && |r.payload| == 4 && AllBytes(r.payload)
    ensures r.payload[1..] == [1, 0, 0]
    ensures r.payload[0] == 1 <==> useLastReturn
    ensures !useLastReturn ==> r == InitLiDARSystem(0, 0, 0, "", "").requests[3]
  {
    Request(27, 1, if useLastReturn then [1, 1, 0, 0] else [8, 1, 0, 0])
  }

  /** One request as `executeCommand` performs it: the `ValueError` of a
      payload that is not a list of bytes, otherwise the reply to the frame
      or `NoResponse` after the last attempt. */
  method Issue(req: Request, attempts: seq<seq<uint8>>) returns (r: Result<seq<uint8>>)
    ensures r.Err? <==> !AllBytes(req.payload) || Silent(attempts, req.command, MaxAttempts)
    ensures r.Err? ==> r.error == (if AllBytes(req.payload) then NoResponse else ValueError)
    ensures r.Ok? ==> WellFramed(r.value) && r.value[3] == req.command
  {
    var frame := Encode(req);
    if frame.Err? {
      return Err(ValueError);
    }
    var packet, writes;
    r, packet, writes := ExecuteCommand(req.command, req.write, req.payload, attempts);
  }

  /** Issue a list of requests in order, as `initLiDARSystem` and the scripts
      do with consecutive `executeCommand` calls; the first error ends the
      sequence. `attempts[i]` is what the sensor sends for request `i`. */
  method RunRequests(requests: seq<Request>, attempts: seq<seq<seq<uint8>>>)
    returns (r: Result<seq<seq<uint8>>>)
    ensures r.Ok? ==> |r.value| == |requests|
    ensures r.Ok? ==> forall i :: 0 <= i < |requests| ==> AllBytes(requests[i].payload)
    ensures r.Ok? ==> forall i :: 0 <= i < |requests| ==> WellFramed(r.value[i]) && r.value[i][3] == requests[i].command
    ensures r.Err? ==> r.error == ValueError || r.error == NoResponse
    ensures r.Err? && (forall i :: 0 <= i < |requests| ==> AllBytes(requests[i].payload)) ==> r.error == NoResponse
  {
    var replies: seq<seq<uint8>> := [];
    var i := 0;
    while i < |requests|
      invariant 0 <= i <= |requests|
      invariant |replies| == i
      invariant forall k :: 0 <= k < i ==> AllBytes(requests[k].payload)
      invariant forall k :: 0 <= k < i ==> WellFramed(replies[k]) && replies[k][3] == requests[k].command
    {
      var reply := Issue(requests[i], if i < |attempts| then attempts[i] else []);
      if reply.Err? {
        return Err(reply.error);
      }
      replies := replies + [reply.value];
      i := i + 1;
    }
    return Ok(replies);
  }
}
