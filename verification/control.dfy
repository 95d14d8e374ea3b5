/** The rover's main program after start-up, as pure steps: the wait for
    the motor controller's calibration, then one iteration of the LiDAR
    loop at a time. Serial ports become inputs (the text line read, the
    sensor reply) and outputs (the messages written). */
module Control {
  import opened Common
  import opened PyText
  import opened SerialComms
  import opened Sensor
  import opened Algorithms

  /** A text written to the motor controller or to the radio. */
  datatype Message = ToArduino(text: string) | ToLoRa(text: string)

  /** A line from the motor controller as `readline().decode('utf-8')`
      delivers it: its text, or bytes that are not UTF-8, on which the
      decode raises `UnicodeDecodeError`, a kind of `ValueError`. */
  datatype Line = Text(text: string) | NotUtf8

  /** The program strips each line it reads before handing it to
      `parseDataPacket`, which strips it again; the first strip changes
      nothing, so the steps below parse the line as read. */
  lemma StripBeforeParse(raw: string)
    ensures ParseDataPacket(Strip(raw)) == ParseDataPacket(raw)
  {
    StripIdempotent(raw);
  }

  // ---------------------------------------------------------------------
  // Calibration wait.

  /** What one line read during the calibration wait does. */
  datatype Calibration = Calibration(done: bool, sent: seq<Message>)

  /** One pass of the calibration loop on the stripped line: an empty line
      does nothing; `C` with integer payload 1 ends the wait; `G` relays
      `'G' + payload` (no closing tag) to the radio; other tags do nothing.
      A malformed packet, or a `C` payload `int()` rejects, raises
      `ValueError`, which nothing catches. */
  function CalibrationStep(raw: string): (r: Result<Calibration>)
    ensures r.Err? ==> r.error == ValueError
    ensures r.Ok? ==> |r.value.sent| <= 1 && (r.value.done ==> r.value.sent == [])
  {
    if Strip(raw) == [] then Ok(Calibration(false, []))
    else
      match ParseDataPacket(raw)
      case Err(e) => Err(e)
      case Ok((tag, packet)) =>
        if tag == 'C' then
          match ParseInt(packet)
          case Err(e) => Err(e)
          case Ok(v) => Ok(Calibration(v == 1, []))
        else if tag == 'G' then Ok(Calibration(false, [ToLoRa(['G'] + packet)]))
        else Ok(Calibration(false, []))
  }

  /** The calibration step in terms of the packet parser: a blank line
      does nothing, the wait ends exactly on a `C` packet whose payload
      reads as 1, and exactly `G` packets are relayed. */
  lemma CalibrationStepReads(raw: string)
    ensures Strip(raw) == [] ==> CalibrationStep(raw) == Ok(Calibration(false, []))
    ensures var r := CalibrationStep(raw);
      r.Ok? && r.value.done <==>
        ParseDataPacket(raw).Ok? && ParseDataPacket(raw).value.0 == 'C' && ParseInt(ParseDataPacket(raw).value.1) == Ok(1)
    ensures var r := CalibrationStep(raw);
      r.Ok? && |r.value.sent| > 0 <==> ParseDataPacket(raw).Ok? && ParseDataPacket(raw).value.0 == 'G'
    ensures var r := CalibrationStep(raw);
      r.Ok? && |r.value.sent| > 0 ==> r.value.sent == [ToLoRa(['G'] + ParseDataPacket(raw).value.1)]
  {
  }

  /** The calibration loop, given what each line read does: from line
      `i` on, whether the wait ended (the lines may run out first), the
      number of lines read by then, and the messages relayed. */
  function Wait(steps: seq<Result<Calibration>>, i: nat): (r: Result<(bool, nat, seq<Message>)>)
    requires i <= |steps|
    ensures r.Ok? ==> i <= r.value.1 <= |steps|
    ensures r.Ok? && !r.value.0 ==> r.value.1 == |steps|
    ensures r.Err? ==> exists k :: i <= k < |steps| && steps[k] == Err(r.error)
    decreases |steps| - i
  {
    if i == |steps| then Ok((false, i, []))
    else if steps[i].Err? then Err(steps[i].error)
    else if steps[i].value.done then Ok((true, i + 1, steps[i].value.sent))
    else
      var rest := Wait(steps, i + 1);
      if rest.Err? then rest
      else Ok((rest.value.0, rest.value.1, steps[i].value.sent + rest.value.2))
  }

  /** The messages the lines `i` to `j` relay, in order. */
  function Relayed(steps: seq<Result<Calibration>>, i: nat, j: nat): seq<Message>
    requires i <= j <= |steps|
    decreases j - i
  {
    if i == j then []
    else (if steps[i].Ok? then steps[i].value.sent else []) + Relayed(steps, i + 1, j)
  }

  /** The wait relays exactly what the lines it read relay. */
  lemma {:induction false} WaitRelays(steps: seq<Result<Calibration>>, i: nat)
    requires i <= |steps|
    requires Wait(steps, i).Ok?
    ensures Wait(steps, i).value.2 == Relayed(steps, i, Wait(steps, i).value.1)
    decreases |steps| - i
  {
    if i < |steps| && !steps[i].value.done {
      WaitRelays(steps, i + 1);
    }
  }

  /** The wait ends on the first line that ends it and on nothing before
      it. */
  lemma {:induction false} WaitEndsAtFirstDone(steps: seq<Result<Calibration>>, i: nat)
    requires i <= |steps|
    requires Wait(steps, i).Ok? && Wait(steps, i).value.0
    ensures var used := Wait(steps, i).value.1;
      && i < used
      && steps[used - 1].Ok? && steps[used - 1].value.done
      && forall k :: i <= k < used - 1 ==> steps[k].Ok? && !steps[k].value.done
    decreases |steps| - i
  {
    if !steps[i].value.done {
      WaitEndsAtFirstDone(steps, i + 1);
    }
  }

  /** The wait stops at a line that raises when every line before it was
      read without ending the wait. */
  lemma {:induction false} WaitStopsAtError(steps: seq<Result<Calibration>>, i: nat, k: nat)
    requires i <= k < |steps| && steps[k].Err?
    requires forall j :: i <= j < k ==> steps[j].Ok? && !steps[j].value.done
    ensures Wait(steps, i) == Err(steps[k].error)
    decreases k - i
  {
    if i < k {
      WaitStopsAtError(steps, i + 1, k);
    }
  }

  /** A line read during the wait: the decode comes first, and a line that
      is not UTF-8 raises `ValueError` whatever it holds. */
  function CalibrationLine(line: Line): (r: Result<Calibration>)
    ensures line.NotUtf8? ==> r == Err(ValueError)
    ensures r.Err? ==> r.error == ValueError
  {
    match line
    case NotUtf8 => Err(ValueError)
    case Text(raw) => CalibrationStep(raw)
  }

  /** What each line read during the wait does. */
  function Outcomes(lines: seq<Line>): (r: seq<Result<Calibration>>)
    ensures |r| == |lines|
  {
    seq(|lines|, k requires 0 <= k < |lines| => CalibrationLine(lines[k]))
  }

  /** The outcome of line `k` is the calibration step on that line, once
      decoded. */
  lemma OutcomeOfLine(lines: seq<Line>, k: nat)
    requires k < |lines|
    ensures lines[k].Text? ==> Outcomes(lines)[k] == CalibrationStep(lines[k].text)
    ensures lines[k].NotUtf8? ==> Outcomes(lines)[k] == Err(ValueError)
  {
  }

  /** The calibration wait on the lines the motor controller sends. */
  function CalibrationWait(lines: seq<Line>): (r: Result<(bool, nat, seq<Message>)>)
    ensures r.Ok? ==> r.value.1 <= |lines|
    ensures r.Ok? && !r.value.0 ==> r.value.1 == |lines|
    ensures r.Err? ==> r.error == ValueError
  {
    Wait(Outcomes(lines), 0)
  }

  /** The wait ends on the first `C1C` packet and on nothing before it
      (the outcome of line `k` is `CalibrationLine(lines[k])`). */
  lemma CalibrationEndsAtFirstReady(lines: seq<Line>)
    requires CalibrationWait(lines).Ok? && CalibrationWait(lines).value.0
    ensures var used := CalibrationWait(lines).value.1;
      var steps := Outcomes(lines);
      && 0 < used
      && steps[used - 1].Ok? && steps[used - 1].value.done
      && forall k :: 0 <= k < used - 1 ==> steps[k].Ok? && !steps[k].value.done
  {
    var steps := Outcomes(lines);
    assert CalibrationWait(lines) == Wait(steps, 0);
    FirstDoneOf(steps, CalibrationWait(lines));
  }

  /** `WaitEndsAtFirstDone` from the start, for a result known to be the
      wait's. */
  lemma FirstDoneOf(steps: seq<Result<Calibration>>, w: Result<(bool, nat, seq<Message>)>)
    requires w == Wait(steps, 0) && w.Ok? && w.value.0
    ensures var used := w.value.1;
      && 0 < used <= |steps|
      && steps[used - 1].Ok? && steps[used - 1].value.done
      && forall k :: 0 <= k < used - 1 ==> steps[k].Ok? && !steps[k].value.done
  {
    WaitEndsAtFirstDone(steps, 0);
  }

  /** A line that is not UTF-8, read before the wait has ended, stops the
      wait with the `ValueError` of the decode, which nothing catches. */
  lemma UndecodableLineStopsWait(lines: seq<Line>, k: nat)
    requires k < |lines| && lines[k] == NotUtf8
    requires forall j :: 0 <= j < k ==> CalibrationLine(lines[j]).Ok? && !CalibrationLine(lines[j]).value.done
    ensures CalibrationWait(lines) == Err(ValueError)
  {
    var steps := Outcomes(lines);
    assert CalibrationWait(lines) == Wait(steps, 0);
    assert forall j :: 0 <= j < k ==> steps[j] == CalibrationLine(lines[j]);
    assert steps[k] == Err(ValueError);
    WaitStopsAtError(steps, 0, k);
  }

  /** Ready packets with surrounding whitespace or a payload `int()`
      still reads as 1 (`C 1C`, `C+1C`, `C01C`) end the wait too. */
  lemma ReadyPacket(pre: string, payload: string, post: string)
    requires AllSpace(pre) && AllSpace(post) && |payload| >= 1
    requires ParseInt(payload) == Ok(1)
    ensures CalibrationStep(pre + Frame('C', payload) + post) == Ok(Calibration(true, []))
  {
    var raw := pre + Frame('C', payload) + post;
    assert ParseDataPacket(raw) == Ok(('C', payload)) by {
      ParseFrame('C', payload, pre, post);
    }
    CalibrationStepReads(raw);
    assert CalibrationStep(raw).Ok? && CalibrationStep(raw).value.done;
  }

  /** A `C` packet whose payload `int()` rejects stops the wait with
      `ValueError`. */
  lemma BadReadyPayloadRaises(payload: string)
    requires |payload| >= 1 && ParseInt(payload).Err?
    ensures CalibrationStep(Frame('C', payload)) == Err(ValueError)
  {
    var raw := Frame('C', payload);
    BareFrameParses('C', payload);
    CalibrationStepReads(raw);
  }

  /** A ready packet whose payload carries more than 4300 digits does not
      end the wait, even when its value is 1: `int()` raises `ValueError`,
      which nothing catches. */
  lemma OverlongReadyRaises()
    ensures CalibrationStep(Frame('C', Zeros(MaxStrDigits) + "1")) == Err(ValueError)
  {
    OverlongOneRaises();
    BadReadyPayloadRaises(Zeros(MaxStrDigits) + "1");
  }

  // ---------------------------------------------------------------------
  // LiDAR loop.

  /** The loop variables that survive an iteration: the mode the motor
      controller selected and the obstacle flag (`'N'` or `'D'`). */
  datatype NavState = NavState(mode: int, flag: char)

  const Initial := NavState(0, 'N')

  /** One iteration: the new state, the messages written in order, and the
      exception that ends the loop, if any. */
  datatype Step = Step(state: NavState, sent: seq<Message>, error: Option<PyError>)

  /** What a line from the motor controller asks of the loop. */
  datatype Command = Nothing | SetMode(mode: int) | ClearFlag | Relay(text: string)

  /** The inbound line: a blank line or an unknown tag asks nothing, `M`
      sets the mode to `int(payload)`, `O` clears the obstacle flag, `G`
      is relayed to the radio as `'G' + payload`. A malformed packet or a
      mode `int()` rejects raises `ValueError`. */
  function ReadCommand(raw: string): (r: Result<Command>)
    ensures r.Err? ==> r.error == ValueError
    ensures r.Ok? && r.value.Relay? ==> |r.value.text| >= 2 && r.value.text[0] == 'G'
  {
    if Strip(raw) == [] then Ok(Nothing)
    else
      match ParseDataPacket(raw)
      case Err(e) => Err(e)
      case Ok((tag, packet)) =>
        if tag == 'M' then
          match ParseInt(packet)
          case Err(e) => Err(e)
          case Ok(mode) => Ok(SetMode(mode))
        else if tag == 'O' then Ok(ClearFlag)
        else if tag == 'G' then Ok(Relay(['G'] + packet))
        else Ok(Nothing)
  }

  /** The command read from a line, in terms of the packet parser. */
  lemma ReadCommandReads(raw: string)
    ensures Strip(raw) == [] ==> ReadCommand(raw) == Ok(Nothing)
    ensures var p := ParseDataPacket(raw);
      && (ReadCommand(raw).Err? <==> Strip(raw) != [] && (p.Err? || (p.value.0 == 'M' && ParseInt(p.value.1).Err?)))
      && (ReadCommand(raw) == Ok(ClearFlag) <==> p.Ok? && p.value.0 == 'O')
      && (ReadCommand(raw).Ok? && ReadCommand(raw).value.SetMode? <==> p.Ok? && p.value.0 == 'M' && ParseInt(p.value.1).Ok?)
      && (ReadCommand(raw).Ok? && ReadCommand(raw).value.SetMode? ==> ParseInt(p.value.1) == Ok(ReadCommand(raw).value.mode))
      && (ReadCommand(raw).Ok? && ReadCommand(raw).value.Relay? <==> p.Ok? && p.value.0 == 'G')
      && (ReadCommand(raw).Ok? && ReadCommand(raw).value.Relay? ==> ReadCommand(raw).value.text == ['G'] + p.value.1)
  {
  }

  /** `arduino.in_waiting > 0`: a waiting line is read and decoded,
      otherwise nothing is asked. A line that is not UTF-8 raises
      `ValueError` in the decode, before it is parsed. */
  function Incoming(inbound: Option<Line>): (r: Result<Command>)
    ensures inbound.None? ==> r == Ok(Nothing)
    ensures inbound == Some(NotUtf8) ==> r == Err(ValueError)
    ensures r.Err? ==> r.error == ValueError
  {
    match inbound
    case None => Ok(Nothing)
    case Some(NotUtf8) => Err(ValueError)
    case Some(Text(raw)) => ReadCommand(raw)
  }

  /** The four messages of an obstacle turn: the detection flag, the
      distance and the turn code to the motor controller, then the
      distance to the radio. */
  function ObstacleMessages(d: int, code: char): seq<Message>
  {
    [ ToArduino(Frame('C', "D")),
      ToArduino(Frame('C', IntToString(d))),
      ToArduino(Frame('C', [code])),
      ToLoRa("O" + IntToString(d) + " ") ]
  }

  /** What the loop does with one distance and angle after the inbound
      packet: obstacle handling first, then landmark honing in mode 1,
      else nothing. The angle reaches the landmark encoder as a float. */
  function Decide(s: NavState, d: int, theta: real): (r: Step)
    ensures IsObstacleDetected(d, theta, s.flag) ==> r.state.flag == 'D' && r.error.None?
    ensures !IsObstacleDetected(d, theta, s.flag) ==> r.state == s
    ensures !IsObstacleDetected(d, theta, s.flag) && s.mode != 1 ==> r == Step(s, [], None)
  {
    if IsObstacleDetected(d, theta, s.flag) then
      match EncodeObstacleAvoidance(d, theta)
      case None => Step(s.(flag := 'D'), [], None)
      case Some(code) => Step(NavState(0, 'D'), ObstacleMessages(d, code), None)
    else if s.mode == 1 then
      match EncodeLandmarkHoning(d, FloatNum(theta))
      case Err(e) => Step(s, [], Some(e))
      case Ok(code) => Step(s, [ToArduino(Frame('C', [code]))], None)
    else
      Step(s, [], None)
  }

  /** One iteration of `while True`: the command-44 reply (or the error of
      `executeCommand`), then the command read from the motor controller
      (`Ok(Nothing)` when no line waits), then the decision on the decoded
      sample. */
  function LoopStep(s: NavState, response: Result<seq<uint8>>, command: Result<Command>): (r: Step)
    ensures response.Err? ==> r == Step(s, [], Some(response.error))
    ensures response.Ok? && command.Err? ==> r == Step(s, [], Some(command.error))
    ensures response.Ok? && command.Ok? && |response.value| < 8 ==> r.error == Some(IndexError)
    ensures response.Ok? && command.Ok? && |response.value| >= 8 ==>
      var (d, theta) := ReadSignalData(response.value).value;
      var (s', relayed) := Obey(s, command.value);
      var step := Decide(s', d, theta);
      r == step.(sent := relayed + step.sent)
  {
    match response
    case Err(e) => Step(s, [], Some(e))
    case Ok(packet) =>
      match command
      case Err(e) => Step(s, [], Some(e))
      case Ok(cmd) =>
        var (s', relayed) := Obey(s, cmd);
        match ReadSignalData(packet)
        case Err(e) => Step(s', relayed, Some(e))
        case Ok((d, theta)) =>
          var step := Decide(s', d, theta);
          step.(sent := relayed + step.sent)
  }

  /** The effect of a command on the loop variables, and the relay it
      sends. */
  function Obey(s: NavState, cmd: Command): (r: (NavState, seq<Message>))
    ensures cmd.Nothing? ==> r == (s, [])
    ensures cmd.SetMode? ==> r == (s.(mode := cmd.mode), [])
    ensures cmd.ClearFlag? ==> r == (s.(flag := 'N'), [])
    ensures cmd.Relay? ==> r == (s, [ToLoRa(cmd.text)])
  {
    match cmd
    case Nothing => (s, [])
    case SetMode(mode) => (s.(mode := mode), [])
    case ClearFlag => (s.(flag := 'N'), [])
    case Relay(text) => (s, [ToLoRa(text)])
  }

  /** A `ValueError` is caught by the loop's handler and ends the program
      quietly; every other error leaves it with the exception. */
  predicate EndsQuietly(step: Step)
  {
    step.error == Some(ValueError)
  }

  // ---------------------------------------------------------------------
  // Properties of the loop.

  /** Obstacle detection pre-empts landmark honing: when it fires, the
      flag becomes `D` whatever the mode, and the messages are the obstacle
      turn, or none at all when the encoder has no code. */
  lemma ObstaclePreempts(s: NavState, d: int, theta: real)
    requires IsObstacleDetected(d, theta, s.flag)
    ensures var r := Decide(s, d, theta);
      && r.state.flag == 'D' && r.error.None?
      && (EncodeObstacleAvoidance(d, theta).None? ==> r.sent == [] && r.state.mode == s.mode)
      && (EncodeObstacleAvoidance(d, theta).Some? ==>
            r.state.mode == 0 && r.sent == ObstacleMessages(d, EncodeObstacleAvoidance(d, theta).value))
  {
  }

  /** Only an `O` packet clears the flag. */
  lemma OnlyOClearsFlag(s: NavState, response: Result<seq<uint8>>, raw: string)
    requires s.flag == 'D'
    requires LoopStep(s, response, ReadCommand(raw)).state.flag != 'D'
    ensures ParseDataPacket(raw).Ok? && ParseDataPacket(raw).value.0 == 'O'
  {
    var command := ReadCommand(raw);
    if command != Ok(ClearFlag) {
      FlagIsSticky(s, response, command);
    }
    assert command == Ok(ClearFlag);
    ReadCommandReads(raw);
  }

  /** A command read in an iteration governs that iteration's decision:
      an `M` line's mode is the one the sample is judged in, an `O` line
      re-arms obstacle detection at once, and a `G` relay goes out before
      anything the decision sends. */
  lemma CommandActsBeforeDecision(s: NavState, packet: seq<uint8>, cmd: Command)
    requires |packet| >= 8
    ensures var (d, theta) := ReadSignalData(packet).value;
      var r := LoopStep(s, Ok(packet), Ok(cmd));
      && (cmd.Nothing? ==> r == Decide(s, d, theta))
      && (cmd.SetMode? ==> r == Decide(NavState(cmd.mode, s.flag), d, theta))
      && (cmd.ClearFlag? ==> r == Decide(NavState(s.mode, 'N'), d, theta))
      && (cmd.Relay? ==>
            && r.state == Decide(s, d, theta).state
            && r.error == Decide(s, d, theta).error
            && r.sent == [ToLoRa(cmd.text)] + Decide(s, d, theta).sent)
  {
  }

  /** After an `O` line, a sample in the detection window is acted on
      whatever the flag was: the flag ends at `D`. */
  lemma ClearRearmsDetection(s: NavState, packet: seq<uint8>)
    requires |packet| >= 8
    requires var (d, theta) := ReadSignalData(packet).value; IsObstacleDetected(d, theta, 'N')
    ensures var r := LoopStep(s, Ok(packet), Ok(ClearFlag));
      r.state.flag == 'D' && r.error.None? && Detections(r.sent) <= 1
  {
    var (d, theta) := ReadSignalData(packet).value;
    CommandActsBeforeDecision(s, packet, ClearFlag);
    DecideDetections(NavState(s.mode, 'N'), d, theta);
  }

  /** In mode 1 without an obstacle, a landmark between 200 and 600 cm
      inside the 3-degree cone makes the landmark encoder raise
      `TypeError`, which the loop does not catch. */
  lemma LandmarkConeRaises(s: NavState, d: int, theta: real)
    requires s.mode == 1 && !IsObstacleDetected(d, theta, s.flag)
    requires 200 < d <= 600 && -3.0 <= theta <= 3.0
    ensures Decide(s, d, theta).error == Some(TypeError)
    ensures !EndsQuietly(Decide(s, d, theta))
  {
  }

  /** Outside the cone, mode 1 sends exactly one motor command. */
  lemma LandmarkSendsOneCommand(s: NavState, d: int, theta: real)
    requires s.mode == 1 && !IsObstacleDetected(d, theta, s.flag)
    requires d <= 200 || d > 600 || theta < -3.0 || theta > 3.0
    ensures var r := Decide(s, d, theta);
      r.error.None? && |r.sent| == 1
      && r.sent[0] == ToArduino(Frame('C', [EncodeLandmarkHoning(d, FloatNum(theta)).value]))
  {
  }

  /** A `M` packet whose payload is not an integer ends the loop quietly,
      before the sample is decoded. */
  lemma BadModeEndsLoop(s: NavState, packet: seq<uint8>, payload: string)
    requires |payload| >= 1 && ParseInt(payload).Err?
    ensures EndsQuietly(LoopStep(s, Ok(packet), Incoming(Some(Text(Frame('M', payload))))))
  {
    BadModeCommand(payload);
  }

  /** Every way the inbound line can fail (bytes that are not UTF-8, a
      malformed packet, a mode `int()` rejects) ends the loop quietly
      through the `ValueError` handler, with nothing sent and the loop
      variables as they were. */
  lemma InboundErrorsEndQuietly(s: NavState, packet: seq<uint8>, inbound: Option<Line>)
    requires Incoming(inbound).Err?
    ensures LoopStep(s, Ok(packet), Incoming(inbound)) == Step(s, [], Some(ValueError))
    ensures EndsQuietly(LoopStep(s, Ok(packet), Incoming(inbound)))
  {
  }

  /** A line that is not UTF-8 is one of those failures. */
  lemma UndecodableLineEndsLoop(s: NavState, packet: seq<uint8>)
    ensures EndsQuietly(LoopStep(s, Ok(packet), Incoming(Some(NotUtf8))))
  {
    InboundErrorsEndQuietly(s, packet, Some(NotUtf8));
  }

  /** When `executeCommand` gives up, its plain `Exception` passes every
      handler of `main()`: the iteration ends with nothing sent, but not
      quietly. */
  lemma ExecuteFailureEndsLoudly(s: NavState, command: Result<Command>)
    ensures var r := LoopStep(s, Err(NoResponse), command);
      r == Step(s, [], Some(NoResponse)) && !EndsQuietly(r)
  {
  }

  /** The loop starts in stand-by (mode 0) with the flag clear: with no
      inbound line and no obstacle in view, an iteration sends nothing and
      changes nothing. */
  lemma StandByAtStart(packet: seq<uint8>)
    requires |packet| >= 8
    requires var (d, theta) := ReadSignalData(packet).value; !IsObstacleDetected(d, theta, 'N')
    ensures LoopStep(Initial, Ok(packet), Incoming(None)) == Step(Initial, [], None)
  {
  }

  /** An `M` packet whose payload `int()` rejects makes the inbound command
      raise `ValueError`. */
  lemma BadModeCommand(payload: string)
    requires |payload| >= 1 && ParseInt(payload).Err?
    ensures ReadCommand(Frame('M', payload)) == Err(ValueError)
  {
    BareFrameParses('M', payload);
    FrameOfParse(Frame('M', payload));
  }

  /** The obstacle turn sends the distance the sensor measured as the
      payload of a `C` packet, and `int()` on that payload gives the
      distance back whenever `str` could write it (see
      `TurnDistanceFits`). */
  lemma DistanceMessageReadsBack(d: int, code: char)
    requires FitsStrLimit(d)
    ensures var m := ObstacleMessages(d, code)[1];
      && m.ToArduino?
      && ParseDataPacket(m.text) == Ok(('C', IntToString(d)))
      && ParseInt(IntToString(d)) == Ok(d)
  {
    FramedDistanceParses(d);
    ParseIntString(d);
  }

  /** An obstacle turn is the detection message, the distance packet
      (read back by `DistanceMessageReadsBack`), the turn code as a
      one-character `C` packet (read back by `BareFrameParses`), and the
      distance after an `O` to the radio. */
  lemma ObstacleMessagesReadBack(d: int, code: char)
    ensures var m := ObstacleMessages(d, code);
      && |m| == 4 && m[3] == ToLoRa("O" + IntToString(d) + " ")
      && Detections([m[0]]) == 1
      && m[2] == ToArduino(Frame('C', [code]))
  {
    var m := ObstacleMessages(d, code);
    assert [m[0]][..0] == [];
  }

  /** Every distance an obstacle turn sends lies between 400 and 550 cm,
      far inside the digit limit of `str` and `int`. */
  lemma TurnDistanceFits(d: int, theta: real)
    requires EncodeObstacleAvoidance(d, theta).Some?
    ensures FitsStrLimit(d)
  {
    NatDigitsBound(d, 3);
  }

  lemma FramedDistanceParses(d: int)
    ensures ParseDataPacket(Frame('C', IntToString(d))) == Ok(('C', IntToString(d)))
  {
    BareFrameParses('C', IntToString(d));
  }

  /** A framed packet parses back without any whitespace around it. */
  lemma BareFrameParses(tag: char, payload: string)
    requires !IsSpace(tag) && |payload| >= 1
    ensures ParseDataPacket(Frame(tag, payload)) == Ok((tag, payload))
  {
    var t := Frame(tag, payload);
    ParseFrame(tag, payload, [], []);
    Unpadded(t);
  }

  // ---------------------------------------------------------------------
  // The loop over many iterations.

  /** What one iteration reads: the reply to the command-44 request (or
      the error `executeCommand` raised), and the command read from the
      motor controller (see `Incoming`). */
  datatype Tick = Tick(response: Result<seq<uint8>>, command: Result<Command>)

  /** `while True` over the iterations given, up to the first exception:
      the final state, every message written in order, and the exception
      that ended the loop, if any. Apart from the sample decoder's
      `IndexError` and the landmark encoder's `TypeError`, an exception
      comes from a reply or a command read. */
  function Run(s: NavState, ticks: seq<Tick>): (r: Step)
    ensures r.error.None? ==> forall k :: 0 <= k < |ticks| ==> ticks[k].response.Ok? && ticks[k].command.Ok?
    ensures r.error.Some? && r.error.value != IndexError && r.error.value != TypeError ==>
      exists k :: 0 <= k < |ticks| && (ticks[k].response == Err(r.error.value) || ticks[k].command == Err(r.error.value))
    decreases |ticks|
  {
    if |ticks| == 0 then Step(s, [], None)
    else
      var step := LoopStep(s, ticks[0].response, ticks[0].command);
      if step.error.Some? then step
      else
        var rest := Run(step.state, ticks[1..]);
        assert forall k :: 1 <= k < |ticks| ==> ticks[k] == ticks[1..][k - 1];
        rest.(sent := step.sent + rest.sent)
  }

  /** The number of detection messages (`CDC`) among the messages sent. */
  function Detections(sent: seq<Message>): nat
  {
    if |sent| == 0 then 0
    else Detections(sent[..|sent| - 1]) + (if sent[|sent| - 1] == ToArduino(Frame('C', "D")) then 1 else 0)
  }

  lemma {:induction false} DetectionsAppend(a: seq<Message>, b: seq<Message>)
    ensures Detections(a + b) == Detections(a) + Detections(b)
    decreases |b|
  {
    if |b| > 0 {
      assert (a + b)[..|a + b| - 1] == a + b[..|b| - 1];
      DetectionsAppend(a, b[..|b| - 1]);
    } else {
      assert a + b == a;
    }
  }

  /** A one-character `C` packet is a detection message only for `D`. */
  lemma CodeMessage(c: char)
    ensures Detections([ToArduino(Frame('C', [c]))]) == (if c == 'D' then 1 else 0)
  {
    assert [ToArduino(Frame('C', [c]))][..0] == [];
    if c != 'D' {
      assert Frame('C', [c])[1] != Frame('C', "D")[1];
    }
  }

  /** An obstacle turn holds exactly one detection message. */
  lemma TurnHasOneDetection(d: int, code: char)
    requires code != 'D'
    ensures Detections(ObstacleMessages(d, code)) == 1
  {
    var m := ObstacleMessages(d, code);
    var digits := IntToString(d);
    assert m[1] != ToArduino(Frame('C', "D")) by {
      assert Frame('C', digits)[1..|digits| + 1] == digits;
    }
    assert m[2] != ToArduino(Frame('C', "D")) by {
      assert Frame('C', [code])[1] == code;
    }
    assert m == [m[0]] + [m[1]] + [m[2]] + [m[3]];
    DetectionsAppend([m[0]] + [m[1]] + [m[2]], [m[3]]);
    DetectionsAppend([m[0]] + [m[1]], [m[2]]);
    DetectionsAppend([m[0]], [m[1]]);
    assert [m[0]][..0] == [];
    assert [m[1]][..0] == [];
    assert [m[2]][..0] == [];
    assert [m[3]][..0] == [];
  }

  /** The decision sends at most one detection message, only while the
      flag is `N`, and leaves the flag set after it; a set flag stays
      set. */
  lemma DecideDetections(s: NavState, d: int, theta: real)
    ensures var r := Decide(s, d, theta);
      && Detections(r.sent) <= 1
      && (Detections(r.sent) == 1 ==> s.flag == 'N' && r.state.flag == 'D')
      && (r.state.flag == s.flag || r.state.flag == 'D')
  {
    if IsObstacleDetected(d, theta, s.flag) {
      var code := EncodeObstacleAvoidance(d, theta);
      if code.Some? {
        TurnHasOneDetection(d, code.value);
      }
    } else if s.mode == 1 {
      var code := EncodeLandmarkHoning(d, FloatNum(theta));
      if code.Ok? {
        CodeMessage(code.value);
      }
    }
  }

  /** Unless the motor controller clears the flag, an iteration sends at
      most one detection message, only while the flag is `N`, and leaves
      the flag set after it; a set flag stays set. */
  lemma FlagIsSticky(s: NavState, response: Result<seq<uint8>>, command: Result<Command>)
    requires command != Ok(ClearFlag)
    ensures var r := LoopStep(s, response, command);
      && Detections(r.sent) <= 1
      && (Detections(r.sent) == 1 ==> s.flag == 'N' && r.state.flag == 'D')
      && (r.state.flag == s.flag || r.state.flag == 'D')
  {
    if response.Ok? && command.Ok? {
      var (s', relayed) := Obey(s, command.value);
      assert s'.flag == s.flag;
      assert Detections(relayed) == 0 by {
        if relayed != [] {
          assert relayed[..0] == [];
        }
      }
      var sample := ReadSignalData(response.value);
      if sample.Ok? {
        var (d, theta) := sample.value;
        var step := Decide(s', d, theta);
        DecideDetections(s', d, theta);
        DetectionsAppend(relayed, step.sent);
      }
    }
  }

  /** Without an `O` packet from the motor controller, the loop turns away
      from at most one obstacle, however long it runs, and from none once
      the flag is set. */
  lemma {:induction false} AtMostOneTurnWithoutClear(s: NavState, ticks: seq<Tick>)
    requires forall k :: 0 <= k < |ticks| ==> ticks[k].command != Ok(ClearFlag)
    ensures Detections(Run(s, ticks).sent) <= (if s.flag == 'D' then 0 else 1)
    decreases |ticks|
  {
    if |ticks| > 0 {
      var step := LoopStep(s, ticks[0].response, ticks[0].command);
      FlagIsSticky(s, ticks[0].response, ticks[0].command);
      if step.error.None? {
        var rest := Run(step.state, ticks[1..]);
        assert forall k :: 0 <= k < |ticks| - 1 ==> ticks[1..][k] == ticks[k + 1];
        AtMostOneTurnWithoutClear(step.state, ticks[1..]);
        DetectionsAppend(step.sent, rest.sent);
      }
    }
  }

  /** From the start of the loop, without an `O` packet, the rover turns
      away from at most one obstacle. */
  lemma OneTurnFromStart(ticks: seq<Tick>)
    requires forall k :: 0 <= k < |ticks| ==> ticks[k].command != Ok(ClearFlag)
    ensures Detections(Run(Initial, ticks).sent) <= 1
  {
    AtMostOneTurnWithoutClear(Initial, ticks);
  }
}
