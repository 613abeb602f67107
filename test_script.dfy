/** test_fridge.py, the stand-alone test script: its own copies of
    `create_packet` and `parse_frame`, a stateless `notification_handler`
    that only decodes, the set-temperature command frame, the literal query
    frame it writes, and a `connect_with_retry` that ends the process after
    the last failed attempt. Each is related to its counterpart in
    domoticz_fridge_control.py. */
module TestScript {
  import opened Wrappers
  import opened Bytes
  import FrameCodec
  import Telemetry
  import ConnectRetry

  /** The query frame written verbatim by `set_temperature` and `main`. */
  const QueryFrame: seq<Byte> := [0xFE, 0xFE, 0x03, 0x01, 0x02, 0x00]

  /** `create_packet(data)`. */
  function CreatePacket(data: seq<Byte>): (r: Result<seq<Byte>, FrameCodec.CodecError>)
    ensures r.Failure? <==> |data| + 2 > 255
  {
    if |data| + 2 > 255 then Failure(FrameCodec.LengthByteOverflow)
    else
      var pkt := [0xFE, 0xFE, |data| + 2] + data;
      Success(pkt + BigEndian16(Sum(pkt) % 0x1_0000))
  }

  /** Python's `s[start:stop]` for non-negative bounds: both bounds are cut
      to the length, and a stop at or before the start gives nothing. */
  function PySlice(s: seq<Byte>, start: nat, stop: nat): (r: seq<Byte>)
    ensures |r| == if Min(stop, |s|) > Min(start, |s|) then Min(stop, |s|) - Min(start, |s|) else 0
    ensures forall i :: 0 <= i < |r| ==> r[i] == s[start + i]
  {
    var a, b := Min(start, |s|), Min(stop, |s|);
    if b <= a then [] else s[a..b]
  }

  /** `parse_frame(data)`: `data[4 : 4 + length - 3]`, which is empty when
      the length byte is at most 3 (the stop `length + 1` is then at most 4). */
  function ParseFrame(data: seq<Byte>): (r: Result<(Byte, seq<Byte>), FrameCodec.CodecError>)
    ensures r.Failure? <==> |data| < 4
  {
    if |data| < 4 then Failure(FrameCodec.Truncated)
    else
      var length := data[2];
      var cmd := data[3];
      var payload := PySlice(data, 4, 4 + length as int - 3);
      Success((cmd, payload))
  }

  /** Both scripts build the same packet for every input. */
  lemma CreatePacketAgrees(data: seq<Byte>)
    ensures CreatePacket(data) == FrameCodec.CreatePacket(data)
  {
    if |data| + 2 <= 255 {
      assert [0xFE, 0xFE, |data| + 2] + data == FrameCodec.Header + [|data| + 2] + data;
    }
  }

  /** The two parsers, written differently, agree on every input; in
      particular this one's payload is empty whenever the length byte is at
      most 3. */
  lemma ParseFrameAgrees(data: seq<Byte>)
    ensures ParseFrame(data) == FrameCodec.ParseFrame(data)
    ensures |data| >= 4 && data[2] <= 3 ==> ParseFrame(data).value.1 == []
  {
  }

  /** Round trip through this script's codec. */
  lemma RoundTrip(cmd: Byte, payload: seq<Byte>)
    requires |payload| + 3 <= 255
    ensures CreatePacket([cmd] + payload).Success?
    ensures ParseFrame(CreatePacket([cmd] + payload).value) == Success((cmd, payload))
  {
    CreatePacketAgrees([cmd] + payload);
    FrameCodec.RoundTrip(cmd, payload);
    ParseFrameAgrees(CreatePacket([cmd] + payload).value);
  }

  /** The hard-coded query frame is the packet of the query command. */
  lemma QueryFrameIsQueryPacket()
    ensures CreatePacket([Telemetry.QueryCmd]) == Success(QueryFrame)
  {
    CreatePacketAgrees([Telemetry.QueryCmd]);
    FrameCodec.QueryPacketLiteral();
  }

  /** `create_packet(bytes([0x05, struct.pack('b', temp)[0]]))`; the
      packing raises for a temperature outside -128..127. */
  function SetCommandFrame(temp: int): (r: Option<seq<Byte>>)
    ensures r.Some? <==> -128 <= temp <= 127
  {
    match SignedByte(temp)
    case None => None
    case Some(b) => Some(CreatePacket([Telemetry.SetTargetCmd, b]).value)
  }

  /** Both scripts send the same set command for every temperature the
      packing accepts. */
  lemma SetCommandFrameAgrees(temp: int)
    requires -128 <= temp <= 127
    ensures SetCommandFrame(temp)
      == Some(FrameCodec.CreatePacket([Telemetry.SetTargetCmd, SignedByte(temp).value]).value)
  {
    CreatePacketAgrees([Telemetry.SetTargetCmd, SignedByte(temp).value]);
  }

  /** The set command carries `temp` as the single payload byte. */
  lemma SetCommandCarriesTemp(temp: int)
    requires -128 <= temp <= 127
    ensures var f := SetCommandFrame(temp).value;
      && |f| == 7
      && ParseFrame(f).Success?
      && ParseFrame(f).value.0 == Telemetry.SetTargetCmd
      && |ParseFrame(f).value.1| == 1
      && Signed(ParseFrame(f).value.1[0]) == temp
  {
    var b := SignedByte(temp).value;
    assert [Telemetry.SetTargetCmd] + [b] == [Telemetry.SetTargetCmd, b];
    RoundTrip(Telemetry.SetTargetCmd, [b]);
  }

  /** What the test script's handler does with a notification. */
  datatype Display =
    | ShowReading(reading: Telemetry.Reading)
    | ShowEcho(payload: seq<Byte>)
    | Silent
    | Raised  // IndexError escaped the callback

  /** `notification_handler(_, data)`: decode and display, keep nothing. */
  function NotificationHandler(frame: seq<Byte>): (d: Display)
    ensures d.ShowReading? <==> |frame| >= 22 && frame[2] >= 21 && frame[3] == Telemetry.QueryCmd
    ensures d.ShowEcho? <==> |frame| >= 4 && frame[3] == Telemetry.SetTargetCmd
    ensures |frame| < 4 ==> d.Raised?
  {
    ParseFrameAgrees(frame);
    match ParseFrame(frame)
    case Failure(_) => Raised
    case Success((cmd, payload)) =>
      if cmd == Telemetry.QueryCmd then
        match Telemetry.DecodeQueryResponse(payload)
        case Some(r) => ShowReading(r)
        case None => Raised
      else if cmd == Telemetry.SetTargetCmd then ShowEcho(payload)
      else Silent
  }

  /** The test script reads exactly the readings the synchronising script
      acts on. It raises on a frame too short to parse, where both scripts
      raise, and on a short query response, which the synchronising script
      catches and otherwise ignores. */
  lemma HandlerAgrees(frame: seq<Byte>)
    ensures var d := NotificationHandler(frame);
      match Telemetry.Classify(frame)
      case QueryResponse(r) => d == ShowReading(r)
      case ShortQueryResponse(_) => d == Raised
      case Unparsable => d == Raised
      case SetTargetAck(p) => d == ShowEcho(p)
      case OtherCommand(_, _) => d == Silent
  {
    ParseFrameAgrees(frame);
  }

  // ---------------------------------------------------------------- retry

  /** Attempt number `attempt` of `connect_with_retry(max_attempts)` and
      everything after it. */
  function AttemptFrom(ok: seq<bool>, maxAttempts: int, attempt: nat): (c: ConnectRetry.Connect)
    requires maxAttempts <= |ok|
    ensures attempt < maxAttempts ==>
      && 1 <= c.attempts <= maxAttempts - attempt
      && c.sleeps == c.attempts - 1
      && !c.end.NoClient?
    ensures c.end.Client? ==> c.end.attempt < |ok| && ok[c.end.attempt] && c.end.attempt == attempt + c.attempts - 1
    ensures c.end.ProcessExit? ==> c.end.status == 1 && c.attempts == maxAttempts - attempt
    decreases maxAttempts - attempt
  {
    if attempt >= maxAttempts then ConnectRetry.Connect(0, 0, ConnectRetry.NoClient)
    else if ok[attempt] then ConnectRetry.Connect(1, 0, ConnectRetry.Client(attempt))
    else if attempt < maxAttempts - 1 then
      var rest := AttemptFrom(ok, maxAttempts, attempt + 1);
      ConnectRetry.Connect(rest.attempts + 1, rest.sleeps + 1, rest.end)
    else ConnectRetry.Connect(1, 0, ConnectRetry.ProcessExit(1))
  }

  /** `connect_with_retry(max_attempts)`; with no attempt allowed the loop
      body never runs and the function falls through to None. */
  function ConnectWithRetry(ok: seq<bool>, maxAttempts: int): (c: ConnectRetry.Connect)
    requires maxAttempts <= |ok|
    ensures c.attempts <= ConnectRetry.Budget(maxAttempts)
    ensures c.end.NoClient? <==> maxAttempts <= 0
    ensures c.end.ProcessExit? ==> c.end.status == 1 && c.attempts == maxAttempts && c.sleeps == maxAttempts - 1
  {
    AttemptFrom(ok, maxAttempts, 0)
  }

  lemma {:induction false} AttemptFromSpec(ok: seq<bool>, maxAttempts: int, attempt: nat)
    requires maxAttempts <= |ok| && attempt < maxAttempts
    requires forall j :: 0 <= j < attempt ==> !ok[j]
    ensures var k := ConnectRetry.FirstSuccess(ok, maxAttempts);
      AttemptFrom(ok, maxAttempts, attempt) ==
        if k < maxAttempts then ConnectRetry.Connect(k + 1 - attempt, k - attempt, ConnectRetry.Client(k))
        else ConnectRetry.Connect(maxAttempts - attempt, maxAttempts - attempt - 1, ConnectRetry.ProcessExit(1))
    decreases maxAttempts - attempt
  {
    var k := ConnectRetry.FirstSuccess(ok, maxAttempts);
    if ok[attempt] {
      assert k == attempt;
    } else if attempt < maxAttempts - 1 {
      AttemptFromSpec(ok, maxAttempts, attempt + 1);
    } else {
      assert k == maxAttempts;
    }
  }

  /** The test script retries exactly like the synchronising script, except
      that after the last failed attempt it ends the process with status 1
      instead of returning None. */
  lemma RetryAgrees(ok: seq<bool>, maxAttempts: int)
    requires maxAttempts <= |ok|
    ensures var main := ConnectRetry.RetryOutcome(ok, maxAttempts);
      ConnectWithRetry(ok, maxAttempts) ==
        if main.end.NoClient? && maxAttempts > 0
        then ConnectRetry.Connect(main.attempts, main.sleeps, ConnectRetry.ProcessExit(1))
        else main
  {
    if maxAttempts > 0 {
      AttemptFromSpec(ok, maxAttempts, 0);
    }
  }
}
