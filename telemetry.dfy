/** Decoding of inbound notifications into readings, as done at the top of
    `notification_handler` in domoticz_fridge_control.py: command 0x01 is a
    query response whose payload carries the readings at fixed offsets,
    command 0x05 is the echo that acknowledges a set-temperature command. */
module Telemetry {
  import opened Wrappers
  import opened Bytes
  import FrameCodec

  const QueryCmd: Byte := 0x01
  const SetTargetCmd: Byte := 0x05

  /** The fixed payload offsets of a query response. */
  const TargetOffset := 4
  const ActualOffset := 14
  const BatteryPercentOffset := 15
  const VoltageMajorOffset := 16
  const VoltageMinorOffset := 17

  datatype Reading = Reading(
    actualTemp: int,
    targetTemp: int,
    batteryPercent: Byte,
    batteryVoltage: string)

  // ---- decimal rendering, as Python's f"{n}" for a non-negative int ----

  predicate IsDigits(s: string)
  {
    forall i :: 0 <= i < |s| ==> '0' <= s[i] <= '9'
  }

  function DigitChar(d: nat): (c: char)
    requires d < 10
    ensures '0' <= c <= '9' && c as int - '0' as int == d
  {
    ('0' as int + d) as char
  }

  /** `f"{n}"`: the decimal digits of `n`, most significant first. */
  function DecimalString(n: nat): (s: string)
    ensures |s| >= 1 && IsDigits(s)
    ensures |s| > 1 ==> s[0] != '0'
    ensures n < 10 ==> |s| == 1
    ensures n < 100 ==> |s| <= 2
    ensures n < 1000 ==> |s| <= 3
    decreases n
  {
    if n < 10 then [DigitChar(n)] else DecimalString(n / 10) + [DigitChar(n % 10)]
  }

  /** The number a string of decimal digits denotes. */
  function DigitsValue(s: string): nat
    requires IsDigits(s)
  {
    if s == [] then 0
    else DigitsValue(s[..|s| - 1]) * 10 + (s[|s| - 1] as int - '0' as int)
  }

  lemma {:induction false} DecimalRoundTrip(n: nat)
    ensures DigitsValue(DecimalString(n)) == n
    decreases n
  {
    if n >= 10 {
      var s := DecimalString(n / 10);
      DecimalRoundTrip(n / 10);
      assert (s + [DigitChar(n % 10)])[..|s|] == s;
    }
  }

  /** `f"{payload[16]}.{payload[17]}"`. */
  function VoltageString(major: Byte, minor: Byte): (v: string)
    ensures 3 <= |v| <= 7
    ensures DotIndex(v) == |DecimalString(major)| < |v|
  {
    var a := DecimalString(major);
    var v := a + "." + DecimalString(minor);
    assert v[|a|] == '.' && forall i :: 0 <= i < |a| ==> v[i] == a[i];
    v
  }

  /** Index of the first '.' in `s`, or |s| when there is none. */
  function DotIndex(s: string): (k: nat)
    ensures k <= |s|
    ensures k < |s| ==> s[k] == '.'
    ensures forall i :: 0 <= i < k ==> s[i] != '.'
  {
    if s == [] then 0 else if s[0] == '.' then 0 else 1 + DotIndex(s[1..])
  }

  /** Splits a voltage string back into its two numbers. */
  function ParseVoltage(v: string): Option<(nat, nat)>
  {
    var k := DotIndex(v);
    if k < |v| && IsDigits(v[..k]) && IsDigits(v[k + 1..]) then
      Some((DigitsValue(v[..k]), DigitsValue(v[k + 1..])))
    else None
  }

  /** The voltage rendering loses nothing: both bytes can be read back. */
  lemma VoltageRoundTrip(major: Byte, minor: Byte)
    ensures ParseVoltage(VoltageString(major, minor)) == Some((major as nat, minor as nat))
  {
    var a, b := DecimalString(major), DecimalString(minor);
    var v := VoltageString(major, minor);
    assert v[..|a|] == a;
    assert v[|a| + 1..] == b;
    DecimalRoundTrip(major);
    DecimalRoundTrip(minor);
  }

  /** The byte decoding of a query-response payload; every read of the
      source's `try` block succeeds exactly when the payload has 18 bytes. */
  function DecodeQueryResponse(payload: seq<Byte>): (r: Option<Reading>)
    ensures r.Some? <==> |payload| >= 18
    ensures r.Some? ==> -128 <= r.value.actualTemp <= 127 && -128 <= r.value.targetTemp <= 127
  {
    if |payload| < 18 then None
    else
      var actualTemp := Signed(payload[ActualOffset]);
      var targetTemp := Signed(payload[TargetOffset]);
      var batPercent := payload[BatteryPercentOffset];
      var batVol := VoltageString(payload[VoltageMajorOffset], payload[VoltageMinorOffset]);
      Some(Reading(actualTemp, targetTemp, batPercent, batVol))
  }

  /** Only the five fixed offsets of a long enough payload matter. */
  lemma DecodeReadsFixedOffsets(p: seq<Byte>, q: seq<Byte>)
    requires |p| >= 18 && |q| >= 18
    requires p[4] == q[4] && p[14] == q[14] && p[15] == q[15] && p[16] == q[16] && p[17] == q[17]
    ensures DecodeQueryResponse(p) == DecodeQueryResponse(q)
  {
  }

  /** The worked example: target byte 0xFC, actual 0x02, battery 0x55 and
      voltage digits 3 and 7. */
  lemma DecodeExample(p: seq<Byte>)
    requires |p| == 18
    requires p[4] == 0xFC && p[14] == 0x02 && p[15] == 0x55 && p[16] == 3 && p[17] == 7
    ensures DecodeQueryResponse(p) == Some(Reading(2, -4, 85, "3.7"))
  {
    assert DecimalString(3) == "3" && DecimalString(7) == "7";
    assert VoltageString(3, 7) == "3" + "." + "7" == "3.7";
  }

  /** What an inbound notification means to the handler. */
  datatype Event =
    | QueryResponse(reading: Reading)
    | ShortQueryResponse(payload: seq<Byte>)  // the try block raised IndexError
    | SetTargetAck(payload: seq<Byte>)
    | OtherCommand(cmd: Byte, payload: seq<Byte>)
    | Unparsable                              // parse_frame itself raised

  function Classify(frame: seq<Byte>): (e: Event)
    ensures e.Unparsable? <==> |frame| < 4
    ensures e.QueryResponse? <==> |frame| >= 22 && frame[2] >= 21 && frame[3] == QueryCmd
    ensures e.QueryResponse? ==>
      e.reading == DecodeQueryResponse(frame[4..Min(frame[2] as int + 1, |frame|)]).value
    ensures e.SetTargetAck? <==> |frame| >= 4 && frame[3] == SetTargetCmd
  {
    match FrameCodec.ParseFrame(frame)
    case Failure(_) => Unparsable
    case Success((cmd, payload)) =>
      if cmd == QueryCmd then
        match DecodeQueryResponse(payload)
        case Some(r) => QueryResponse(r)
        case None => ShortQueryResponse(payload)
      else if cmd == SetTargetCmd then SetTargetAck(payload)
      else OtherCommand(cmd, payload)
  }

  /** A query response built with the frame codec is recognised as such and
      decoded from the payload it was built from. */
  lemma ClassifyQueryPacket(payload: seq<Byte>)
    requires 18 <= |payload| && |payload| + 3 <= 255
    ensures FrameCodec.CreatePacket([QueryCmd] + payload).Success?
    ensures Classify(FrameCodec.CreatePacket([QueryCmd] + payload).value)
         == QueryResponse(DecodeQueryResponse(payload).value)
  {
    FrameCodec.RoundTrip(QueryCmd, payload);
  }
}
