/** The synchronisation state machine of domoticz_fridge_control.py: the
    module globals `current_known_setpoint`, `last_reported_fridge_temp` and
    `last_reported_fridge_target`, driven by `notification_handler`,
    `set_temperature` and one tick of `poll_domoticz_for_setpoint_changes`.

    The pure functions Notify, SetTemp and Tick say what one handler call does
    to the state; class Engine holds the globals and performs the same steps
    imperatively. Upstream pushes are recorded when they are scheduled
    (`asyncio.create_task`), which is also when the source updates
    `last_reported_*`; frames handed to the cooler's write characteristic
    are recorded as they are written. */
module Sync {
  import opened Wrappers
  import opened Bytes
  import FrameCodec
  import Telemetry

  /** Remote-store device indices for the measured temperature and the setpoint. */
  const FridgeTempIdx := "62"
  const FridgeSetpointIdx := "61"

  datatype SyncState = SyncState(
    knownSetpoint: Option<int>,
    lastReportedTemp: Option<int>,
    lastReportedTarget: Option<int>)

  const Initial := SyncState(None, None, None)

  /** An upstream update of remote device `idx` to `value`. */
  datatype Push = Push(idx: string, value: int)

  datatype Step = Step(state: SyncState, pushes: seq<Push>)

  // ---------------------------------------------------------------- notifications

  /** The effect of a decoded query response. All reads happen before the
      first write, so a reading either applies completely or not at all. */
  function Observe(s: SyncState, r: Telemetry.Reading): (st: Step)
    ensures st.state.knownSetpoint == Some(r.targetTemp)
    ensures st.state.lastReportedTemp == Some(r.actualTemp)
    ensures st.state.lastReportedTarget == Some(r.targetTemp)
    ensures forall p :: p in st.pushes ==>
      p == Push(FridgeTempIdx, r.actualTemp) || p == Push(FridgeSetpointIdx, r.targetTemp)
  {
    var tempChanged := FridgeTempIdx != "IDX_TEMP" && s.lastReportedTemp != Some(r.actualTemp);
    var targetChanged := FridgeSetpointIdx != "IDX_SETPOINT" && s.lastReportedTarget != Some(r.targetTemp);
    Step(
      SyncState(
        Some(r.targetTemp),
        if tempChanged then Some(r.actualTemp) else s.lastReportedTemp,
        if targetChanged then Some(r.targetTemp) else s.lastReportedTarget),
      (if tempChanged then [Push(FridgeTempIdx, r.actualTemp)] else [])
        + (if targetChanged then [Push(FridgeSetpointIdx, r.targetTemp)] else []))
  }

  /** `notification_handler(_, frame)`. Anything but a complete query
      response (a frame too short to parse, a short payload, the 0x05 echo,
      any other command) leaves the state alone and schedules nothing. */
  function Notify(s: SyncState, frame: seq<Byte>): (st: Step)
    ensures !Telemetry.Classify(frame).QueryResponse? ==> st == Step(s, [])
    ensures |st.pushes| <= 2
  {
    match Telemetry.Classify(frame)
    case QueryResponse(r) => Observe(s, r)
    case _ => Step(s, [])
  }

  // ---------------------------------------------------------------- set temperature

  /** What the transport does during one `set_temperature` call. */
  datatype Link = Link(connected: bool, setWriteOk: bool, queryWriteOk: bool)

  datatype SetOutcome =
    | NotConnected      // `not client.is_connected`: returned early
    | PackFailed        // struct.pack('b', temp) raised; nothing was sent
    | SetWriteFailed    // the set command's write raised BleakError
    | QueryWriteFailed  // the follow-up query's write raised BleakError
    | Completed

  datatype SetStep = SetStep(
    state: SyncState,
    pushes: seq<Push>,
    writes: seq<seq<Byte>>,
    outcome: SetOutcome)

  /** `create_packet(bytes([0x05, b]))`: the set-target command frame. */
  function SetCommandFrame(b: Byte): (f: seq<Byte>)
    ensures FrameCodec.CreatePacket([Telemetry.SetTargetCmd, b]) == Success(f)
  {
    FrameCodec.CreatePacket([Telemetry.SetTargetCmd, b]).value
  }

  /** `create_packet(bytes([0x01]))`: the query frame. */
  function QueryFrame(): (f: seq<Byte>)
    ensures FrameCodec.CreatePacket([Telemetry.QueryCmd]) == Success(f)
  {
    FrameCodec.CreatePacket([Telemetry.QueryCmd]).value
  }

  /** `set_temperature(client, temp)`: the state is updated optimistically
      right after the set command was written, before the query that is
      meant to confirm it. */
  function SetTemp(s: SyncState, temp: int, link: Link): (st: SetStep)
    ensures st.outcome in {NotConnected, PackFailed, SetWriteFailed} ==> st.state == s && st.pushes == []
    ensures st.outcome in {Completed, QueryWriteFailed} <==> |st.writes| == 2
    ensures |st.pushes| <= 1
  {
    if !link.connected then SetStep(s, [], [], NotConnected)
    else match SignedByte(temp)
      case None => SetStep(s, [], [], PackFailed)
      case Some(b) =>
        var command := SetCommandFrame(b);
        if !link.setWriteOk then SetStep(s, [], [command], SetWriteFailed)
        else
          var targetChanged := FridgeSetpointIdx != "IDX_SETPOINT" && s.lastReportedTarget != Some(temp);
          SetStep(
            SyncState(Some(temp), s.lastReportedTemp, if targetChanged then Some(temp) else s.lastReportedTarget),
            if targetChanged then [Push(FridgeSetpointIdx, temp)] else [],
            [command, QueryFrame()],
            if link.queryWriteOk then Completed else QueryWriteFailed)
  }

  // ---------------------------------------------------------------- poll tick

  datatype TickResult = Idle | Issued(temp: int, effect: SetStep)

  /** One pass of the polling loop after its sleep: `connected` is the
      client's state at the start of the tick and `fetched` the remote
      setpoint already rounded to whole degrees (None when the fetch failed). */
  function Tick(s: SyncState, connected: bool, fetched: Option<int>, link: Link): (t: TickResult)
    ensures t.Issued? ==> connected && fetched == Some(t.temp) && s.knownSetpoint != fetched
  {
    if !connected then Idle
    else if FridgeSetpointIdx == "IDX_SETPOINT" then Idle
    else match fetched
      case None => Idle
      case Some(r) =>
        if s.knownSetpoint.None? || r != s.knownSetpoint.value then Issued(r, SetTemp(s, r, link))
        else Idle
  }

  // ---------------------------------------------------------------- the mirror invariant

  /** The value of the last push scheduled for `idx`, if any. */
  function LastPushed(log: seq<Push>, idx: string): Option<int>
  {
    if log == [] then None
    else if log[|log| - 1].idx == idx then Some(log[|log| - 1].value)
    else LastPushed(log[..|log| - 1], idx)
  }

  lemma LastPushedAppend(log: seq<Push>, p: Push, idx: string)
    ensures LastPushed(log + [p], idx) == if p.idx == idx then Some(p.value) else LastPushed(log, idx)
  {
    assert (log + [p])[..|log|] == log;
  }

  /** Each `last_reported_*` global is the value last scheduled for its
      remote device, and the setpoint believed to be on the cooler is the
      last target reported upstream. */
  predicate Mirrored(s: SyncState, log: seq<Push>)
  {
    && s.knownSetpoint == s.lastReportedTarget
    && LastPushed(log, FridgeTempIdx) == s.lastReportedTemp
    && LastPushed(log, FridgeSetpointIdx) == s.lastReportedTarget
  }

  lemma InitialMirrored()
    ensures Mirrored(Initial, [])
  {
  }

  lemma NotifyKeepsMirrored(s: SyncState, log: seq<Push>, frame: seq<Byte>)
    requires Mirrored(s, log)
    ensures Mirrored(Notify(s, frame).state, log + Notify(s, frame).pushes)
  {
    match Telemetry.Classify(frame)
    case QueryResponse(r) =>
      var tempChanged := s.lastReportedTemp != Some(r.actualTemp);
      var targetChanged := s.lastReportedTarget != Some(r.targetTemp);
      var tp: seq<Push> := if tempChanged then [Push(FridgeTempIdx, r.actualTemp)] else [];
      var gp: seq<Push> := if targetChanged then [Push(FridgeSetpointIdx, r.targetTemp)] else [];
      assert Notify(s, frame).pushes == tp + gp;
      var mid := log + tp;
      if tempChanged {
        LastPushedAppend(log, Push(FridgeTempIdx, r.actualTemp), FridgeTempIdx);
        LastPushedAppend(log, Push(FridgeTempIdx, r.actualTemp), FridgeSetpointIdx);
      } else {
        assert mid == log;
      }
      if targetChanged {
        LastPushedAppend(mid, Push(FridgeSetpointIdx, r.targetTemp), FridgeTempIdx);
        LastPushedAppend(mid, Push(FridgeSetpointIdx, r.targetTemp), FridgeSetpointIdx);
      } else {
        assert mid + gp == mid;
      }
      assert log + (tp + gp) == mid + gp;
    case _ =>
      assert log + [] == log;
  }

  lemma SetTempKeepsMirrored(s: SyncState, log: seq<Push>, temp: int, link: Link)
    requires Mirrored(s, log)
    ensures Mirrored(SetTemp(s, temp, link).state, log + SetTemp(s, temp, link).pushes)
  {
    var st := SetTemp(s, temp, link);
    if st.pushes == [] {
      assert log + st.pushes == log;
    } else {
      assert st.pushes == [Push(FridgeSetpointIdx, temp)];
      LastPushedAppend(log, Push(FridgeSetpointIdx, temp), FridgeTempIdx);
      LastPushedAppend(log, Push(FridgeSetpointIdx, temp), FridgeSetpointIdx);
    }
  }

  // ---------------------------------------------------------------- properties

  /** A complete query response overwrites the known setpoint with the
      device's target and pushes each of the two readings exactly when it
      differs from what was last reported; anything else changes nothing. */
  lemma NotifyEffects(s: SyncState, frame: seq<Byte>)
    ensures var st := Notify(s, frame);
      match Telemetry.Classify(frame)
      case QueryResponse(r) =>
        && st.state.knownSetpoint == Some(r.targetTemp)
        && st.state.lastReportedTemp == Some(r.actualTemp)
        && st.state.lastReportedTarget == Some(r.targetTemp)
        && (Push(FridgeTempIdx, r.actualTemp) in st.pushes <==> s.lastReportedTemp != Some(r.actualTemp))
        && (Push(FridgeSetpointIdx, r.targetTemp) in st.pushes <==> s.lastReportedTarget != Some(r.targetTemp))
        && |st.pushes| == (if s.lastReportedTemp != Some(r.actualTemp) then 1 else 0)
                        + (if s.lastReportedTarget != Some(r.targetTemp) then 1 else 0)
      case _ => st == Step(s, [])
  {
  }

  /** Feeding the same notification twice in a row: the second one changes
      nothing and schedules no push. */
  lemma NotifyIdempotent(s: SyncState, frame: seq<Byte>)
    ensures var t := Notify(s, frame).state;
      Notify(t, frame) == Step(t, [])
  {
  }

  /** set_temperature: no state change unless the set command was written;
      once it was, the cooler is believed to hold `temp`, the target is
      reported as `temp`, and a push is scheduled only if that is news. */
  lemma SetTempEffects(s: SyncState, temp: int, link: Link)
    ensures var st := SetTemp(s, temp, link);
      && (st.outcome == NotConnected <==> !link.connected)
      && (st.outcome == PackFailed <==> link.connected && !(-128 <= temp <= 127))
      && (st.outcome == SetWriteFailed <==> link.connected && -128 <= temp <= 127 && !link.setWriteOk)
      && (st.outcome in {NotConnected, PackFailed, SetWriteFailed} ==> st.state == s && st.pushes == [])
      && (st.outcome in {Completed, QueryWriteFailed} ==>
            && st.state.knownSetpoint == Some(temp)
            && st.state.lastReportedTarget == Some(temp)
            && st.state.lastReportedTemp == s.lastReportedTemp
            && st.pushes == if s.lastReportedTarget != Some(temp) then [Push(FridgeSetpointIdx, temp)] else [])
  {
  }

  /** The frames written by set_temperature: the set command carrying
      `temp` as a signed byte, which the cooler parses back to `temp`, then
      the literal query frame FE FE 03 01 02 00. */
  lemma SetTempFrames(s: SyncState, temp: int, link: Link)
    requires link.connected && -128 <= temp <= 127
    ensures var st := SetTemp(s, temp, link);
      && 1 <= |st.writes| <= 2
      && FrameCodec.ParseFrame(st.writes[0]).Success?
      && (var (cmd, payload) := FrameCodec.ParseFrame(st.writes[0]).value;
          cmd == Telemetry.SetTargetCmd && |payload| == 1 && Signed(payload[0]) == temp)
      && (|st.writes| == 2 ==> st.writes[1] == [0xFE, 0xFE, 0x03, 0x01, 0x02, 0x00])
  {
    var b := SignedByte(temp).value;
    FrameCodec.RoundTrip(Telemetry.SetTargetCmd, [b]);
    assert [Telemetry.SetTargetCmd] + [b] == [Telemetry.SetTargetCmd, b];
    FrameCodec.QueryPacketLiteral();
  }

  /** The poll tick issues set_temperature(r) exactly when the client is
      connected, a setpoint was fetched, and it differs from the known
      setpoint (or none is known); otherwise nothing changes. */
  lemma TickDecision(s: SyncState, connected: bool, fetched: Option<int>, link: Link)
    ensures var t := Tick(s, connected, fetched, link);
      && (t.Issued? <==> connected && fetched.Some? && s.knownSetpoint != fetched)
      && (t.Issued? ==> t.temp == fetched.value && t.effect == SetTemp(s, t.temp, link))
  {
  }

  /** A tick that got the set command written is not repeated by the next
      tick seeing the same remote value; one that found the client
      disconnected or whose set command write failed is retried by the next
      connected tick. A remote value outside -128..127 makes the packing
      raise: nothing changes and nothing is written, and in the source the
      exception ends the polling task, so no later tick follows. */
  lemma TickSettles(s: SyncState, r: int, link: Link, connected: bool, link2: Link)
    requires Tick(s, true, Some(r), link).Issued?
    ensures var e := Tick(s, true, Some(r), link).effect;
      && (e.outcome in {Completed, QueryWriteFailed} ==> Tick(e.state, connected, Some(r), link2) == Idle)
      && (e.outcome in {NotConnected, SetWriteFailed} ==> Tick(e.state, true, Some(r), link2).Issued?)
      && (e.outcome == PackFailed <==> link.connected && !(-128 <= r <= 127))
      && (e.outcome == PackFailed ==> e.state == s && e.pushes == [] && e.writes == [])
  {
    SetTempEffects(s, r, link);
  }

  /** Under the mirror invariant a tick issues only a value that differs
      from the last reported target, so once its set command is written the
      target push is always scheduled: the conditional push of
      set_temperature can only be skipped by the initial call from `main`. */
  lemma TickPushesOnSuccess(s: SyncState, log: seq<Push>, r: int, link: Link)
    requires Mirrored(s, log)
    requires Tick(s, true, Some(r), link).Issued?
    ensures var e := Tick(s, true, Some(r), link).effect;
      e.outcome in {Completed, QueryWriteFailed} ==> e.pushes == [Push(FridgeSetpointIdx, r)]
  {
    SetTempEffects(s, r, link);
  }

  /** A query response confirming target `t` closes the loop: a later tick
      fetching `t` issues nothing. */
  lemma ReadingSettlesTick(s: SyncState, frame: seq<Byte>, connected: bool, link: Link)
    requires Telemetry.Classify(frame).QueryResponse?
    ensures Tick(Notify(s, frame).state, connected, Some(Telemetry.Classify(frame).reading.targetTemp), link) == Idle
  {
  }

  /** Reconciliation with a known setpoint of 4: a remote 4 is left alone,
      a remote 6 issues set_temperature(6). */
  lemma ReconciliationExample(s: SyncState, link: Link)
    requires s.knownSetpoint == Some(4)
    ensures Tick(s, true, Some(4), link) == Idle
    ensures Tick(s, true, Some(6), link).Issued? && Tick(s, true, Some(6), link).temp == 6
  {
  }

  // ---------------------------------------------------------------- the globals

  class Engine {
    var currentKnownSetpoint: Option<int>
    var lastReportedFridgeTemp: Option<int>
    var lastReportedFridgeTarget: Option<int>
    /** Upstream pushes handed to the scheduler, oldest first. */
    ghost var scheduled: seq<Push>
    /** Frames handed to the cooler's write characteristic, oldest first. */
    ghost var written: seq<seq<Byte>>

    function State(): SyncState
      reads this
    {
      SyncState(currentKnownSetpoint, lastReportedFridgeTemp, lastReportedFridgeTarget)
    }

    ghost predicate Valid()
      reads this
    {
      Mirrored(State(), scheduled)
    }

    /** Process start: every global is None. */
    constructor ()
      ensures Valid()
      ensures State() == Initial && scheduled == [] && written == []
    {
      currentKnownSetpoint := None;
      lastReportedFridgeTemp := None;
      lastReportedFridgeTarget := None;
      scheduled := [];
      written := [];
    }

    method NotificationHandler(frame: seq<Byte>)
      requires Valid()
      modifies this
      ensures Valid()
      ensures State() == Notify(old(State()), frame).state
      ensures scheduled == old(scheduled) + Notify(old(State()), frame).pushes
      ensures written == old(written)
    {
      NotifyKeepsMirrored(State(), scheduled, frame);
      var parsed := FrameCodec.ParseFrame(frame);
      if parsed.Failure? {
        return;
      }
      var (cmd, payload) := parsed.value;
      if cmd == Telemetry.QueryCmd {
        var reading := Telemetry.DecodeQueryResponse(payload);
        if reading.None? {
          return;
        }
        var actualTemp := reading.value.actualTemp;
        var targetTemp := reading.value.targetTemp;
        if FridgeTempIdx != "IDX_TEMP" && lastReportedFridgeTemp != Some(actualTemp) {
          scheduled := scheduled + [Push(FridgeTempIdx, actualTemp)];
          lastReportedFridgeTemp := Some(actualTemp);
        }
        if FridgeSetpointIdx != "IDX_SETPOINT" && lastReportedFridgeTarget != Some(targetTemp) {
          scheduled := scheduled + [Push(FridgeSetpointIdx, targetTemp)];
          lastReportedFridgeTarget := Some(targetTemp);
        }
        currentKnownSetpoint := Some(targetTemp);
      } else if cmd == Telemetry.SetTargetCmd {
        // the echo of a set command: nothing to record
      }
    }

    method SetTemperature(temp: int, link: Link) returns (outcome: SetOutcome)
      requires Valid()
      modifies this
      ensures Valid()
      ensures var st := SetTemp(old(State()), temp, link);
        && State() == st.state
        && scheduled == old(scheduled) + st.pushes
        && written == old(written) + st.writes
        && outcome == st.outcome
    {
      SetTempKeepsMirrored(State(), scheduled, temp, link);
      if !link.connected {
        return NotConnected;
      }
      var tempByte := SignedByte(temp);
      if tempByte.None? {
        return PackFailed;
      }
      var commandToSend := SetCommandFrame(tempByte.value);
      written := written + [commandToSend];
      if !link.setWriteOk {
        return SetWriteFailed;
      }
      currentKnownSetpoint := Some(temp);
      if FridgeSetpointIdx != "IDX_SETPOINT" && lastReportedFridgeTarget != Some(temp) {
        scheduled := scheduled + [Push(FridgeSetpointIdx, temp)];
        lastReportedFridgeTarget := Some(temp);
      }
      written := written + [QueryFrame()];
      if !link.queryWriteOk {
        return QueryWriteFailed;
      }
      return Completed;
    }

    method PollTick(connected: bool, fetched: Option<int>, link: Link) returns (issued: Option<int>)
      requires Valid()
      modifies this
      ensures Valid()
      ensures var t := Tick(old(State()), connected, fetched, link);
        && issued == (if t.Issued? then Some(t.temp) else None)
        && State() == (if t.Issued? then t.effect.state else old(State()))
        && scheduled == old(scheduled) + (if t.Issued? then t.effect.pushes else [])
        && written == old(written) + (if t.Issued? then t.effect.writes else [])
    {
      if !connected {
        return None;
      }
      if FridgeSetpointIdx == "IDX_SETPOINT" {
        return None;
      }
      if fetched.Some? {
        var newTarget := fetched.value;
        if currentKnownSetpoint.None? || newTarget != currentKnownSetpoint.value {
          var _ := SetTemperature(newTarget, link);
          return Some(newTarget);
        }
      }
      return None;
    }
  }
}
