# Cooler link and Domoticz synchronisation, modelled in Dafny

Two Python scripts drive a battery-powered thermoelectric cooler ("kylbox")
over Bluetooth Low Energy. `domoticz_fridge_control.py` keeps it in sync with
a Domoticz home-automation server. It mirrors the cooler's temperature and
target upstream, and it pushes a setpoint changed in Domoticz down to the
cooler. `test_fridge.py` is a stand-alone script that only queries the cooler
or sets its temperature once.

The model covers the deterministic core of both scripts:

- **Frame codec** (`frame_codec.dfy`, module `FrameCodec`). This is
  `create_packet` and `parse_frame`. A frame is `FE FE LEN data CSUM_HI CSUM_LO`,
  where `LEN = len(data) + 2` and the checksum is the byte sum modulo 65536,
  big-endian. The parser reads only the length byte, the command byte and a
  clamped payload slice. It checks neither the header nor the checksum.
- **Byte conversions** (`bytes.dfy`, module `Bytes`). These are Python's
  `sum`, `struct.pack('>H')`, and `struct.pack('b')`/`struct.unpack('b')`.
- **Telemetry decoding** (`telemetry.dfy`, module `Telemetry`). A query
  response is command 0x01. Its target temperature is the signed byte at
  payload offset 4 and its actual temperature the signed byte at offset 14.
  The battery percent is at offset 15, and the voltage is the text
  `"<b16>.<b17>"`. Command 0x05 is the echo of a set command.
- **Connect retry** (`connect_retry.dfy`, module `ConnectRetry`). The attempt
  loop of `connect_with_retry` is a method. The transport's answer to each
  attempt is an input, and the five-second sleeps are counted.
- **Synchronisation engine** (`sync_engine.dfy`, module `Sync`). It covers the
  three globals `current_known_setpoint`, `last_reported_fridge_temp` and
  `last_reported_fridge_target`:
  - class `Engine` holds them. Its methods `NotificationHandler`,
    `SetTemperature` and `PollTick` update them step by step, as the source
    does;
  - the pure functions `Notify`, `SetTemp` and `Tick` state what one call does;
  - the engine logs each upstream push when it is scheduled
    (`asyncio.create_task`) and each frame written to the cooler;
  - the invariant `Mirrored` is kept by every method. It says each
    `last_reported_*` value is the last value scheduled for its Domoticz
    device, and the setpoint believed to be on the cooler is the last target
    reported upstream.
- **The test script** (`test_script.dfy`, module `TestScript`). It holds that
  script's own `create_packet`, `parse_frame`, stateless
  `notification_handler`, set-command frame and `connect_with_retry`. Each is
  related to its counterpart in the synchronising script by a lemma, which
  states exactly where the two differ.

Integers are unbounded. Bytes are the subset type `Byte` (0..255). Python
exceptions become `Result`/`Option` values or outcome constructors. Transport
and remote-server results are method inputs:
- `Link` says whether the client is connected and whether each write succeeds;
- the fetched Domoticz setpoint arrives as an already-rounded `Option<int>`.

## Behaviour worth knowing

The code behaves as follows in each case below, and the model follows it.

- `parse_frame` does not fail when the declared length exceeds the bytes
  present. Python slicing clamps the payload instead.
- `last_reported_fridge_temp` and `last_reported_fridge_target` are updated
  when the upstream push is scheduled, not after the push succeeds. A failed
  push is therefore never repeated for the same value.
- After a successful set command, the target is pushed upstream only if it
  differs from `last_reported_fridge_target`, not unconditionally. A poll tick
  only issues a value that differs from the known setpoint, which equals the
  last reported target, so for a tick the push always happens
  (`Sync.TickPushesOnSuccess`). Only the initial `set_temperature` from
  `main` (domoticz_fridge_control.py:280) can skip it.
- A temperature outside -128..127 makes `struct.pack('b')` raise before any
  write. That exception is outside the `try` and is not a `BleakError`, so it
  leaves `set_temperature` with no state change (outcome `PackFailed`).

## Model

| member | source | states |
|---|---|---|
| `Bytes.Sum` | domoticz_fridge_control.py:40 | the byte sum of a string never exceeds 255 per byte |
| `Bytes.BigEndian16` | domoticz_fridge_control.py:41 | the two bytes read big-endian give back the 16-bit value |
| `Bytes.Signed` | domoticz_fridge_control.py:143-144 | the byte read as two's complement lies in -128..127, is negative exactly for bytes from 128, and is congruent to the byte modulo 256 |
| `Bytes.SignedByte` | domoticz_fridge_control.py:197 | `struct.pack('b', t)` yields a byte exactly when t is in -128..127 |
| `Bytes.SignedRoundTrip` | domoticz_fridge_control.py:197 | signed packing and unpacking are inverse to each other on their domains |
| `FrameCodec.CreatePacket` | domoticz_fridge_control.py:32-42 | packing fails exactly when the length byte `len(data)+2` exceeds 255; a packet is `len(data)+5` bytes long |
| `FrameCodec.ParseFrame` | domoticz_fridge_control.py:44-56 | parsing fails exactly on fewer than 4 bytes; the command is byte 3 and the payload never extends past the input |
| `FrameCodec.PacketLayout` | domoticz_fridge_control.py:32-42 | a built packet is `FE FE`, then `len(data)+2`, then `data`, then the big-endian sum of all preceding bytes modulo 65536 |
| `FrameCodec.PacketFromWellFormed` | domoticz_fridge_control.py:32-42 | every well-formed frame is exactly the packet built from the bytes between its length byte and its checksum |
| `FrameCodec.ParseWellFormed` | domoticz_fridge_control.py:44-56 | on a well-formed frame with a command byte, the parser returns byte 3 and everything up to the checksum |
| `FrameCodec.RoundTrip` | domoticz_fridge_control.py:32-56 | `parse_frame(create_packet([cmd] + p)) == (cmd, p)` whenever `len(p)+3 <= 255` |
| `FrameCodec.ParseBounds` | domoticz_fridge_control.py:44-56 | the payload is empty when the length byte is at most 3, else `data[4 : len+1]` cut to the input, and never longer than `len-3` |
| `FrameCodec.ParseIgnoresChecksum` | domoticz_fridge_control.py:44-56 | replacing the two checksum bytes of a frame with a consistent length byte does not change the parse |
| `FrameCodec.ParseIgnoresHeader` | domoticz_fridge_control.py:44-56 | the two header bytes may be anything without changing the parse |
| `FrameCodec.QueryPacketLiteral` | domoticz_fridge_control.py:215-216 | the query packet is `FE FE 03 01 02 00` |
| `Telemetry.DecimalString` | domoticz_fridge_control.py:146 | `f"{n}"` is a non-empty string of decimal digits with no leading zero, at most three long for a byte |
| `Telemetry.VoltageString` | domoticz_fridge_control.py:146 | the voltage text is 3 to 7 characters long and its first '.' stands right after the rendering of byte 16 |
| `Telemetry.DecimalRoundTrip` | domoticz_fridge_control.py:146 | the decimal rendering of n denotes n |
| `Telemetry.VoltageRoundTrip` | domoticz_fridge_control.py:146 | the voltage text `"<b16>.<b17>"` splits back into the two bytes, so it loses nothing |
| `Telemetry.DecodeQueryResponse` | domoticz_fridge_control.py:141-146 | decoding succeeds exactly on payloads of at least 18 bytes, and both temperatures lie in -128..127 |
| `Telemetry.DecodeReadsFixedOffsets` | domoticz_fridge_control.py:143-146 | only the bytes at offsets 4, 14, 15, 16 and 17 influence the reading |
| `Telemetry.DecodeExample` | domoticz_fridge_control.py:143-146 | bytes FC, 02, 55, 03, 07 at those offsets decode to target -4, actual 2, battery 85 and voltage "3.7" |
| `Telemetry.Classify` | domoticz_fridge_control.py:139-166 | a frame is unparsable exactly when it is shorter than 4 bytes; it is a reading exactly when it has at least 22 bytes, a length byte of at least 21 and command 0x01, and the reading is the decoding of the payload slice `frame[4 : len+1]`; it is an acknowledgement exactly when its command byte is 0x05 |
| `Telemetry.ClassifyQueryPacket` | domoticz_fridge_control.py:139-146 | a query response built by the codec is classified as a reading of the payload it carries |
| `ConnectRetry.Budget` | domoticz_fridge_control.py:173 | `range(max_attempts)` allows `max_attempts` attempts, and none when it is not positive |
| `ConnectRetry.FirstSuccess` | domoticz_fridge_control.py:173-179 | the index returned is the first successful attempt, or n when all of the first n failed |
| `ConnectRetry.RetryOutcome` | domoticz_fridge_control.py:172-187 | at most `max_attempts` attempts; a client from the first success; a sleep between consecutive attempts and none after the last; no client exactly when every allowed attempt failed, including when none is allowed |
| `ConnectRetry.ConnectWithRetry` | domoticz_fridge_control.py:172-187 | the attempt loop computes exactly `RetryOutcome` |
| `ConnectRetry.ExhaustionExample` | domoticz_fridge_control.py:172-187 | three failing attempts give three attempts, two sleeps and no client |
| `Sync.SetCommandFrame` | domoticz_fridge_control.py:197-199 | the set command is the packet of `[0x05, temp_byte]` |
| `Sync.QueryFrame` | domoticz_fridge_control.py:215-216 | the confirming query is the packet of `[0x01]` |
| `Sync.Observe` | domoticz_fridge_control.py:151-159 | after a complete reading the known setpoint and the last reported target are the reading's target, the last reported temperature is its actual temperature, and only those two values are pushed |
| `Sync.Notify` | domoticz_fridge_control.py:137-168 | any frame that is not a complete query response leaves the state unchanged and schedules nothing; at most two pushes are scheduled |
| `Sync.SetTemp` | domoticz_fridge_control.py:189-222 | when not connected, when the packing fails or when the set write fails, the state is unchanged and nothing is pushed; both frames are written exactly when the set write succeeded; at most one push |
| `Sync.Tick` | domoticz_fridge_control.py:225-246 | set_temperature is issued only when connected, with the fetched value, and only when it differs from the known setpoint |
| `Sync.InitialMirrored` | domoticz_fridge_control.py:23-25 | the all-None start state satisfies the mirror invariant |
| `Sync.NotifyKeepsMirrored` | domoticz_fridge_control.py:151-159 | a notification keeps the mirror invariant |
| `Sync.SetTempKeepsMirrored` | domoticz_fridge_control.py:206-209 | set_temperature keeps the mirror invariant |
| `Sync.NotifyEffects` | domoticz_fridge_control.py:141-159 | a complete reading sets the known setpoint to the target unconditionally; a push is scheduled for each value exactly when it differs from the last reported one, and the last reported value becomes the reading; any other frame changes nothing |
| `Sync.NotifyIdempotent` | domoticz_fridge_control.py:151-157 | the same notification a second time changes nothing and schedules no push |
| `Sync.SetTempEffects` | domoticz_fridge_control.py:189-222 | no change when not connected, when the packing fails or when the set write fails; otherwise the known setpoint and last reported target become `temp`, with a push only if the target was news |
| `Sync.SetTempFrames` | domoticz_fridge_control.py:197-217 | the first frame written parses on the cooler to command 0x05 with `temp` as its one signed payload byte; the second is `FE FE 03 01 02 00` |
| `Sync.TickDecision` | domoticz_fridge_control.py:230-246 | a tick calls set_temperature(r) exactly when connected, a setpoint r was fetched and r differs from the known setpoint (or none is known) |
| `Sync.TickSettles` | domoticz_fridge_control.py:241-246 | after a tick whose set command was written, the same remote value issues nothing; after one that found the client disconnected or whose set write failed, the next connected tick retries; a value outside -128..127 fails the packing with no change and no write (in the source the polling task then ends, so no next tick runs) |
| `Sync.TickPushesOnSuccess` | domoticz_fridge_control.py:203-209 | under the mirror invariant, once a tick's set command is written the target push is scheduled with the fetched value |
| `Sync.ReadingSettlesTick` | domoticz_fridge_control.py:159 | after a reading of target t, a tick fetching t issues nothing |
| `Sync.ReconciliationExample` | domoticz_fridge_control.py:241-246 | with 4 known, a remote 4 is left alone and a remote 6 issues set_temperature(6) |
| `Sync.Engine.constructor` | domoticz_fridge_control.py:23-25 | all three globals start as None, with nothing scheduled or written |
| `Sync.Engine.NotificationHandler` | domoticz_fridge_control.py:137-168 | the globals, the push log and the write log change exactly as `Notify` says, keeping the mirror invariant |
| `Sync.Engine.SetTemperature` | domoticz_fridge_control.py:189-222 | the globals, the push log and the write log change exactly as `SetTemp` says, and the outcome is reported |
| `Sync.Engine.PollTick` | domoticz_fridge_control.py:225-246 | one tick changes state only through set_temperature, exactly when `Tick` says so |
| `TestScript.CreatePacket` | test_fridge.py:15-20 | packing fails exactly when the length byte exceeds 255 |
| `TestScript.PySlice` | test_fridge.py:26 | Python slicing with non-negative bounds cuts both bounds to the length and returns the elements in between |
| `TestScript.ParseFrame` | test_fridge.py:22-27 | parsing fails exactly on fewer than 4 bytes |
| `TestScript.CreatePacketAgrees` | test_fridge.py:15-20 | this script builds the same packet as the synchronising script for every input |
| `TestScript.ParseFrameAgrees` | test_fridge.py:22-27 | `data[4:4+length-3]` agrees with the other parser on every input and is empty when the length byte is at most 3 |
| `TestScript.RoundTrip` | test_fridge.py:15-27 | `parse_frame(create_packet([cmd] + p)) == (cmd, p)` whenever `len(p)+3 <= 255` |
| `TestScript.QueryFrameIsQueryPacket` | test_fridge.py:82 | the hard-coded frame `FE FE 03 01 02 00` is `create_packet([0x01])` |
| `TestScript.SetCommandFrame` | test_fridge.py:69-72 | the set frame exists exactly for temperatures in -128..127 |
| `TestScript.SetCommandFrameAgrees` | test_fridge.py:69-72 | for every temperature in -128..127 this script's set frame equals the synchronising script's packet of `[0x05, temp_byte]` |
| `TestScript.SetCommandCarriesTemp` | test_fridge.py:69-72 | the set frame is 7 bytes and parses to command 0x05 with `temp` as its one signed payload byte |
| `TestScript.NotificationHandler` | test_fridge.py:29-43 | a reading is shown exactly for a 0x01 frame of at least 22 bytes with a length byte of at least 21; the echo exactly for a 0x05 frame; a frame shorter than 4 bytes raises |
| `TestScript.HandlerAgrees` | test_fridge.py:29-43 | this script shows a reading exactly where the synchronising script acts on one; it raises on a frame shorter than 4 bytes, where both scripts raise, and on a short query response, which the synchronising script catches and otherwise ignores; it shows the echo payload of a 0x05 frame |
| `TestScript.AttemptFrom` | test_fridge.py:45-60 | from a given attempt on, between 1 and the remaining number of attempts are made with one sleep fewer than attempts; a client comes from a successful attempt; otherwise the process exits with status 1 after every remaining attempt |
| `TestScript.ConnectWithRetry` | test_fridge.py:45-60 | at most `max_attempts` attempts; None is returned exactly when no attempt is allowed; an exit has status 1 after all `max_attempts` attempts and one sleep fewer |
| `TestScript.AttemptFromSpec` | test_fridge.py:45-60 | from a given attempt on, the loop returns the first success, or exits with status 1 after the last failure, counting one sleep less than attempts |
| `TestScript.RetryAgrees` | test_fridge.py:45-60 | this retry equals the synchronising script's, except that it exits with status 1 where that one returns None after at least one attempt |

## Left out

- BLE transport (`BleakClient`, `connect`, `write_gatt_char`, `start_notify`, `disconnect`): external calls. They become the boolean inputs `ok` and `Link`, and the write log.
- `update_domoticz_device` and `get_domoticz_setpoint`: HTTP and JSON I/O. A push is recorded when it is scheduled, and its success is not modelled. A fetch is an `Option<int>`.
- The float parse of the setpoint text and Python's `round()` in the poll tick are floating point, so the tick takes an already-rounded value.
- The asyncio scheduling: the sleeps in `set_temperature` and in the loops, fire-and-forget tasks, the `while True` loops, cancellation and the shutdown sequence in `main`. The retry model only counts its sleeps.
- Interleaving inside one poll tick: `Engine.PollTick` makes the decision of line 244 and applies `set_temperature`'s update (lines 206-209) in one atomic step. In the source, `notification_handler` can run while `set_temperature` awaits the write at line 203, and its update then lands between the decision and the optimistic update. The model only covers handler calls that run one after the other.
- In the source, a `struct.error` from `set_temperature` (outcome `PackFailed`) ends the polling task for good. The model, which has no loop, does not capture that.
- The `except Exception` branch of `notification_handler` is not modelled as a separate path. Any exception raised before line 152 (the reads, or the `print` at line 148) leaves the globals unchanged, which is what `Notify` does for a short payload. An exception from `asyncio.create_task` would need a missing event loop, and the handler runs inside one.
- An `IndexError` from `parse_frame` on a frame shorter than 4 bytes escapes both scripts' callbacks (line 139 is outside the `try`). `Sync.Notify` and `Engine.NotificationHandler` return normally instead; the globals are unchanged either way. The test script's handler models the escape as `Raised`.
- `main` of both scripts (argument parsing, initial query, startup waits, exit codes) and all printing.
- `calculate_checksum` in both files: it is never called, and it differs from the checksum actually sent (`sum & 0xFF`).
- The `set_temperature` of test_fridge.py: only its command frame and its literal query frame are modelled. Write failures there escape to `main`, which is not modelled.
- `ConnectRetry.ConnectWithRetry`: requires the outcome sequence to cover `max_attempts` answers, because the transport's answers are the input. `TestScript.ConnectWithRetry` has the same requirement.
