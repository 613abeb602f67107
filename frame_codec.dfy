/** The link-layer frame of the cooler protocol as built and parsed by
    domoticz_fridge_control.py:

      FE FE LEN data... CSUM_HI CSUM_LO

    where `data` is the command byte followed by its payload, LEN is
    `len(data) + 2` and CSUM is the sum of every preceding byte modulo 65536. */
module FrameCodec {
  import opened Wrappers
  import opened Bytes

  const Header: seq<Byte> := [0xFE, 0xFE]

  datatype CodecError =
    | LengthByteOverflow  // struct.pack('B', len(data) + 2) raised
    | Truncated           // indexing data[2] or data[3] raised IndexError

  /** An independent description of a frame as it travels on the wire:
      the fixed header, a length byte counting everything after the
      command-byte position minus the header and itself, and a big-endian
      checksum over every byte before it. */
  predicate WellFormed(f: seq<Byte>)
  {
    && |f| >= 5
    && f[0] == 0xFE && f[1] == 0xFE
    && f[2] as int == |f| - 3
    && (f[|f| - 2] as int) * 256 + f[|f| - 1] as int == Sum(f[..|f| - 2]) % 0x1_0000
  }

  /** `create_packet(data)`. */
  function CreatePacket(data: seq<Byte>): (r: Result<seq<Byte>, CodecError>)
    ensures r.Failure? <==> |data| + 2 > 255
    ensures r.Success? ==> |r.value| == |data| + 5
  {
    var lengthByteValue := |data| + 2;
    if lengthByteValue > 255 then Failure(LengthByteOverflow)
    else
      var pkt := Header + [lengthByteValue] + data;
      var csum := Sum(pkt) % 0x1_0000;
      Success(pkt + BigEndian16(csum))
  }

  /** `parse_frame(data)`: the command byte and the payload. The checksum and
      the header bytes are never looked at; the payload slice is clamped to
      the bytes present, as Python slicing is. */
  function ParseFrame(data: seq<Byte>): (r: Result<(Byte, seq<Byte>), CodecError>)
    ensures r.Failure? <==> |data| < 4
    ensures r.Success? ==> r.value.0 == data[3] && |r.value.1| <= |data| - 4
  {
    if |data| < 4 then Failure(Truncated)
    else
      var cmdPlusPayloadLen := data[2] as int - 2;
      var cmd := data[3];
      var payloadLen := cmdPlusPayloadLen - 1;
      if payloadLen > 0 then Success((cmd, data[4 .. Min(4 + payloadLen, |data|)]))
      else Success((cmd, []))
  }

  /** Every packet that can be built is a well-formed frame carrying `data`
      between the length byte and the checksum. */
  lemma PacketLayout(data: seq<Byte>)
    requires |data| + 2 <= 255
    ensures CreatePacket(data).Success?
    ensures var f := CreatePacket(data).value;
      && WellFormed(f)
      && f[..3] == Header + [|data| + 2]
      && f[3..|data| + 3] == data
  {
    var f := CreatePacket(data).value;
    var pkt := Header + [|data| + 2] + data;
    assert f == pkt + BigEndian16(Sum(pkt) % 0x1_0000);
    assert f[..|f| - 2] == pkt;
  }

  /** Conversely, a well-formed frame is exactly the packet built from the
      bytes between its length byte and its checksum: the encoding has no
      freedom left. */
  lemma PacketFromWellFormed(f: seq<Byte>)
    requires WellFormed(f)
    ensures CreatePacket(f[3..|f| - 2]) == Success(f)
  {
    var data := f[3..|f| - 2];
    var pkt := Header + [|data| + 2] + data;
    assert pkt == f[..|f| - 2];
    var csum := Sum(pkt) % 0x1_0000;
    assert BigEndian16(csum) == f[|f| - 2..];
    assert f == pkt + f[|f| - 2..];
  }

  /** What `parse_frame` reads of a frame that carries a command byte. */
  lemma ParseWellFormed(f: seq<Byte>)
    requires WellFormed(f) && |f| >= 6
    ensures ParseFrame(f) == Success((f[3], f[4..|f| - 2]))
  {
    if |f| == 6 {
      assert f[4..|f| - 2] == [];
    } else {
      assert Min(4 + (f[2] as int - 3), |f|) == |f| - 2;
    }
  }

  /** Round trip: parsing a built packet gives back the command byte and
      the payload it was built from. */
  lemma RoundTrip(cmd: Byte, payload: seq<Byte>)
    requires |payload| + 3 <= 255
    ensures CreatePacket([cmd] + payload).Success?
    ensures ParseFrame(CreatePacket([cmd] + payload).value) == Success((cmd, payload))
  {
    var data := [cmd] + payload;
    PacketLayout(data);
    var f := CreatePacket(data).value;
    ParseWellFormed(f);
    assert f[3] == data[0];
    assert f[4..|f| - 2] == f[3..|data| + 3][1..];
  }

  /** Parsing bounds: the payload is empty when the length byte is at most 3
      and is otherwise `data[4 : 4 + len - 3]` cut to the bytes present. */
  lemma ParseBounds(data: seq<Byte>)
    requires |data| >= 4
    ensures ParseFrame(data).Success?
    ensures var (cmd, payload) := ParseFrame(data).value;
      && cmd == data[3]
      && (data[2] <= 3 ==> payload == [])
      && (data[2] > 3 ==> payload == data[4..Min(data[2] as int + 1, |data|)])
      && |payload| <= if data[2] > 3 then data[2] as int - 3 else 0
  {
  }

  /** The checksum is never verified: replacing the last two bytes of a frame
      whose length byte is consistent leaves the parse unchanged. */
  lemma ParseIgnoresChecksum(data: seq<Byte>, hi: Byte, lo: Byte)
    requires |data| >= 6 && data[2] as int == |data| - 3
    ensures ParseFrame(data[..|data| - 2] + [hi, lo]) == ParseFrame(data)
  {
    var g := data[..|data| - 2] + [hi, lo];
    assert g[2] == data[2] && g[3] == data[3];
    assert g[4..|data| - 2] == data[4..|data| - 2];
  }

  /** Nor is the header: the first two bytes may be anything. */
  lemma ParseIgnoresHeader(data: seq<Byte>, a: Byte, b: Byte)
    requires |data| >= 2
    ensures ParseFrame([a, b] + data[2..]) == ParseFrame(data)
  {
    var g := [a, b] + data[2..];
    assert |g| == |data|;
    if |data| >= 4 {
      assert g[2] == data[2] && g[3] == data[3];
      assert g[4..] == data[4..];
      assert forall j :: 4 <= j <= |data| ==> g[4..j] == data[4..j];
    }
  }

  /** The query command packet is the six bytes FE FE 03 01 02 00. */
  lemma QueryPacketLiteral()
    ensures CreatePacket([0x01]) == Success([0xFE, 0xFE, 0x03, 0x01, 0x02, 0x00])
  {
    var pkt: seq<Byte> := [0xFE, 0xFE, 0x03, 0x01];
    assert Header + [3] + [0x01] == pkt;
    assert Sum(pkt[..1]) == 0xFE by { assert pkt[..1][..0] == []; }
    assert Sum(pkt[..2]) == 0x1FC by { assert pkt[..2][..1] == pkt[..1]; }
    assert Sum(pkt[..3]) == 0x1FF by { assert pkt[..3][..2] == pkt[..2]; }
    assert Sum(pkt) == 0x200 by { assert pkt[..3] == pkt[..|pkt| - 1]; }
    assert BigEndian16(Sum(pkt) % 0x1_0000) == [0x02, 0x00];
    assert CreatePacket([0x01]) == Success(pkt + BigEndian16(Sum(pkt) % 0x1_0000));
    assert pkt + [0x02, 0x00] == [0xFE, 0xFE, 0x03, 0x01, 0x02, 0x00];
  }
}
