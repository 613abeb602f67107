/** Byte-level helpers shared by the frame codec and the telemetry decoder:
    Python's `sum` over a byte string, `struct.pack('>H', ...)`, and the
    signed-byte conversions of `struct.pack('b', ...)` / `struct.unpack('b', ...)`. */
module Bytes {
  import opened Wrappers

  /** An element of a Python `bytes` / `bytearray` object. */
  type Byte = b: int | 0 <= b < 256

  function Min(a: int, b: int): int
  {
    if a <= b then a else b
  }

  /** Python's `sum(pkt)` over a byte string (unbounded). */
  function Sum(s: seq<Byte>): (r: nat)
    ensures r <= 255 * |s|
  {
    if s == [] then 0 else Sum(s[..|s| - 1]) + s[|s| - 1]
  }

  lemma {:induction false} SumAppend(a: seq<Byte>, b: seq<Byte>)
    ensures Sum(a + b) == Sum(a) + Sum(b)
  {
    if b == [] {
      assert a + b == a;
    } else {
      assert (a + b)[..|a + b| - 1] == a + b[..|b| - 1];
      SumAppend(a, b[..|b| - 1]);
    }
  }

  /** `struct.pack('>H', v)`: the two bytes of `v`, most significant first. */
  function BigEndian16(v: int): (r: seq<Byte>)
    requires 0 <= v < 0x1_0000
    ensures |r| == 2 && (r[0] as int) * 256 + r[1] as int == v
  {
    [v / 256, v % 256]
  }

  /** `struct.unpack('b', bytes([b]))[0]`: the byte read as two's complement. */
  function Signed(b: Byte): (t: int)
    ensures -128 <= t <= 127
    ensures (t < 0) == (b >= 128)
    ensures t % 256 == b
  {
    if b < 128 then b else b - 256
  }

  /** `struct.pack('b', t)[0]`; the packing raises `struct.error` (here None)
      for a value outside -128..127. */
  function SignedByte(t: int): (r: Option<Byte>)
    ensures r.Some? <==> -128 <= t <= 127
  {
    if -128 <= t <= 127 then Some(t % 256) else None
  }

  /** The two conversions are inverse to each other on their domains. */
  lemma SignedRoundTrip(b: Byte, t: int)
    ensures SignedByte(Signed(b)) == Some(b)
    ensures -128 <= t <= 127 ==> Signed(SignedByte(t).value) == t
  {
  }
}
