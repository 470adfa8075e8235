/**
 * Wire codec of the MotePing PING and PONG packets.
 *
 * Each packet is a fixed list of nesC network-type fields followed by a
 * trailing list of bytes (the padding). An nx_uint8 field is one byte; an
 * nx_uint32 field is four bytes, most significant first. Encoding writes the
 * fields in their declared order; decoding reads them back in the same order
 * and hands every byte after the fixed part to the padding.
 */
module Packets {

  /** An nx_uint8 value. */
  type Byte = b: int | 0 <= b < 0x100

  /** An nx_uint32 value. */
  type U32 = x: int | 0 <= x < 0x1_0000_0000

  datatype Result<T> = Ok(value: T) | Err(error: DecodeError)

  /** Why a buffer could not be decoded: it is shorter than the fixed part. */
  datatype DecodeError = TooShort(needed: nat, got: nat)

  const TosPingPongPing: Byte := 0x00
  const TosPingPongPong: Byte := 0x01

  /** Bytes of the fixed part: header, pingnum, pongs, delay_ms, ping_size, pong_size. */
  const PingFixedSize: nat := 1 + 4 + 4 + 4 + 1 + 1

  /** Bytes of the fixed part: header, pingnum, pongs, pong, ping_size, pong_size,
      pong_size_max, rx_time_ms, tx_time_ms, uptime_s. */
  const PongFixedSize: nat := 1 + 4 + 4 + 4 + 1 + 1 + 1 + 4 + 4 + 4

  datatype Ping = Ping(
    header: Byte,
    pingnum: U32,
    pongs: U32,
    delayMs: U32,
    pingSize: Byte,
    pongSize: Byte,
    padding: seq<Byte>)

  datatype Pong = Pong(
    header: Byte,
    pingnum: U32,
    pongs: U32,
    pong: U32,
    pingSize: Byte,
    pongSize: Byte,
    pongSizeMax: Byte,
    rxTimeMs: U32,
    txTimeMs: U32,
    uptimeS: U32,
    padding: seq<Byte>)

  // ---------------------------------------------------------------------
  // Big-endian integers
  // ---------------------------------------------------------------------

  function Pow256(n: nat): (r: nat)
    ensures r >= 1
  {
    if n == 0 then 1 else 0x100 * Pow256(n - 1)
  }

  lemma Pow256Four()
    ensures Pow256(4) == 0x1_0000_0000
  {
    assert Pow256(1) == 0x100;
    assert Pow256(2) == 0x1_0000;
    assert Pow256(3) == 0x100_0000;
  }

  /** The n-byte big-endian representation of x (x taken modulo 256^n). */
  function BeBytes(x: nat, n: nat): (r: seq<Byte>)
    ensures |r| == n
  {
    if n == 0 then [] else BeBytes(x / 0x100, n - 1) + [x % 0x100]
  }

  /** The number an n-byte big-endian representation stands for. */
  function BeValue(b: seq<Byte>): (r: nat)
    ensures r < Pow256(|b|)
  {
    if b == [] then 0 else BeValue(b[..|b| - 1]) * 0x100 + b[|b| - 1]
  }

  /** Reading back what BeBytes wrote gives the number, when it fits in n bytes. */
  lemma {:induction false} BeValueOfBytes(x: nat, n: nat)
    requires x < Pow256(n)
    ensures BeValue(BeBytes(x, n)) == x
  {
    if n > 0 {
      var b := BeBytes(x, n);
      assert b[..n - 1] == BeBytes(x / 0x100, n - 1);
      assert x / 0x100 < Pow256(n - 1);
      BeValueOfBytes(x / 0x100, n - 1);
    }
  }

  /** Writing out what BeValue read gives the same bytes back. */
  lemma {:induction false} BeBytesOfValue(b: seq<Byte>)
    ensures BeBytes(BeValue(b), |b|) == b
  {
    if b != [] {
      var init := b[..|b| - 1];
      var v := BeValue(b);
      assert v / 0x100 == BeValue(init);
      assert v % 0x100 == b[|b| - 1];
      BeBytesOfValue(init);
      assert b == init + [b[|b| - 1]];
    }
  }

  /** An nx_uint32 field on the wire. */
  function U32Bytes(x: U32): (r: seq<Byte>)
    ensures |r| == 4
  {
    BeBytes(x, 4)
  }

  /** The nx_uint32 field held in b[off..off + 4]. */
  function U32At(b: seq<Byte>, off: nat): (r: U32)
    requires off + 4 <= |b|
  {
    Pow256Four();
    BeValue(b[off..off + 4])
  }

  /** A field written as x at offset off reads back as x. */
  lemma U32RoundTrip(x: U32, b: seq<Byte>, off: nat)
    requires off + 4 <= |b| && b[off..off + 4] == U32Bytes(x)
    ensures U32At(b, off) == x
  {
    Pow256Four();
    BeValueOfBytes(x, 4);
  }

  lemma U32BytesAt(b: seq<Byte>, off: nat)
    requires off + 4 <= |b|
    ensures U32Bytes(U32At(b, off)) == b[off..off + 4]
  {
    BeBytesOfValue(b[off..off + 4]);
  }

  // ---------------------------------------------------------------------
  // PING
  // ---------------------------------------------------------------------

  /** The value PingPacket() holds: the PING header and every scalar field 0. */
  function NewPing(): Ping
  {
    Ping(TosPingPongPing, 0, 0, 0, 0, 0, [])
  }

  function EncodePing(p: Ping): (r: seq<Byte>)
    ensures |r| == PingFixedSize + |p.padding|
  {
    [p.header] + U32Bytes(p.pingnum) + U32Bytes(p.pongs) + U32Bytes(p.delayMs)
      + [p.pingSize] + [p.pongSize] + p.padding
  }

  function DecodePing(b: seq<Byte>): (r: Result<Ping>)
    ensures r.Err? <==> |b| < PingFixedSize
    ensures r.Ok? ==> r.value.padding == b[PingFixedSize..]
  {
    if |b| < PingFixedSize then Err(TooShort(PingFixedSize, |b|))
    else Ok(Ping(b[0], U32At(b, 1), U32At(b, 5), U32At(b, 9), b[13], b[14], b[PingFixedSize..]))
  }

  /** Every field sits at its declared offset of the encoding. */
  lemma PingLayout(p: Ping)
    ensures var r := EncodePing(p);
      && r[0] == p.header
      && r[1..5] == U32Bytes(p.pingnum)
      && r[5..9] == U32Bytes(p.pongs)
      && r[9..13] == U32Bytes(p.delayMs)
      && r[13] == p.pingSize
      && r[14] == p.pongSize
      && r[PingFixedSize..] == p.padding
  {
  }

  lemma PingRoundTrip(p: Ping)
    ensures DecodePing(EncodePing(p)) == Ok(p)
  {
    var r := EncodePing(p);
    PingLayout(p);
    U32RoundTrip(p.pingnum, r, 1);
    U32RoundTrip(p.pongs, r, 5);
    U32RoundTrip(p.delayMs, r, 9);
  }

  /** A buffer that decodes is exactly the encoding of what it decodes to. */
  lemma PingDecodeEncode(b: seq<Byte>)
    requires DecodePing(b).Ok?
    ensures EncodePing(DecodePing(b).value) == b
  {
    U32BytesAt(b, 1);
    U32BytesAt(b, 5);
    U32BytesAt(b, 9);
    assert b == [b[0]] + b[1..5] + b[5..9] + b[9..13] + [b[13]] + [b[14]] + b[PingFixedSize..];
  }

  /** PingPacket() encodes to fifteen zero bytes. */
  lemma NewPingEncoding()
    ensures EncodePing(NewPing()) == seq(PingFixedSize, _ => 0)
    ensures |EncodePing(NewPing())| == 15
  {
    assert U32Bytes(0) == [0, 0, 0, 0];
  }

  // ---------------------------------------------------------------------
  // PONG
  // ---------------------------------------------------------------------

  /** The value PongPacket() holds: every named scalar field 0. Its __init__
      does not assign the header, so the header is whatever the serialisation
      library gives a fresh field, passed in here. */
  function NewPong(header: Byte): Pong
  {
    Pong(header, 0, 0, 0, 0, 0, 0, 0, 0, 0, [])
  }

  function EncodePong(p: Pong): (r: seq<Byte>)
    ensures |r| == PongFixedSize + |p.padding|
  {
    [p.header] + U32Bytes(p.pingnum) + U32Bytes(p.pongs) + U32Bytes(p.pong)
      + [p.pingSize] + [p.pongSize] + [p.pongSizeMax]
      + U32Bytes(p.rxTimeMs) + U32Bytes(p.txTimeMs) + U32Bytes(p.uptimeS) + p.padding
  }

  function DecodePong(b: seq<Byte>): (r: Result<Pong>)
    ensures r.Err? <==> |b| < PongFixedSize
    ensures r.Ok? ==> r.value.padding == b[PongFixedSize..]
  {
    if |b| < PongFixedSize then Err(TooShort(PongFixedSize, |b|))
    else Ok(Pong(b[0], U32At(b, 1), U32At(b, 5), U32At(b, 9), b[13], b[14], b[15],
                 U32At(b, 16), U32At(b, 20), U32At(b, 24), b[PongFixedSize..]))
  }

  /** Every field sits at its declared offset of the encoding. */
  lemma PongLayout(p: Pong)
    ensures var r := EncodePong(p);
      && r[0] == p.header
      && r[1..5] == U32Bytes(p.pingnum)
      && r[5..9] == U32Bytes(p.pongs)
      && r[9..13] == U32Bytes(p.pong)
      && r[13] == p.pingSize
      && r[14] == p.pongSize
      && r[15] == p.pongSizeMax
      && r[16..20] == U32Bytes(p.rxTimeMs)
      && r[20..24] == U32Bytes(p.txTimeMs)
      && r[24..28] == U32Bytes(p.uptimeS)
      && r[PongFixedSize..] == p.padding
  {
  }

  lemma PongRoundTrip(p: Pong)
    ensures DecodePong(EncodePong(p)) == Ok(p)
  {
    var r := EncodePong(p);
    PongLayout(p);
    U32RoundTrip(p.pingnum, r, 1);
    U32RoundTrip(p.pongs, r, 5);
    U32RoundTrip(p.pong, r, 9);
    U32RoundTrip(p.rxTimeMs, r, 16);
    U32RoundTrip(p.txTimeMs, r, 20);
    U32RoundTrip(p.uptimeS, r, 24);
  }

  /** A buffer that decodes is exactly the encoding of what it decodes to. */
  lemma PongDecodeEncode(b: seq<Byte>)
    requires DecodePong(b).Ok?
    ensures EncodePong(DecodePong(b).value) == b
  {
    U32BytesAt(b, 1);
    U32BytesAt(b, 5);
    U32BytesAt(b, 9);
    U32BytesAt(b, 16);
    U32BytesAt(b, 20);
    U32BytesAt(b, 24);
    assert b == [b[0]] + b[1..5] + b[5..9] + b[9..13] + [b[13]] + [b[14]] + [b[15]]
      + b[16..20] + b[20..24] + b[24..28] + b[PongFixedSize..];
  }

  /** PongPacket() encodes to 28 bytes, whatever its header. */
  lemma NewPongEncoding(header: Byte)
    ensures EncodePong(NewPong(header)) == [header] + seq(PongFixedSize - 1, _ => 0)
    ensures |EncodePong(NewPong(header))| == 28
  {
    assert U32Bytes(0) == [0, 0, 0, 0];
  }
}
