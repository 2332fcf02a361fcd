/** The multiplexed log stream of the Docker engine: frames of an eight-byte header, with the stream
    number and a big-endian length, and a payload. */
module Demux {
  import opened Base64

  datatype Frame = Frame(stream: Byte, payload: seq<Byte>)

  predicate Sendable(frame: Frame) {
    (frame.stream == 1 || frame.stream == 2) && |frame.payload| < 0x1_0000_0000
  }

  function Uint32(bytes: seq<Byte>): nat
    requires |bytes| == 4
  {
    bytes[0] as nat * 0x100_0000 + bytes[1] as nat * 0x1_0000 + bytes[2] as nat * 0x100 + bytes[3] as nat
  }

  function BigEndian(n: nat): (bytes: seq<Byte>)
    requires n < 0x1_0000_0000
    ensures |bytes| == 4
  {
    [(n / 0x100_0000) as Byte, (n / 0x1_0000 % 0x100) as Byte, (n / 0x100 % 0x100) as Byte, (n % 0x100) as Byte]
  }

  function EncodeFrame(frame: Frame): seq<Byte>
    requires Sendable(frame)
  {
    [frame.stream, 0, 0, 0] + BigEndian(|frame.payload|) + frame.payload
  }

  function Encode(frames: seq<Frame>): seq<Byte>
    requires forall f :: f in frames ==> Sendable(f)
  {
    if frames == [] then [] else EncodeFrame(frames[0]) + Encode(frames[1..])
  }

  function Payloads(frames: seq<Frame>): seq<Byte> {
    if frames == [] then [] else frames[0].payload + Payloads(frames[1..])
  }

  predicate StartsFrame(data: seq<Byte>) {
    |data| >= 8 && (data[0] == 1 || data[0] == 2)
  }

  predicate WholeFrame(data: seq<Byte>) {
    StartsFrame(data) && |data| >= 8 + Uint32(data[4..8])
  }

  /** The payloads of the whole frames at the start. */
  function Frames(data: seq<Byte>): seq<Byte> {
    if WholeFrame(data) then data[8..8 + Uint32(data[4..8])] + Frames(data[8 + Uint32(data[4..8])..]) else []
  }

  method DemuxLogs(data: seq<Byte>) returns (output: seq<Byte>)
    ensures |data| < 8 || data[0] !in {1, 2} ==> output == data
    ensures |data| >= 8 && data[0] in {1, 2} ==> output == Frames(data)
  {
    if |data| < 8 || (data[0] != 1 && data[0] != 2) {
      return data;
    }
    output := [];
    var rest := data;
    while |rest| >= 8 && (rest[0] == 1 || rest[0] == 2)
      invariant output + Frames(rest) == Frames(data)
      decreases |rest|
    {
      var length := Uint32(rest[4..8]);
      if |rest| < 8 + length {
        break;
      }
      output := output + rest[8..8 + length];
      rest := rest[8 + length..];
    }
  }

  /** A frame: the stream, three bytes without meaning, the length with its most significant byte first,
      and the payload. It contributes its payload. */
  lemma FrameIsRead(header: seq<Byte>, payload: seq<Byte>, rest: seq<Byte>)
    requires |header| == 8 && header[0] in {1, 2}
    requires |payload| == header[4] as nat * 16777216 + header[5] as nat * 65536 + header[6] as nat * 256
                          + header[7] as nat
    ensures Frames(header + payload + rest) == payload + Frames(rest)
  {
    var data := header + payload + rest;
    assert data[4..8] == header[4..8] && data[8..8 + |payload|] == payload && data[8 + |payload|..] == rest;
    assert data[0] == header[0];
  }

  /** Where no whole frame starts, nothing more is read. */
  lemma NoFrameIsRead(data: seq<Byte>)
    requires || |data| < 8 || data[0] !in {1, 2}
             || |data| - 8 < data[4] as nat * 16777216 + data[5] as nat * 65536 + data[6] as nat * 256 + data[7] as nat
    ensures Frames(data) == []
  {
  }

  lemma LengthRoundTrip(n: nat)
    requires n < 0x1_0000_0000
    ensures Uint32(BigEndian(n)) == n
  {
    var a, b := n / 0x100, n / 0x1_0000;
    ShiftTwoBytes(n);
    ShiftThreeBytes(n);
    LastByte(n);
    LastByte(a);
    LastByte(b);
  }

  lemma LastByte(n: nat)
    ensures n == n / 0x100 * 0x100 + n % 0x100
  {
  }

  lemma ShiftTwoBytes(n: nat)
    ensures n / 0x100 / 0x100 == n / 0x1_0000
  {
    var a := n / 0x100;
    LastByte(n);
    LastByte(a);
    assert n == a / 0x100 * 0x1_0000 + (a % 0x100 * 0x100 + n % 0x100);
  }

  lemma ShiftThreeBytes(n: nat)
    ensures n / 0x1_0000 / 0x100 == n / 0x100_0000
  {
    var a := n / 0x1_0000;
    LastByte(a);
    assert n == a / 0x100 * 0x100_0000 + (a % 0x100 * 0x1_0000 + n % 0x1_0000);
  }

  /** Demultiplexing recovers the payloads of all whole frames; what follows them, cut off or not a
      frame, is dropped. */
  lemma {:induction false} FramesOfEncode(frames: seq<Frame>, tail: seq<Byte>)
    requires (forall f :: f in frames ==> Sendable(f)) && !WholeFrame(tail)
    ensures Frames(Encode(frames) + tail) == Payloads(frames)
  {
    if frames == [] {
      assert [] + tail == tail;
    } else {
      var frame, rest := frames[0], Encode(frames[1..]) + tail;
      var data := Encode(frames) + tail;
      var n := |frame.payload|;
      assert Sendable(frame);
      LengthRoundTrip(n);
      assert data == EncodeFrame(frame) + rest;
      assert data[4..8] == BigEndian(n) && data[8..8 + n] == frame.payload && data[8 + n..] == rest;
      FramesOfEncode(frames[1..], tail);
    }
  }
}
