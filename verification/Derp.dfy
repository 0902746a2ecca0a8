/** DERP frames and the packets inside them, and the MEOW rendezvous packets. */
module Derp {
  import opened Core
  import opened Endian

  const MAX_FRAME: nat := 10 * 1024 * 1024
  const MAX_PACKET: nat := 64 * 1024

  // Frame types used by the data plane.
  const RECV_PACKET: byte := 0x05
  const PING: byte := 0x12

  datatype DerpFrame = DerpFrame(kind: byte, payload: bytes)

  /** Type byte, four-byte big-endian length, payload. Refuses more than 10 MiB. */
  function EncodeFrame(f: DerpFrame): Option<bytes> {
    if |f.payload| > MAX_FRAME then None else Some(Wire(f))
  }

  function Wire(f: DerpFrame): bytes {
    [f.kind] + ToBE(|f.payload|, 4) + f.payload
  }

  function DecodeFrame(s: bytes): Option<DerpFrame> {
    if |s| < 5 || |s| != 5 + FromBE(s[1..5]) then None else Some(DerpFrame(s[0], s[5..]))
  }

  predicate Fits(f: DerpFrame) { |f.payload| <= MAX_FRAME }

  lemma WireHeader(f: DerpFrame, rest: bytes)
    requires Fits(f)
    ensures var s := Wire(f) + rest;
            && |Wire(f)| == 5 + |f.payload| && s[0] == f.kind && FromBE(s[1..5]) == |f.payload|
            && s[5..5 + |f.payload|] == f.payload && s[5 + |f.payload|..] == rest
  {
    Pow256Values();
    FromToBE(|f.payload|, 4);
    var s := Wire(f) + rest;
    assert s[1..5] == ToBE(|f.payload|, 4);
  }

  /** Decoding undoes encoding. */
  lemma FrameRoundTrip(f: DerpFrame)
    requires Fits(f)
    ensures EncodeFrame(f) == Some(Wire(f)) && DecodeFrame(Wire(f)) == Some(f)
  {
    WireHeader(f, []);
    assert Wire(f) + [] == Wire(f);
  }

  /** What decodes is the wire form of the result, and re-encodes to itself exactly within the size limit, which only
      the encoder checks. */
  lemma DecodedReencodes(s: bytes)
    requires DecodeFrame(s).Some?
    ensures Wire(DecodeFrame(s).value) == s
    ensures EncodeFrame(DecodeFrame(s).value) == Some(s) <==> |s| <= 5 + 10 * 1024 * 1024
  {
    ToFromBE(s[1..5]);
    assert s == [s[0]] + s[1..5] + s[5..];
  }

  /** The decoder accepts every frame whose length fits its four bytes, those that the encoder refuses included. */
  lemma DecodesLongFrames(f: DerpFrame)
    requires |f.payload| < TWO_TO_THE_32
    ensures DecodeFrame(Wire(f)) == Some(f)
    ensures EncodeFrame(f) == None <==> |f.payload| > 10 * 1024 * 1024
  {
    Pow256Values();
    FromToBE(|f.payload|, 4);
    assert Wire(f)[1..5] == ToBE(|f.payload|, 4) && Wire(f)[5..] == f.payload;
  }

  method EncodeDerpFrame(f: DerpFrame) returns (r: Option<bytes>)
    ensures r == EncodeFrame(f)
  {
    if |f.payload| > MAX_FRAME {
      return None;
    }
    var len := |f.payload|;
    var out: bytes := [f.kind];
    out := out + [len / 0x100_0000 % 256];
    out := out + [len / 0x1_0000 % 256];
    out := out + [len / 0x100 % 256];
    out := out + [len % 256];
    FourBytes(len);
    assert out == [f.kind] + ToBE(len, 4);
    out := out + f.payload;
    return Some(out);
  }

  lemma FourBytes(v: nat)
    ensures ToBE(v, 4) == [v / 0x100_0000 % 256, v / 0x1_0000 % 256, v / 0x100 % 256, v % 256]
  {
    Pow256Small();
    Pow256Values();
    assert Pow256(3) == 256 * Pow256(2);
    hide Pow256;
    ToBEShort(v);
    assert ToBE(v, 3) == [v / Pow256(2) % 256] + ToBE(v, 2);
    assert ToBE(v, 4) == [v / Pow256(3) % 256] + ToBE(v, 3);
  }

  // Packets.

  function MakeSendPacket(destination: Key32, packet: bytes): Option<bytes> {
    if |packet| > MAX_PACKET then None else Some(destination + packet)
  }

  function ParseRecvPacket(payload: bytes): Option<(Key32, bytes)> {
    if |payload| < 32 || |payload| - 32 > MAX_PACKET then None else Some((payload[..32], payload[32..]))
  }

  /** What one end sends with the key of the receiver, the other end gets with the key of the sender in its place. */
  lemma PacketRoundTrip(key: Key32, packet: bytes)
    ensures MakeSendPacket(key, packet).Some? <==> |packet| <= 64 * 1024
    ensures MakeSendPacket(key, packet).Some? ==>
              ParseRecvPacket(MakeSendPacket(key, packet).value) == Some((key, packet))
  {
    assert (key + packet)[..32] == key && (key + packet)[32..] == packet;
  }

  /** A received packet is a key followed by up to 64 KiB. */
  lemma ReceivedExactly(payload: bytes, key: Key32, packet: bytes)
    ensures ParseRecvPacket(payload) == Some((key, packet)) <==> payload == key + packet && |packet| <= 64 * 1024
  {
    if payload == key + packet {
      assert payload[..32] == key && payload[32..] == packet;
    }
  }

  // MEOW packets.

  const MEOW: bytes := [0x6d, 0x65, 0x6f, 0x77]

  function EncodeMeowPing(node: Key32, disco: Key32): bytes { MEOW + [0x01] + node + disco }

  function EncodeMeowed(): bytes { MEOW + [0x02] }

  predicate IsMeow(packet: bytes) { |packet| >= 4 && packet[..4] == MEOW }

  predicate IsMeowed(packet: bytes) { |packet| >= 5 && IsMeow(packet) && packet[4] == 0x02 }

  function ParseMeowPing(packet: bytes): Option<(Key32, Key32)> {
    if |packet| < 69 || !IsMeow(packet) || packet[4] != 0x01 || AllZero(packet[37..69]) then None
    else Some((packet[5..37], packet[37..69]))
  }

  /** A ping is read back, trailing bytes included, unless its disco key is zero; and it is never an acknowledgment. */
  lemma MeowRoundTrip(node: Key32, disco: Key32, rest: bytes)
    ensures var p := EncodeMeowPing(node, disco) + rest;
            && ParseMeowPing(p) == (if AllZero(disco) then None else Some((node, disco)))
            && IsMeow(p) && !IsMeowed(p)
    ensures IsMeowed(EncodeMeowed()) && ParseMeowPing(EncodeMeowed()) == None
  {
    var p := EncodeMeowPing(node, disco) + rest;
    assert p[5..37] == node && p[37..69] == disco && p[..4] == MEOW;
    assert EncodeMeowed()[..4] == MEOW;
  }

  const PING_START: bytes := ['m' as int, 'e' as int, 'o' as int, 'w' as int, 1]

  /** The packets themselves: the letters meow, then 2 for an acknowledgment, or 1, a node key and a disco key that is
      not zero for a ping; anything may follow. */
  lemma MeowExactly(packet: bytes, node: Key32, disco: Key32)
    ensures IsMeow(packet) <==> PING_START[..4] <= packet
    ensures IsMeowed(packet) <==> PING_START[..4] + [2] <= packet
    ensures ParseMeowPing(packet) == Some((node, disco)) <==>
            PING_START + node + disco <= packet && exists i | 0 <= i < 32 :: disco[i] != 0
    ensures EncodeMeowed() == PING_START[..4] + [2] && EncodeMeowPing(node, disco) == PING_START + node + disco
  {
    if |packet| >= 69 {
      assert packet[..69] == packet[..4] + [packet[4]] + packet[5..37] + packet[37..69];
    }
    if |packet| >= 5 {
      assert packet[..5] == packet[..4] + [packet[4]];
    }
    if PING_START + node + disco <= packet {
      var p := PING_START + node + disco;
      assert p == packet[..69] && p[5..37] == node && p[37..69] == disco && p[..4] == PING_START[..4] && p[4] == 1;
    }
  }
}
