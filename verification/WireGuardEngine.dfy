/** The WireGuard engine of one peer: padding, transport packets and the trimming of decrypted packets. The Noise
    library is seen only through its answers during a call. */
module WireGuardEngine {
  import opened Core
  import opened Endian

  const INITIATION := 1
  const RESPONSE := 2
  const TRANSPORT := 4
  const TAG := 16
  const HEADER := 16

  // Little-endian integers.

  function ToLE(v: nat, n: nat): (s: bytes)
    ensures |s| == n
  {
    if n == 0 then [] else [v % 256] + ToLE(v / 256, n - 1)
  }

  function FromLE(s: bytes): nat {
    if s == [] then 0 else s[0] + 256 * FromLE(s[1..])
  }

  lemma {:induction false} LittleEndianRoundTrip(v: nat, n: nat)
    requires v < Pow256(n)
    ensures FromLE(ToLE(v, n)) == v
  {
    if n > 0 {
      LittleEndianRoundTrip(v / 256, n - 1);
      assert ToLE(v, n)[1..] == ToLE(v / 256, n - 1);
    }
  }

  lemma {:induction false} FromLESnoc(s: bytes, b: byte)
    ensures FromLE(s + [b]) == FromLE(s) + b * Pow256(|s|)
  {
    if s == [] {
      assert [b][1..] == [] && s + [b] == [b];
    } else {
      assert (s + [b])[1..] == s[1..] + [b];
      FromLESnoc(s[1..], b);
      assert 256 * (b * Pow256(|s| - 1)) == b * (256 * Pow256(|s| - 1));
    }
  }

  /** The bits of the bytes do not overlap, so a sum is the source's bitwise or. */
  method LoadLE(p: bytes) returns (value: nat)
    ensures value == FromLE(p)
  {
    value := 0;
    var i := 0;
    assert p[..0] == [];
    while i < |p|
      invariant i <= |p| && value == FromLE(p[..i])
    {
      FromLESnoc(p[..i], p[i]);
      assert p[..i + 1] == p[..i] + [p[i]];
      value := value + p[i] * Pow256(i);
      i := i + 1;
    }
    assert p[..|p|] == p;
  }

  method StoreLE(out: array<byte>, at: nat, value: nat, width: nat)
    requires at + width <= out.Length
    modifies out
    ensures out[..] == old(out[..at]) + ToLE(value, width) + old(out[at + width..])
  {
    var i, rest := 0, value;
    ghost var done: bytes, front, back := [], out[..at], out[at..];
    assert out[..] == front + done + back[0..];
    while i < width
      invariant i <= width && |done| == i
      invariant out[..] == front + done + back[i..]
      invariant done + ToLE(rest, width - i) == ToLE(value, width)
    {
      ghost var before := out[..];
      out[at + i] := rest % 256;
      assert out[..] == before[at + i := rest % 256];
      UpdateMiddle(front + done, back[i..], rest % 256);
      AppendAssociative(front, done, [rest % 256]);
      done := done + [rest % 256];
      rest := rest / 256;
      i := i + 1;
    }
    assert done + [] == done;
    assert back[width..] == old(out[at + width..]);
  }

  // Padding and trimming.

  function PaddedLength(n: nat): (r: nat)
    ensures n <= r < n + 16 && r % 16 == 0
  {
    (n + 15) / 16 * 16
  }

  function Zeros(n: nat): (s: bytes)
    ensures |s| == n && forall i | 0 <= i < n :: s[i] == 0
  {
    if n == 0 then [] else [0] + Zeros(n - 1)
  }

  function Pad(packet: bytes): bytes { packet + Zeros(PaddedLength(|packet|) - |packet|) }

  lemma PaddedLengthIsLeast(n: nat, m: nat)
    requires n <= m && m % 16 == 0
    ensures PaddedLength(n) <= m
  {
    assert m == m / 16 * 16;
  }

  /** Padding adds the fewest zero bytes that make the size a multiple of 16. */
  lemma PadExactly(packet: bytes, padded: bytes)
    ensures padded == Pad(packet) <==>
            && |padded| % 16 == 0 && |padded| < |packet| + 16
            && packet <= padded && forall i | |packet| <= i < |padded| :: padded[i] == 0
  {
    var full := Pad(packet);
    if |padded| % 16 == 0 && |packet| <= |padded| < |packet| + 16 {
      PaddedLengthIsLeast(|packet|, |padded|);
      assert |padded| == |full|;
    }
    if packet <= padded && |padded| == |full| && (forall i | |packet| <= i < |padded| :: padded[i] == 0) {
      assert forall i | 0 <= i < |full| :: padded[i] == full[i];
    }
  }

  /** The size of the IP packet at the start of a padded packet. */
  function InnerIpLength(padded: bytes): Option<nat> {
    if padded == [] then Some(0)
    else if padded[0] / 16 == 4 then
      if |padded| < 20 then None
      else
        var ihl, total := 4 * (padded[0] % 16), Word(padded[2], padded[3]);
        if ihl < 20 || total < ihl || total > |padded| then None else Some(total)
    else if padded[0] / 16 == 6 then
      if |padded| < 40 then None
      else
        var total := 40 + Word(padded[4], padded[5]);
        if total > |padded| then None else Some(total)
    else None
  }

  /** The packets that declare their own size: by the total length of IPv4 (section 3.1 of RFC 791), which covers a
      header of at least five words, or by the payload length of IPv6 (section 3 of RFC 8200). An empty one is a
      keepalive. */
  predicate SelfSized(packet: bytes) {
    || packet == []
    || (packet[0] / 16 == 4 && |packet| < 0x1_0000
        && 20 <= 4 * (packet[0] % 16) <= |packet| && packet[2..4] == ToBE(|packet|, 2))
    || (packet[0] / 16 == 6 && 40 <= |packet| < 40 + 0x1_0000 && packet[4..6] == ToBE(|packet| - 40, 2))
  }

  lemma WordBE(high: byte, low: byte, n: nat)
    requires n < 0x1_0000
    ensures Word(high, low) == n <==> [high, low] == ToBE(n, 2)
  {
    ToBEShort(n);
    assert ToBE(n, 2)[0] == n / 256 && ToBE(n, 2)[1] == n % 256;
  }

  /** Trimming finds exactly the front part that declares its own size, and nothing is trimmed away completely. */
  lemma TrimmedExactly(padded: bytes, n: nat)
    ensures InnerIpLength(padded) == Some(n) <==> n <= |padded| && SelfSized(padded[..n]) && (n == 0 <==> padded == [])
  {
    hide Word, ToBE;
    if 0 < n <= |padded| {
      var p := padded[..n];
      assert p[0] == padded[0];
      if n >= 4 {
        assert p[2..4] == [padded[2], padded[3]];
      }
      if n >= 6 {
        assert p[4..6] == [padded[4], padded[5]];
      }
      if n >= 20 && n < 0x1_0000 {
        WordBE(padded[2], padded[3], n);
      }
      if n >= 40 && n < 40 + 0x1_0000 {
        WordBE(padded[4], padded[5], n - 40);
      }
    }
  }

  lemma TrimmedWithinPadded(padded: bytes)
    ensures InnerIpLength(padded).Some? ==> InnerIpLength(padded).value <= |padded|
  {
  }

  /** A packet survives padding and trimming exactly when it declares its own size; zero padding never turns a short or
      lying packet into a well-sized one. */
  lemma PadTrim(packet: bytes)
    ensures var n := InnerIpLength(Pad(packet));
            (n.Some? && Pad(packet)[..n.value] == packet) <==> SelfSized(packet)
  {
    hide InnerIpLength, SelfSized;
    var padded, n := Pad(packet), InnerIpLength(Pad(packet));
    assert padded[..|packet|] == packet;
    TrimmedExactly(padded, |packet|);
    TrimmedWithinPadded(padded);
    if n.Some? && padded[..n.value] == packet {
      TrimmedExactly(padded, n.value);
      assert n.value == |packet|;
    }
  }

  // Packets.

  /** What the library answers during one call. */
  datatype Library = Library(
    typeOf: bytes -> nat,
    respond: bytes -> Option<bytes>,
    completes: bytes -> bool,
    receives: nat -> bool,
    seal: (nat, bytes) -> bytes,
    open: (nat, bytes) -> Option<bytes>,
    unseen: nat -> bool
  )

  /** The library's packets start with their message type. */
  ghost predicate TypedPackets(lib: Library) {
    && (forall p: bytes | lib.respond(p).Some? :: lib.respond(p).value != [] && lib.respond(p).value[0] == RESPONSE)
    && (forall p: bytes | |p| >= 4 && p[..4] == ToLE(TRANSPORT, 4) :: lib.typeOf(p) == TRANSPORT)
  }

  /** An ideal cipher under one counter: opening undoes sealing, and the tag takes 16 bytes. */
  ghost predicate Ideal(sender: Library, receiver: Library) {
    forall c: nat, p: bytes :: |sender.seal(c, p)| == |p| + TAG && receiver.open(c, sender.seal(c, p)) == Some(p)
  }

  datatype EngineResult = EngineResult(outbound: bytes, plaintext: Option<bytes>, established: bool)

  const NOTHING := EngineResult([], None, false)

  function HandleTransport(packet: bytes, lib: Library): EngineResult {
    if |packet| < HEADER + TAG || !lib.receives(FromLE(packet[4..8])) then NOTHING
    else
      var counter := FromLE(packet[8..16]);
      var plaintext := lib.open(counter, packet[16..]);
      if plaintext.None? || !lib.unseen(counter) then NOTHING
      else
        var n := InnerIpLength(plaintext.value);
        EngineResult([], if n.Some? then Some(plaintext.value[..n.value]) else None, true)
  }

  function HandlePacket(packet: bytes, lib: Library): EngineResult {
    if packet == [] then NOTHING
    else if lib.typeOf(packet) == INITIATION then
      if |packet| != 148 || lib.respond(packet).None? then NOTHING
      else EngineResult(lib.respond(packet).value, None, true)
    else if lib.typeOf(packet) == RESPONSE then
      if |packet| != 92 || !lib.completes(packet) then NOTHING else EngineResult([], None, true)
    else if lib.typeOf(packet) == TRANSPORT then HandleTransport(packet, lib)
    else NOTHING
  }

  /** A transport packet: type, receiver index, counter, sealed padding of the IP packet. */
  function TransportPacket(remote: nat, counter: nat, packet: bytes, lib: Library): bytes {
    ToLE(TRANSPORT, 4) + ToLE(remote, 4) + ToLE(counter, 8) + lib.seal(counter, Pad(packet))
  }

  class Engine {
    var established: bool
    var counter: nat

    constructor ()
      ensures !established && counter == 0
    {
      established, counter := false, 0;
    }

    method Handle(packet: bytes, lib: Library) returns (r: EngineResult)
      modifies this`established
      ensures r == HandlePacket(packet, lib)
      ensures established == (old(established) || r.established)
    {
      if |packet| == 0 {
        return NOTHING;
      }
      var kind := lib.typeOf(packet);
      if kind == INITIATION {
        if |packet| != 148 {
          return NOTHING;
        }
        var response := lib.respond(packet);
        if response.None? {
          return NOTHING;
        }
        established := true;
        return EngineResult(response.value, None, true);
      } else if kind == RESPONSE {
        if |packet| != 92 || !lib.completes(packet) {
          return NOTHING;
        }
        established := true;
        return EngineResult([], None, true);
      } else if kind == TRANSPORT {
        if |packet| < HEADER + TAG {
          return NOTHING;
        }
        var receiver := LoadLE(packet[4..8]);
        if !lib.receives(receiver) {
          return NOTHING;
        }
        var number := LoadLE(packet[8..16]);
        var plaintext := lib.open(number, packet[16..]);
        if plaintext.None? || !lib.unseen(number) {
          return NOTHING;
        }
        established := true;
        var length := InnerIpLength(plaintext.value);
        if length.None? {
          return EngineResult([], None, true);
        }
        return EngineResult([], Some(plaintext.value[..length.value]), true);
      } else {
        return NOTHING;
      }
    }

    /** None when the session is not ready. The library seals with the counter and then advances it. */
    method Encrypt(packet: bytes, remote: nat, ready: bool, lib: Library) returns (r: Option<bytes>)
      requires forall p: bytes :: |lib.seal(counter, p)| == |p| + TAG
      modifies this`counter
      ensures r == if ready then Some(TransportPacket(remote, old(counter), packet, lib)) else None
      ensures counter == old(counter) + if ready then 1 else 0
    {
      if !ready {
        return None;
      }
      hide ToLE, Pad;
      var padded := Pad(packet);
      var out := new byte[HEADER + |padded| + TAG](_ => 0);
      WriteHeader(out, remote);
      var sealed := lib.seal(counter, padded);
      CopyTo(out, HEADER, sealed);
      counter := counter + 1;
      return Some(out[..]);
    }

    method WriteHeader(out: array<byte>, remote: nat)
      requires out.Length >= HEADER && out[0] == out[1] == out[2] == out[3] == 0
      modifies out
      ensures out[..HEADER] == ToLE(TRANSPORT, 4) + ToLE(remote, 4) + ToLE(counter, 8)
    {
      TransportType();
      hide ToLE;
      out[0] := TRANSPORT;
      assert out[..4] == ToLE(TRANSPORT, 4);
      StoreLE(out, 4, remote, 4);
      assert out[..8] == ToLE(TRANSPORT, 4) + ToLE(remote, 4);
      StoreLE(out, 8, counter, 8);
    }
  }

  lemma TransportType()
    ensures ToLE(TRANSPORT, 4) == [4, 0, 0, 0]
  {
  }

  method CopyTo(out: array<byte>, at: nat, s: bytes)
    requires at + |s| == out.Length
    modifies out
    ensures out[..] == old(out[..at]) + s
  {
    forall i | 0 <= i < |s| {
      out[at + i] := s[i];
    }
  }

  /** Over an ideal cipher the receiving engine hands up exactly the packet that was encrypted if and only if the packet
      declares its own size. */
  lemma TransportRoundTrip(remote: nat, counter: nat, packet: bytes, sender: Library, receiver: Library)
    requires remote < 0x1_0000_0000 && counter < Pow256(8)
    requires Ideal(sender, receiver) && TypedPackets(receiver)
    requires receiver.receives(remote) && receiver.unseen(counter)
    ensures var r := HandlePacket(TransportPacket(remote, counter, packet, sender), receiver);
            && r.outbound == [] && r.established
            && (r.plaintext == Some(packet) <==> SelfSized(packet))
  {
    PadTrim(packet);
    Pow256Values();
    hide InnerIpLength, SelfSized, Pad, ToLE, FromLE, Pow256;
    var sealed := sender.seal(counter, Pad(packet));
    var wire := TransportPacket(remote, counter, packet, sender);
    TransportFields(remote, counter, sealed);
    assert wire[..4] == ToLE(TRANSPORT, 4) && wire[16..] == sealed;
    assert receiver.open(counter, sealed) == Some(Pad(packet));
  }

  lemma TransportFields(remote: nat, counter: nat, sealed: bytes)
    requires remote < 0x1_0000_0000 && counter < Pow256(8)
    ensures var wire := ToLE(TRANSPORT, 4) + ToLE(remote, 4) + ToLE(counter, 8) + sealed;
            && |wire| == 16 + |sealed| && wire[..4] == ToLE(TRANSPORT, 4) && wire[16..] == sealed
            && FromLE(wire[4..8]) == remote && FromLE(wire[8..16]) == counter
  {
    hide Pow256, ToLE, FromLE;
    Pow256Values();
    LittleEndianRoundTrip(remote, 4);
    LittleEndianRoundTrip(counter, 8);
    var wire := ToLE(TRANSPORT, 4) + ToLE(remote, 4) + ToLE(counter, 8) + sealed;
    assert wire[4..8] == ToLE(remote, 4) && wire[8..16] == ToLE(counter, 8);
  }

  /** What a transport packet opens to: type 4, long enough for a tag, for this receiver, under a fresh counter. */
  function Opened(packet: bytes, lib: Library): Option<bytes> {
    if lib.typeOf(packet) == 4 && |packet| >= 32 && lib.receives(FromLE(packet[4..8]))
       && lib.unseen(FromLE(packet[8..16]))
    then lib.open(FromLE(packet[8..16]), packet[16..]) else None
  }

  /** Each part of the engine's answer, over all packets: a session is established exactly by an initiation that can be
      answered, a response that completes the handshake, or a transport packet that opens, each of its exact size; only
      the first is answered; and only the last yields a packet, the front part of what was opened that declares its own
      size. */
  lemma Outcomes(packet: bytes, lib: Library, p: bytes)
    ensures var r := HandlePacket(packet, lib);
            var initiates := |packet| == 148 && lib.typeOf(packet) == 1 && lib.respond(packet).Some?;
            && (r.established <==>
                || initiates
                || (|packet| == 92 && lib.typeOf(packet) == 2 && lib.completes(packet))
                || Opened(packet, lib).Some?)
            && r.outbound == (if initiates then lib.respond(packet).value else [])
            && (r.plaintext == Some(p) <==>
                && Opened(packet, lib).Some? && p <= Opened(packet, lib).value
                && SelfSized(p) && (p == [] <==> Opened(packet, lib).value == []))
  {
    hide InnerIpLength, SelfSized, FromLE;
    if Opened(packet, lib).Some? {
      var padded := Opened(packet, lib).value;
      TrimmedWithinPadded(padded);
      TrimmedExactly(padded, |p|);
      assert p <= padded ==> padded[..|p|] == p;
      if InnerIpLength(padded).Some? {
        var n := InnerIpLength(padded).value;
        TrimmedExactly(padded, n);
        assert |padded[..n]| == n && padded[..n] <= padded;
      }
    }
  }

  /** Everything the engine emits starts with a WireGuard message type. */
  predicate WireGuardPacket(packet: bytes) {
    packet != [] && INITIATION <= packet[0] <= TRANSPORT
  }

  lemma EmitsWireGuard(packet: bytes, remote: nat, counter: nat, lib: Library)
    requires TypedPackets(lib)
    ensures var r := HandlePacket(packet, lib); r.outbound != [] ==> WireGuardPacket(r.outbound)
    ensures WireGuardPacket(TransportPacket(remote, counter, packet, lib))
  {
    assert ToLE(TRANSPORT, 4)[0] == TRANSPORT;
  }
}
