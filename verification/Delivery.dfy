/** IP packets between a client and the server: through the engine of the one end, the relay, and the engine of the
    other. */
module Delivery {
  import opened Core
  import opened Derp
  import opened Endian
  import opened WireGuardEngine
  import opened DataPlane
  import opened PlaneHistory
  import opened Rendezvous

  /** The receiving library is the peer of the sending one, knows its session and has not seen the counter. */
  ghost predicate Linked(sender: Library, receiver: Library, remote: nat, counter: nat) {
    && Ideal(sender, receiver) && TypedPackets(receiver)
    && remote < 0x1_0000_0000 && counter < Pow256(8) && receiver.receives(remote) && receiver.unseen(counter)
  }

  lemma WireSize(remote: nat, counter: nat, ip: bytes, sender: Library, receiver: Library)
    requires Ideal(sender, receiver)
    ensures var wire := TransportPacket(remote, counter, ip, sender);
            |wire| % 16 == 0 && |ip| + 32 <= |wire| < |ip| + 48
  {
    hide ToLE, Pad, Ideal;
    PadExactly(ip, Pad(ip));
    SealedSize(sender, receiver, counter, Pad(ip));
    DivUnique(|Pad(ip)| + 32, 16, |Pad(ip)| / 16 + 2, 0);
  }

  lemma SealedSize(sender: Library, receiver: Library, counter: nat, padded: bytes)
    requires Ideal(sender, receiver)
    ensures |sender.seal(counter, padded)| == |padded| + 16
  {
  }

  lemma NoLetters(packet: bytes)
    requires WireGuardPacket(packet)
    ensures !Letters(packet)
  {
    WireGuardIsNotMeow(packet);
    LettersAre(packet);
  }

  /** What a client in the table encrypts arrives in the server's network stack, and nothing is answered: exactly if the
      packet declares its own size and the stack takes it. The session is established from then on. */
  lemma ClientToServer(
    p: Plane, allow: Key32 -> bool, room: Room, client: Key32, server: Key32,
    ip: bytes, remote: nat, counter: nat, sender: Library, receiver: Library
  )
    requires client in p.peers && Linked(sender, receiver, remote, counter) && TypedPackets(sender)
    requires |ip| + 48 <= 64 * 1024
    ensures var wire := TransportPacket(remote, counter, ip, sender);
            var h := HandleFrame(p, Delivered(Packet(client, server, wire)), allow, AnswersOf(wire, receiver, room));
            && h.plane.sent == p.sent
            && client in h.plane.peers && h.plane.peers[client].established
            && (h.plane.stackInput == p.stackInput + [ip] <==> SelfSized(ip) && room.accepts)
  {
    WireSize(remote, counter, ip, sender, receiver);
    EmitsTransport(remote, counter, ip, sender);
    TransportRoundTrip(remote, counter, ip, sender, receiver);
    LinkedTyped(sender, receiver, remote, counter);
    hide TransportPacket, HandlePacket, HandleFrame, TypedPackets, Ideal, WireGuardPacket, Linked, SelfSized;
    var wire := TransportPacket(remote, counter, ip, sender);
    NoLetters(wire);
    HandsUp(p, Delivered(Packet(client, server, wire)), client, wire, allow, AnswersOf(wire, receiver, room), ip);
  }

  lemma LinkedTyped(sender: Library, receiver: Library, remote: nat, counter: nat)
    requires Linked(sender, receiver, remote, counter)
    ensures TypedPackets(receiver)
  {
  }

  /** A transport packet of a peer hands its plaintext to the stack and answers nothing. */
  lemma HandsUp(
    p: Plane, frame: DerpFrame, source: Key32, packet: bytes, allow: Key32 -> bool, x: Answers, ip: bytes
  )
    requires Carries(frame, source, packet) && !Letters(packet) && source in p.peers
    requires x.result.outbound == [] && x.result.established
    ensures var h := HandleFrame(p, frame, allow, x);
            && h.plane.sent == p.sent && h.plane.peers.Keys == p.peers.Keys && h.plane.peers[source].established
            && (h.plane.stackInput == p.stackInput + [ip] <==> x.result.plaintext == Some(ip) && x.accepts)
  {
    PeerFrame(p, frame, source, packet, allow, x);
    hide HandleFrame, Letters, Carries;
    assert source in HandleFrame(p, frame, allow, x).plane.peers.Keys;
    AppendInjective(p.stackInput, HandedUp(x), [ip]);
    assert p.sent + [] == p.sent;
  }

  lemma EmitsTransport(remote: nat, counter: nat, ip: bytes, lib: Library)
    requires TypedPackets(lib)
    ensures WireGuardPacket(TransportPacket(remote, counter, ip, lib))
  {
    EmitsWireGuard([], remote, counter, lib);
  }

  /** What the server's stack sends to the address of an established client goes out to that client, whose engine turns
      it back into the packet exactly if it declares its own size; any other packet goes nowhere. */
  lemma ServerToClient(
    p: Plane, ip: bytes, remote: nat, counter: nat, sender: Library, receiver: Library
  )
    requires Linked(sender, receiver, remote, counter)
    ensures var wire := TransportPacket(remote, counter, ip, sender);
            var q := SendIp(p, ip, Some(wire));
            && q == p.(sent := p.sent + if Route(p, ip).Some? then [Sent(Route(p, ip).value, wire)] else [])
            && (HandlePacket(wire, receiver).plaintext == Some(ip) <==> SelfSized(ip))
  {
    hide TransportPacket, HandlePacket, Route, TypedPackets, Ideal;
    TransportRoundTrip(remote, counter, ip, sender, receiver);
    assert p.sent + [] == p.sent;
  }
}
