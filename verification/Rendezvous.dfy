/** The rendezvous over a relay that authenticates sources but may drop, duplicate, delay and reorder packets, and
    carries packets of arbitrary third parties. */
module Rendezvous {
  import opened Core
  import opened Derp
  import opened WireGuardEngine
  import opened DataPlane

  datatype Packet = Packet(source: Key32, destination: Key32, payload: bytes)

  /** `net` holds every packet ever given to the relay; the relay may deliver any of them any number of times.
      `returned` holds the nodes whose `rendezvous_client` call returned, `received` what the server has received. */
  datatype World = World(plane: Plane, net: set<Packet>, received: seq<Packet>, returned: set<Key32>)

  /** Whether the server can build a peer object, send and pass a packet to its stack while it handles a frame. */
  datatype Room = Room(builds: bool, sends: bool, accepts: bool)

  function AnswersOf(payload: bytes, lib: Library, room: Room): Answers {
    Answers(HandlePacket(payload, lib), room.builds, room.sends, room.accepts)
  }

  datatype Action =
    | ServerReceives(packet: Packet, lib: Library, room: Room)
    | ServerControl(frame: DerpFrame, sends: bool)
    | ServerSendsIp(ip: bytes, remote: nat, counter: nat, ready: bool, lib: Library)
    | OtherSends(packet: Packet)
    | ClientReceives(packet: Packet)

  const NEW_WORLD := World(NEW_PLANE, {}, [], {})

  /** The server's packets appear on the network under its own key. */
  function Published(server: Key32, sent: seq<Sent>): set<Packet> {
    set s | s in sent :: Packet(server, s.destination, s.packet)
  }

  /** The relay replaces the destination key by the key of the sender. */
  function Delivered(p: Packet): DerpFrame { DerpFrame(RECV_PACKET, p.source + p.payload) }

  /** The packet that ends a rendezvous. */
  predicate Acknowledges(source: Key32, payload: bytes, server: Key32) {
    source == server && IsMeowed(payload)
  }

  ghost predicate Enabled(w: World, a: Action, server: Key32) {
    match a
    case ServerReceives(p, lib, _) =>
      p in w.net && p.destination == server && |p.payload| <= MAX_PACKET && TypedPackets(lib)
    case ServerControl(frame, _) => frame.kind != RECV_PACKET
    case ServerSendsIp(_, _, _, _, lib) => TypedPackets(lib)
    case OtherSends(p) => p.source != server
    case ClientReceives(p) => p in w.net && p.destination != server
  }

  function Step(w: World, a: Action, server: Key32, allow: Key32 -> bool): World {
    match a
    case ServerReceives(p, lib, room) =>
      var plane := HandleFrame(w.plane, Delivered(p), allow, AnswersOf(p.payload, lib, room)).plane;
      World(plane, w.net + Published(server, plane.sent), w.received + [p], w.returned)
    case ServerControl(frame, sends) =>
      w.(plane := HandleFrame(w.plane, frame, allow, Answers(NOTHING, false, sends, false)).plane)
    case ServerSendsIp(ip, remote, counter, ready, lib) =>
      var plane := SendIp(w.plane, ip, if ready then Some(TransportPacket(remote, counter, ip, lib)) else None);
      w.(plane := plane, net := w.net + Published(server, plane.sent))
    case OtherSends(p) => w.(net := w.net + {p})
    case ClientReceives(p) =>
      if Acknowledges(p.source, p.payload, server) then w.(returned := w.returned + {p.destination}) else w
  }

  ghost predicate Possible(w: World, actions: seq<Action>, server: Key32, allow: Key32 -> bool)
    decreases |actions|
  {
    actions != [] ==>
      Enabled(w, actions[0], server) && Possible(Step(w, actions[0], server, allow), actions[1..], server, allow)
  }

  function Run(w: World, actions: seq<Action>, server: Key32, allow: Key32 -> bool): World
    decreases |actions|
  {
    if actions == [] then w else Run(Step(w, actions[0], server, allow), actions[1..], server, allow)
  }

  /** A node that was admitted: a ping of its own was received and its key is allowed and in the table. */
  ghost predicate Admitted(w: World, node: Key32, allow: Key32 -> bool) {
    && allow(node)
    && node in w.plane.peers
    && exists p :: p in w.received && p.source == node && ParseMeowPing(p.payload).Some?
  }

  ghost predicate Inv(w: World, server: Key32, allow: Key32 -> bool) {
    && (forall s | s in w.plane.sent && IsMeowed(s.packet) :: Admitted(w, s.destination, allow))
    && (forall p | p in w.net && p.source == server && IsMeowed(p.payload) :: Admitted(w, p.destination, allow))
    && (forall k | k in w.returned :: Admitted(w, k, allow))
  }

  /** The server's own transport packets are never mistaken for an acknowledgment. */
  lemma WireGuardIsNotMeow(packet: bytes)
    requires WireGuardPacket(packet)
    ensures !IsMeow(packet) && !IsMeowed(packet)
  {
    assert |packet| >= 4 ==> packet[..4][0] == packet[0];
  }

  lemma AdmittedStays(w: World, w': World, node: Key32, allow: Key32 -> bool)
    requires Admitted(w, node, allow)
    requires w.plane.peers.Keys <= w'.plane.peers.Keys && w.received <= w'.received
    ensures Admitted(w', node, allow)
  {
    assert node in w.plane.peers.Keys;
    var p :| p in w.received && p.source == node && ParseMeowPing(p.payload).Some?;
    assert p in w'.received;
  }

  lemma AddPeerAdds(plane: Plane, node: Key32, disco: Key32)
    ensures var plane' := AddPeer(plane, node, disco);
            plane.peers.Keys <= plane'.peers.Keys && node in plane'.peers && plane'.sent == plane.sent
  {
    hide IpForNode;
  }

  /** What one received packet does to the plane: it only adds to the table, and an acknowledgment goes only to the
      sender of an allowed ping, which is then in the table. */
  lemma ReceiptSends(plane: Plane, p: Packet, allow: Key32 -> bool, lib: Library, room: Room)
    requires |p.payload| <= MAX_PACKET && TypedPackets(lib)
    ensures var plane' := HandleFrame(plane, Delivered(p), allow, AnswersOf(p.payload, lib, room)).plane;
            && plane.peers.Keys <= plane'.peers.Keys
            && (forall s | s in plane'.sent && IsMeowed(s.packet) ::
                  s in plane.sent
                  || (s.destination == p.source && allow(p.source) && ParseMeowPing(p.payload).Some?
                      && p.source in plane'.peers))
  {
    hide Admission, ParseRecvPacket, ParseMeowPing, IsMeow, IsMeowed, HandlePacket, TypedPackets, Admit, ToEngine;
    var frame := Delivered(p);
    var x := AnswersOf(p.payload, lib, room);
    PacketRoundTrip(p.source, p.payload);
    if Admission(frame, allow).Some? {
      AdmissionParses(frame, allow);
      AdmitSends(plane, p.source, Admission(frame, allow).value.1, x);
    } else if p.source in plane.peers {
      EmitsWireGuard(p.payload, 0, 0, lib);
      EngineSends(plane, p.source, x);
    }
  }

  lemma AdmitSends(plane: Plane, node: Key32, disco: Key32, x: Answers)
    ensures var plane' := Admit(plane, node, disco, x).plane;
            && plane.peers.Keys <= plane'.peers.Keys
            && forall s | s in plane'.sent :: s in plane.sent || (s.destination == node && node in plane'.peers)
  {
    hide AddPeer;
    AddPeerAdds(plane, node, disco);
  }

  lemma EngineSends(plane: Plane, source: Key32, x: Answers)
    requires source in plane.peers && (x.result.outbound != [] ==> WireGuardPacket(x.result.outbound))
    ensures var plane' := ToEngine(plane, source, x).plane;
            && plane.peers.Keys <= plane'.peers.Keys
            && forall s | s in plane'.sent && IsMeowed(s.packet) :: s in plane.sent
  {
    hide IsMeowed, WireGuardPacket;
    if x.result.outbound != [] {
      WireGuardIsNotMeow(x.result.outbound);
    }
  }

  lemma TransportSends(plane: Plane, ip: bytes, remote: nat, counter: nat, lib: Library)
    requires TypedPackets(lib)
    ensures var plane' := SendIp(plane, ip, Some(TransportPacket(remote, counter, ip, lib)));
            forall s | s in plane'.sent && IsMeowed(s.packet) :: s in plane.sent
  {
    hide TransportPacket, IsMeowed, Route;
    EmitsWireGuard(ip, remote, counter, lib);
    WireGuardIsNotMeow(TransportPacket(remote, counter, ip, lib));
  }

  /** A step of the server keeps the invariant when every acknowledgment it adds is for an admitted node. */
  lemma PublishingKeeps(w: World, w': World, server: Key32, allow: Key32 -> bool)
    requires Inv(w, server, allow)
    requires w.plane.peers.Keys <= w'.plane.peers.Keys && w.received <= w'.received && w'.returned == w.returned
    requires w'.net == w.net + Published(server, w'.plane.sent)
    requires forall s | s in w'.plane.sent && IsMeowed(s.packet) ::
               s in w.plane.sent || Admitted(w', s.destination, allow)
    ensures Inv(w', server, allow)
  {
    hide Admitted, IsMeowed;
    forall k | Admitted(w, k, allow) ensures Admitted(w', k, allow) {
      AdmittedStays(w, w', k, allow);
    }
    forall s | s in w'.plane.sent && IsMeowed(s.packet) ensures Admitted(w', s.destination, allow) {
    }
    forall p | p in w'.net && p.source == server && IsMeowed(p.payload) ensures Admitted(w', p.destination, allow) {
      if p !in w.net {
        var s :| s in w'.plane.sent && p == Packet(server, s.destination, s.packet);
      }
    }
  }

  lemma ReceiptKeeps(w: World, p: Packet, lib: Library, room: Room, server: Key32, allow: Key32 -> bool)
    requires Inv(w, server, allow) && Enabled(w, ServerReceives(p, lib, room), server)
    ensures var w' := Step(w, ServerReceives(p, lib, room), server, allow);
            Inv(w', server, allow) && w.plane.peers.Keys <= w'.plane.peers.Keys
  {
    hide HandleFrame, IsMeowed, HandlePacket, ParseMeowPing, Inv, Published, TypedPackets;
    var w' := Step(w, ServerReceives(p, lib, room), server, allow);
    ReceiptSends(w.plane, p, allow, lib, room);
    forall s | s in w'.plane.sent && IsMeowed(s.packet) && s !in w.plane.sent
      ensures Admitted(w', s.destination, allow)
    {
      assert p in w'.received;
    }
    PublishingKeeps(w, w', server, allow);
  }

  lemma TransportKeeps(w: World, a: Action, server: Key32, allow: Key32 -> bool)
    requires Inv(w, server, allow) && a.ServerSendsIp? && Enabled(w, a, server)
    ensures Inv(Step(w, a, server, allow), server, allow)
    ensures w.plane.peers.Keys <= Step(w, a, server, allow).plane.peers.Keys
  {
    hide IsMeowed, TransportPacket, Admitted, Inv, Published, TypedPackets, Route;
    TransportSends(w.plane, a.ip, a.remote, a.counter, a.lib);
    PublishingKeeps(w, Step(w, a, server, allow), server, allow);
  }

  lemma OthersKeep(w: World, a: Action, server: Key32, allow: Key32 -> bool)
    requires Inv(w, server, allow) && (a.OtherSends? || a.ClientReceives?) && Enabled(w, a, server)
    ensures Inv(Step(w, a, server, allow), server, allow)
  {
    hide IsMeowed, ParseMeowPing;
    var w' := Step(w, a, server, allow);
    assert w'.plane == w.plane && w'.received == w.received;
    forall k: Key32 ensures Admitted(w', k, allow) == Admitted(w, k, allow) {
    }
  }

  lemma ControlKeeps(w: World, a: Action, server: Key32, allow: Key32 -> bool)
    requires Inv(w, server, allow) && a.ServerControl? && Enabled(w, a, server)
    ensures var w' := Step(w, a, server, allow); Inv(w', server, allow) && w' == w.(plane := w'.plane)
    ensures Step(w, a, server, allow).plane.peers == w.plane.peers
  {
    hide IsMeowed, ParseMeowPing;
    var w' := Step(w, a, server, allow);
    assert w'.plane.sent == w.plane.sent && w'.plane.peers == w.plane.peers;
    forall k: Key32 ensures Admitted(w', k, allow) == Admitted(w, k, allow) {
    }
  }

  lemma StepKeeps(w: World, a: Action, server: Key32, allow: Key32 -> bool)
    requires Inv(w, server, allow) && Enabled(w, a, server)
    ensures Inv(Step(w, a, server, allow), server, allow)
    ensures w.plane.peers.Keys <= Step(w, a, server, allow).plane.peers.Keys
    ensures w.received <= Step(w, a, server, allow).received
  {
    hide SendIp, Inv, IsMeowed, HandlePacket, TransportPacket, ParseMeowPing, Delivered;
    match a {
      case ServerReceives(p, lib, room) => ReceiptKeeps(w, p, lib, room, server, allow);
      case ServerControl(_, _) => ControlKeeps(w, a, server, allow);
      case ServerSendsIp(_, _, _, _, _) => TransportKeeps(w, a, server, allow);
      case OtherSends(p) => OthersKeep(w, a, server, allow);
      case ClientReceives(p) => OthersKeep(w, a, server, allow);
    }
  }

  lemma {:induction false} RunKeeps(w: World, actions: seq<Action>, server: Key32, allow: Key32 -> bool)
    requires Inv(w, server, allow) && Possible(w, actions, server, allow)
    ensures Inv(Run(w, actions, server, allow), server, allow)
    ensures w.plane.peers.Keys <= Run(w, actions, server, allow).plane.peers.Keys
    decreases |actions|
  {
    hide Inv, Enabled, Step;
    if actions != [] {
      StepKeeps(w, actions[0], server, allow);
      RunKeeps(Step(w, actions[0], server, allow), actions[1..], server, allow);
    }
  }

  /** In every run: when the rendezvous of a client returns, the server has received a valid ping from that very key,
      its predicate allows the key, and the key is a peer then and ever after. */
  lemma Agreement(actions: seq<Action>, later: seq<Action>, server: Key32, allow: Key32 -> bool, client: Key32)
    requires Possible(NEW_WORLD, actions, server, allow)
    requires var w := Run(NEW_WORLD, actions, server, allow); Possible(w, later, server, allow) && client in w.returned
    ensures var w := Run(NEW_WORLD, actions, server, allow);
            && Admitted(w, client, allow)
            && client in Run(w, later, server, allow).plane.peers
  {
    hide Possible, Run;
    RunKeeps(NEW_WORLD, actions, server, allow);
    var w := Run(NEW_WORLD, actions, server, allow);
    RunKeeps(w, later, server, allow);
    assert client in w.plane.peers.Keys;
  }

  /** Three deliveries suffice: from every world, an allowed client completes its rendezvous if the server can send and
      has or can build a peer object for it; otherwise the second delivery makes the server send nothing. */
  lemma Completable(
    w: World, server: Key32, allow: Key32 -> bool, client: Key32, disco: Key32, lib: Library, room: Room
  )
    requires client != server && allow(client) && !AllZero(disco) && TypedPackets(lib)
    ensures var ping := Packet(client, server, EncodeMeowPing(client, disco));
            var reply := Packet(server, client, EncodeMeowed());
            var actions := [OtherSends(ping), ServerReceives(ping, lib, room), ClientReceives(reply)];
            if room.sends && (room.builds || client in w.plane.peers) then
              Possible(w, actions, server, allow) && client in Run(w, actions, server, allow).returned
            else
              var w1 := Step(w, actions[0], server, allow);
              Step(w1, actions[1], server, allow).plane.sent == w.plane.sent
  {
    hide HandlePacket, AllZero, IpForNode, ParseMeowPing, ParseRecvPacket, TypedPackets, IsMeow, IsMeowed, AddPeer;
    var ping := Packet(client, server, EncodeMeowPing(client, disco));
    var reply := Packet(server, client, EncodeMeowed());
    var w1 := Step(w, OtherSends(ping), server, allow);
    var w2 := Step(w1, ServerReceives(ping, lib, room), server, allow);
    PingAdmits(client, server, disco, allow);
    AddPeerAdds(w.plane, client, disco);
    if room.sends && (room.builds || client in w.plane.peers) {
      assert Sent(client, EncodeMeowed()) in w2.plane.sent;
      assert reply in w2.net;
      MeowRoundTrip(client, disco, []);
      RunThree(w, OtherSends(ping), ServerReceives(ping, lib, room), ClientReceives(reply), server, allow);
    }
  }

  lemma PingAdmits(client: Key32, server: Key32, disco: Key32, allow: Key32 -> bool)
    requires allow(client) && !AllZero(disco)
    ensures var ping := Packet(client, server, EncodeMeowPing(client, disco));
            && |ping.payload| <= MAX_PACKET
            && ParseRecvPacket(Delivered(ping).payload) == Some((client, ping.payload))
            && Admission(Delivered(ping), allow) == Some((client, disco))
  {
    hide AllZero, ParseMeowPing, ParseRecvPacket, IsMeow, IsMeowed;
    var ping := Packet(client, server, EncodeMeowPing(client, disco));
    MeowRoundTrip(client, disco, []);
    assert EncodeMeowPing(client, disco) + [] == ping.payload;
    PacketRoundTrip(client, ping.payload);
    assert Delivered(ping).payload == client + ping.payload;
  }

  lemma RunThree(w: World, a: Action, b: Action, c: Action, server: Key32, allow: Key32 -> bool)
    ensures var w1 := Step(w, a, server, allow);
            var w2 := Step(w1, b, server, allow);
            && Run(w, [a, b, c], server, allow) == Step(w2, c, server, allow)
            && (Possible(w, [a, b, c], server, allow) <==>
                Enabled(w, a, server) && Enabled(w1, b, server) && Enabled(w2, c, server))
  {
    hide Enabled, Step;
    var w1 := Step(w, a, server, allow);
    var w2 := Step(w1, b, server, allow);
    assert [a, b, c][1..] == [b, c] && [b, c][1..] == [c] && [c][1..] == [];
    assert Run(w2, [c], server, allow) == Step(w2, c, server, allow);
    assert Run(w1, [b, c], server, allow) == Run(w2, [c], server, allow);
    assert Possible(w1, [b, c], server, allow) == (Enabled(w1, b, server) && Possible(w2, [c], server, allow));
  }
}
