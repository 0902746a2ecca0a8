/** The server's data plane: admission by MEOW, one WireGuard peer per admitted node key, and routing by synthetic
    IPv6 address. */
module DataPlane {
  import opened Core
  import opened Derp
  import opened WireGuardEngine

  type Ip6Address = bytes

  /** fd7a:115c:a1e0::/48 followed by the first ten bytes of the node key. */
  function IpForNode(node: Key32): (ip: Ip6Address)
    ensures |ip| == 16
  {
    [0xfd, 0x7a, 0x11, 0x5c, 0xa1, 0xe0] + node[..10]
  }

  /** A peer object. The pointers of the address index are modelled by the node key of the peer they point to; peers
      are never removed. */
  datatype Peer = Peer(disco: Key32, established: bool)

  /** A packet handed to the relay for a node. */
  datatype Sent = Sent(destination: Key32, packet: bytes)

  datatype Plane = Plane(
    peers: map<Key32, Peer>, byIp: map<Ip6Address, Key32>,
    sent: seq<Sent>, pongs: seq<bytes>, stackInput: seq<bytes>)

  const NEW_PLANE := Plane(map[], map[], [], [], [])

  // The steps.

  function AddPeer(p: Plane, node: Key32, disco: Key32): Plane {
    if node in p.peers then p.(peers := p.peers[node := p.peers[node].(disco := disco)])
    else
      var address := IpForNode(node);
      var byIp := if address in p.byIp then p.byIp else p.byIp[address := node];
      p.(peers := p.peers[node := Peer(disco, false)], byIp := byIp)
  }

  /** The source and disco key of a frame that asks for admission and is allowed it. */
  function Admission(frame: DerpFrame, allow: Key32 -> bool): Option<(Key32, Key32)> {
    if frame.kind != RECV_PACKET then None
    else
      var (source, packet) :- ParseRecvPacket(frame.payload);
      if IsMeowed(packet) || !IsMeow(packet) || !allow(source) then None
      else
        var (_, disco) :- ParseMeowPing(packet);
        Some((source, disco))
  }

  /** What the other objects answer while one frame is handled: what the sender's engine makes of the packet, whether
      a new peer object can be built, whether sending succeeds, and whether the network stack takes the packet. Each
      `false` is an exception. */
  datatype Answers = Answers(result: EngineResult, builds: bool, sends: bool, accepts: bool)

  /** A plane after a step, and whether the step returned; otherwise it threw. */
  datatype Handled = Handled(plane: Plane, ok: bool)

  /** Admits a node and acknowledges it. A peer object that cannot be built leaves the tables alone, an acknowledgment
      that cannot be sent does not. */
  function Admit(p: Plane, node: Key32, disco: Key32, x: Answers): Handled {
    if node !in p.peers && !x.builds then Handled(p, false)
    else
      var q := AddPeer(p, node, disco);
      if !x.sends then Handled(q, false) else Handled(q.(sent := q.sent + [Sent(node, EncodeMeowed())]), true)
  }

  /** Packets that are neither rendezvous packets nor from strangers go to the sender's engine. */
  function ToEngine(p: Plane, source: Key32, x: Answers): Handled
    requires source in p.peers
  {
    var peer := p.peers[source].(established := p.peers[source].established || x.result.established);
    var q := p.(peers := p.peers[source := peer]);
    if x.result.outbound != [] && !x.sends then Handled(q, false)
    else Deliver(if x.result.outbound == [] then q else q.(sent := q.sent + [Sent(source, x.result.outbound)]), x)
  }

  function Deliver(p: Plane, x: Answers): Handled {
    if x.result.plaintext.None? then Handled(p, true)
    else if !x.accepts then Handled(p, false)
    else Handled(p.(stackInput := p.stackInput + [x.result.plaintext.value]), true)
  }

  function HandleFrame(p: Plane, frame: DerpFrame, allow: Key32 -> bool, x: Answers): Handled {
    if frame.kind == PING && |frame.payload| == 8 then
      if x.sends then Handled(p.(pongs := p.pongs + [frame.payload]), true) else Handled(p, false)
    else if frame.kind != RECV_PACKET then Handled(p, true)
    else if ParseRecvPacket(frame.payload).None? then Handled(p, false)
    else
      var (source, packet) := ParseRecvPacket(frame.payload).value;
      match Admission(frame, allow)
      case Some((node, disco)) => Admit(p, node, disco, x)
      case None => if IsMeow(packet) || source !in p.peers then Handled(p, true) else ToEngine(p, source, x)
  }

  /** The peer that a packet from the network stack is routed to, if its session is established. */
  function Route(p: Plane, packet: bytes): Option<Key32> {
    if |packet| < 40 || packet[0] / 16 != 6 || packet[24..40] !in p.byIp then None
    else
      var node := p.byIp[packet[24..40]];
      if node in p.peers && p.peers[node].established then Some(node) else None
  }

  /** `encrypted` is what the peer's engine makes of the packet; None when it or the sending throws. */
  function SendIp(p: Plane, packet: bytes, encrypted: Option<bytes>): Plane {
    match Route(p, packet)
    case None => p
    case Some(node) => if encrypted.None? then p else p.(sent := p.sent + [Sent(node, encrypted.value)])
  }

  /** The data plane object. */
  class ServerDataPlane {
    const allow: Key32 -> bool
    var peers: map<Key32, Peer>
    var byIp: map<Ip6Address, Key32>
    ghost var sent: seq<Sent>
    ghost var pongs: seq<bytes>
    ghost var stackInput: seq<bytes>

    constructor (allow: Key32 -> bool)
      ensures this.allow == allow && View() == NEW_PLANE
    {
      this.allow := allow;
      peers, byIp, sent, pongs, stackInput := map[], map[], [], [], [];
    }

    ghost function View(): Plane
      reads this
    {
      Plane(peers, byIp, sent, pongs, stackInput)
    }

    /** False when the peer object cannot be built. */
    method AddPeerFor(node: Key32, disco: Key32, builds: bool) returns (ok: bool)
      modifies this`peers, this`byIp
      ensures ok <==> node in old(peers) || builds
      ensures View() == if ok then AddPeer(old(View()), node, disco) else old(View())
    {
      if node in peers {
        peers := peers[node := peers[node].(disco := disco)];
        return true;
      }
      if !builds {
        return false;
      }
      var address := IpForNode(node);
      if address !in byIp {
        byIp := byIp[address := node];
      }
      peers := peers[node := Peer(disco, false)];
      return true;
    }

    method Send(destination: Key32, packet: bytes, sends: bool) returns (ok: bool)
      modifies this`sent
      ensures ok == sends && sent == if sends then old(sent) + [Sent(destination, packet)] else old(sent)
    {
      if sends {
        sent := sent + [Sent(destination, packet)];
      }
      return sends;
    }

    /** `ok` is false when the handling throws. */
    method Handle(frame: DerpFrame, x: Answers) returns (ok: bool)
      modifies this
      ensures Handled(View(), ok) == HandleFrame(old(View()), frame, allow, x)
    {
      hide AddPeer, ToEngine;
      if frame.kind == PING && |frame.payload| == 8 {
        if x.sends {
          pongs := pongs + [frame.payload];
        }
        return x.sends;
      }
      if frame.kind != RECV_PACKET {
        return true;
      }
      var parsed := ParseRecvPacket(frame.payload);
      if parsed.None? {
        return false;
      }
      var (source, packet) := parsed.value;
      if IsMeowed(packet) {
        return true;
      }
      if IsMeow(packet) {
        var ping := ParseMeowPing(packet);
        if ping.None? {
          return true;
        }
        if !allow(source) {
          return true;
        }
        ok := AddPeerFor(source, ping.value.1, x.builds);
        if !ok {
          return false;
        }
        ok := Send(source, EncodeMeowed(), x.sends);
        return;
      }
      if source !in peers {
        return true;
      }
      ok := HandleByEngine(source, x);
    }

    method HandleByEngine(source: Key32, x: Answers) returns (ok: bool)
      requires source in peers
      modifies this
      ensures Handled(View(), ok) == ToEngine(old(View()), source, x)
    {
      peers := peers[source := peers[source].(established := peers[source].established || x.result.established)];
      if |x.result.outbound| > 0 {
        ok := Send(source, x.result.outbound, x.sends);
        if !ok {
          return;
        }
      }
      if x.result.plaintext.Some? {
        if !x.accepts {
          return false;
        }
        stackInput := stackInput + [x.result.plaintext.value];
      }
      return true;
    }

    method SendIpPacket(packet: bytes, encrypted: Option<bytes>)
      modifies this`sent
      ensures View() == SendIp(old(View()), packet, encrypted)
    {
      if |packet| < 40 || packet[0] / 16 != 6 {
        return;
      }
      var destination := packet[24..40];
      if destination !in byIp {
        return;
      }
      var node := byIp[destination];
      if node !in peers || !peers[node].established {
        return;
      }
      if encrypted.Some? {
        var _ := Send(node, encrypted.value, true);
      }
    }
  }

  // Runs.

  datatype Input = FrameIn(frame: DerpFrame, answers: Answers) | IpOut(packet: bytes, encrypted: Option<bytes>)

  function Next(p: Plane, i: Input, allow: Key32 -> bool): Plane {
    match i
    case FrameIn(frame, x) => HandleFrame(p, frame, allow, x).plane
    case IpOut(packet, encrypted) => SendIp(p, packet, encrypted)
  }

  function Run(p: Plane, inputs: seq<Input>, allow: Key32 -> bool): Plane
    decreases |inputs|
  {
    if inputs == [] then p else Run(Next(p, inputs[0], allow), inputs[1..], allow)
  }

  /** What one input adds to the list of admissions: a node asks and is allowed, and has been admitted before or can be
      given a peer object. */
  function AdmittedBy(log: seq<(Key32, Key32)>, i: Input, allow: Key32 -> bool): seq<(Key32, Key32)> {
    if i.FrameIn? && Admission(i.frame, allow).Some? then
      var e := Admission(i.frame, allow).value;
      if i.answers.builds || LatestDisco(log, e.0).Some? then [e] else []
    else []
  }

  /** The admissions of a run after those of `log`, oldest first. */
  function Admissions(log: seq<(Key32, Key32)>, inputs: seq<Input>, allow: Key32 -> bool): seq<(Key32, Key32)>
    decreases |inputs|
  {
    if inputs == [] then log else Admissions(log + AdmittedBy(log, inputs[0], allow), inputs[1..], allow)
  }

  // What the tables should be, computed from the admissions alone.

  /** The disco key of the latest admission of a node. */
  function LatestDisco(log: seq<(Key32, Key32)>, node: Key32): Option<Key32>
    decreases |log|
  {
    if log == [] then None
    else if log[|log| - 1].0 == node then Some(log[|log| - 1].1)
    else LatestDisco(log[..|log| - 1], node)
  }

  /** The address of a node: fd7a:115c:a1e0::/48 and the first 80 bits of its key. */
  predicate HasAddress(node: Key32, ip: Ip6Address) {
    |ip| == 16 && ip[..6] == [0xfd, 0x7a, 0x11, 0x5c, 0xa1, 0xe0] && ip[6..] == node[..10]
  }

  lemma AddressExactly(node: Key32, ip: Ip6Address)
    ensures IpForNode(node) == ip <==> HasAddress(node, ip)
  {
    if HasAddress(node, ip) {
      assert ip == ip[..6] + ip[6..];
    }
  }

  /** A scan in admission order for a node with this address. */
  function FirstOwner(log: seq<(Key32, Key32)>, ip: Ip6Address): Option<Key32>
    decreases |log|
  {
    if log == [] then None
    else if HasAddress(log[0].0, ip) then Some(log[0].0)
    else FirstOwner(log[1..], ip)
  }

  /** Both tables agree with the admissions. */
  ghost predicate TablesAgree(p: Plane, log: seq<(Key32, Key32)>) {
    && (forall k: Key32 :: k in p.peers <==> LatestDisco(log, k).Some?)
    && (forall k: Key32 | k in p.peers :: LatestDisco(log, k) == Some(p.peers[k].disco))
    && (forall ip :: ip in p.byIp <==> FirstOwner(log, ip).Some?)
    && (forall ip | ip in p.byIp :: FirstOwner(log, ip) == Some(p.byIp[ip]))
  }

  lemma {:induction false} FirstOwnerSnoc(log: seq<(Key32, Key32)>, e: (Key32, Key32), ip: Ip6Address)
    ensures FirstOwner(log + [e], ip) ==
            if FirstOwner(log, ip).Some? then FirstOwner(log, ip)
            else if HasAddress(e.0, ip) then Some(e.0) else None
    decreases |log|
  {
    hide HasAddress;
    if log == [] {
      assert log + [e] == [e] && [e][1..] == [];
    } else {
      assert (log + [e])[1..] == log[1..] + [e] && (log + [e])[0] == log[0];
      FirstOwnerSnoc(log[1..], e, ip);
    }
  }

  /** A node that was admitted owns its address or found it taken by an earlier node. */
  lemma {:induction false} AdmittedHasOwner(log: seq<(Key32, Key32)>, node: Key32)
    requires LatestDisco(log, node).Some?
    ensures FirstOwner(log, IpForNode(node)).Some?
    decreases |log|
  {
    hide IpForNode, HasAddress;
    var front, last := log[..|log| - 1], log[|log| - 1];
    AddressExactly(last.0, IpForNode(node));
    assert log == front + [last];
    FirstOwnerSnoc(front, last, IpForNode(node));
    if last.0 != node {
      AdmittedHasOwner(front, node);
    }
  }

  lemma AddPeerAgrees(p: Plane, log: seq<(Key32, Key32)>, node: Key32, disco: Key32)
    requires TablesAgree(p, log)
    ensures TablesAgree(AddPeer(p, node, disco), log + [(node, disco)])
  {
    hide IpForNode, HasAddress, FirstOwner, LatestDisco;
    var log' := log + [(node, disco)];
    forall k: Key32 ensures LatestDisco(log', k) == if k == node then Some(disco) else LatestDisco(log, k) {
      LatestDiscoSnoc(log, (node, disco), k);
    }
    forall ip ensures FirstOwner(log', ip) ==
                      if FirstOwner(log, ip).Some? then FirstOwner(log, ip)
                      else if IpForNode(node) == ip then Some(node) else None
    {
      AddressExactly(node, ip);
      FirstOwnerSnoc(log, (node, disco), ip);
    }
    if node in p.peers {
      AdmittedHasOwner(log, node);
    }
  }

  lemma LatestDiscoSnoc(log: seq<(Key32, Key32)>, e: (Key32, Key32), k: Key32)
    ensures LatestDisco(log + [e], k) == if k == e.0 then Some(e.1) else LatestDisco(log, k)
  {
    assert (log + [e])[..|log|] == log;
  }

  lemma NextAgrees(p: Plane, log: seq<(Key32, Key32)>, i: Input, allow: Key32 -> bool)
    requires TablesAgree(p, log)
    ensures TablesAgree(Next(p, i, allow), log + AdmittedBy(log, i, allow))
  {
    hide AddPeer, FirstOwner, LatestDisco, Admission, ToEngine, SendIp;
    assert log + [] == log;
    match i
    case IpOut(packet, encrypted) => SendIpTables(p, packet, encrypted);
    case FrameIn(frame, x) =>
      if Admission(frame, allow).Some? {
        var (node, disco) := Admission(frame, allow).value;
        AdmissionParses(frame, allow);
        AddPeerAgrees(p, log, node, disco);
      } else if frame.kind == RECV_PACKET && ParseRecvPacket(frame.payload).Some? {
        var (source, packet) := ParseRecvPacket(frame.payload).value;
        if source in p.peers {
          EngineTables(p, source, x);
          SameTablesAgree(p, ToEngine(p, source, x).plane, log);
        }
      }
  }

  /** The engine touches neither the keys of the peer table, nor their disco keys, nor the index. */
  ghost predicate SameTables(p: Plane, q: Plane) {
    q.byIp == p.byIp && q.peers.Keys == p.peers.Keys && forall k | k in p.peers :: q.peers[k].disco == p.peers[k].disco
  }

  lemma EngineTables(p: Plane, source: Key32, x: Answers)
    requires source in p.peers
    ensures SameTables(p, ToEngine(p, source, x).plane)
  {
  }

  lemma SendIpTables(p: Plane, packet: bytes, encrypted: Option<bytes>)
    ensures var q := SendIp(p, packet, encrypted); q.peers == p.peers && q.byIp == p.byIp
  {
    hide Route;
  }

  lemma SameTablesAgree(p: Plane, q: Plane, log: seq<(Key32, Key32)>)
    requires TablesAgree(p, log) && SameTables(p, q)
    ensures TablesAgree(q, log)
  {
    hide FirstOwner, LatestDisco;
    assert forall k :: k in p.peers <==> k in q.peers.Keys;
  }

  /** An admission is of the frame's own source, which is allowed and sent a valid ping. */
  lemma AdmissionParses(frame: DerpFrame, allow: Key32 -> bool)
    requires Admission(frame, allow).Some?
    ensures frame.kind == RECV_PACKET && ParseRecvPacket(frame.payload).Some?
    ensures var (source, packet), (node, disco) := ParseRecvPacket(frame.payload).value, Admission(frame, allow).value;
            node == source && allow(source) && ParseMeowPing(packet).Some? && ParseMeowPing(packet).value.1 == disco
  {
    hide ParseRecvPacket, ParseMeowPing, IsMeow, IsMeowed;
  }

  lemma {:induction false} RunAgrees(p: Plane, log: seq<(Key32, Key32)>, inputs: seq<Input>, allow: Key32 -> bool)
    requires TablesAgree(p, log)
    ensures TablesAgree(Run(p, inputs, allow), Admissions(log, inputs, allow))
    decreases |inputs|
  {
    hide TablesAgree, Next, AdmittedBy;
    if inputs != [] {
      var i := inputs[0];
      NextAgrees(p, log, i, allow);
      RunAgrees(Next(p, i, allow), log + AdmittedBy(log, i, allow), inputs[1..], allow);
    }
  }

  /** The peer table and the address index refine the list of admissions over every run: the peers are exactly the
      sources of allowed valid MEOWs for which a peer object could be built, each with the disco key of its latest
      one, and every address belongs to the first admitted node that has it. */
  lemma Tables(inputs: seq<Input>, allow: Key32 -> bool, node: Key32, ip: Ip6Address)
    ensures var p, log := Run(NEW_PLANE, inputs, allow), Admissions([], inputs, allow);
            && (node in p.peers <==> LatestDisco(log, node).Some?)
            && (node in p.peers ==> LatestDisco(log, node) == Some(p.peers[node].disco))
            && (ip in p.byIp <==> FirstOwner(log, ip).Some?)
            && (ip in p.byIp ==> FirstOwner(log, ip) == Some(p.byIp[ip]))
  {
    RunAgrees(NEW_PLANE, [], inputs, allow);
  }

  /** Routing sends a packet to the node that a scan in admission order finds, provided its session is established;
      so two nodes that share their first 80 bits never split one address. */
  lemma RoutesToFirst(inputs: seq<Input>, allow: Key32 -> bool, packet: bytes)
    requires |packet| >= 40 && packet[0] / 16 == 6
    ensures var p := Run(NEW_PLANE, inputs, allow);
            var owner := FirstOwner(Admissions([], inputs, allow), packet[24..40]);
            Route(p, packet) ==
            if owner.Some? && owner.value in p.peers && p.peers[owner.value].established then owner else None
  {
    hide FirstOwner, LatestDisco, Admissions, Run;
    Tables(inputs, allow, ZERO_KEY, packet[24..40]);
  }

  /** Peers are never forgotten. */
  lemma {:induction false} PeersGrow(p: Plane, inputs: seq<Input>, allow: Key32 -> bool)
    ensures p.peers.Keys <= Run(p, inputs, allow).peers.Keys
    decreases |inputs|
  {
    hide Admission, ParseRecvPacket;
    if inputs != [] {
      PeersGrow(Next(p, inputs[0], allow), inputs[1..], allow);
    }
  }
}
