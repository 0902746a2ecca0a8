/** The data plane against a history of what happened: what each frame does, seen from its bytes, and what a whole run
    has sent and delivered. */
module PlaneHistory {
  import opened Core
  import opened Derp
  import opened DataPlane

  /** A packet of a node as the relay hands it to the server. */
  predicate Carries(frame: DerpFrame, source: Key32, packet: bytes) {
    frame.kind == 5 && frame.payload == source + packet && |packet| <= 64 * 1024
  }

  /** A ping with this disco key, whatever follows it. The node key inside it is not looked at. */
  ghost predicate Pings(packet: bytes, disco: Key32) {
    (exists i | 0 <= i < 32 :: disco[i] != 0) && exists claimed: Key32 :: PING_START + claimed + disco <= packet
  }

  predicate Letters(packet: bytes) { PING_START[..4] <= packet }

  lemma CarriesParses(frame: DerpFrame, source: Key32, packet: bytes)
    ensures Carries(frame, source, packet) <==>
            frame.kind == RECV_PACKET && ParseRecvPacket(frame.payload) == Some((source, packet))
  {
    hide ParseRecvPacket;
    ReceivedExactly(frame.payload, source, packet);
  }

  lemma PingsParses(packet: bytes, disco: Key32)
    ensures Pings(packet, disco) <==> ParseMeowPing(packet).Some? && ParseMeowPing(packet).value.1 == disco
    ensures Pings(packet, disco) ==> IsMeow(packet) && !IsMeowed(packet)
  {
    hide ParseMeowPing;
    if ParseMeowPing(packet).Some? {
      MeowExactly(packet, ParseMeowPing(packet).value.0, ParseMeowPing(packet).value.1);
    }
    forall claimed: Key32 | PING_START + claimed + disco <= packet && Pings(packet, disco)
      ensures ParseMeowPing(packet) == Some((claimed, disco)) && IsMeow(packet) && !IsMeowed(packet)
    {
      MeowExactly(packet, claimed, disco);
      assert packet[4] == (PING_START + claimed + disco)[4] == 1;
    }
  }

  /** A node is admitted exactly when a packet of its own is a ping and its key is allowed. */
  lemma AdmissionExactly(frame: DerpFrame, allow: Key32 -> bool, node: Key32, disco: Key32)
    ensures Admission(frame, allow) == Some((node, disco)) <==>
            allow(node) && exists packet :: Carries(frame, node, packet) && Pings(packet, disco)
  {
    hide ParseRecvPacket, ParseMeowPing, IsMeow, IsMeowed, Carries, Pings;
    forall packet, k: Key32
      ensures Carries(frame, k, packet) <==>
              frame.kind == RECV_PACKET && ParseRecvPacket(frame.payload) == Some((k, packet))
      ensures Pings(packet, disco) <==> ParseMeowPing(packet).Some? && ParseMeowPing(packet).value.1 == disco
      ensures Pings(packet, disco) ==> IsMeow(packet) && !IsMeowed(packet)
    {
      CarriesParses(frame, k, packet);
      PingsParses(packet, disco);
    }
    if Admission(frame, allow) == Some((node, disco)) {
      assert Carries(frame, node, ParseRecvPacket(frame.payload).value.1);
    }
  }

  // Frames.

  /** What an engine's answer puts on the wire, and what it hands up. */
  function Replies(source: Key32, x: Answers): seq<Sent> {
    if |x.result.outbound| > 0 && x.sends then [Sent(source, x.result.outbound)] else []
  }

  function HandedUp(x: Answers): seq<bytes> {
    if x.result.plaintext.Some? && x.accepts && (x.sends || |x.result.outbound| == 0)
    then [x.result.plaintext.value] else []
  }

  /** A packet of a node in the table that is not a MEOW packet: the engine's answer is sent to the node, what it
      decrypted goes to the network stack, and the session counts as established from then on if the engine says so.
      The call throws exactly when sending or the stack does. */
  lemma PeerFrame(p: Plane, frame: DerpFrame, source: Key32, packet: bytes, allow: Key32 -> bool, x: Answers)
    requires Carries(frame, source, packet) && !Letters(packet) && source in p.peers
    ensures var h := HandleFrame(p, frame, allow, x);
            && h.plane.sent == p.sent + Replies(source, x)
            && h.plane.stackInput == p.stackInput + HandedUp(x)
            && h.plane.peers.Keys == p.peers.Keys && h.plane.byIp == p.byIp && h.plane.pongs == p.pongs
            && (forall k | k in p.peers ::
                  h.plane.peers[k] == Peer(p.peers[k].disco,
                                           p.peers[k].established || (k == source && x.result.established)))
            && (h.ok <==> && (|x.result.outbound| == 0 || x.sends) && (x.result.plaintext.None? || x.accepts))
  {
    hide ParseRecvPacket, ParseMeowPing;
    CarriesParses(frame, source, packet);
    MeowExactly(packet, ZERO_KEY, ZERO_KEY);
  }

  /** Any other frame: pings are answered, allowed MEOW pings of nodes that have or can be given a peer object admit and
      are acknowledged, malformed packet frames throw, and nothing else has an effect. */
  lemma OtherFrame(p: Plane, frame: DerpFrame, allow: Key32 -> bool, x: Answers)
    requires forall source: Key32, packet | Carries(frame, source, packet) :: Letters(packet) || source !in p.peers
    ensures var h := HandleFrame(p, frame, allow, x);
            if Admission(frame, allow).Some? then
              var (node, disco) := Admission(frame, allow).value;
              if node !in p.peers && !x.builds then h == Handled(p, false)
              else h == Handled(AddPeer(p, node, disco).(sent := p.sent + if x.sends
                                then [Sent(node, PING_START[..4] + [2])] else []), x.sends)
            else if frame.kind == 0x12 && |frame.payload| == 8 then
              h == Handled(p.(pongs := p.pongs + if x.sends then [frame.payload] else []), x.sends)
            else h == Handled(p, frame.kind == 5 ==> exists source: Key32, packet :: Carries(frame, source, packet))
  {
    hide ParseRecvPacket, ParseMeowPing, Carries, AddPeer, IsMeow, IsMeowed, Letters;
    MeowExactly([], ZERO_KEY, ZERO_KEY);
    if frame.kind == RECV_PACKET && ParseRecvPacket(frame.payload).Some? {
      var (source, packet) := ParseRecvPacket(frame.payload).value;
      CarriesParses(frame, source, packet);
      LettersAre(packet);
    }
    forall source: Key32, packet | Carries(frame, source, packet)
      ensures frame.kind == RECV_PACKET && ParseRecvPacket(frame.payload) == Some((source, packet))
    {
      CarriesParses(frame, source, packet);
    }
    if Admission(frame, allow).Some? {
      AddPeerKeeps(p, Admission(frame, allow).value.0, Admission(frame, allow).value.1);
    }
  }

  lemma LettersAre(packet: bytes)
    ensures Letters(packet) <==> IsMeow(packet)
  {
    MeowExactly(packet, ZERO_KEY, ZERO_KEY);
  }

  lemma AddPeerKeeps(p: Plane, node: Key32, disco: Key32)
    ensures var q := AddPeer(p, node, disco); q.sent == p.sent && q.pongs == p.pongs && q.stackInput == p.stackInput
  {
    hide IpForNode;
  }

  // Runs.

  /** What has happened: the admissions, the nodes whose session was established since, and everything that went out. */
  datatype History = History(
    admissions: seq<(Key32, Key32)>, established: set<Key32>,
    sent: seq<Sent>, pongs: seq<bytes>, stackInput: seq<bytes>)

  const NO_HISTORY := History([], {}, [], [], [])

  predicate Known(h: History, node: Key32) { LatestDisco(h.admissions, node).Some? }

  /** The source of a packet for an engine. */
  function FromPeer(h: History, frame: DerpFrame): Option<Key32> {
    if frame.kind != 5 || |frame.payload| < 32 || |frame.payload| > 32 + 64 * 1024 then None
    else if Letters(frame.payload[32..]) || !Known(h, frame.payload[..32]) then None
    else Some(frame.payload[..32])
  }

  /** The node that an IP packet is sent to: the first admitted one with its destination address, once its session is
      established. */
  function Towards(h: History, packet: bytes): Option<Key32> {
    if |packet| < 40 || packet[0] / 16 != 6 then None
    else
      var node :- FirstOwner(h.admissions, packet[24..40]);
      if node in h.established then Some(node) else None
  }

  function Recorded(h: History, i: Input, allow: Key32 -> bool): History {
    match i
    case IpOut(packet, encrypted) =>
      if Towards(h, packet).Some? && encrypted.Some?
      then h.(sent := h.sent + [Sent(Towards(h, packet).value, encrypted.value)]) else h
    case FrameIn(frame, x) =>
      if Admission(frame, allow).Some? then
        var (node, disco) := Admission(frame, allow).value;
        if !Known(h, node) && !x.builds then h
        else h.(admissions := h.admissions + [(node, disco)],
                sent := h.sent + if x.sends then [Sent(node, PING_START[..4] + [2])] else [])
      else if frame.kind == 0x12 && |frame.payload| == 8 then
        h.(pongs := h.pongs + if x.sends then [frame.payload] else [])
      else if FromPeer(h, frame).Some? then
        var source := FromPeer(h, frame).value;
        h.(established := if x.result.established then h.established + {source} else h.established,
           sent := h.sent + Replies(source, x), stackInput := h.stackInput + HandedUp(x))
      else h
  }

  function HistoryOf(h: History, inputs: seq<Input>, allow: Key32 -> bool): History
    decreases |inputs|
  {
    if inputs == [] then h else HistoryOf(Recorded(h, inputs[0], allow), inputs[1..], allow)
  }

  /** The plane holds what the history says. */
  ghost predicate Holds(p: Plane, h: History) {
    && TablesAgree(p, h.admissions)
    && (forall k: Key32 | k in p.peers :: p.peers[k].established <==> k in h.established)
    && (forall k | k in h.established :: k in p.peers)
    && p.sent == h.sent && p.pongs == h.pongs && p.stackInput == h.stackInput
  }

  lemma PeersKnown(p: Plane, h: History)
    requires Holds(p, h)
    ensures forall k: Key32 :: k in p.peers <==> Known(h, k)
  {
  }

  lemma FromPeerIs(p: Plane, h: History, frame: DerpFrame, allow: Key32 -> bool)
    requires Holds(p, h)
    ensures FromPeer(h, frame).Some? ==>
              var source := FromPeer(h, frame).value;
              && |frame.payload| >= 32 && Carries(frame, source, frame.payload[32..]) && !Letters(frame.payload[32..])
              && source in p.peers && Admission(frame, allow).None?
    ensures FromPeer(h, frame).None? ==>
              forall source: Key32, packet | Carries(frame, source, packet) :: Letters(packet) || source !in p.peers
  {
    PeersKnown(p, h);
    hide Admission, Letters, Known, Holds, Pings;
    if FromPeer(h, frame).Some? {
      assert frame.payload == frame.payload[..32] + frame.payload[32..];
      LettersAre(frame.payload[32..]);
      NotAdmitted(frame, allow);
    }
    forall source: Key32, packet | Carries(frame, source, packet)
      ensures frame.payload[..32] == source && frame.payload[32..] == packet
    {
    }
  }

  lemma NotAdmitted(frame: DerpFrame, allow: Key32 -> bool)
    requires |frame.payload| >= 32 && !IsMeow(frame.payload[32..])
    ensures Admission(frame, allow).None?
  {
    hide IsMeow;
  }

  lemma HoldsPeer(p: Plane, h: History, frame: DerpFrame, x: Answers, allow: Key32 -> bool)
    requires Holds(p, h) && FromPeer(h, frame).Some?
    ensures Holds(HandleFrame(p, frame, allow, x).plane, Recorded(h, FrameIn(frame, x), allow))
  {
    hide HandleFrame, TablesAgree, Admission, Replies, HandedUp, Letters, Carries, Known;
    NextAgrees(p, h.admissions, FrameIn(frame, x), allow);
    FromPeerIs(p, h, frame, allow);
    var source := frame.payload[..32];
    PeerFrame(p, frame, source, frame.payload[32..], allow, x);
    assert h.admissions + [] == h.admissions;
    assert forall k :: k in p.peers <==> k in HandleFrame(p, frame, allow, x).plane.peers.Keys;
  }

  lemma HoldsAdmitted(p: Plane, h: History, frame: DerpFrame, x: Answers, allow: Key32 -> bool)
    requires Holds(p, h) && FromPeer(h, frame).None? && Admission(frame, allow).Some?
    ensures Holds(HandleFrame(p, frame, allow, x).plane, Recorded(h, FrameIn(frame, x), allow))
  {
    NextAgrees(p, h.admissions, FrameIn(frame, x), allow);
    FromPeerIs(p, h, frame, allow);
    OtherFrame(p, frame, allow, x);
    PeersKnown(p, h);
    var (node, disco) := Admission(frame, allow).value;
    AddPeerKeeps(p, node, disco);
    AddPeerSessions(p, node, disco);
    hide HandleFrame, TablesAgree, Admission, AddPeer;
    assert h.admissions + [] == h.admissions;
  }

  lemma AddPeerSessions(p: Plane, node: Key32, disco: Key32)
    ensures var q := AddPeer(p, node, disco);
            && q.peers.Keys == p.peers.Keys + {node}
            && (forall k | k in q.peers :: q.peers[k].established <==> k in p.peers && p.peers[k].established)
  {
    hide IpForNode;
  }

  lemma HoldsOther(p: Plane, h: History, frame: DerpFrame, x: Answers, allow: Key32 -> bool)
    requires Holds(p, h) && FromPeer(h, frame).None? && Admission(frame, allow).None?
    ensures Holds(HandleFrame(p, frame, allow, x).plane, Recorded(h, FrameIn(frame, x), allow))
  {
    NextAgrees(p, h.admissions, FrameIn(frame, x), allow);
    FromPeerIs(p, h, frame, allow);
    OtherFrame(p, frame, allow, x);
    hide HandleFrame, TablesAgree, Admission;
    assert h.admissions + [] == h.admissions;
  }

  lemma HoldsIp(p: Plane, h: History, packet: bytes, encrypted: Option<bytes>, allow: Key32 -> bool)
    requires Holds(p, h)
    ensures Holds(SendIp(p, packet, encrypted), Recorded(h, IpOut(packet, encrypted), allow))
  {
    NextAgrees(p, h.admissions, IpOut(packet, encrypted), allow);
    PeersKnown(p, h);
    hide LatestDisco, FirstOwner;
    assert h.admissions + [] == h.admissions;
  }

  lemma {:induction false} HoldsRun(p: Plane, h: History, inputs: seq<Input>, allow: Key32 -> bool)
    requires Holds(p, h)
    ensures Holds(Run(p, inputs, allow), HistoryOf(h, inputs, allow))
    decreases |inputs|
  {
    hide Holds, Recorded, HandleFrame, SendIp, FromPeer, Admission;
    if inputs != [] {
      match inputs[0] {
        case IpOut(packet, encrypted) => HoldsIp(p, h, packet, encrypted, allow);
        case FrameIn(frame, x) =>
          if FromPeer(h, frame).Some? {
            HoldsPeer(p, h, frame, x, allow);
          } else if Admission(frame, allow).Some? {
            HoldsAdmitted(p, h, frame, x, allow);
          } else {
            HoldsOther(p, h, frame, x, allow);
          }
      }
      HoldsRun(Next(p, inputs[0], allow), Recorded(h, inputs[0], allow), inputs[1..], allow);
    }
  }

  /** Over every run, everything that the data plane has sent, answered and handed to the network stack is, in order,
      what the history of the inputs says: acknowledgments to admitted nodes, the engines' answers to their own nodes,
      IP packets to the first admitted owner of their destination, and the plaintexts of admitted nodes. */
  lemma WhatHappened(inputs: seq<Input>, allow: Key32 -> bool)
    ensures var p, h := Run(NEW_PLANE, inputs, allow), HistoryOf(NO_HISTORY, inputs, allow);
            && p.sent == h.sent && p.pongs == h.pongs && p.stackInput == h.stackInput
            && (forall k: Key32 :: k in p.peers && p.peers[k].established <==> k in h.established)
  {
    HoldsRun(NEW_PLANE, NO_HISTORY, inputs, allow);
    hide TablesAgree, Run, HistoryOf;
  }
}
