/** A SOCKS connection from the end of its handshake on: the reply, the relaying, and the served connection at the
    other end of its tunnel. */
module SocksProxy {
  import opened Core
  import opened Socks
  import opened Pump
  import opened Tunnel

  /** `input` is what the client sends after the handshake, `out` everything the proxy has written to the client,
      `replies` the codes of all replies it issued, those of the handshake included. */
  datatype Session = Session(conn: Conn, replied: bool, replies: seq<byte>, out: bytes, input: bytes)

  /** After a successful handshake the tunnel is dialled; a failed dial is reported and closes the connection. `breaks`
      is the number of bytes after which writing the reply throws. */
  function Adopt(input: bytes, dialled: bool, breaks: Option<nat>): Session {
    var s := Session(Init(Local), false, [], METHOD_REPLY, input);
    if dialled then s else Say(s, 1, breaks).(conn := Abort(s.conn))
  }

  function Said(code: byte, breaks: Option<nat>): bytes {
    if breaks.None? then Reply(code) else Reply(code)[..Min(breaks.value, 10)]
  }

  function Say(s: Session, code: byte, breaks: Option<nat>): Session {
    s.(replies := s.replies + [code], out := s.out + Said(code, breaks))
  }

  /** The relay meets a read error: everything was written to the host, and the next chunk is due. */
  predicate MeetsReadError(c: Conn, io: IO) {
    && !c.finished && !c.tcp.failed && c.tcp.connected
    && (c.inn.received == [] || io.hostWrite.None?)
    && c.out.offset == |c.out.pending| && c.out.readError
  }

  /** The transfer is that of a local forwarder, but after a read error it still passes the end of the tunnel's stream
      on to the host before it closes. */
  function RelayStep(c: Conn, io: IO): Conn {
    var d := TransferStep(Local, c, io);
    if MeetsReadError(c, io) && c.inn.eof && !io.hostShutdownThrows then d.(inn := d.inn.(shut := true)) else d
  }

  /** What was appended to `a`. */
  function Added(a: bytes, b: bytes): bytes { if |a| <= |b| then b[|a|..] else [] }

  function Relay(s: Session, io: IO): Session {
    var d := RelayStep(s.conn, io);
    s.(conn := d, out := s.out + Added(s.conn.inn.hostOut, d.inn.hostOut))
  }

  function Transferred(s: Session, io: IO, breaks: Option<nat>): Session {
    var c := s.conn;
    if c.finished then s
    else if c.tcp.failed then (if s.replied then s else Say(s, 5, breaks)).(conn := Abort(c))
    else if !c.tcp.connected then s.(conn := c.(mid := true))
    else if s.replied then Relay(s, io)
    else if breaks.Some? then Say(s, 0, breaks).(conn := Abort(c))
    else Relay(Say(s, 0, breaks).(replied := true), io)
  }

  datatype SocksEvent = SocksEvent(event: Event, breaks: Option<nat>)

  /** The reader thread starts with the success reply and reads the client's bytes in order, in chunks of any size. */
  predicate MayStep(s: Session, e: Event) {
    && Enabled(s.conn, e)
    && (e.ReaderChunk? || e.ReaderEof? || e.ReaderError? ==> s.replied)
    && (e.ReaderChunk? ==> s.conn.out.hostIn + e.chunk <= s.input)
    && (e.ReaderEof? ==> s.conn.out.hostIn == s.input)
  }

  function SessionStep(s: Session, e: SocksEvent): Session {
    match e.event
    case Transfer(io) => Transferred(s, io, e.breaks)
    case Teardown => s.(conn := if s.replied then TeardownStep(s.conn) else s.conn.(mid := false))
    case _ => s.(conn := Step(Local, s.conn, e.event))
  }

  // Invariants.

  /** The bytes written to the client: the method reply, then the one reply, then the tunnel's bytes. */
  ghost predicate Spoken(s: Session) {
    && (s.replied ==> s.replies == [0] && s.out == METHOD_REPLY + Reply(0) + s.conn.inn.hostOut)
    && (!s.replied ==>
          && s.conn.inn.hostOut == []
          && |s.replies| <= 1
          && (if s.replies == [] then s.out == METHOD_REPLY
              else s.conn.finished && s.out <= METHOD_REPLY + Reply(s.replies[0])))
  }

  /** The bytes read from the client. */
  ghost predicate Listened(s: Session) {
    && s.conn.out.hostIn <= s.input
    && (s.conn.out.readEof && !s.conn.out.readError ==> s.conn.out.hostIn == s.input)
    && (!s.replied ==> s.conn.out.hostIn == [] && !s.conn.out.readEof)
  }

  ghost predicate SessionInv(s: Session) { Inv(s.conn) && Spoken(s) && Listened(s) }

  lemma SaidPrefix(code: byte, breaks: Option<nat>)
    ensures Said(code, breaks) <= Reply(code)
  {
    if breaks.Some? {
      MinBound(breaks.value, 10);
    }
  }

  lemma AdoptInv(input: bytes, dialled: bool, breaks: Option<nat>)
    ensures SessionInv(Adopt(input, dialled, breaks))
  {
    SaidPrefix(1, breaks);
    InitInv(Local);
    AbortKeeps(Init(Local));
    hide Said, Reply;
    assert Adopt(input, dialled, breaks).out <= METHOD_REPLY + Reply(1);
  }

  /** What the transfer leaves alone: the reader's side; and bytes written to the host are only appended. */
  ghost predicate SameReader(o: Out, d: Out) {
    d.hostIn == o.hostIn && d.readEof == o.readEof && d.readError == o.readError
  }

  ghost predicate ReaderSame(c: Conn, d: Conn) {
    SameReader(c.out, d.out) && c.inn.hostOut <= d.inn.hostOut
  }

  lemma TakeChunkReader(o: Out, ready: bool, pcb: bool, throws: bool)
    ensures SameReader(o, TakeChunk(o, ready, pcb, throws).out)
  {
    ShutTunnelReader(NextChunk(o), ready, pcb, throws);
    hide ShutTunnel;
  }

  lemma ShutTunnelReader(o: Out, ready: bool, pcb: bool, throws: bool)
    ensures SameReader(o, ShutTunnel(o, ready, pcb, throws).out)
  {
  }

  lemma PushReader(o: Out, open: bool, io: IO)
    ensures SameReader(o, Push(o, open, io).out)
  {
    hide Min;
    if o.offset < |o.pending| {
      MinBound(|o.pending| - o.offset, io.accept);
    }
  }

  lemma EndsReader(c: Conn, io: IO)
    ensures ReaderSame(c, Abort(c)) && ReaderSame(c, ShutHostStep(c, io))
  {
    hide Abort;
    AbortReader(c);
  }

  lemma AbortReader(c: Conn)
    ensures SameReader(c.out, Abort(c).out) && Abort(c).inn == c.inn
  {
  }

  lemma OutboundReader(c: Conn, io: IO)
    ensures ReaderSame(c, OutboundStep(Local, c, io))
  {
    hide TakeChunk, Push, Abort, ShutHostStep;
    var taken := TakeChunk(c.out, c.tcp.connected, c.tcp.pcb, io.shutdownThrows);
    TakeChunkReader(c.out, c.tcp.connected, c.tcp.pcb, io.shutdownThrows);
    EndsReader(c.(out := taken.out), io);
    if taken.Go? {
      var pushed := Push(taken.out, c.tcp.pcb && c.tcp.connected, io);
      PushReader(taken.out, c.tcp.pcb && c.tcp.connected, io);
      EndsReader(c.(out := pushed.out), io);
    }
  }

  lemma TransferReader(c: Conn, io: IO)
    ensures ReaderSame(c, TransferStep(Local, c, io))
  {
    hide OutboundStep, Min, Abort;
    AbortReader(c);
    if !c.finished && !c.tcp.failed && c.tcp.connected {
      if c.inn.received != [] && io.hostWrite.Some? {
        MinBound(io.hostWrite.value, |c.inn.received|);
        AbortReader(c.(inn := WriteHost(c.inn, Min(io.hostWrite.value, |c.inn.received|))));
      } else {
        OutboundReader(c.(inn := WriteHost(c.inn, |c.inn.received|)), io);
      }
    }
  }

  lemma TakeReadError(o: Out, ready: bool, pcb: bool, throws: bool)
    requires o.offset == |o.pending| && o.readError
    ensures TakeChunk(o, ready, pcb, throws) == Halt(NextChunk(o))
  {
  }

  /** After a read error the transfer aborts, with nothing left to write to the host. */
  lemma ReadErrorAborts(c: Conn, io: IO)
    requires Inv(c) && !c.mid && MeetsReadError(c, io)
    ensures var d := TransferStep(Local, c, io);
            d.finished && d.aborted && d.inn == WriteHost(c.inn, |c.inn.received|) && d.inn.hostOut == d.inn.tunnelIn
  {
    TakeReadError(c.out, c.tcp.connected, c.tcp.pcb, io.shutdownThrows);
    WriteAllKeeps(c);
    WriteHostKeeps(c.inn, |c.inn.received|);
    hide TakeChunk, NextChunk, OutInv, Conserved, InInv, Min, WriteHost, OfferStep;
    WriteHostTunnel(c.inn, |c.inn.received|);
  }

  lemma WriteHostTunnel(i: In, n: nat)
    requires n <= |i.received|
    ensures WriteHost(i, n).tunnelIn == i.tunnelIn
  {
  }

  lemma RelayKeeps(c: Conn, io: IO)
    requires Inv(c) && !c.mid
    ensures Inv(RelayStep(c, io)) && ReaderSame(c, RelayStep(c, io))
  {
    TransferKeeps(Local, c, io);
    TransferReader(c, io);
    if MeetsReadError(c, io) {
      ReadErrorAborts(c, io);
    }
    hide TransferStep, OutInv;
  }

  lemma AddedAppends(a: bytes, b: bytes)
    requires a <= b
    ensures a + Added(a, b) == b
  {
  }

  lemma RelaySession(s: Session, io: IO)
    requires SessionInv(s) && s.replied && !s.conn.mid
    ensures SessionInv(Relay(s, io))
  {
    RelayKeeps(s.conn, io);
    var d := RelayStep(s.conn, io);
    hide RelayStep, Inv, Reply;
    AddedAppends(s.conn.inn.hostOut, d.inn.hostOut);
    AppendAssociative(METHOD_REPLY + Reply(0), s.conn.inn.hostOut, Added(s.conn.inn.hostOut, d.inn.hostOut));
  }

  /** A reply that ends the connection. */
  lemma LastReply(s: Session, code: byte, breaks: Option<nat>)
    requires SessionInv(s) && !s.replied && s.replies == [] && !s.conn.finished
    ensures SessionInv(Say(s, code, breaks).(conn := Abort(s.conn)))
  {
    SaidPrefix(code, breaks);
    AbortSession(s);
    hide Inv, Said, Reply, Abort;
    assert METHOD_REPLY + Said(code, breaks) <= METHOD_REPLY + Reply(code);
  }

  lemma AbortSession(s: Session)
    requires SessionInv(s) && !s.conn.finished
    ensures Inv(Abort(s.conn)) && Abort(s.conn).finished
    ensures SameReader(s.conn.out, Abort(s.conn).out) && Abort(s.conn).inn == s.conn.inn
  {
    hide Concat;
    ConservedPrefix(s.conn.out);
    AbortKeeps(s.conn);
    AbortReader(s.conn);
  }

  lemma FirstReply(s: Session)
    requires SessionInv(s) && !s.replied && s.replies == [] && !s.conn.finished
    ensures SessionInv(Say(s, 0, None).(replied := true))
  {
    hide Inv, Reply;
    assert METHOD_REPLY + Reply(0) + [] == METHOD_REPLY + Reply(0);
  }

  lemma TransferredKeeps(s: Session, io: IO, breaks: Option<nat>)
    requires SessionInv(s) && !s.conn.mid
    ensures SessionInv(Transferred(s, io, breaks))
  {
    hide Reply, Said, RelayStep, Abort;
    var c := s.conn;
    if c.finished {
    } else if c.tcp.failed {
      AbortSession(s);
      if !s.replied {
        LastReply(s, 5, breaks);
      }
    } else if !c.tcp.connected {
      WaitingKeeps(s);
    } else if s.replied {
      RelaySession(s, io);
    } else if breaks.Some? {
      LastReply(s, 0, breaks);
    } else {
      FirstReply(s);
      RelaySession(Say(s, 0, breaks).(replied := true), io);
    }
  }

  lemma WaitingKeeps(s: Session)
    requires SessionInv(s) && !s.conn.finished && !s.conn.tcp.failed && !s.conn.tcp.connected
    ensures SessionInv(s.(conn := s.conn.(mid := true))) && SessionInv(s.(conn := s.conn.(mid := false)))
  {
    hide Conserved, OutInv, Reply;
  }

  lemma EnabledMid(c: Conn, e: Event)
    requires Enabled(c, e)
    ensures (e.Transfer? ==> !c.mid) && (e.Teardown? ==> c.mid)
  {
  }

  lemma StepIs(c: Conn, e: Event)
    ensures e.Transfer? ==> Step(Local, c, e) == TransferStep(Local, c, e.io)
    ensures e.Teardown? ==> Step(Local, c, e) == TeardownStep(c)
  {
    hide TransferStep, TeardownStep;
  }

  lemma SessionStepKeeps(s: Session, e: SocksEvent)
    requires SessionInv(s) && MayStep(s, e.event)
    ensures SessionInv(SessionStep(s, e))
  {
    hide Inv, Step, Transferred, TeardownStep, Reply, Enabled;
    if e.event.Transfer? {
      EnabledMid(s.conn, e.event);
      TransferredKeeps(s, e.event.io, e.breaks);
    } else if e.event.Teardown? {
      EnabledMid(s.conn, e.event);
      TeardownSession(s);
    } else {
      StepKeeps(Local, s.conn, e.event);
      StackSession(s.conn, e.event);
    }
  }

  lemma TeardownSession(s: Session)
    requires SessionInv(s) && s.conn.mid
    ensures SessionInv(s.(conn := TeardownStep(s.conn))) && SessionInv(s.(conn := s.conn.(mid := false)))
  {
    TeardownKeeps(s.conn);
    MidOff(s.conn);
    hide Inv, Reply;
    assert TeardownStep(s.conn).inn == s.conn.inn;
    assert SameReader(s.conn.out, TeardownStep(s.conn).out);
    assert s.conn.finished ==> TeardownStep(s.conn).finished;
  }

  lemma MidOff(c: Conn)
    requires Inv(c)
    ensures Inv(c.(mid := false))
  {
    hide OutInv, Conserved, InInv;
  }

  /** The events of the reader and of the network stack. */
  lemma StackSession(c: Conn, e: Event)
    requires !e.Transfer? && !e.Teardown?
    ensures var d := Step(Local, c, e);
            && d.inn.hostOut == c.inn.hostOut && d.finished == c.finished
            && d.out.hostIn == (if e.ReaderChunk? then c.out.hostIn + e.chunk else c.out.hostIn)
            && d.out.readEof == (c.out.readEof || e.ReaderEof? || e.ReaderError?)
            && d.out.readError == (c.out.readError || e.ReaderError?)
  {
    hide TransferStep, TeardownStep;
    match e {
      case ReaderChunk(chunk) => assert Step(Local, c, e).out == ReadChunk(c.out, chunk);
      case ReaderEof => assert Step(Local, c, e).out == c.out.(readEof := true);
      case ReaderError => assert Step(Local, c, e).out == c.out.(readEof := true, readError := true);
      case Deliver(data) => assert Step(Local, c, e).out == c.out;
      case DeliverEof => assert Step(Local, c, e).out == c.out;
      case Connected => assert Step(Local, c, e).out == c.out;
      case Fail(_) => assert Step(Local, c, e).out == c.out;
      case Resetting(_) => assert Step(Local, c, e).out == c.out;
    }
  }

  // The proxy and the served connection at the other end of its tunnel.

  datatype World = World(session: Session, server: Conn)

  datatype WorldMove = OfProxy(e: SocksEvent) | OfServer(event: Event)

  function Ends(w: World): System { System(w.session.conn, w.server) }

  predicate MayMoveWorld(w: World, m: WorldMove) {
    match m
    case OfProxy(e) => MayStep(w.session, e.event) && MayMove(Ends(w), Move(Client, e.event))
    case OfServer(event) => MayMove(Ends(w), Move(Server, event))
  }

  function MovedWorld(w: World, m: WorldMove): World {
    match m
    case OfProxy(e) => w.(session := SessionStep(w.session, e))
    case OfServer(event) => w.(server := Step(Served, w.server, event))
  }

  function RunWorld(w: World, moves: seq<WorldMove>): Option<World>
    decreases |moves|
  {
    if moves == [] then Some(w)
    else if MayMoveWorld(w, moves[0]) then RunWorld(MovedWorld(w, moves[0]), moves[1..])
    else None
  }

  ghost predicate WorldInv(w: World) { SessionInv(w.session) && SystemInv(Ends(w)) }

  /** What a step of the proxy does to the tunnel. */
  lemma SessionGrows(s: Session, e: SocksEvent)
    requires SessionInv(s) && MayStep(s, e.event)
    ensures var c, d := s.conn, SessionStep(s, e).conn;
            && Grows(c.out, d.out)
            && (!e.event.Deliver? && !e.event.DeliverEof? ==> SameDelivered(c.inn, d.inn))
            && (e.event.Deliver? ==> d.inn.tunnelIn == c.inn.tunnelIn + e.event.data && !d.inn.eof)
            && (e.event.DeliverEof? ==> d.inn.tunnelIn == c.inn.tunnelIn)
  {
    hide TransferStep, Abort, Inv, Reply, Min, TeardownStep, Step;
    StepGrows(Local, s.conn, e.event);
    GrowsSame(s.conn.out, s.conn.out);
    if e.event.Transfer? {
      StepIs(s.conn, e.event);
      AbortOut(s.conn);
      GrowsSame(s.conn.out, Abort(s.conn).out);
    } else if e.event.Teardown? {
      StepIs(s.conn, e.event);
    }
  }

  lemma WorldMoveKeeps(w: World, m: WorldMove)
    requires WorldInv(w) && MayMoveWorld(w, m)
    ensures WorldInv(MovedWorld(w, m))
  {
    hide Inv, Step, Enabled, SessionStep, Spoken, Listened;
    match m
    case OfProxy(e) =>
      SessionStepKeeps(w.session, e);
      SessionGrows(w.session, e);
    case OfServer(event) =>
      MoveKeeps(Ends(w), Move(Server, event));
  }

  lemma {:induction false} RunWorldKeeps(w: World, moves: seq<WorldMove>)
    requires WorldInv(w) && RunWorld(w, moves).Some?
    ensures WorldInv(RunWorld(w, moves).value) && RunWorld(w, moves).value.session.input == w.session.input
    decreases |moves|
  {
    hide WorldInv, MayMoveWorld, MovedWorld;
    if moves != [] {
      WorldMoveKeeps(w, moves[0]);
      InputSame(w, moves[0]);
      RunWorldKeeps(MovedWorld(w, moves[0]), moves[1..]);
    }
  }

  lemma InputSame(w: World, m: WorldMove)
    ensures MovedWorld(w, m).session.input == w.session.input
  {
    hide RelayStep, Abort, Said, TeardownStep, Step;
  }

  lemma StartWorld(input: bytes, dialled: bool, breaks: Option<nat>)
    ensures WorldInv(World(Adopt(input, dialled, breaks), Init(Served)))
  {
    hide Said;
    AdoptInv(input, dialled, breaks);
    InitInv(Served);
  }

  /** Stream discipline over every run of a proxied connection. The client is told at most one reply, and the tunnel's
      bytes reach it only after the method reply and the success reply. The tunnel takes, in order, exactly the bytes
      that follow the handshake, however they arrive; the served host gets a prefix of them. Once its write side was
      shut down that is what the tunnel took, and so all of them exactly when the tunnel took them all; which it did
      unless reading the client failed or the proxy took an error path. In the other direction the client gets a prefix
      of what the served host said. */
  lemma StreamDiscipline(input: bytes, dialled: bool, breaks: Option<nat>, moves: seq<WorldMove>)
    requires RunWorld(World(Adopt(input, dialled, breaks), Init(Served)), moves).Some?
    ensures var w := RunWorld(World(Adopt(input, dialled, breaks), Init(Served)), moves).value;
            var s := w.session;
            && |s.replies| <= 1
            && (if s.replied then s.replies == [0] && s.out == METHOD_REPLY + Reply(0) + s.conn.inn.hostOut
                else s.conn.inn.hostOut == [] && |s.out| <= 12)
            && s.conn.out.tunnelOut <= input
            && w.server.inn.hostOut <= input
            && (w.server.inn.shut ==>
                  && w.server.inn.hostOut == s.conn.out.tunnelOut
                  && (w.server.inn.hostOut == input <==> s.conn.out.tunnelOut == input))
            && (w.server.inn.shut && !s.conn.aborted && !s.conn.out.readError ==> w.server.inn.hostOut == input)
            && s.conn.inn.hostOut <= w.server.out.hostIn
            && (s.conn.inn.shut ==> s.conn.inn.hostOut == w.server.out.tunnelOut)
  {
    var start := World(Adopt(input, dialled, breaks), Init(Served));
    StartWorld(input, dialled, breaks);
    RunWorldKeeps(start, moves);
    hide RunWorld, Adopt;
    WorldDiscipline(RunWorld(start, moves).value);
  }

  lemma WorldDiscipline(w: World)
    requires WorldInv(w)
    ensures var s := w.session;
            && |s.replies| <= 1
            && (if s.replied then s.replies == [0] && s.out == METHOD_REPLY + Reply(0) + s.conn.inn.hostOut
                else s.conn.inn.hostOut == [] && |s.out| <= 12)
            && s.conn.out.tunnelOut <= s.input
            && w.server.inn.hostOut <= s.input
            && (w.server.inn.shut ==>
                  && w.server.inn.hostOut == s.conn.out.tunnelOut
                  && (w.server.inn.hostOut == s.input <==> s.conn.out.tunnelOut == s.input))
            && (w.server.inn.shut && !s.conn.aborted && !s.conn.out.readError ==> w.server.inn.hostOut == s.input)
            && s.conn.inn.hostOut <= w.server.out.hostIn
            && (s.conn.inn.shut ==> s.conn.inn.hostOut == w.server.out.tunnelOut)
  {
    FinMeansComplete(w.session.conn);
    FinMeansComplete(w.server);
    SpokenBound(w.session);
    InSame(w.session.conn);
    InSame(w.server);
    hide Inv, Reply;
  }

  lemma InSame(c: Conn)
    requires Inv(c)
    ensures c.inn.hostOut <= c.inn.tunnelIn && (c.inn.shut ==> c.inn.eof && c.inn.hostOut == c.inn.tunnelIn)
  {
    hide OutInv, Conserved;
  }

  lemma SpokenBound(s: Session)
    requires Spoken(s)
    ensures |s.replies| <= 1 && (!s.replied ==> |s.out| <= 12)
  {
  }

  // The whole connection, from its first byte on.

  /** The replies of the handshake itself. */
  function HandshakeReplies(o: Socks.Outcome): seq<byte> { if o.Rejected? then [o.code] else [] }

  lemma UsedWithin(s: bytes, server: bytes)
    ensures Negotiate(s, server).Accepted? ==> Negotiate(s, server).used <= |s|
  {
    if Negotiate(s, server).Accepted? {
      var o := Negotiate(s, server);
      AcceptedExactly(s, server, o.port, o.used);
    }
  }

  /** For everything a client may send: if the handshake fails there is at most its one refusal and no session; if it
      succeeds, the session's tunnel takes, in order, the bytes that follow the handshake, the served host gets a
      prefix of them, and handshake and session together issue at most one reply. */
  lemma WholeStream(
    s: bytes, server: bytes, dialled: bool, breaks: Option<nat>, moves: seq<WorldMove>
  )
    requires Negotiate(s, server).Accepted? && Negotiate(s, server).used <= |s| ==>
               var input := s[Negotiate(s, server).used..];
               RunWorld(World(Adopt(input, dialled, breaks), Init(Served)), moves).Some?
    ensures |HandshakeReplies(Negotiate(s, server))| <= 1
    ensures Negotiate(s, server).Accepted? ==>
              && Negotiate(s, server).used <= |s|
              && var input := s[Negotiate(s, server).used..];
              var w := RunWorld(World(Adopt(input, dialled, breaks), Init(Served)), moves).value;
              && |HandshakeReplies(Negotiate(s, server)) + w.session.replies| <= 1
              && w.session.conn.out.tunnelOut <= input
              && w.server.inn.hostOut <= input
              && (w.server.inn.shut ==> (w.server.inn.hostOut == input <==> w.session.conn.out.tunnelOut == input))
              && (w.server.inn.shut && !w.session.conn.aborted && !w.session.conn.out.readError ==>
                    w.server.inn.hostOut == input)
  {
    hide Negotiate, RunWorld, Adopt;
    UsedWithin(s, server);
    if Negotiate(s, server).Accepted? {
      StreamDiscipline(s[Negotiate(s, server).used..], dialled, breaks, moves);
    }
  }

  /** The handshake thread, then the event loop: the session that starts is the one for the client's remaining bytes,
      and there is none unless the handshake succeeded. */
  method AcceptClient(host: ClientSocket, server: bytes, stopped: bool, dialled: bool, breaks: Option<nat>)
    returns (s: Option<Session>)
    requires !host.broken && !host.closed && host.written == [] && host.replies == []
    modifies host
    ensures s.Some? ==>
              && Negotiate(old(host.rest), server).Accepted?
              && Negotiate(old(host.rest), server).used <= |old(host.rest)|
              && s.value == Adopt(old(host.rest)[Negotiate(old(host.rest), server).used..], dialled, breaks)
              && host.written == METHOD_REPLY && host.replies == []
    ensures s.None? ==> host.closed && |host.replies| <= 1
    ensures s.None? && !host.broken ==>
              && host.replies == HandshakeReplies(Negotiate(old(host.rest), server))
              && (Negotiate(old(host.rest), server).Accepted? ==> stopped)
  {
    hide Negotiate, Adopt;
    var port := host.BeginHandshake(server, stopped);
    if port.None? {
      return None;
    }
    return Some(Adopt(host.rest, dialled, breaks));
  }
}
