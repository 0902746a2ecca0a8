/** Two forwarders joined by a reliable tunnel: the local connection of the client process and the served connection
    of the server process, with every interleaving of both reader threads, both event loops and both network stacks. */
module Tunnel {
  import opened Core
  import opened Pump

  datatype Side = Client | Server

  datatype System = System(client: Conn, server: Conn) {
    function At(side: Side): Conn {
      if side.Client? then client else server
    }

    function Set(side: Side, c: Conn): System {
      if side.Client? then this.(client := c) else this.(server := c)
    }
  }

  function Other(side: Side): Side {
    if side.Client? then Server else Client
  }

  function KindOf(side: Side): Kind {
    if side.Client? then Local else Served
  }

  const START := System(Init(Local), Init(Served))

  datatype Move = Move(side: Side, event: Event)

  /** The tunnel is a FIFO: it delivers, in order, only bytes the other end had accepted, and the end of the stream
      only after all of them and after the other end's FIN. It may fail at either end at any time. */
  predicate MayMove(s: System, m: Move) {
    var here, there := s.At(m.side), s.At(Other(m.side));
    && Enabled(here, m.event)
    && (m.event.Deliver? ==> here.inn.tunnelIn + m.event.data <= there.out.tunnelOut)
    && (m.event.DeliverEof? ==> there.out.finSent && here.inn.tunnelIn == there.out.tunnelOut)
  }

  function Moved(s: System, m: Move): System {
    s.Set(m.side, Step(KindOf(m.side), s.At(m.side), m.event))
  }

  /** The state after a run; None if some move was not possible. */
  function Run(s: System, moves: seq<Move>): Option<System>
    decreases |moves|
  {
    if moves == [] then Some(s)
    else if MayMove(s, moves[0]) then Run(Moved(s, moves[0]), moves[1..])
    else None
  }

  /** One direction of the tunnel. */
  ghost predicate Channel(from: Conn, to: Conn) {
    && to.inn.tunnelIn <= from.out.tunnelOut
    && (to.inn.eof ==> from.out.finSent && to.inn.tunnelIn == from.out.tunnelOut)
  }

  ghost predicate SystemInv(s: System) {
    && Inv(s.client) && Inv(s.server)
    && Channel(s.client, s.server) && Channel(s.server, s.client)
  }

  // What a step of one end does to the tunnel.

  /** Accepted bytes are only ever appended, and not at all once the FIN was sent. */
  predicate Grows(o: Out, d: Out) {
    && o.tunnelOut <= d.tunnelOut
    && (o.finSent ==> d.finSent && d.tunnelOut == o.tunnelOut)
  }

  /** Delivered bytes and the end of the stream are the network stack's alone. */
  predicate SameDelivered(i: In, j: In) {
    j.tunnelIn == i.tunnelIn && j.eof == i.eof
  }

  lemma TakeChunkGrows(o: Out, ready: bool, pcb: bool, throws: bool)
    ensures Grows(o, TakeChunk(o, ready, pcb, throws).out)
    ensures o.writeClosed ==> TakeChunk(o, ready, pcb, throws).out.writeClosed
    ensures var d := TakeChunk(o, ready, pcb, throws).out; d.finSent ==> o.finSent || d.writeClosed
  {
    hide Grows;
    ShutTunnelGrows(o, NextChunk(o), ready, pcb, throws);
    GrowsSame(o, o);
  }

  lemma GrowsSame(o: Out, d: Out)
    requires d.tunnelOut == o.tunnelOut && (o.finSent ==> d.finSent)
    ensures Grows(o, d)
  {
  }

  lemma ShutTunnelGrows(o: Out, d: Out, ready: bool, pcb: bool, throws: bool)
    requires d.tunnelOut == o.tunnelOut && d.finSent == o.finSent && d.writeClosed == o.writeClosed
    ensures Grows(o, ShutTunnel(d, ready, pcb, throws).out)
    ensures d.writeClosed ==> ShutTunnel(d, ready, pcb, throws).out.writeClosed
    ensures var e := ShutTunnel(d, ready, pcb, throws).out; e.finSent ==> d.finSent || e.writeClosed
  {
    hide Grows;
    GrowsSame(o, d);
    GrowsSame(o, d.(shut := true));
    GrowsSame(o, d.(writeClosed := true, finSent := true, shut := true));
  }

  lemma PushGrows(o: Out, open: bool, io: IO)
    requires o.finSent ==> o.writeClosed || !open
    ensures Grows(o, Push(o, open, io).out)
  {
    hide Min;
    if o.offset < |o.pending| {
      MinBound(|o.pending| - o.offset, io.accept);
      var n := if open && !o.writeClosed then Min(|o.pending| - o.offset, io.accept) else 0;
      assert o.offset + n <= |o.pending|;
      AcceptGrows(o, n);
    }
  }

  lemma AcceptGrows(o: Out, n: nat)
    requires o.offset + n <= |o.pending|
    ensures o.tunnelOut <= Accept(o, n).tunnelOut && (n == 0 ==> Accept(o, n).tunnelOut == o.tunnelOut)
  {
  }

  lemma GrowsTransitive(o: Out, d: Out, e: Out)
    requires Grows(o, d) && Grows(d, e)
    ensures Grows(o, e)
  {
  }

  lemma AbortOut(c: Conn)
    ensures Abort(c).out.tunnelOut == c.out.tunnelOut && (c.out.finSent ==> Abort(c).out.finSent)
    ensures Abort(c).inn == c.inn
  {
  }

  lemma ShutHostOut(c: Conn, io: IO)
    ensures ShutHostStep(c, io).out.tunnelOut == c.out.tunnelOut && (c.out.finSent ==> ShutHostStep(c, io).out.finSent)
    ensures SameDelivered(c.inn, ShutHostStep(c, io).inn)
  {
    hide Abort;
    if c.inn.eof && !c.inn.shut {
      if io.hostShutdownThrows {
        AbortOut(c);
      } else {
        assert ShutHostStep(c, io).inn == c.inn.(shut := true);
      }
    } else {
      assert ShutHostStep(c, io).inn == c.inn;
    }
  }

  lemma EndsGrow(c: Conn, o: Out, io: IO)
    requires Grows(c.out, o)
    ensures Grows(c.out, Abort(c.(out := o)).out) && SameDelivered(c.inn, Abort(c.(out := o)).inn)
    ensures Grows(c.out, ShutHostStep(c.(out := o), io).out) && SameDelivered(c.inn, ShutHostStep(c.(out := o), io).inn)
  {
    hide Grows, Abort, ShutHostStep;
    var d := c.(out := o);
    AbortOut(d);
    ShutHostOut(d, io);
    GrowsSame(o, Abort(d).out);
    GrowsSame(o, ShutHostStep(d, io).out);
    GrowsTransitive(c.out, o, Abort(d).out);
    GrowsTransitive(c.out, o, ShutHostStep(d, io).out);
  }

  lemma OutboundGrows(kind: Kind, c: Conn, io: IO)
    requires c.out.finSent ==> c.out.writeClosed || !c.tcp.pcb
    ensures Grows(c.out, OutboundStep(kind, c, io).out) && SameDelivered(c.inn, OutboundStep(kind, c, io).inn)
  {
    hide TakeChunk, Push, Abort, ShutHostStep, Grows, SameDelivered;
    var ready, throws := kind.Served? || c.tcp.connected, io.shutdownThrows;
    var o := TakeChunk(c.out, ready, c.tcp.pcb, throws).out;
    TakeChunkGrows(c.out, ready, c.tcp.pcb, throws);
    EndsGrow(c, o, io);
    if TakeChunk(c.out, ready, c.tcp.pcb, throws).Go? {
      PushGrows(o, c.tcp.pcb && c.tcp.connected, io);
      var o' := Push(o, c.tcp.pcb && c.tcp.connected, io).out;
      GrowsTransitive(c.out, o, o');
      EndsGrow(c, o', io);
    }
  }

  lemma TransferGrows(kind: Kind, c: Conn, io: IO)
    requires c.out.finSent ==> c.out.writeClosed || !c.tcp.pcb
    ensures Grows(c.out, TransferStep(kind, c, io).out) && SameDelivered(c.inn, TransferStep(kind, c, io).inn)
  {
    hide OutboundStep, Abort, Min, Grows, WriteHost;
    GrowsSame(c.out, c.out);
    if c.finished || c.tcp.failed || (kind.Local? && !c.tcp.connected) {
      EndsGrow(c, c.out, io);
    } else if c.inn.received != [] && io.hostWrite.Some? {
      MinBound(io.hostWrite.value, |c.inn.received|);
      var d := c.(inn := WriteHost(c.inn, Min(io.hostWrite.value, |c.inn.received|)));
      WriteHostSame(c.inn, Min(io.hostWrite.value, |c.inn.received|));
      EndsGrow(d, d.out, io);
    } else {
      WriteHostSame(c.inn, |c.inn.received|);
      OutboundGrows(kind, c.(inn := WriteHost(c.inn, |c.inn.received|)), io);
    }
  }

  lemma WriteHostSame(i: In, n: nat)
    requires n <= |i.received|
    ensures SameDelivered(i, WriteHost(i, n))
  {
  }

  lemma StepGrows(kind: Kind, c: Conn, e: Event)
    requires Inv(c) && Enabled(c, e)
    ensures Grows(c.out, Step(kind, c, e).out)
    ensures !e.Deliver? && !e.DeliverEof? ==> SameDelivered(c.inn, Step(kind, c, e).inn)
    ensures e.Deliver? ==> Step(kind, c, e).inn.tunnelIn == c.inn.tunnelIn + e.data && !Step(kind, c, e).inn.eof
    ensures e.DeliverEof? ==> Step(kind, c, e).inn.tunnelIn == c.inn.tunnelIn
  {
    hide InInv, OutInv, Conserved, TransferStep;
    if e.Transfer? {
      FinImpliesClosed(c);
      TransferGrows(kind, c, e.io);
    }
  }

  lemma FinImpliesClosed(c: Conn)
    requires Inv(c)
    ensures c.out.finSent ==> c.out.writeClosed || !c.tcp.pcb
  {
  }

  lemma MoveKeeps(s: System, m: Move)
    requires SystemInv(s) && MayMove(s, m)
    ensures SystemInv(Moved(s, m))
  {
    hide Inv, Step, Enabled;
    var here := s.At(m.side);
    StepKeeps(KindOf(m.side), here, m.event);
    StepGrows(KindOf(m.side), here, m.event);
  }

  lemma {:induction false} RunKeeps(s: System, moves: seq<Move>)
    requires SystemInv(s) && Run(s, moves).Some?
    ensures SystemInv(Run(s, moves).value)
    decreases |moves|
  {
    hide SystemInv, MayMove, Moved;
    if moves != [] {
      MoveKeeps(s, moves[0]);
      RunKeeps(Moved(s, moves[0]), moves[1..]);
    }
  }

  lemma Reachable(moves: seq<Move>)
    requires Run(START, moves).Some?
    ensures SystemInv(Run(START, moves).value)
  {
    InitInv(Local);
    InitInv(Served);
    RunKeeps(START, moves);
  }

  /** End-to-end fidelity, in both directions and for every run: what was written to a host is a prefix of what was read
      from the other host. Once a host's write side was shut down it is all that the other end's tunnel had accepted,
      and so all of the other host's data exactly when the other end had passed everything on; which it had, up to that
      host's end, unless it took an error path. */
  lemma EndToEnd(moves: seq<Move>, side: Side)
    requires Run(START, moves).Some?
    ensures var s := Run(START, moves).value;
            var here, there := s.At(side), s.At(Other(side));
            && here.inn.hostOut <= there.out.hostIn
            && (here.inn.shut ==>
                  && here.inn.hostOut == there.out.tunnelOut
                  && (here.inn.hostOut == there.out.hostIn <==> there.out.tunnelOut == there.out.hostIn))
            && (here.inn.shut && !there.aborted ==> here.inn.hostOut == there.out.hostIn && there.out.readEof)
  {
    Reachable(moves);
    var there := Run(START, moves).value.At(Other(side));
    hide Run;
    FinMeansComplete(there);
  }

  /** A FIN without an error path means that everything the host will ever send was accepted. */
  lemma FinMeansComplete(c: Conn)
    requires Inv(c)
    ensures c.out.tunnelOut <= c.out.hostIn
    ensures (c.out.finSent || c.out.shut) && !c.aborted ==> c.out.tunnelOut == c.out.hostIn && c.out.readEof
  {
    if !c.finished {
      ConservedPrefix(c.out);
      if c.out.shut {
        assert c.out.tunnelOut + c.out.pending[c.out.offset..] + Concat(c.out.chunks) == c.out.tunnelOut;
      }
    }
  }

  /** A connection that ends without an error path has moved everything: all bytes read from its host were accepted
      by the tunnel, and all bytes the other end ever accepted were written to its host. */
  lemma CleanFinish(moves: seq<Move>, side: Side)
    requires Run(START, moves).Some?
    ensures var s := Run(START, moves).value;
            var here, there := s.At(side), s.At(Other(side));
            here.finished && !here.aborted ==>
              && here.out.readEof && here.out.tunnelOut == here.out.hostIn
              && here.inn.shut && here.inn.hostOut == there.out.tunnelOut
              && (!there.aborted ==> here.inn.hostOut == there.out.hostIn)
  {
    Reachable(moves);
    var there := Run(START, moves).value.At(Other(side));
    hide Run;
    FinMeansComplete(there);
  }

  /** Half-closes are safe: the tunnel's write side is closed only when every byte of the host was accepted, and the
      host's only when every byte of the tunnel was written. */
  lemma HalfClose(moves: seq<Move>, side: Side)
    requires Run(START, moves).Some?
    ensures var c := Run(START, moves).value.At(side);
            && (c.out.shut && !c.aborted ==> c.out.readEof && c.out.tunnelOut == c.out.hostIn)
            && (c.inn.shut ==> c.inn.eof && c.inn.hostOut == c.inn.tunnelIn)
  {
    Reachable(moves);
    var c := Run(START, moves).value.At(side);
    hide Run;
    FinMeansComplete(c);
  }

  /** Nothing is lost or reordered inside a connection: until it ends, the bytes read from the host are exactly those
      the tunnel accepted, then the unsent rest of the pending chunk, then the queue. */
  lemma Conservation(moves: seq<Move>, side: Side)
    requires Run(START, moves).Some?
    ensures var c := Run(START, moves).value.At(side);
            && (forall k | k in c.out.chunks :: k != [])
            && c.out.offset <= |c.out.pending|
            && (!c.aborted ==> c.out.hostIn == c.out.tunnelOut + c.out.pending[c.out.offset..] + Concat(c.out.chunks))
            && (!c.aborted ==> c.inn.tunnelIn == c.inn.hostOut + c.inn.received)
  {
    Reachable(moves);
    var c := Run(START, moves).value.At(side);
    hide Run;
    if c.finished && !c.aborted {
      assert c.out.tunnelOut + c.out.pending[c.out.offset..] + Concat(c.out.chunks) == c.out.tunnelOut;
    }
  }
}
