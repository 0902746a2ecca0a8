/** What the calls of `service` achieve when nothing throws: every byte moves on, and so does each end of stream. */
module Progress {
  import opened Core
  import opened Pump
  import opened Forwarder
  import opened Tunnel
  import opened ReadErrors
  import opened ServiceRuns

  /** A connection that transfers: connected, between two calls, and without errors. */
  predicate Ready(c: Conn) {
    !c.finished && !c.mid && !c.tcp.failed && c.tcp.connected && !c.out.readError
  }

  /** Everything that was read was accepted, and there will be no more. */
  predicate Done(o: Out) { o.readEof && o.tunnelOut == o.hostIn }

  /** The size of the chunk that a call offers to the tunnel. */
  function InHand(o: Out): nat {
    if o.offset < |o.pending| then |o.pending| - o.offset else if o.chunks == [] then 0 else |o.chunks[0]|
  }

  lemma ConcatEmpty(chunks: seq<bytes>)
    requires forall k | k in chunks :: k != []
    ensures Concat(chunks) == [] <==> chunks == []
  {
    assert chunks != [] ==> chunks[0] in chunks;
  }

  lemma DoneIsDrained(o: Out)
    requires OutInv(o) && Conserved(o)
    ensures Drained(o) <==> Done(o)
  {
    hide Concat;
    ConcatEmpty(o.chunks);
    var rest := o.pending[o.offset..] + Concat(o.chunks);
    AppendAssociative(o.tunnelOut, o.pending[o.offset..], Concat(o.chunks));
    AppendInjective(o.tunnelOut, rest, []);
    assert o.tunnelOut + [] == o.tunnelOut;
  }

  predicate SameReads(o: Out, d: Out) {
    d.hostIn == o.hostIn && d.readEof == o.readEof && d.readError == o.readError
  }

  // One call.

  /** The chunk of a call: whatever was in hand, or the next one. */
  lemma QuietChunk(o: Out)
    requires OutInv(o) && Conserved(o) && !o.readError && (o.shut ==> o.writeClosed) && o.finSent == o.writeClosed
    ensures var taken := TakeChunk(o, true, true, false);
            && taken.Go? && taken.out.offset <= |taken.out.pending| && SameReads(o, taken.out)
            && taken.out.tunnelOut == o.tunnelOut && |taken.out.pending| - taken.out.offset == InHand(o)
            && (taken.out.writeClosed <==> o.writeClosed || Done(o))
            && taken.out.finSent == taken.out.shut == taken.out.writeClosed
            && (taken.out.writeClosed ==> InHand(o) == 0)
  {
    DoneIsDrained(o);
    hide Conserved, Concat;
    ConservedBound(o);
    assert o.chunks != [] ==> o.chunks[0] in o.chunks;
  }

  lemma QuietPush(o: Out, io: IO)
    requires Quiet(io) && o.offset <= |o.pending|
    ensures var d := Push(o, true, io);
            && d.Go? && SameReads(o, d.out)
            && d.out.writeClosed == o.writeClosed && d.out.finSent == o.finSent && d.out.shut == o.shut
            && |d.out.tunnelOut| - |o.tunnelOut| == if o.writeClosed then 0 else Min(|o.pending| - o.offset, io.accept)
  {
    hide Min;
    MinBound(|o.pending| - o.offset, io.accept);
  }

  /** What a call leaves alone, besides the bytes it accepts. */
  predicate SameSources(c: Conn, d: Conn) {
    && SameReads(c.out, d.out)
    && d.inn.tunnelIn == c.inn.tunnelIn && d.inn.eof == c.inn.eof && d.tcp == c.tcp
  }

  /** A call in which nothing throws writes everything delivered to the host and passes the end of the stream on; the
      tunnel takes as much of the chunk in hand as its send buffer allows, and it gets the FIN exactly when the host has
      ended and everything was accepted before the call. */
  lemma QuietTransfer(kind: Kind, c: Conn, io: IO)
    requires Inv(c) && Ready(c) && Quiet(io)
    ensures var d := TransferStep(kind, c, io);
            && d.mid && !d.finished && SameSources(c, d)
            && d.inn.hostOut == c.inn.tunnelIn && d.inn.received == [] && (d.inn.shut <==> c.inn.eof)
            && |d.out.tunnelOut| == |c.out.tunnelOut| + Min(InHand(c.out), io.accept) && d.out.tunnelOut <= c.out.hostIn
            && (d.out.writeClosed <==> c.out.writeClosed || Done(c.out))
            && d.out.finSent == d.out.shut == d.out.writeClosed
  {
    TransferKeeps(kind, c, io);
    QuietChunk(c.out);
    var o := TakeChunk(c.out, true, true, false).out;
    QuietPush(o, io);
    QuietHost(c);
    hide TakeChunk, Push, WriteHost, Min, OutInv, InInv, Concat, Done, InHand;
  }

  lemma QuietHost(c: Conn)
    requires Inv(c) && Ready(c)
    ensures var i := WriteHost(c.inn, |c.inn.received|);
            i.hostOut == c.inn.tunnelIn && i.received == [] && i.eof == c.inn.eof && i.tunnelIn == c.inn.tunnelIn
            && i.shut == c.inn.shut
  {
    WriteAllKeeps(c);
    WriteHostKeeps(c.inn, |c.inn.received|);
  }

  /** The whole call: the connection ends exactly when both streams have ended and everything was accepted, the reads
      between the two lock regions included. */
  lemma QuietService(kind: Kind, c: Conn, io: IO, between: seq<HostRead>)
    requires Inv(c) && Ready(c) && Quiet(io)
    ensures var d := Serviced(kind, c, io, between);
            && Inv(d) && !d.mid && !d.aborted
            && d.inn.hostOut == c.inn.tunnelIn && (d.inn.shut <==> c.inn.eof)
            && d.inn.tunnelIn == c.inn.tunnelIn && d.inn.eof == c.inn.eof
            && SameReads(AfterReads(c.out, between), d.out)
            && |d.out.tunnelOut| == |c.out.tunnelOut| + Min(InHand(c.out), io.accept)
            && (d.out.shut <==> c.out.shut || Done(c.out))
            && (d.finished <==> c.inn.eof && Done(d.out))
            && (d.out.finSent <==> d.out.shut || (d.finished && !c.tcp.resets))
            && (!d.finished ==> d.tcp == c.tcp)
  {
    QuietTransfer(kind, c, io);
    TransferKeeps(kind, c, io);
    var t := TransferStep(kind, c, io);
    ReadsKeep(t, between);
    var r := t.(out := AfterReads(t.out, between));
    ReadsLeave(t.out, between);
    SameReadsAfter(c.out, t.out, between);
    LiveDone(r);
    LiveShut(c);
    TeardownKeeps(r);
    hide TransferStep, AfterReads, Inv, Done, InHand, Min, Quiet;
  }

  lemma LiveDone(c: Conn)
    requires Inv(c) && !c.finished
    ensures Drained(c.out) <==> Done(c.out)
  {
    DoneIsDrained(c.out);
  }

  lemma LiveShut(c: Conn)
    requires Inv(c) && Ready(c)
    ensures c.out.shut == c.out.writeClosed == c.out.finSent && c.tcp.pcb && !c.aborted
  {
  }

  /** The reads add to the queue only. */
  lemma {:induction false} ReadsLeave(o: Out, results: seq<HostRead>)
    ensures var d := AfterReads(o, results);
            && d.tunnelOut == o.tunnelOut && o.hostIn <= d.hostIn
            && d.shut == o.shut && d.finSent == o.finSent && d.writeClosed == o.writeClosed
    decreases |results|
  {
    if results != [] && !o.readEof && results[0].Chunk? {
      ReadsLeave(if results[0].data == [] then o.(readEof := true) else ReadChunk(o, results[0].data), results[1..]);
    }
  }

  lemma SameReadsChunk(o: Out, d: Out, chunk: bytes)
    requires SameReads(o, d)
    ensures SameReads(ReadChunk(o, chunk), ReadChunk(d, chunk))
  {
  }

  lemma SameReadsEnd(o: Out, d: Out)
    requires SameReads(o, d)
    ensures d.readEof == o.readEof && SameReads(o.(readEof := true), d.(readEof := true))
    ensures SameReads(o.(readEof := true, readError := true), d.(readEof := true, readError := true))
  {
  }

  lemma {:induction false} SameReadsAfter(o: Out, d: Out, results: seq<HostRead>)
    requires SameReads(o, d)
    ensures SameReads(AfterReads(o, results), AfterReads(d, results))
    decreases |results|
  {
    hide ReadChunk, SameReads;
    SameReadsEnd(o, d);
    if results != [] && !o.readEof && results[0].Chunk? && results[0].data != [] {
      SameReadsChunk(o, d, results[0].data);
      SameReadsAfter(ReadChunk(o, results[0].data), ReadChunk(d, results[0].data), results[1..]);
    }
  }

  /** How much of the delivered bytes a call writes to the host: all, unless the tunnel had failed or the write throws.
    */
  function WrittenToHost(c: Conn, io: IO): nat {
    if c.tcp.failed then 0
    else if c.inn.received != [] && io.hostWrite.Some? then Min(io.hostWrite.value, |c.inn.received|)
    else |c.inn.received|
  }

  /** A call that takes an error path closes both ends for good, with a FIN unless closing resets; the host has got a
      front part of what was delivered, and its write side is not shut down any more. */
  lemma FailedTransfer(kind: Kind, c: Conn, io: IO)
    requires Inv(c) && !c.mid && !c.finished && TransferStep(kind, c, io).aborted
    ensures var d := TransferStep(kind, c, io);
            && d.finished && d.hostClosed && !d.tcp.pcb && !d.mid
            && (c.out.finSent || (c.tcp.pcb && !c.tcp.resets) ==> d.out.finSent)
            && WrittenToHost(c, io) <= |c.inn.received|
            && d.inn.hostOut == c.inn.hostOut + c.inn.received[..WrittenToHost(c, io)]
            && d.inn.shut == c.inn.shut
  {
    NotAborted(c);
    FinImpliesClosed(c);
    TransferGrows(kind, c, io);
    hide Inv, Min, TakeChunk, Push, Grows, SameDelivered;
    if c.inn.received != [] && io.hostWrite.Some? {
      MinBound(io.hostWrite.value, |c.inn.received|);
    }
    assert c.inn.hostOut + c.inn.received[..0] == c.inn.hostOut;
    if Checks(kind, c, io) {
      var w := c.(inn := WriteHost(c.inn, |c.inn.received|));
      FailedOutbound(kind, w, io);
    }
  }

  lemma FailedOutbound(kind: Kind, c: Conn, io: IO)
    requires !c.aborted && OutboundStep(kind, c, io).aborted
    ensures var d := OutboundStep(kind, c, io);
            && d.finished && d.hostClosed && !d.tcp.pcb && !d.mid
            && (c.tcp.pcb && !c.tcp.resets ==> d.out.finSent)
            && d.inn == c.inn
  {
    hide TakeChunk, Push, Abort;
    var taken := TakeChunk(c.out, kind.Served? || c.tcp.connected, c.tcp.pcb, io.shutdownThrows);
    var t := c.(out := taken.out);
    AbortEnds(t);
    if taken.Go? {
      var pushed := Push(t.out, c.tcp.pcb && c.tcp.connected, io);
      AbortEnds(t.(out := pushed.out));
    }
  }

  lemma AbortEnds(c: Conn)
    ensures var d := Abort(c);
            && d.finished && d.hostClosed && !d.tcp.pcb && !d.mid && d.inn == c.inn
            && (c.tcp.pcb && !c.tcp.resets ==> d.out.finSent)
  {
  }

  // Many calls.

  /** The state after a series of calls with no reads in between. */
  function Calls(kind: Kind, c: Conn, ios: seq<IO>): Conn
    decreases |ios|
  {
    if ios == [] then c else Calls(kind, Serviced(kind, c, ios[0], []), ios[1..])
  }

  lemma {:induction false} CallsAfterEnd(kind: Kind, c: Conn, ios: seq<IO>)
    requires c.finished && !c.mid
    ensures Calls(kind, c, ios) == c
    decreases |ios|
  {
    if ios != [] {
      CallsAfterEnd(kind, c, ios[1..]);
    }
  }

  /** How many bytes a connection still has to hand to its tunnel. */
  function Behind(o: Out): int { |o.hostIn| - |o.tunnelOut| }

  lemma HandBehind(c: Conn)
    requires Inv(c) && !c.finished
    ensures InHand(c.out) <= Behind(c.out) && (Behind(c.out) > 0 ==> InHand(c.out) > 0)
    ensures Behind(c.out) == 0 ==> c.out.tunnelOut == c.out.hostIn
  {
    var o := c.out;
    ConcatEmpty(o.chunks);
    ConservedPrefix(o);
    assert |o.hostIn| == |o.tunnelOut| + (|o.pending| - o.offset) + |Concat(o.chunks)|;
    assert o.chunks != [] ==> o.chunks[0] in o.chunks;
  }

  /** Calls in which nothing throws and the tunnel takes at least one byte hand everything over: after one more call
      than there are bytes left, both directions are complete, both ends of stream are passed on, and the connection has
      ended exactly when both streams have. */
  lemma {:induction false} Flushes(kind: Kind, c: Conn, ios: seq<IO>)
    requires Inv(c) && Ready(c)
    requires forall i | 0 <= i < |ios| :: Quiet(ios[i]) && ios[i].accept > 0
    requires |ios| > Behind(c.out)
    ensures var d := Calls(kind, c, ios);
            && d.out.tunnelOut == c.out.hostIn && d.inn.hostOut == c.inn.tunnelIn && !d.aborted
            && (c.out.readEof ==> d.out.finSent || (d.finished && c.tcp.resets)) && (d.inn.shut <==> c.inn.eof)
            && (d.finished <==> c.out.readEof && c.inn.eof)
    decreases |ios|
  {
    hide Inv, Quiet, Min, InHand, Serviced;
    HandBehind(c);
    var d := Serviced(kind, c, ios[0], []);
    QuietService(kind, c, ios[0], []);
    assert AfterReads(c.out, []) == c.out;
    MinAtLeast(InHand(c.out), ios[0].accept);
    if d.finished {
      CallsAfterEnd(kind, d, ios[1..]);
    } else {
      HandBehind(d);
      if |ios| == 1 {
        assert Calls(kind, d, []) == d;
      } else {
        Flushes(kind, d, ios[1..]);
      }
    }
  }

  lemma MinAtLeast(a: nat, b: nat)
    requires b > 0
    ensures Min(a, b) <= a && (a > 0 ==> Min(a, b) > 0)
  {
  }

  // Whole runs.

  /** In every run: once the host has ended and everything was accepted, the next call in which nothing throws sends the
      FIN, and no earlier call does. */
  lemma NextCallSendsFin(moves: seq<Move>, side: Side, io: IO)
    requires Run(START, moves).Some?
    requires Ready(Run(START, moves).value.At(side)) && Quiet(io)
    ensures var c := Run(START, moves).value.At(side);
            var s := Run(START, moves + [Move(side, Transfer(io))]);
            && s.Some?
            && (s.value.At(side).out.finSent <==> c.out.finSent || (c.out.readEof && c.out.tunnelOut == c.out.hostIn))
            && s.value.At(side).out.finSent == s.value.At(side).out.writeClosed
  {
    Reachable(moves);
    hide Run, Inv, TransferStep, Quiet;
    var s := Run(START, moves).value;
    QuietTransfer(KindOf(side), s.At(side), io);
    LiveShut(s.At(side));
    RunSnoc(START, moves, s, Move(side, Transfer(io)));
  }

  // No deadlock: whatever has happened so far, calls and deliveries complete both directions.

  lemma ServicedNotMid(kind: Kind, c: Conn, io: IO, between: seq<HostRead>)
    ensures !Serviced(kind, c, io, between).mid
  {
    hide TransferStep, AfterReads;
  }

  lemma {:induction false} CallsAreRun(s: System, side: Side, ios: seq<IO>) returns (moves: seq<Move>)
    requires !s.At(side).mid
    ensures Run(s, moves) == Some(s.Set(side, Calls(KindOf(side), s.At(side), ios)))
    decreases |ios|
  {
    hide Serviced, Run, MovesOf, ServiceEvents;
    var c := s.At(side);
    if ios == [] {
      moves := [];
      assert s.Set(side, c) == s;
      NoMoves(s);
    } else {
      var d := Serviced(KindOf(side), c, ios[0], []);
      var first := MovesOf(side, ServiceEvents(KindOf(side), c, ios[0], []));
      ServiceIsRun(s, side, ios[0], []);
      ServicedNotMid(KindOf(side), c, ios[0], []);
      var rest := CallsAreRun(s.Set(side, d), side, ios[1..]);
      RunAppend(s, first, rest);
      moves := first + rest;
    }
  }

  lemma NoMoves(s: System)
    ensures Run(s, []) == Some(s)
  {
  }

  /** A live end whose host has said everything. */
  ghost predicate Complete(c: Conn) {
    Inv(c) && Ready(c) && c.out.readEof && !c.tcp.resets
  }

  /** An end that has passed everything on. */
  ghost predicate PassedOn(c: Conn) {
    && Inv(c) && !c.aborted && !c.mid && c.out.finSent && Done(c.out)
    && (c.finished || (Ready(c) && !c.tcp.resets))
  }

  const GREEDY := IO(None, 1, Taken, false, false)

  lemma PassOn(s: System, side: Side) returns (moves: seq<Move>, t: System)
    requires SystemInv(s) && Complete(s.At(side))
    ensures Run(s, moves) == Some(t) && SystemInv(t) && PassedOn(t.At(side)) && t.At(Other(side)) == s.At(Other(side))
    ensures t.At(side).out.hostIn == s.At(side).out.hostIn
  {
    var c := s.At(side);
    HandBehind(c);
    var ios := seq(Behind(c.out) + 1, _ => GREEDY);
    hide Run, Inv, Serviced;
    Flushes(KindOf(side), c, ios);
    CallsKeep(KindOf(side), c, ios);
    moves := CallsAreRun(s, side, ios);
    t := s.Set(side, Calls(KindOf(side), c, ios));
    RunKeeps(s, moves);
  }

  lemma {:induction false} CallsKeep(kind: Kind, c: Conn, ios: seq<IO>)
    requires Inv(c) && Ready(c)
    requires forall i | 0 <= i < |ios| :: Quiet(ios[i])
    ensures var d := Calls(kind, c, ios);
            && Inv(d) && !d.mid && SameReads(c.out, d.out) && (d.finished || d.tcp == c.tcp)
    decreases |ios|
  {
    hide Inv, Quiet, Min, InHand, Serviced, Done;
    if ios != [] {
      var d := Serviced(kind, c, ios[0], []);
      QuietService(kind, c, ios[0], []);
      assert AfterReads(c.out, []) == c.out;
      if d.finished {
        CallsAfterEnd(kind, d, ios[1..]);
      } else {
        CallsKeep(kind, d, ios[1..]);
      }
    }
  }

  /** Everything the other end's tunnel accepted arrives, and then its FIN. */
  lemma Arrive(s: System, side: Side) returns (moves: seq<Move>, t: System)
    requires SystemInv(s) && PassedOn(s.At(side)) && !s.At(side).finished && s.At(Other(side)).out.finSent
    ensures Run(s, moves) == Some(t) && SystemInv(t) && t.At(Other(side)) == s.At(Other(side))
    ensures var c, d := s.At(side), t.At(side);
            d == c.(inn := d.inn) && d.inn.eof && d.inn.tunnelIn == s.At(Other(side)).out.tunnelOut
  {
    var c, there := s.At(side), s.At(Other(side));
    if c.inn.eof {
      moves, t := [], s;
      NoMoves(s);
    } else {
      LivePcb(c);
      var data := there.out.tunnelOut[|c.inn.tunnelIn|..];
      assert c.inn.tunnelIn + data == there.out.tunnelOut;
      hide Run, Inv, TransferStep;
      var u := Moved(s, Move(side, Deliver(data)));
      RunOne(s, Move(side, Deliver(data)));
      t := Moved(u, Move(side, DeliverEof));
      RunOne(u, Move(side, DeliverEof));
      moves := [Move(side, Deliver(data))] + [Move(side, DeliverEof)];
      RunAppend(s, [Move(side, Deliver(data))], [Move(side, DeliverEof)]);
      RunKeeps(s, moves);
    }
  }

  lemma LivePcb(c: Conn)
    requires Inv(c) && Ready(c)
    ensures c.tcp.pcb
  {
  }

  lemma Ended(s: System, side: Side)
    requires SystemInv(s) && s.At(side).finished && !s.At(side).aborted
    ensures s.At(side).inn.hostOut == s.At(Other(side)).out.tunnelOut
  {
  }

  lemma Finish(s: System, side: Side) returns (moves: seq<Move>, t: System)
    requires SystemInv(s) && PassedOn(s.At(side)) && PassedOn(s.At(Other(side)))
    ensures Run(s, moves) == Some(t) && SystemInv(t) && t.At(Other(side)) == s.At(Other(side))
    ensures t.At(side).finished && !t.At(side).aborted && t.At(side).inn.hostOut == s.At(Other(side)).out.tunnelOut
    ensures PassedOn(t.At(side)) && t.At(side).out.tunnelOut == s.At(side).out.tunnelOut
  {
    hide Run, Inv, Serviced, TransferStep;
    if s.At(side).finished {
      moves, t := [], s;
      NoMoves(s);
    } else {
      var first, u := Arrive(s, side);
      var c := u.At(side);
      Flushes(KindOf(side), c, [GREEDY]);
      CallsKeep(KindOf(side), c, [GREEDY]);
      var last := CallsAreRun(u, side, [GREEDY]);
      RunAppend(s, first, last);
      moves := first + last;
      t := u.Set(side, Calls(KindOf(side), c, [GREEDY]));
      RunKeeps(s, moves);
    }
    Ended(t, side);
  }

  /** From every reachable state in which both hosts have said everything and neither end has failed, some continuation
      ends both connections cleanly with both hosts' data delivered completely: nothing that may happen before wedges a
      transfer. */
  lemma AlwaysCompletes(moves: seq<Move>) returns (more: seq<Move>)
    requires Run(START, moves).Some?
    requires var s := Run(START, moves).value; Complete(s.client) && Complete(s.server)
    ensures Run(START, moves + more).Some?
    ensures var s, t := Run(START, moves).value, Run(START, moves + more).value;
            && t.client.finished && !t.client.aborted && t.server.finished && !t.server.aborted
            && t.client.inn.hostOut == s.server.out.hostIn && t.server.inn.hostOut == s.client.out.hostIn
  {
    Reachable(moves);
    hide Run, Inv;
    var s := Run(START, moves).value;
    var a, s1 := PassOn(s, Client);
    var b, s2 := PassOn(s1, Server);
    var c, s3 := Finish(s2, Client);
    var d, s4 := Finish(s3, Server);
    RunAppend(s, a, b);
    RunAppend(s, a + b, c);
    RunAppend(s, a + b + c, d);
    more := a + b + c + d;
    RunAppend(START, moves, more);
  }
}
