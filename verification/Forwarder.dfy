/** The objects of a forwarded connection: the queue filled by the host reader thread, the tunnel stream, the host
    socket and the connection serviced by the event loop. Their methods take the steps of the transition system. */
module Forwarder {
  import opened Core
  import opened Pump

  /** What one blocking read of the host gives the reader thread. */
  datatype HostRead = Chunk(data: bytes) | End | ReadFailed

  class HostReadState {
    var chunks: seq<bytes>
    var eof: bool
    var error: bool
    ghost var bytesRead: bytes

    constructor ()
      ensures chunks == [] && !eof && !error && bytesRead == []
    {
      chunks, eof, error, bytesRead := [], false, false, [];
    }
  }

  /** The queue as the reader thread leaves it after some reads; it stops at the first empty or failing one. */
  function AfterReads(o: Out, results: seq<HostRead>): Out
    decreases |results|
  {
    if results == [] || o.readEof then o
    else
      match results[0]
      case Chunk(data) => AfterReads(if data == [] then o.(readEof := true) else ReadChunk(o, data), results[1..])
      case End => o.(readEof := true)
      case ReadFailed => o.(readEof := true, readError := true)
  }

  /** The tunnel's TCP stream: a FIFO in each direction, with the flags that the network stack's callbacks set. */
  class TunnelStream {
    var connected: bool
    var eof: bool
    var failed: bool
    var writeClosed: bool
    var pcb: bool
    var received: bytes
    ghost var resets: bool
    ghost var accepted: bytes
    ghost var delivered: bytes
    ghost var finSent: bool

    constructor (connected: bool)
      ensures this.connected == connected && !eof && !failed && !writeClosed && pcb && received == []
      ensures accepted == [] && delivered == [] && !finSent && !resets
    {
      this.connected := connected;
      eof, failed, writeClosed, pcb, received := false, false, false, true, [];
      accepted, delivered, finSent, resets := [], [], false, false;
    }

    /** Queues as much as the send buffer takes; `space` is its room. A throwing tcp_write queues nothing, a throwing
        tcp_output comes after the bytes were queued. */
    method Write(data: bytes, space: nat, answer: WriteAnswer) returns (n: nat, ok: bool)
      modifies this`accepted
      ensures n == if pcb && connected && !writeClosed then Min(|data|, space) else 0
      ensures ok <==> n == 0 || answer == Taken
      ensures accepted == old(accepted) + if n > 0 && answer == WriteFails then [] else data[..n]
    {
      if !pcb || !connected || writeClosed {
        return 0, true;
      }
      n := Min(|data|, space);
      if n == 0 {
        return 0, true;
      }
      if answer == WriteFails {
        return n, false;
      }
      accepted := accepted + data[..n];
      ok := answer == Taken;
    }

    method ReadAvailable() returns (data: bytes)
      modifies this`received
      ensures data == old(received) && received == []
    {
      data := [];
      while |received| > 0
        invariant data + received == old(received)
      {
        data := data + [received[0]];
        received := received[1..];
      }
    }

    method ShutdownWrite(throws: bool) returns (ok: bool)
      modifies this`writeClosed, this`finSent
      ensures ok <==> !(pcb && !old(writeClosed) && throws)
      ensures writeClosed == (old(writeClosed) || (pcb && !throws))
      ensures finSent == (old(finSent) || (pcb && !old(writeClosed) && !throws))
    {
      if !pcb || writeClosed {
        return true;
      }
      if throws {
        return false;
      }
      writeClosed := true;
      finSent := true;
      return true;
    }

    /** A tcp_close that fails aborts the control block with a reset instead of a FIN. */
    method CloseStream()
      modifies this`pcb, this`finSent
      ensures !pcb && finSent == (old(finSent) || (old(pcb) && !resets))
    {
      if !pcb {
        return;
      }
      if !resets {
        finSent := true;
      }
      pcb := false;
    }

    // Callbacks of the network stack.

    method OnReceive(data: bytes)
      modifies this`received, this`delivered
      ensures received == old(received) + data && delivered == old(delivered) + data
    {
      received := received + data;
      delivered := delivered + data;
    }

    method OnEof()
      modifies this`eof
      ensures eof
    {
      eof := true;
    }

    method OnError()
      modifies this`failed, this`pcb
      ensures failed && !pcb
    {
      pcb := false;
      failed := true;
    }

    /** A receive buffer that cannot be copied, or a refused connect. */
    method OnFailure()
      modifies this`failed
      ensures failed
    {
      failed := true;
    }

    method OnConnected()
      modifies this`connected
      ensures connected
    {
      connected := true;
    }
  }

  class HostStream {
    var closed: bool
    ghost var written: bytes

    constructor ()
      ensures !closed && written == []
    {
      closed, written := false, [];
    }

    /** Writes everything, or throws after some bytes. */
    method WriteAll(data: bytes, failsAfter: Option<nat>) returns (ok: bool)
      modifies this`written
      ensures ok <==> failsAfter.None?
      ensures written == old(written) + data[..if failsAfter.None? then |data| else Min(failsAfter.value, |data|)]
    {
      ok := failsAfter.None?;
      written := written + data[..if failsAfter.None? then |data| else Min(failsAfter.value, |data|)];
    }

    method Close()
      modifies this`closed
      ensures closed
    {
      closed := true;
    }
  }

  class Connection {
    const kind: Kind
    const host: HostStream
    const hostRead: HostReadState
    const tunnel: TunnelStream
    var pendingToTunnel: bytes
    var pendingOffset: nat
    var tunnelWriteShutdown: bool
    var hostWriteShutdown: bool
    var finished: bool
    ghost var aborted: bool
    ghost var mid: bool

    constructor (kind: Kind, host: HostStream, hostRead: HostReadState, tunnel: TunnelStream)
      requires hostRead.chunks == [] && !hostRead.eof && !hostRead.error && hostRead.bytesRead == []
      requires tunnel.connected == kind.Served? && !tunnel.eof && !tunnel.failed && !tunnel.writeClosed && tunnel.pcb
      requires tunnel.received == [] && tunnel.accepted == [] && tunnel.delivered == []
      requires !tunnel.finSent && !tunnel.resets
      requires !host.closed && host.written == []
      ensures View() == Init(kind) && this.kind == kind
      ensures this.host == host && this.hostRead == hostRead && this.tunnel == tunnel
    {
      this.kind, this.host, this.hostRead, this.tunnel := kind, host, hostRead, tunnel;
      pendingToTunnel, pendingOffset := [], 0;
      tunnelWriteShutdown, hostWriteShutdown, finished, aborted, mid := false, false, false, false, false;
    }

    ghost function OutView(): Out
      reads this, hostRead, tunnel
    {
      Out(hostRead.chunks, hostRead.eof, hostRead.error, pendingToTunnel, pendingOffset, tunnelWriteShutdown,
          tunnel.writeClosed, tunnel.finSent, hostRead.bytesRead, tunnel.accepted)
    }

    ghost function InView(): In
      reads this, host, tunnel
    {
      In(tunnel.received, tunnel.eof, hostWriteShutdown, tunnel.delivered, host.written)
    }

    /** The state of the transition system that this connection is in. */
    ghost function View(): Conn
      reads this, host, hostRead, tunnel
    {
      Conn(OutView(), InView(), Tcp(tunnel.connected, tunnel.failed, tunnel.pcb, tunnel.resets),
           finished, host.closed, aborted, mid)
    }

    /** The reader thread: appends chunks under the lock until the host's end or an error. */
    method RunReader(results: seq<HostRead>)
      modifies hostRead
      ensures View() == old(View()).(out := AfterReads(old(View()).out, results))
    {
      var i := 0;
      assert results[0..] == results;
      while i < |results| && !hostRead.eof
        invariant 0 <= i <= |results|
        invariant AfterReads(OutView(), results[i..]) == AfterReads(old(OutView()), results)
        decreases |results| - i
      {
        assert results[i..][1..] == results[i + 1..];
        match results[i] {
          case Chunk(data) =>
            if |data| == 0 {
              hostRead.eof := true;
            } else {
              hostRead.bytesRead := hostRead.bytesRead + data;
              hostRead.chunks := hostRead.chunks + [data];
            }
          case End =>
            hostRead.eof := true;
          case ReadFailed =>
            hostRead.error := true;
            hostRead.eof := true;
        }
        i := i + 1;
      }
    }

    // The callbacks of the network stack, seen from the connection.

    method Receive(data: bytes)
      modifies tunnel`received, tunnel`delivered
      ensures View() == Step(kind, old(View()), Deliver(data))
    {
      tunnel.OnReceive(data);
    }

    method ReceiveEof()
      modifies tunnel`eof
      ensures View() == Step(kind, old(View()), DeliverEof)
    {
      tunnel.OnEof();
    }

    /** A stack error takes the control block away; a failed copy or connect leaves it. */
    method ReceiveFailure(keepsPcb: bool)
      requires tunnel.pcb
      modifies tunnel`failed, tunnel`pcb
      ensures View() == Step(kind, old(View()), Event.Fail(keepsPcb))
    {
      if keepsPcb {
        tunnel.OnFailure();
      } else {
        tunnel.OnError();
      }
    }

    method ReceiveConnected()
      modifies tunnel`connected
      ensures View() == Step(kind, old(View()), Connected)
    {
      tunnel.OnConnected();
    }

    /** From now on a close of the control block fails, or no longer does. */
    ghost method SetResets(on: bool)
      modifies tunnel`resets
      ensures View() == Step(kind, old(View()), Resetting(on))
    {
      tunnel.resets := on;
    }

    method CloseBoth()
      modifies this`finished, this`mid, host, tunnel`pcb, tunnel`finSent
      ensures View() == Close(old(View()))
    {
      tunnel.CloseStream();
      host.Close();
      finished := true;
      mid := false;
    }

    method Fail()
      modifies this`finished, this`mid, this`aborted, host, tunnel`pcb, tunnel`finSent
      ensures View() == Abort(old(View()))
    {
      CloseBoth();
      aborted := true;
    }

    /** The first lock region. */
    method PopChunk() returns (hostEof: bool, hostError: bool)
      modifies this`pendingToTunnel, this`pendingOffset, hostRead`chunks
      ensures View() == old(View()).(out := NextChunk(old(OutView())))
      ensures hostEof == hostRead.eof && hostError == hostRead.error
    {
      pendingToTunnel := [];
      pendingOffset := 0;
      if |hostRead.chunks| > 0 {
        pendingToTunnel := hostRead.chunks[0];
        hostRead.chunks := hostRead.chunks[1..];
      }
      hostEof, hostError := hostRead.eof, hostRead.error;
    }

    /** What a step of the outbound direction left behind: a new outbound state, or an aborted connection. */
    ghost predicate Took(before: Conn, r: Outcome, ok: bool)
      reads this, host, hostRead, tunnel
    {
      (ok <==> r.Go?) && View() == if r.Go? then before.(out := r.out) else Abort(before.(out := r.out))
    }

    /** The decision after the first lock region. */
    method ShutWhenDone(hostEof: bool, hostError: bool, io: IO) returns (ok: bool)
      requires hostEof == hostRead.eof && hostError == hostRead.error
      modifies this`tunnelWriteShutdown, this`finished, this`mid, this`aborted, host, tunnel
      ensures var ready := kind.Served? || old(tunnel.connected);
              Took(old(View()), ShutTunnel(old(OutView()), ready, old(tunnel.pcb), io.shutdownThrows), ok)
    {
      hide Abort;
      if hostError {
        Fail();
        return false;
      }
      if |pendingToTunnel| == 0 && hostEof && (kind.Served? || tunnel.connected) && !tunnelWriteShutdown {
        var shut := tunnel.ShutdownWrite(io.shutdownThrows);
        if !shut {
          Fail();
          return false;
        }
        tunnelWriteShutdown := true;
      }
      return true;
    }

    /** First lock region and the half-close decision after it. */
    method TakeHostChunk(io: IO) returns (ok: bool)
      modifies this, host, hostRead, tunnel
      ensures var ready := kind.Served? || old(tunnel.connected);
              Took(old(View()), TakeChunk(old(OutView()), ready, old(tunnel.pcb), io.shutdownThrows), ok)
    {
      hide Abort, NextChunk, ShutTunnel;
      if pendingOffset != |pendingToTunnel| {
        return true;
      }
      var hostEof, hostError := PopChunk();
      ok := ShutWhenDone(hostEof, hostError, io);
    }

    /** One write to the tunnel. */
    method OfferRest(io: IO) returns (n: nat, ok: bool)
      requires pendingOffset < |pendingToTunnel|
      modifies tunnel`accepted
      ensures n == if tunnel.pcb && tunnel.connected && !tunnel.writeClosed
                   then Min(|pendingToTunnel| - pendingOffset, io.accept) else 0
      ensures pendingOffset + n <= |pendingToTunnel| && (ok <==> n == 0 || io.write == Taken)
      ensures OutView() == if n > 0 && io.write == WriteFails then old(OutView()) else Accept(old(OutView()), n)
    {
      hide Min;
      MinBound(|pendingToTunnel| - pendingOffset, io.accept);
      n, ok := tunnel.Write(pendingToTunnel[pendingOffset..], io.accept, io.write);
      assert pendingToTunnel[pendingOffset..][..n] == pendingToTunnel[pendingOffset..pendingOffset + n];
    }

    /** Offers the rest of the pending chunk. */
    method PushPending(io: IO) returns (ok: bool)
      modifies this, host, tunnel
      ensures Took(old(View()), Push(old(OutView()), old(tunnel.pcb) && old(tunnel.connected), io), ok)
    {
      hide Abort, Min, Accept;
      if pendingOffset < |pendingToTunnel| {
        var n;
        n, ok := OfferRest(io);
        if !ok {
          Fail();
        } else {
          pendingOffset := pendingOffset + n;
        }
      } else {
        ok := true;
      }
    }

    /** The end of the tunnel's stream is passed on to the host. */
    method PassEof(io: IO) returns (ok: bool)
      modifies this, host, tunnel
      ensures View() == ShutHostStep(old(View()), io) && (ok <==> View().mid)
    {
      if tunnel.eof && !hostWriteShutdown {
        if io.hostShutdownThrows {
          Fail();
          return false;
        }
        hostWriteShutdown := true;
      }
      mid := true;
      ok := true;
    }

    /** service up to the second lock region; `go` says whether it gets there. */
    method Transfer(io: IO) returns (go: bool)
      requires !mid
      modifies this, host, hostRead, tunnel
      ensures View() == TransferStep(kind, old(View()), io) && (go <==> View().mid)
    {
      hide Abort, OutboundStep, Min;
      if finished {
        return false;
      }
      if tunnel.failed {
        AbortIsNotMid(View());
        Fail();
        return false;
      }
      if kind.Local? && !tunnel.connected {
        mid := true;
        return true;
      }
      go := WriteReceived(io);
      if go {
        go := Outbound(io);
      }
    }

    /** Everything the tunnel has received goes to the host. */
    method WriteReceived(io: IO) returns (ok: bool)
      requires !mid
      modifies this, host, tunnel
      ensures ok <==> old(tunnel.received) == [] || io.hostWrite.None?
      ensures ok ==> View() == old(View()).(inn := WriteHost(old(InView()), |old(tunnel.received)|))
      ensures !ok ==> !mid && Min(io.hostWrite.value, |old(tunnel.received)|) <= |old(tunnel.received)|
      ensures !ok ==>
                var n := Min(io.hostWrite.value, |old(tunnel.received)|);
                View() == Abort(old(View()).(inn := WriteHost(old(InView()), n)))
    {
      hide Abort, Min, WriteHost;
      ghost var c := View();
      ok := DrainToHost(io);
      if !ok {
        AbortIsNotMid(View());
        Fail();
      }
    }

    /** Reads what the tunnel has and writes it to the host. */
    method DrainToHost(io: IO) returns (ok: bool)
      modifies tunnel`received, host`written
      ensures ok <==> old(tunnel.received) == [] || io.hostWrite.None?
      ensures ok ==> InView() == WriteHost(old(InView()), |old(tunnel.received)|)
      ensures !ok ==> Min(io.hostWrite.value, |old(tunnel.received)|) <= |old(tunnel.received)|
      ensures !ok ==> InView() == WriteHost(old(InView()), Min(io.hostWrite.value, |old(tunnel.received)|))
    {
      hide Min;
      var fromTunnel := tunnel.ReadAvailable();
      if |fromTunnel| > 0 {
        if io.hostWrite.Some? {
          MinBound(io.hostWrite.value, |fromTunnel|);
        }
        ok := host.WriteAll(fromTunnel, io.hostWrite);
      } else {
        assert host.written + fromTunnel[..|fromTunnel|] == host.written;
        ok := true;
      }
    }

    method Outbound(io: IO) returns (go: bool)
      requires !mid
      modifies this, host, hostRead, tunnel
      ensures View() == OutboundStep(kind, old(View()), io) && (go <==> View().mid)
    {
      hide Abort, TakeChunk, OfferStep;
      ghost var c := View();
      go := TakeHostChunk(io);
      if !go {
        AbortIsNotMid(c.(out := TakeChunk(c.out, kind.Served? || c.tcp.connected, c.tcp.pcb, io.shutdownThrows).out));
      } else {
        go := Offer(io);
      }
    }

    method Offer(io: IO) returns (go: bool)
      requires !mid
      modifies this, host, tunnel
      ensures View() == OfferStep(old(View()), io) && (go <==> View().mid)
    {
      hide Abort, Push, ShutHostStep;
      ghost var c := View();
      go := PushPending(io);
      if !go {
        AbortIsNotMid(c.(out := Push(c.out, c.tcp.pcb && c.tcp.connected, io).out));
      } else {
        go := PassEof(io);
      }
    }

    /** Second lock region. */
    method Teardown()
      requires mid
      modifies this, host, tunnel
      ensures View() == TeardownStep(old(View()))
    {
      var hostEof, noHostChunks := hostRead.eof, |hostRead.chunks| == 0;
      if tunnel.eof && hostEof && noHostChunks && pendingOffset == |pendingToTunnel| {
        CloseBoth();
      } else {
        mid := false;
      }
    }

    /** One call of service; `between` are the reads that the reader thread completes between the two lock regions. */
    method Service(io: IO, between: seq<HostRead>)
      requires Inv(View()) && !mid
      modifies this, host, hostRead, tunnel
      ensures View() == Serviced(kind, old(View()), io, between)
      ensures Inv(View()) && !mid
    {
      TransferKeeps(kind, View(), io);
      var go := Transfer(io);
      if go {
        ReadsKeep(View(), between);
        RunReader(between);
        TeardownKeeps(View());
        Teardown();
      }
    }
  }

  function Serviced(kind: Kind, c: Conn, io: IO, between: seq<HostRead>): Conn {
    var d := TransferStep(kind, c, io);
    if d.mid then TeardownStep(d.(out := AfterReads(d.out, between))) else d
  }

  lemma {:induction false} ReadsKeep(c: Conn, results: seq<HostRead>)
    requires Inv(c)
    ensures Inv(c.(out := AfterReads(c.out, results)))
    decreases |results|
  {
    hide Inv, ReadChunk;
    if results != [] && !c.out.readEof {
      match results[0]
      case Chunk(data) =>
        if data == [] {
          StepKeeps(Local, c, ReaderEof);
          ReadsKeep(c.(out := c.out.(readEof := true)), results[1..]);
        } else {
          StepKeeps(Local, c, ReaderChunk(data));
          ReadsKeep(c.(out := ReadChunk(c.out, data)), results[1..]);
        }
      case End => StepKeeps(Local, c, ReaderEof);
      case ReadFailed => StepKeeps(Local, c, ReaderError);
    }
  }

  lemma AbortIsNotMid(c: Conn)
    ensures !Abort(c).mid
  {
  }
}
