/** One forwarded TCP connection as a transition system, interleaved at the mutex.

    `Conn` is the state of one `Connection` with the objects it owns, grouped by direction: the queue shared with the
    host reader thread, the pending chunk and the tunnel's write side; the tunnel's read side and the host's write
    side. */
module Pump {
  import opened Core

  /** Local connections (the client process) wait for the tunnel to connect; served ones start connected. */
  datatype Kind = Local | Served

  /** Host to tunnel. `hostIn` is all that was read from the host, `tunnelOut` all that the tunnel accepted. */
  datatype Out = Out(
    chunks: seq<bytes>, readEof: bool, readError: bool,
    pending: bytes, offset: nat, shut: bool, writeClosed: bool, finSent: bool,
    hostIn: bytes, tunnelOut: bytes)

  /** Tunnel to host. `tunnelIn` is all that the tunnel delivered, `hostOut` all that was written to the host. */
  datatype In = In(received: bytes, eof: bool, shut: bool, tunnelIn: bytes, hostOut: bytes)

  /** The tunnel's control block; `resets` when closing it now would fail and abort it with a reset. */
  datatype Tcp = Tcp(connected: bool, failed: bool, pcb: bool, resets: bool)

  datatype Conn = Conn(
    out: Out, inn: In, tcp: Tcp,
    finished: bool, hostClosed: bool, aborted: bool,
    mid: bool)  // between the two lock regions of service

  function Init(kind: Kind): Conn {
    Conn(Out([], false, false, [], 0, false, false, false, [], []), In([], false, false, [], []),
         Tcp(kind.Served?, false, true, false), false, false, false, false)
  }

  /** How a write of some bytes to the tunnel ends: taken, refused by tcp_write with nothing queued, or queued with an
      exception from tcp_output. */
  datatype WriteAnswer = Taken | WriteFails | OutputFails

  /** What the environment answers during one call of service. `hostWrite` is the number of bytes after which
      writing to the host throws; `accept` is how much the send buffer takes. */
  datatype IO = IO(
    hostWrite: Option<nat>, accept: nat, write: WriteAnswer, shutdownThrows: bool, hostShutdownThrows: bool)

  datatype Event =
    | ReaderChunk(chunk: bytes) | ReaderEof | ReaderError
    | Connected | Deliver(data: bytes) | DeliverEof | Fail(keepsPcb: bool) | Resetting(on: bool)
    | Transfer(io: IO) | Teardown

  function Min(a: nat, b: nat): nat { if a < b then a else b }

  // The reader thread.

  function ReadChunk(o: Out, chunk: bytes): Out {
    o.(chunks := o.chunks + [chunk], hostIn := o.hostIn + chunk)
  }

  // Steps of the event loop in the outbound direction. Halt stands for a thrown exception or a read error.

  datatype Outcome = Go(out: Out) | Halt(out: Out)

  /** The first lock region: moves the next chunk of the queue, if any, into the empty pending buffer. */
  function NextChunk(o: Out): Out {
    if o.chunks == [] then o.(pending := [], offset := 0)
    else o.(pending := o.chunks[0], offset := 0, chunks := o.chunks[1..])
  }

  /** After the first lock region: a read error ends the connection, the end of the host's data closes the tunnel's
      write side. `ready` is the extra test of the local forwarder. */
  function ShutTunnel(o: Out, ready: bool, pcb: bool, throws: bool): Outcome {
    if o.readError then Halt(o)
    else if o.pending == [] && o.readEof && ready && !o.shut then
      if pcb && !o.writeClosed then
        if throws then Halt(o) else Go(o.(writeClosed := true, finSent := true, shut := true))
      else Go(o.(shut := true))
    else Go(o)
  }

  function TakeChunk(o: Out, ready: bool, pcb: bool, throws: bool): Outcome {
    if o.offset != |o.pending| then Go(o) else ShutTunnel(NextChunk(o), ready, pcb, throws)
  }

  /** The tunnel accepts the next n pending bytes. */
  function Accept(o: Out, n: nat): Out
    requires o.offset + n <= |o.pending|
  {
    o.(tunnelOut := o.tunnelOut + o.pending[o.offset..o.offset + n])
  }

  /** Offers the rest of the pending chunk to the tunnel, which may take only a part of it, and nothing when it is not
      connected or its write side is closed. */
  function Push(o: Out, open: bool, io: IO): Outcome {
    if o.offset >= |o.pending| then Go(o)
    else
      var n := if open && !o.writeClosed then Min(|o.pending| - o.offset, io.accept) else 0;
      if n > 0 && io.write == WriteFails then Halt(o)
      else if n > 0 && io.write == OutputFails then Halt(Accept(o, n))
      else Go(Accept(o, n).(offset := o.offset + n))
  }

  // Steps of a whole connection.

  /** Closing sends a FIN, unless it fails and the control block is aborted with a reset. */
  function Close(c: Conn): Conn {
    var out := c.out.(finSent := c.out.finSent || (c.tcp.pcb && !c.tcp.resets));
    c.(out := out, tcp := c.tcp.(pcb := false), hostClosed := true, finished := true, mid := false)
  }

  /** Every error path closes both ends and forgets the connection. */
  function Abort(c: Conn): Conn {
    Close(c).(aborted := true)
  }

  function WriteHost(i: In, n: nat): In
    requires n <= |i.received|
  {
    i.(received := [], hostOut := i.hostOut + i.received[..n])
  }

  /** service up to its second lock region. */
  function TransferStep(kind: Kind, c: Conn, io: IO): Conn {
    if c.finished then c
    else if c.tcp.failed then Abort(c)
    else if kind.Local? && !c.tcp.connected then c.(mid := true)
    else if c.inn.received != [] && io.hostWrite.Some? then
      Abort(c.(inn := WriteHost(c.inn, Min(io.hostWrite.value, |c.inn.received|))))
    else OutboundStep(kind, c.(inn := WriteHost(c.inn, |c.inn.received|)), io)
  }

  function OutboundStep(kind: Kind, c: Conn, io: IO): Conn {
    match TakeChunk(c.out, kind.Served? || c.tcp.connected, c.tcp.pcb, io.shutdownThrows)
    case Halt(o) => Abort(c.(out := o))
    case Go(o) => OfferStep(c.(out := o), io)
  }

  function OfferStep(c: Conn, io: IO): Conn {
    match Push(c.out, c.tcp.pcb && c.tcp.connected, io)
    case Halt(o) => Abort(c.(out := o))
    case Go(o) => ShutHostStep(c.(out := o), io)
  }

  /** Passes the end of the tunnel's stream on to the host. */
  function ShutHostStep(c: Conn, io: IO): Conn {
    if c.inn.eof && !c.inn.shut then
      if io.hostShutdownThrows then Abort(c) else c.(inn := c.inn.(shut := true), mid := true)
    else c.(mid := true)
  }

  /** Nothing read from the host is still on its way to the tunnel. */
  predicate Drained(o: Out) {
    o.readEof && o.chunks == [] && o.offset == |o.pending|
  }

  /** The second lock region of service and what follows it. */
  function TeardownStep(c: Conn): Conn {
    if c.inn.eof && Drained(c.out) then Close(c) else c.(mid := false)
  }

  /** The reader thread and the network stack come in only at these points: the thread ends after its first
      empty read, and the stack runs on the event loop's own thread, never inside service. */
  predicate Enabled(c: Conn, e: Event) {
    match e
    case ReaderChunk(chunk) => !c.out.readEof && chunk != []
    case ReaderEof => !c.out.readEof
    case ReaderError => !c.out.readEof
    case Connected => !c.mid && c.tcp.pcb && !c.tcp.failed
    case Deliver(data) => !c.mid && c.tcp.pcb && c.tcp.connected && !c.tcp.failed && !c.inn.eof
    case DeliverEof => !c.mid && c.tcp.pcb && c.tcp.connected && !c.tcp.failed && !c.inn.eof
    case Fail(_) => !c.mid && c.tcp.pcb && !c.tcp.failed
    case Resetting(_) => !c.mid && c.tcp.pcb
    case Transfer(_) => !c.mid
    case Teardown => c.mid
  }

  function Step(kind: Kind, c: Conn, e: Event): Conn {
    match e
    case ReaderChunk(chunk) => c.(out := ReadChunk(c.out, chunk))
    case ReaderEof => c.(out := c.out.(readEof := true))
    case ReaderError => c.(out := c.out.(readEof := true, readError := true))
    case Connected => c.(tcp := c.tcp.(connected := true))
    case Deliver(data) => c.(inn := c.inn.(received := c.inn.received + data, tunnelIn := c.inn.tunnelIn + data))
    case DeliverEof => c.(inn := c.inn.(eof := true))
    case Fail(keepsPcb) => c.(tcp := c.tcp.(failed := true, pcb := keepsPcb))
    case Resetting(on) => c.(tcp := c.tcp.(resets := on))
    case Transfer(io) => TransferStep(kind, c, io)
    case Teardown => TeardownStep(c)
  }

  // Invariants.

  /** Bytes read from the host, in order: accepted by the tunnel, then the rest of the pending chunk, then the queue. */
  ghost predicate Conserved(o: Out) {
    o.offset <= |o.pending| && o.hostIn == o.tunnelOut + o.pending[o.offset..] + Concat(o.chunks)
  }

  ghost predicate OutInv(o: Out) {
    && (forall k | k in o.chunks :: k != [])
    && (o.shut ==> Drained(o))
    && (o.writeClosed ==> o.shut)
  }

  ghost predicate InInv(i: In) {
    && i.hostOut <= i.tunnelIn
    && (i.shut ==> i.eof && i.received == [] && i.hostOut == i.tunnelIn)
  }

  /** While a connection lives: conservation in both directions, and no FIN before everything was accepted. */
  ghost predicate LiveInv(c: Conn) {
    && Conserved(c.out)
    && c.inn.tunnelIn == c.inn.hostOut + c.inn.received
    && (c.out.finSent <==> c.out.writeClosed)
    && (!c.tcp.failed ==> c.tcp.pcb && (c.out.shut ==> c.out.writeClosed))
    && !c.hostClosed
    && (c.inn.eof || c.inn.tunnelIn != [] ==> c.tcp.connected)
    && (c.mid ==> !c.tcp.failed && c.inn.received == [] && (c.inn.eof ==> c.inn.shut))
  }

  /** After it ended: cleanly, with both directions complete, or on an error path, with a prefix accepted. */
  ghost predicate EndInv(c: Conn) {
    && !c.mid && !c.tcp.pcb && c.hostClosed && c.out.offset <= |c.out.pending|
    && c.out.tunnelOut <= c.out.hostIn
    && (!c.aborted ==> Drained(c.out) && c.out.tunnelOut == c.out.hostIn && (c.out.finSent || c.tcp.resets)
                       && c.inn.eof && c.inn.shut && c.inn.received == [])
  }

  ghost predicate Inv(c: Conn) {
    OutInv(c.out) && InInv(c.inn) && (c.aborted ==> c.finished) && if c.finished then EndInv(c) else LiveInv(c)
  }

  lemma InitInv(kind: Kind)
    ensures Inv(Init(kind))
  {
  }

  // Each step keeps the invariant.

  lemma ReadChunkKeeps(o: Out, chunk: bytes)
    requires OutInv(o) && !o.readEof && chunk != []
    ensures OutInv(ReadChunk(o, chunk))
    ensures Conserved(o) ==> Conserved(ReadChunk(o, chunk))
  {
    ConcatAppend(o.chunks, [chunk]);
    assert Concat([chunk]) == chunk + Concat([]) == chunk;
    if Conserved(o) {
      AppendAssociative(o.tunnelOut + o.pending[o.offset..], Concat(o.chunks), chunk);
    }
  }

  lemma ReaderKeeps(kind: Kind, c: Conn, e: Event)
    requires Inv(c) && Enabled(c, e) && (e.ReaderChunk? || e.ReaderEof? || e.ReaderError?)
    ensures Inv(Step(kind, c, e))
  {
    hide Conserved, OutInv, InInv;
    if e.ReaderChunk? {
      ReadChunkKeeps(c.out, e.chunk);
      assert c.out.tunnelOut <= c.out.hostIn ==> c.out.tunnelOut <= c.out.hostIn + e.chunk;
    } else {
      ReaderEndKeeps(c.out, e.ReaderError?);
    }
  }

  lemma ReaderEndKeeps(o: Out, error: bool)
    requires OutInv(o)
    ensures var d := o.(readEof := true, readError := error || o.readError);
            OutInv(d) && (Conserved(o) ==> Conserved(d))
    ensures var d := o.(readEof := true); OutInv(d) && (Conserved(o) ==> Conserved(d))
  {
  }

  lemma StackKeeps(kind: Kind, c: Conn, e: Event)
    requires Inv(c) && Enabled(c, e) && (e.Connected? || e.Deliver? || e.DeliverEof? || e.Fail? || e.Resetting?)
    ensures Inv(Step(kind, c, e))
  {
    hide Conserved, OutInv;
    if e.Deliver? {
      AppendAssociative(c.inn.hostOut, c.inn.received, e.data);
    }
  }

  lemma NextChunkKeeps(o: Out)
    requires OutInv(o) && Conserved(o) && o.offset == |o.pending|
    ensures OutInv(NextChunk(o)) && Conserved(NextChunk(o))
    ensures NextChunk(o).pending == [] ==> NextChunk(o).chunks == [] && o.tunnelOut == o.hostIn
  {
    assert o.pending[o.offset..] == [] && o.tunnelOut + [] == o.tunnelOut;
    if o.chunks != [] {
      assert Concat(o.chunks) == o.chunks[0] + Concat(o.chunks[1..]);
      AppendAssociative(o.tunnelOut, o.chunks[0], Concat(o.chunks[1..]));
      assert o.chunks[0][0..] == o.chunks[0] && o.chunks[0] in o.chunks;
      assert forall k | k in o.chunks[1..] :: k in o.chunks;
    }
  }

  /** What the outbound steps keep: `o` before, `r` after. */
  ghost predicate OutKept(o: Out, r: Outcome) {
    && OutInv(r.out) && r.out.hostIn == o.hostIn
    && (r.Go? ==> Conserved(r.out) && (o.finSent == o.writeClosed ==> r.out.finSent == r.out.writeClosed))
    && r.out.offset <= |r.out.pending| && r.out.tunnelOut <= r.out.hostIn
  }

  lemma ConservedPrefix(o: Out)
    requires Conserved(o)
    ensures o.tunnelOut <= o.hostIn
  {
  }

  lemma TakeChunkKeeps(o: Out, ready: bool, pcb: bool, throws: bool)
    requires OutInv(o) && Conserved(o)
    ensures OutKept(o, TakeChunk(o, ready, pcb, throws))
  {
    ConservedPrefix(o);
    if o.offset == |o.pending| {
      NextChunkKeeps(o);
      ConservedPrefix(NextChunk(o));
      hide Concat;
    }
  }

  lemma AcceptInv(o: Out, n: nat)
    requires OutInv(o) && o.offset + n <= |o.pending| && o.offset < |o.pending|
    ensures OutInv(Accept(o, n)) && OutInv(Accept(o, n).(offset := o.offset + n))
  {
  }

  lemma AcceptKeeps(o: Out, n: nat)
    requires OutInv(o) && Conserved(o) && o.offset + n <= |o.pending| && o.offset < |o.pending|
    ensures OutInv(Accept(o, n)) && Accept(o, n).tunnelOut <= o.hostIn
    ensures Conserved(Accept(o, n).(offset := o.offset + n)) && OutInv(Accept(o, n).(offset := o.offset + n))
  {
    hide Concat, OutInv;
    AcceptInv(o, n);
    var rest := o.pending[o.offset..];
    assert o.pending[o.offset + n..] == rest[n..] && o.pending[o.offset..o.offset + n] == rest[..n];
    SplitFlow(o.tunnelOut, rest, n, Concat(o.chunks));
  }

  lemma SplitFlow(a: bytes, rest: bytes, k: nat, tail: bytes)
    requires k <= |rest|
    ensures a + rest + tail == (a + rest[..k]) + rest[k..] + tail
    ensures a + rest[..k] <= a + rest + tail
  {
    assert rest == rest[..k] + rest[k..];
    AppendAssociative(a, rest[..k], rest[k..]);
  }

  lemma PushKeeps(o: Out, open: bool, io: IO)
    requires OutInv(o) && Conserved(o)
    ensures OutKept(o, Push(o, open, io))
  {
    hide OutInv, Conserved, Concat;
    ConservedBound(o);
    ConservedPrefix(o);
    if o.offset < |o.pending| {
      var n := if open && !o.writeClosed then Min(|o.pending| - o.offset, io.accept) else 0;
      AcceptKeeps(o, n);
    }
  }

  lemma TakeChunkShut(o: Out, ready: bool, pcb: bool, throws: bool)
    requires pcb && (o.shut ==> o.writeClosed)
    ensures var d := TakeChunk(o, ready, pcb, throws).out; d.shut ==> d.writeClosed
  {
  }

  lemma PushShut(o: Out, open: bool, io: IO)
    ensures var d := Push(o, open, io).out; d.shut == o.shut && d.writeClosed == o.writeClosed
  {
    hide Min;
    if o.offset < |o.pending| {
      MinBound(|o.pending| - o.offset, io.accept);
    }
  }

  lemma ConservedBound(o: Out)
    requires Conserved(o)
    ensures o.offset <= |o.pending|
  {
  }

  lemma AbortKeeps(c: Conn)
    requires OutInv(c.out) && InInv(c.inn) && c.out.tunnelOut <= c.out.hostIn && c.out.offset <= |c.out.pending|
    ensures Inv(Abort(c))
  {
  }

  lemma WriteHostKeeps(i: In, n: nat)
    requires InInv(i) && i.tunnelIn == i.hostOut + i.received && n <= |i.received|
    ensures InInv(WriteHost(i, n))
    ensures n == |i.received| ==> WriteHost(i, n).hostOut == i.tunnelIn
  {
    assert i.tunnelIn == i.hostOut + i.received[..n] + i.received[n..];
    assert i.received[..|i.received|] == i.received;
  }

  lemma OutboundKeeps(kind: Kind, c: Conn, io: IO)
    requires Inv(c) && !c.finished && !c.tcp.failed && !c.mid && c.inn.received == []
    ensures Inv(OutboundStep(kind, c, io))
  {
    hide OutInv, InInv, Conserved, TakeChunk, Push, Abort, Drained;
    var taken := TakeChunk(c.out, kind.Served? || c.tcp.connected, c.tcp.pcb, io.shutdownThrows);
    TakeChunkKeeps(c.out, kind.Served? || c.tcp.connected, c.tcp.pcb, io.shutdownThrows);
    TakeChunkShut(c.out, kind.Served? || c.tcp.connected, c.tcp.pcb, io.shutdownThrows);
    match taken
    case Halt(o) => AbortKeeps(c.(out := o));
    case Go(o) =>
      var pushed := Push(o, c.tcp.pcb && c.tcp.connected, io);
      PushKeeps(o, c.tcp.pcb && c.tcp.connected, io);
      PushShut(o, c.tcp.pcb && c.tcp.connected, io);
      match pushed
      case Halt(o') => AbortKeeps(c.(out := o'));
      case Go(o') => ShutHostKeeps(c.(out := o'), io);
  }

  lemma ShutHostKeeps(c: Conn, io: IO)
    requires Inv(c) && !c.finished && !c.tcp.failed && !c.mid && c.inn.received == []
    ensures Inv(ShutHostStep(c, io))
  {
    hide OutInv, Abort, Concat;
    ConservedPrefix(c.out);
    AbortKeeps(c);
    assert c.inn.hostOut + [] == c.inn.hostOut;
  }

  lemma TransferKeeps(kind: Kind, c: Conn, io: IO)
    requires Inv(c) && !c.mid
    ensures Inv(TransferStep(kind, c, io))
  {
    hide OutInv, InInv, Conserved, OutboundStep, Abort, Min, WriteHost;
    if !c.finished {
      ConservedPrefix(c.out);
      ConservedBound(c.out);
      if c.tcp.failed || (kind.Local? && !c.tcp.connected) {
        AbortKeeps(c);
        assert c.inn.tunnelIn == [] ==> c.inn.received == [];
      } else if c.inn.received != [] && io.hostWrite.Some? {
        MinBound(io.hostWrite.value, |c.inn.received|);
        WriteHostKeeps(c.inn, Min(io.hostWrite.value, |c.inn.received|));
        AbortKeeps(c.(inn := WriteHost(c.inn, Min(io.hostWrite.value, |c.inn.received|))));
      } else {
        WriteAllKeeps(c);
        OutboundKeeps(kind, c.(inn := WriteHost(c.inn, |c.inn.received|)), io);
      }
    }
  }

  lemma MinBound(a: nat, b: nat)
    ensures Min(a, b) <= a && Min(a, b) <= b
  {
  }

  lemma WriteAllKeeps(c: Conn)
    requires Inv(c) && !c.finished && !c.mid
    ensures Inv(c.(inn := WriteHost(c.inn, |c.inn.received|)))
    ensures WriteHost(c.inn, |c.inn.received|).received == []
  {
    hide OutInv, Conserved;
    WriteHostKeeps(c.inn, |c.inn.received|);
  }

  lemma TeardownKeeps(c: Conn)
    requires Inv(c) && c.mid
    ensures Inv(TeardownStep(c))
  {
    if Drained(c.out) {
      assert c.out.tunnelOut + c.out.pending[c.out.offset..] + Concat(c.out.chunks) == c.out.tunnelOut;
    }
  }

  /** Every step of a connection keeps the invariant, at every interleaving point. */
  lemma StepKeeps(kind: Kind, c: Conn, e: Event)
    requires Inv(c) && Enabled(c, e)
    ensures Inv(Step(kind, c, e))
  {
    hide Inv, TransferStep, TeardownStep;
    match e
    case Transfer(io) => TransferKeeps(kind, c, io);
    case Teardown => TeardownKeeps(c);
    case ReaderChunk(_) => ReaderKeeps(kind, c, e);
    case ReaderEof => ReaderKeeps(kind, c, e);
    case ReaderError => ReaderKeeps(kind, c, e);
    case _ => StackKeeps(kind, c, e);
  }
}
