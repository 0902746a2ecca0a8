/** When a read error of the host ends a connection, and when it goes unnoticed: `take_host_chunk` looks at the error
    only when the pending chunk was pushed completely. */
module ReadErrors {
  import opened Core
  import opened Pump
  import opened Forwarder
  import opened Tunnel

  /** service gets as far as taking the next chunk. */
  predicate Checks(kind: Kind, c: Conn, io: IO) {
    && !c.finished && !c.tcp.failed && (kind.Served? || c.tcp.connected)
    && (c.inn.received == [] || io.hostWrite.None?)
  }

  /** The guard of `take_host_chunk`. */
  predicate Due(o: Out) { o.offset == |o.pending| }

  predicate Meets(kind: Kind, c: Conn, io: IO) { Checks(kind, c, io) && Due(c.out) && c.out.readError }

  /** The outbound state with the chunk that this call offers to the tunnel. */
  function Offered(o: Out): Out { if Due(o) then NextChunk(o) else o }

  /** The end of the host's data is passed on, and that throws. */
  predicate ShutdownThrows(c: Conn, io: IO) {
    && Due(c.out) && Offered(c.out).pending == [] && c.out.readEof && !c.out.shut
    && c.tcp.pcb && !c.out.writeClosed && io.shutdownThrows
  }

  /** Some bytes are offered to a tunnel that would take them, and that throws. */
  predicate WriteThrows(c: Conn, io: IO) {
    && Offered(c.out).offset < |Offered(c.out).pending|
    && c.tcp.pcb && c.tcp.connected && !c.out.writeClosed && io.accept > 0 && io.write != Taken
  }

  predicate HostShutdownThrows(c: Conn, io: IO) { c.inn.eof && !c.inn.shut && io.hostShutdownThrows }

  /** The error paths that have nothing to do with reading the host: a failed tunnel, and what throws at its guard. */
  predicate OtherError(kind: Kind, c: Conn, io: IO) {
    || c.tcp.failed
    || ((kind.Served? || c.tcp.connected) && c.inn.received != [] && io.hostWrite.Some?)
    || (Checks(kind, c, io) && (ShutdownThrows(c, io) || WriteThrows(c, io) || HostShutdownThrows(c, io)))
  }

  function Blind(c: Conn): Conn { c.(out := BlindOut(c.out)) }

  function BlindOut(o: Out): Out { o.(readError := false) }

  /** Nothing throws during the call. */
  predicate Quiet(io: IO) {
    io.hostWrite.None? && io.write == Taken && !io.shutdownThrows && !io.hostShutdownThrows
  }

  // One transfer.

  lemma PushBlind(o: Out, open: bool, io: IO)
    ensures Push(BlindOut(o), open, io).Go? == Push(o, open, io).Go?
    ensures BlindOut(Push(o, open, io).out) == Push(BlindOut(o), open, io).out
  {
    hide Min, Accept, BlindOut;
    BlindFields(o);
    if o.offset < |o.pending| {
      MinBound(|o.pending| - o.offset, io.accept);
      AcceptBlind(o, if open && !o.writeClosed then Min(|o.pending| - o.offset, io.accept) else 0);
    }
  }

  lemma AcceptBlind(o: Out, n: nat)
    requires o.offset + n <= |o.pending|
    ensures BlindOut(o).offset == o.offset && |BlindOut(o).pending| == |o.pending|
    ensures BlindOut(Accept(o, n)) == Accept(BlindOut(o), n)
    ensures BlindOut(Accept(o, n).(offset := o.offset + n)) == Accept(BlindOut(o), n).(offset := o.offset + n)
  {
  }

  lemma BlindFields(o: Out)
    ensures var b := BlindOut(o); b.offset == o.offset && b.pending == o.pending && b.writeClosed == o.writeClosed
  {
  }

  lemma TakeError(o: Out, ready: bool, pcb: bool, throws: bool)
    requires o.readError
    ensures TakeChunk(o, ready, pcb, throws) == if Due(o) then Halt(NextChunk(o)) else Go(o)
    ensures !Due(o) ==> TakeChunk(BlindOut(o), ready, pcb, throws) == Go(BlindOut(o))
  {
  }

  lemma AbortAborts(c: Conn)
    ensures Abort(c).aborted
  {
  }

  /** Once service takes chunks with a read error, it aborts if a chunk is due, and otherwise as without the error. */
  lemma OutboundError(kind: Kind, c: Conn, io: IO)
    requires c.out.readError && !c.aborted
    ensures OutboundStep(kind, c, io).aborted <==> Due(c.out) || OutboundStep(kind, Blind(c), io).aborted
  {
    hide TakeChunk, Push, Abort, ShutHostStep, Due;
    var ready := kind.Served? || c.tcp.connected;
    TakeError(c.out, ready, c.tcp.pcb, io.shutdownThrows);
    AbortAborts(c.(out := NextChunk(c.out)));
    if !Due(c.out) {
      OfferBlind(c, io);
    }
  }

  lemma OfferBlind(c: Conn, io: IO)
    requires !c.aborted
    ensures OfferStep(c, io).aborted == OfferStep(Blind(c), io).aborted
  {
    hide Push, Abort;
    var open := c.tcp.pcb && c.tcp.connected;
    PushBlind(c.out, open, io);
    var o, o' := Push(c.out, open, io).out, Push(BlindOut(c.out), open, io).out;
    AbortAborts(c.(out := o));
    AbortAborts(Blind(c).(out := o'));
  }

  lemma TakeThrows(c: Conn, ready: bool, io: IO)
    requires ready && !c.out.readError
    ensures var taken := TakeChunk(c.out, ready, c.tcp.pcb, io.shutdownThrows);
            && (taken.Halt? <==> ShutdownThrows(c, io))
            && taken.out.pending == Offered(c.out).pending && taken.out.offset == Offered(c.out).offset
            && (taken.out.pending != [] ==> taken.out.writeClosed == c.out.writeClosed)
  {
  }

  lemma PushThrows(o: Out, open: bool, io: IO)
    ensures Push(o, open, io).Halt? <==>
            o.offset < |o.pending| && open && !o.writeClosed && io.accept > 0 && io.write != Taken
  {
  }

  lemma ShutHostAborts(c: Conn, io: IO)
    requires !c.aborted
    ensures ShutHostStep(c, io).aborted <==> HostShutdownThrows(c, io)
  {
    hide Abort;
    AbortAborts(c);
  }

  lemma OutboundThrows(kind: Kind, c: Conn, io: IO)
    requires !c.aborted && !c.out.readError && (kind.Served? || c.tcp.connected)
    ensures OutboundStep(kind, c, io).aborted <==>
            ShutdownThrows(c, io) || WriteThrows(c, io) || HostShutdownThrows(c, io)
  {
    hide TakeChunk, Push, Abort, ShutHostStep, Offered, ShutdownThrows;
    TakeThrows(c, true, io);
    var taken := TakeChunk(c.out, true, c.tcp.pcb, io.shutdownThrows);
    AbortAborts(c.(out := taken.out));
    if taken.Go? {
      var d := c.(out := taken.out);
      PushThrows(d.out, c.tcp.pcb && c.tcp.connected, io);
      var pushed := Push(d.out, c.tcp.pcb && c.tcp.connected, io);
      AbortAborts(d.(out := pushed.out));
      ShutHostAborts(d.(out := pushed.out), io);
    }
  }

  /** These are exactly the ways in which the call would abort without the read error, too. */
  lemma OtherErrorExactly(kind: Kind, c: Conn, io: IO)
    requires !c.finished && !c.aborted
    ensures OtherError(kind, c, io) <==> TransferStep(kind, Blind(c), io).aborted
  {
    hide OutboundStep, Abort, Min, WriteHost, ShutdownThrows, WriteThrows;
    var b := Blind(c);
    AbortAborts(b);
    if Checks(kind, c, io) {
      var w := b.(inn := WriteHost(b.inn, |b.inn.received|));
      OutboundThrows(kind, w, io);
      SameGuards(c, w, io);
    } else if c.inn.received != [] && io.hostWrite.Some? {
      MinBound(io.hostWrite.value, |c.inn.received|);
      AbortAborts(b.(inn := WriteHost(b.inn, Min(io.hostWrite.value, |c.inn.received|))));
    }
  }

  lemma SameGuards(c: Conn, w: Conn, io: IO)
    requires w == Blind(c).(inn := WriteHost(c.inn, |c.inn.received|))
    ensures ShutdownThrows(w, io) == ShutdownThrows(c, io) && WriteThrows(w, io) == WriteThrows(c, io)
    ensures HostShutdownThrows(w, io) == HostShutdownThrows(c, io)
  {
  }

  /** A call aborts exactly when it takes a due chunk with the read error set, or on another error path. When nothing
      throws, an error that is there aborts a transferring call if and only if the pending chunk was pushed before. */
  lemma ReadErrorMet(kind: Kind, c: Conn, io: IO)
    requires Inv(c) && !c.mid && !c.finished
    ensures TransferStep(kind, c, io).aborted <==> Meets(kind, c, io) || OtherError(kind, c, io)
    ensures Quiet(io) && !c.tcp.failed && (kind.Served? || c.tcp.connected) && c.out.readError ==>
              (TransferStep(kind, c, io).aborted <==> c.out.offset == |c.out.pending|)
  {
    NotAborted(c);
    hide Inv, OutboundStep, Abort, Min, WriteHost, OtherError;
    OtherErrorExactly(kind, c, io);
    if !c.out.readError {
      assert Blind(c) == c;
    } else if Checks(kind, c, io) {
      OutboundError(kind, c.(inn := WriteHost(c.inn, |c.inn.received|)), io);
      QuietOutbound(kind, c, io);
    } else if c.inn.received != [] && io.hostWrite.Some? {
      MinBound(io.hostWrite.value, |c.inn.received|);
      var i := WriteHost(c.inn, Min(io.hostWrite.value, |c.inn.received|));
      AbortAborts(c.(inn := i));
      AbortAborts(Blind(c).(inn := i));
    } else {
      AbortAborts(c);
      AbortAborts(Blind(c));
    }
  }

  lemma NotAborted(c: Conn)
    requires Inv(c) && !c.finished
    ensures !c.aborted
  {
  }

  lemma QuietOutbound(kind: Kind, c: Conn, io: IO)
    requires !c.aborted
    ensures var w := c.(inn := WriteHost(c.inn, |c.inn.received|));
            Quiet(io) ==> !OutboundStep(kind, Blind(w), io).aborted
  {
    hide Abort, Min, WriteHost;
    var w := c.(inn := WriteHost(c.inn, |c.inn.received|));
    var o := BlindOut(w.out);
    var ready := kind.Served? || c.tcp.connected;
    if Quiet(io) {
      QuietTake(o, ready, c.tcp.pcb);
      var taken := TakeChunk(o, ready, c.tcp.pcb, false);
      QuietPush(taken.out, c.tcp.pcb && c.tcp.connected, io);
      hide TakeChunk, Push;
    }
  }

  lemma QuietTake(o: Out, ready: bool, pcb: bool)
    requires !o.readError
    ensures TakeChunk(o, ready, pcb, false).Go?
  {
  }

  lemma QuietPush(o: Out, open: bool, io: IO)
    requires Quiet(io)
    ensures Push(o, open, io).Go?
  {
    hide Min;
    if o.offset < |o.pending| {
      MinBound(|o.pending| - o.offset, io.accept);
    }
  }

  // One call of service.

  /** The reads between the lock regions, an error among them included, do not matter any more: the call aborts exactly
      when its transfer does, and ends the connection cleanly exactly when both directions are drained. */
  lemma ServicedReadError(kind: Kind, c: Conn, io: IO, between: seq<HostRead>)
    requires Inv(c) && !c.mid && !c.finished
    ensures var d := Serviced(kind, c, io, between);
            && (d.aborted <==> Meets(kind, c, io) || OtherError(kind, c, io))
            && (d.finished && !d.aborted <==>
                && !Meets(kind, c, io) && !OtherError(kind, c, io)
                && TransferStep(kind, c, io).inn.eof
                && Drained(AfterReads(TransferStep(kind, c, io).out, between)))
  {
    ReadErrorMet(kind, c, io);
    TransferKeeps(kind, c, io);
    MidUnlessAborted(kind, c, io);
    hide TransferStep, Inv, Meets, OtherError, AfterReads;
    var d := TransferStep(kind, c, io);
    if d.mid {
      TeardownAborts(d.(out := AfterReads(d.out, between)));
    }
  }

  lemma TeardownAborts(c: Conn)
    ensures TeardownStep(c).aborted == c.aborted
    ensures TeardownStep(c).finished == (c.finished || (c.inn.eof && Drained(c.out)))
  {
  }

  lemma MidUnlessAborted(kind: Kind, c: Conn, io: IO)
    requires Inv(c) && !c.mid && !c.finished
    ensures var d := TransferStep(kind, c, io); d.mid == !d.aborted && (d.mid ==> !d.finished)
  {
    NotAborted(c);
    hide Inv, OutboundStep, Min, WriteHost;
    OutboundMid(kind, c.(inn := WriteHost(c.inn, |c.inn.received|)), io);
  }

  lemma OutboundMid(kind: Kind, c: Conn, io: IO)
    requires !c.mid && !c.finished && !c.aborted
    ensures var d := OutboundStep(kind, c, io); d.mid == !d.aborted && (d.mid ==> !d.finished)
  {
    hide TakeChunk, Push;
  }

  // Whole runs of a connection.

  /** The state after the first n events; None if one of them was not possible. */
  function RunTo(kind: Kind, events: seq<Event>, n: nat): Option<Conn>
    requires n <= |events|
  {
    if n == 0 then Some(Init(kind))
    else
      var c :- RunTo(kind, events, n - 1);
      if Enabled(c, events[n - 1]) then Some(Step(kind, c, events[n - 1])) else None
  }

  lemma {:induction false} RunToKeeps(kind: Kind, events: seq<Event>, n: nat)
    requires n <= |events| && RunTo(kind, events, n).Some?
    ensures Inv(RunTo(kind, events, n).value)
  {
    hide Inv, Step, Enabled;
    if n == 0 {
      InitInv(kind);
    } else {
      RunToKeeps(kind, events, n - 1);
      StepKeeps(kind, RunTo(kind, events, n - 1).value, events[n - 1]);
    }
  }

  /** The i-th event is a call of service that finds its pending chunk pushed and looks at the queue. */
  predicate DrainedCheckAt(kind: Kind, events: seq<Event>, i: nat)
    requires i < |events|
  {
    && events[i].Transfer? && RunTo(kind, events, i).Some?
    && Checks(kind, RunTo(kind, events, i).value, events[i].io) && Due(RunTo(kind, events, i).value.out)
  }

  /** The i-th event takes an error path that has nothing to do with reading the host. */
  predicate OtherErrorAt(kind: Kind, events: seq<Event>, i: nat)
    requires i < |events|
  {
    && events[i].Transfer? && RunTo(kind, events, i).Some?
    && !RunTo(kind, events, i).value.finished && OtherError(kind, RunTo(kind, events, i).value, events[i].io)
  }

  predicate ErrorBefore(events: seq<Event>, n: nat)
    requires n <= |events|
  {
    exists j | 0 <= j < n :: events[j] == ReaderError
  }

  /** The i-th event aborts the connection. */
  predicate AbortsAt(kind: Kind, events: seq<Event>, i: nat)
    requires i < |events|
  {
    (DrainedCheckAt(kind, events, i) && ErrorBefore(events, i)) || OtherErrorAt(kind, events, i)
  }

  /** What one event does to the error flag and the outcome. */
  lemma EventErrors(kind: Kind, c: Conn, e: Event)
    requires Inv(c) && Enabled(c, e)
    ensures var d := Step(kind, c, e);
            && (d.out.readError <==> c.out.readError || e == ReaderError)
            && (d.aborted <==>
                c.aborted || (e.Transfer? && !c.finished && (Meets(kind, c, e.io) || OtherError(kind, c, e.io))))
  {
    hide Inv, TransferStep, TeardownStep, Meets, OtherError;
    match e {
      case Transfer(io) =>
        EnabledTransfer(c, io);
        TransferError(kind, c, io);
        if !c.finished {
          ReadErrorMet(kind, c, io);
          NotAborted(c);
        }
      case Teardown =>
        TeardownAborts(c);
        TeardownError(c);
      case ReaderChunk(chunk) => assert Step(kind, c, e).out == ReadChunk(c.out, chunk);
      case _ =>
    }
  }

  lemma EnabledTransfer(c: Conn, io: IO)
    requires Enabled(c, Transfer(io))
    ensures !c.mid
  {
  }

  lemma TeardownError(c: Conn)
    ensures TeardownStep(c).out.readError == c.out.readError
  {
  }

  lemma TransferError(kind: Kind, c: Conn, io: IO)
    ensures TransferStep(kind, c, io).out.readError == c.out.readError
    ensures c.finished ==> TransferStep(kind, c, io) == c
  {
    hide Min, WriteHost, OutboundStep, Abort;
    AbortKeepsError(c);
    if c.inn.received != [] && io.hostWrite.Some? {
      MinBound(io.hostWrite.value, |c.inn.received|);
      AbortKeepsError(c.(inn := WriteHost(c.inn, Min(io.hostWrite.value, |c.inn.received|))));
    }
    OutboundKeepsError(kind, c.(inn := WriteHost(c.inn, |c.inn.received|)), io);
  }

  lemma OutboundKeepsError(kind: Kind, c: Conn, io: IO)
    ensures OutboundStep(kind, c, io).out.readError == c.out.readError
  {
    hide TakeChunk, OfferStep, Abort;
    var taken := TakeChunk(c.out, kind.Served? || c.tcp.connected, c.tcp.pcb, io.shutdownThrows);
    TakeKeepsError(c.out, kind.Served? || c.tcp.connected, c.tcp.pcb, io.shutdownThrows);
    AbortKeepsError(c.(out := taken.out));
    OfferKeepsError(c.(out := taken.out), io);
  }

  lemma OfferKeepsError(c: Conn, io: IO)
    ensures OfferStep(c, io).out.readError == c.out.readError
  {
    hide Push, Abort;
    var pushed := Push(c.out, c.tcp.pcb && c.tcp.connected, io);
    PushKeepsError(c.out, c.tcp.pcb && c.tcp.connected, io);
    AbortKeepsError(c.(out := pushed.out));
  }

  lemma AbortKeepsError(c: Conn)
    ensures Abort(c).out.readError == c.out.readError
  {
  }

  lemma TakeKeepsError(o: Out, ready: bool, pcb: bool, throws: bool)
    ensures TakeChunk(o, ready, pcb, throws).out.readError == o.readError
  {
  }

  lemma PushKeepsError(o: Out, open: bool, io: IO)
    ensures Push(o, open, io).out.readError == o.readError
  {
    hide Min;
    if o.offset < |o.pending| {
      MinBound(|o.pending| - o.offset, io.accept);
    }
  }

  /** In every run, the error flag is set exactly after a read error, and the connection is aborted exactly by one of
      the events above. */
  lemma {:induction false} RunErrors(kind: Kind, events: seq<Event>, n: nat)
    requires n <= |events| && RunTo(kind, events, n).Some?
    ensures var d := RunTo(kind, events, n).value;
            && (d.out.readError <==> ErrorBefore(events, n))
            && (d.aborted <==> exists i | 0 <= i < n :: AbortsAt(kind, events, i))
  {
    hide Inv, Step, Enabled, Checks, Due, OtherError;
    if n > 0 {
      var c, e := RunTo(kind, events, n - 1).value, events[n - 1];
      RunErrors(kind, events, n - 1);
      RunToKeeps(kind, events, n - 1);
      EventErrors(kind, c, e);
      MeetsNow(kind, events, n - 1);
    } else {
      InitClean(kind);
    }
  }

  lemma InitClean(kind: Kind)
    ensures !Init(kind).aborted && !Init(kind).out.readError
  {
  }

  lemma MeetsNow(kind: Kind, events: seq<Event>, i: nat)
    requires i < |events| && RunTo(kind, events, i).Some?
    requires RunTo(kind, events, i).value.out.readError <==> ErrorBefore(events, i)
    ensures var c, e := RunTo(kind, events, i).value, events[i];
            AbortsAt(kind, events, i) <==>
            e.Transfer? && !c.finished && (Meets(kind, c, e.io) || OtherError(kind, c, e.io))
  {
    hide OtherError, ErrorBefore, RunTo, Due;
  }

  /** A connection without other error paths that ended although reading its host failed: it ended like a clean one
      exactly when the error arrived after the last call that found its pending chunk pushed. */
  lemma UnnoticedReadError(kind: Kind, events: seq<Event>)
    requires RunTo(kind, events, |events|).Some?
    requires forall i | 0 <= i < |events| :: !OtherErrorAt(kind, events, i)
    requires var d := RunTo(kind, events, |events|).value; d.finished && d.out.readError
    ensures !RunTo(kind, events, |events|).value.aborted <==>
            forall i, j | 0 <= j < i < |events| && events[j] == ReaderError :: !DrainedCheckAt(kind, events, i)
  {
    hide DrainedCheckAt, OtherErrorAt, RunTo;
    RunErrors(kind, events, |events|);
    if i, j :| 0 <= j < i < |events| && events[j] == ReaderError && DrainedCheckAt(kind, events, i) {
      assert AbortsAt(kind, events, i);
    }
  }

  // Both ways in which an error goes unnoticed.

  const QUIET := IO(None, 0, Taken, false, false)

  /** The error comes in between the two lock regions of the last call. */
  lemma ErrorBetweenRegions()
    ensures var events := [Connected, DeliverEof, Transfer(QUIET), ReaderError, Teardown];
            RunTo(Local, events, 5).Some? &&
            var d := RunTo(Local, events, 5).value; d.finished && !d.aborted && d.out.readError
  {
    var events := [Connected, DeliverEof, Transfer(QUIET), ReaderError, Teardown];
    var c := Init(Local).(tcp := Tcp(true, false, true, false), inn := In([], true, false, [], []));
    assert RunTo(Local, events, 0) == Some(Init(Local));
    assert RunTo(Local, events, 1) == Some(Init(Local).(tcp := c.tcp));
    assert RunTo(Local, events, 2) == Some(c);
    EofTransfer(Local, c);
    hide TransferStep;
    var d := c.(inn := c.inn.(shut := true), mid := true);
    assert RunTo(Local, events, 3) == Some(d);
    assert RunTo(Local, events, 4) == Some(d.(out := d.out.(readEof := true, readError := true)));
  }

  lemma RunStep(kind: Kind, events: seq<Event>, n: nat, c: Conn)
    requires n < |events| && RunTo(kind, events, n) == Some(c) && Enabled(c, events[n])
    ensures RunTo(kind, events, n + 1) == Some(Step(kind, c, events[n]))
  {
    hide Enabled, Step;
  }

  lemma RunStart(kind: Kind, events: seq<Event>)
    ensures RunTo(kind, events, 0) == Some(Init(kind))
  {
  }

  /** A byte is read and held back by the tunnel, then reading fails, then the byte is pushed. */
  const LATE: seq<Event> := [ReaderChunk([7]), DeliverEof, Transfer(QUIET), Teardown, ReaderError,
                             Transfer(QUIET.(accept := 5)), Teardown]

  function Holding(): Conn { Init(Served).(out := PendingByte(), inn := In([], true, true, [], [])) }

  lemma RunToHolding()
    ensures RunTo(Served, LATE, 4) == Some(Holding())
  {
    hide RunTo, TransferStep, PendingByte, QueuedByte;
    RunStart(Served, LATE);
    QueuesByte();
    var c := Init(Served).(out := QueuedByte(), inn := In([], true, false, [], []));
    RunStep(Served, LATE, 0, Init(Served));
    RunStep(Served, LATE, 1, Init(Served).(out := QueuedByte()));
    HeldTransfer(c);
    RunStep(Served, LATE, 2, c);
    PendingNotEof();
    RunStep(Served, LATE, 3, Holding().(mid := true));
  }

  lemma QueuesByte()
    ensures ReadChunk(Init(Served).out, [7]) == QueuedByte() && !QueuedByte().readEof
  {
  }

  lemma PendingNotEof()
    ensures !PendingByte().readEof && !PendingByte().writeClosed && !PendingByte().shut
    ensures PendingByte().tunnelOut == [] && PendingByte().hostIn == [7]
  {
    assert [] + [7] == [7];
  }

  /** The error comes while a pending chunk still has to be pushed, long before the last call. */
  lemma ErrorBeforePush()
    ensures RunTo(Served, LATE, 7).Some?
    ensures var d := RunTo(Served, LATE, 7).value;
            d.finished && !d.aborted && d.out.readError && d.out.tunnelOut == [7] == d.out.hostIn
  {
    hide RunTo, TransferStep, PendingByte;
    RunToHolding();
    PendingNotEof();
    var d := Holding();
    var failed := d.out.(readEof := true, readError := true);
    RunStep(Served, LATE, 4, d);
    PushedTransfer(d.(out := failed), QUIET.(accept := 5));
    RunStep(Served, LATE, 5, d.(out := failed));
    RunStep(Served, LATE, 6, d.(out := failed.(offset := 1, tunnelOut := [7]), mid := true));
  }

  function QueuedByte(): Out { ReadChunk(Init(Served).out, [7]) }

  function PendingByte(): (o: Out)
    ensures o.pending == [7] && o.offset == 0 && o.chunks == []
  {
    QueuedByte().(pending := [7], chunks := [])
  }

  /** A quiet transfer takes the next chunk and passes the end of the tunnel's stream on; the tunnel takes nothing. */
  lemma HeldTransfer(c: Conn)
    requires !c.finished && !c.tcp.failed && c.inn == In([], true, false, [], []) && c.out == QueuedByte()
    ensures TransferStep(Served, c, QUIET) == c.(out := PendingByte(), inn := c.inn.(shut := true), mid := true)
  {
    TakesByte(c.tcp.pcb);
    HoldsByte(c.tcp.pcb && c.tcp.connected);
    hide TakeChunk, Push, PendingByte, QueuedByte;
    assert WriteHost(c.inn, 0) == c.inn;
  }

  lemma TakesByte(pcb: bool)
    ensures TakeChunk(QueuedByte(), true, pcb, false) == Go(PendingByte())
  {
    assert QueuedByte().chunks == [[7]] && [[7]][1..] == [];
    assert NextChunk(QueuedByte()) == PendingByte();
  }

  lemma HoldsByte(open: bool)
    ensures Push(PendingByte(), open, QUIET) == Go(PendingByte())
  {
    hide PendingByte;
    assert Accept(PendingByte(), 0) == PendingByte();
  }

  /** A transfer that pushes the pending byte, the host's write side being shut down already. */
  lemma PushedTransfer(c: Conn, io: IO)
    requires io == QUIET.(accept := 5)
    requires !c.finished && !c.tcp.failed && c.tcp.connected && c.tcp.pcb && c.inn == In([], true, true, [], [])
    requires c.out.pending == [7] && c.out.offset == 0 && c.out.tunnelOut == [] && !c.out.writeClosed
    ensures TransferStep(Served, c, io) == c.(out := c.out.(offset := 1, tunnelOut := [7]), mid := true)
  {
    assert TakeChunk(c.out, true, c.tcp.pcb, false) == Go(c.out);
    assert Accept(c.out, 1) == c.out.(tunnelOut := [7]);
    assert Push(c.out, true, io) == Go(c.out.(offset := 1, tunnelOut := [7]));
    hide TakeChunk, Push;
    assert WriteHost(c.inn, 0) == c.inn;
  }

  /** A quiet transfer with nothing pending passes the end of the tunnel's stream on. */
  lemma EofTransfer(kind: Kind, c: Conn)
    requires !c.finished && !c.tcp.failed && c.tcp.connected && c.inn == In([], true, false, [], [])
    requires c.out.chunks == [] && c.out.pending == [] && c.out.offset == 0 && !c.out.readEof && !c.out.readError
    ensures TransferStep(kind, c, QUIET) == c.(inn := c.inn.(shut := true), mid := true)
  {
    assert TakeChunk(c.out, true, c.tcp.pcb, false) == Go(c.out);
    assert Push(c.out, c.tcp.pcb, QUIET) == Go(c.out);
    hide TakeChunk, Push;
    assert WriteHost(c.inn, 0) == c.inn;
  }

  // What a read error costs the other end.

  lemma {:induction false} RunSnoc(s: System, moves: seq<Move>, t: System, m: Move)
    requires Run(s, moves) == Some(t) && MayMove(t, m)
    ensures Run(s, moves + [m]) == Some(Moved(t, m))
    decreases |moves|
  {
    hide MayMove, Moved;
    if moves == [] {
      assert [] + [m] == [m] && [m][1..] == [] && Run(Moved(s, m), []) == Some(Moved(s, m));
    } else {
      assert (moves + [m])[0] == moves[0] && (moves + [m])[1..] == moves[1..] + [m];
      RunSnoc(Moved(s, moves[0]), moves[1..], t, m);
    }
  }

  /** The next of a list of moves leads from one state to another. */
  lemma NextMove(s: System, moves: seq<Move>, i: nat, t: System, u: System)
    requires i < |moves| && Run(s, moves[..i]) == Some(t) && MayMove(t, moves[i]) && Moved(t, moves[i]) == u
    ensures Run(s, moves[..i + 1]) == Some(u)
  {
    hide MayMove, Moved;
    RunSnoc(s, moves[..i], t, moves[i]);
    assert moves[..i + 1] == moves[..i] + [moves[i]];
  }

  /** A quiet call of service that meets the read error closes the tunnel, which looks to the other end like the end of
      the stream. */
  lemma AbortTransfer(kind: Kind, c: Conn)
    requires !c.finished && !c.tcp.failed && (kind.Served? || c.tcp.connected) && c.tcp.pcb && !c.tcp.resets
    requires c.inn == In([], false, false, [], []) && Due(c.out) && c.out.readError
    ensures var d := TransferStep(kind, c, QUIET);
            && d.out.finSent && d.out.tunnelOut == c.out.tunnelOut && d.out.hostIn == c.out.hostIn
            && d.finished && d.aborted
  {
    TakeError(c.out, true, c.tcp.pcb, false);
    hide TakeChunk, NextChunk;
    assert WriteHost(c.inn, 0) == c.inn;
    NextChunkKeepsBytes(c.out);
  }

  lemma NextChunkKeepsBytes(o: Out)
    ensures NextChunk(o).tunnelOut == o.tunnelOut && NextChunk(o).hostIn == o.hostIn
  {
  }

  /** The moves of the loss: a byte is read, reading fails, the server's call aborts; then the client's side ends. */
  const LOSS: seq<Move> := [
    Move(Server, ReaderChunk([7])), Move(Server, ReaderError), Move(Server, Transfer(QUIET)),
    Move(Client, Connected), Move(Client, DeliverEof), Move(Client, Transfer(QUIET))]

  function FailedServer(): Conn {
    Init(Served).(out := QueuedByte().(readEof := true, readError := true))
  }

  lemma ServerMoves()
    ensures Run(START, LOSS[..3]) == Some(System(Init(Local), TransferStep(Served, FailedServer(), QUIET)))
  {
    hide Run, TransferStep;
    var read, failed := Init(Served).(out := QueuedByte()), FailedServer();
    StartRun();
    NextMove(START, LOSS, 0, START, System(Init(Local), read));
    NextMove(START, LOSS, 1, System(Init(Local), read), System(Init(Local), failed));
    NextMove(START, LOSS, 2, System(Init(Local), failed), System(Init(Local), TransferStep(Served, failed, QUIET)));
  }

  lemma StartRun()
    ensures Run(START, LOSS[..0]) == Some(START)
  {
    assert LOSS[..0] == [];
  }

  lemma ClientMoves(closed: Conn)
    requires Run(START, LOSS[..3]) == Some(System(Init(Local), closed))
    requires closed.out.finSent && closed.out.tunnelOut == []
    ensures var c := Init(Local).(tcp := Tcp(true, false, true, false), inn := In([], true, true, [], []), mid := true);
            Run(START, LOSS[..6]) == Some(System(c, closed))
  {
    hide Run, TransferStep;
    var linked := Init(Local).(tcp := Tcp(true, false, true, false));
    var ended := linked.(inn := In([], true, false, [], []));
    var shut := ended.(inn := In([], true, true, [], []), mid := true);
    EofTransfer(Local, ended);
    NextMove(START, LOSS, 3, System(Init(Local), closed), System(linked, closed));
    NextMove(START, LOSS, 4, System(linked, closed), System(ended, closed));
    NextMove(START, LOSS, 5, System(ended, closed), System(shut, closed));
  }

  /** A byte that was read is lost: the server meets a read error with the byte still queued and closes; the client
      takes the FIN for the end of the stream and shuts its host's write side down, without an error path of its own. */
  lemma LostAtHalfClose()
    ensures Run(START, LOSS).Some?
    ensures var s := Run(START, LOSS).value;
            && !s.client.aborted && s.client.inn.shut && s.client.inn.hostOut == []
            && s.server.aborted && s.server.out.hostIn == [7] && s.server.out.tunnelOut == []
  {
    AbortTransfer(Served, FailedServer());
    hide Run, TransferStep;
    ServerMoves();
    ClientMoves(TransferStep(Served, FailedServer(), QUIET));
    assert LOSS[..6] == LOSS;
  }
}
