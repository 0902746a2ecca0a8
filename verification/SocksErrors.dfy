/** Read errors of a SOCKS client: when they end a session, and what still happens then. */
module SocksErrors {
  import opened Core
  import opened Pump
  import opened ReadErrors
  import opened SocksProxy

  /** A success reply that breaks off ends the session. */
  predicate ReplyFails(s: Session, e: SocksEvent) {
    !s.conn.tcp.failed && s.conn.tcp.connected && !s.replied && e.breaks.Some?
  }

  /** The event aborts the session's connection. */
  predicate Aborts(s: Session, e: SocksEvent) {
    && e.event.Transfer? && !s.conn.finished
    && (ReplyFails(s, e) || Meets(Local, s.conn, e.event.io) || OtherError(Local, s.conn, e.event.io))
  }

  /** After a read error the relay still passes the end of the tunnel's stream on to its host, which a local forwarder
      does not; in everything else the two transfers agree. */
  lemma RelayPassesEof(c: Conn, io: IO)
    requires Inv(c) && !c.mid
    ensures var d, t := RelayStep(c, io), TransferStep(Local, c, io);
            && d == t.(inn := t.inn.(shut := d.inn.shut)) && d.aborted == t.aborted
            && (Meets(Local, c, io) ==>
                  && d.aborted && t.inn.shut == c.inn.shut
                  && (d.inn.shut <==> c.inn.shut || (c.inn.eof && !io.hostShutdownThrows)))
            && (!Meets(Local, c, io) ==> d == t)
  {
    if Meets(Local, c, io) {
      ReadErrorAborts(c, io);
      WriteHostShut(c.inn, |c.inn.received|);
    }
    hide TransferStep, Inv;
  }

  lemma WriteHostShut(i: In, n: nat)
    requires n <= |i.received|
    ensures WriteHost(i, n).shut == i.shut
  {
  }

  /** A transfer of the session aborts exactly when its reply fails, when it takes a due chunk with the read error set,
      or on another error path. */
  lemma TransferredAborts(s: Session, io: IO, breaks: Option<nat>)
    requires SessionInv(s) && !s.conn.mid && !s.conn.finished
    ensures var e := SocksEvent(Transfer(io), breaks);
            Transferred(s, io, breaks).conn.aborted <==> Aborts(s, e)
  {
    NotAborted(s.conn);
    ReadErrorMet(Local, s.conn, io);
    RelayPassesEof(s.conn, io);
    AbortAborts(s.conn);
    WaitingIsQuiet(s.conn, io);
    hide SessionInv, Inv, RelayStep, Abort, Said, Meets, OtherError, TransferStep;
  }

  lemma WaitingIsQuiet(c: Conn, io: IO)
    requires !c.aborted && !c.finished
    ensures c.tcp.failed || !c.tcp.connected ==> TransferStep(Local, c, io).aborted == c.tcp.failed
  {
    hide OutboundStep, Abort, Min, WriteHost;
    AbortAborts(c);
  }

  /** What one event does to the error flag and the outcome of a session. */
  lemma EventErrorsSession(s: Session, e: SocksEvent)
    requires SessionInv(s) && MayStep(s, e.event)
    ensures var d := SessionStep(s, e);
            && (d.conn.out.readError <==> s.conn.out.readError || e.event == ReaderError)
            && (d.conn.aborted <==> s.conn.aborted || Aborts(s, e))
  {
    hide SessionInv, Inv, Step, Transferred, TeardownStep, Aborts, Enabled, Meets, OtherError;
    EnabledMid(s.conn, e.event);
    SessionConn(s);
    match e.event {
      case Transfer(io) =>
        TransferredError(s, io, e.breaks);
        if s.conn.finished {
          FinishedSession(s, io, e.breaks);
        } else {
          TransferredAborts(s, io, e.breaks);
          NotAborted(s.conn);
        }
      case Teardown =>
        TeardownAborts(s.conn);
        TeardownError(s.conn);
      case _ =>
        EventErrors(Local, s.conn, e.event);
    }
    OnlyTransfersAbort(s, e);
  }

  lemma OnlyTransfersAbort(s: Session, e: SocksEvent)
    ensures Aborts(s, e) ==> e.event.Transfer? && !s.conn.finished
  {
    hide Meets, OtherError;
  }

  lemma SessionConn(s: Session)
    requires SessionInv(s)
    ensures Inv(s.conn)
  {
    hide Inv;
  }

  lemma FinishedSession(s: Session, io: IO, breaks: Option<nat>)
    requires s.conn.finished
    ensures Transferred(s, io, breaks) == s
  {
  }

  lemma TransferredError(s: Session, io: IO, breaks: Option<nat>)
    ensures Transferred(s, io, breaks).conn.out.readError == s.conn.out.readError
  {
    TransferError(Local, s.conn, io);
    AbortKeepsError(s.conn);
    hide TransferStep, Abort, Said;
  }

  // Whole runs of a session.

  /** The session after the first n events; None if one of them was not possible. */
  function SessionTo(s: Session, events: seq<SocksEvent>, n: nat): Option<Session>
    requires n <= |events|
  {
    if n == 0 then Some(s)
    else
      var t :- SessionTo(s, events, n - 1);
      if MayStep(t, events[n - 1].event) then Some(SessionStep(t, events[n - 1])) else None
  }

  predicate AbortsAt(s: Session, events: seq<SocksEvent>, i: nat)
    requires i < |events|
  {
    SessionTo(s, events, i).Some? && Aborts(SessionTo(s, events, i).value, events[i])
  }

  predicate ErrorBefore(events: seq<SocksEvent>, n: nat)
    requires n <= |events|
  {
    exists j | 0 <= j < n :: events[j].event == ReaderError
  }

  lemma {:induction false} SessionToKeeps(s: Session, events: seq<SocksEvent>, n: nat)
    requires SessionInv(s) && n <= |events| && SessionTo(s, events, n).Some?
    ensures SessionInv(SessionTo(s, events, n).value)
  {
    hide SessionInv, SessionStep, MayStep;
    if n > 0 {
      SessionToKeeps(s, events, n - 1);
      SessionStepKeeps(SessionTo(s, events, n - 1).value, events[n - 1]);
    }
  }

  /** In every run of a session, the error flag is set exactly after a read error, and the session is aborted exactly by
      a failing dial, a failing reply, a call that takes a due chunk after the error, or another error path. */
  lemma {:induction false} SessionErrors(
    input: bytes, dialled: bool, breaks: Option<nat>, events: seq<SocksEvent>, n: nat
  )
    requires n <= |events| && SessionTo(Adopt(input, dialled, breaks), events, n).Some?
    ensures var s := Adopt(input, dialled, breaks);
            var d := SessionTo(s, events, n).value;
            && (d.conn.out.readError <==> ErrorBefore(events, n))
            && (d.conn.aborted <==> !dialled || exists i | 0 <= i < n :: AbortsAt(s, events, i))
  {
    hide SessionInv, SessionStep, MayStep, Aborts, Adopt;
    var s := Adopt(input, dialled, breaks);
    if n == 0 {
      AdoptErrors(input, dialled, breaks);
    } else {
      AdoptInv(input, dialled, breaks);
      SessionErrors(input, dialled, breaks, events, n - 1);
      SessionToKeeps(s, events, n - 1);
      var t, e := SessionTo(s, events, n - 1).value, events[n - 1];
      EventErrorsSession(t, e);
      assert AbortsAt(s, events, n - 1) <==> Aborts(t, e);
    }
  }

  lemma AdoptErrors(input: bytes, dialled: bool, breaks: Option<nat>)
    ensures var c := Adopt(input, dialled, breaks).conn; !c.out.readError && (c.aborted <==> !dialled)
  {
    hide Said;
  }

  /** The i-th event is a call that finds its pending chunk pushed and looks at the queue. */
  predicate DrainedCheckAt(s: Session, events: seq<SocksEvent>, i: nat)
    requires i < |events|
  {
    && events[i].event.Transfer? && SessionTo(s, events, i).Some?
    && Checks(Local, SessionTo(s, events, i).value.conn, events[i].event.io)
    && Due(SessionTo(s, events, i).value.conn.out)
  }

  /** The i-th event takes an error path that has nothing to do with reading the client. */
  predicate OtherErrorAt(s: Session, events: seq<SocksEvent>, i: nat)
    requires i < |events|
  {
    && events[i].event.Transfer? && SessionTo(s, events, i).Some? && !SessionTo(s, events, i).value.conn.finished
    && var t := SessionTo(s, events, i).value;
       ReplyFails(t, events[i]) || OtherError(Local, t.conn, events[i].event.io)
  }

  /** A session without other error paths whose client failed ended like a clean one exactly when the error arrived
      after its last call that found the pending chunk pushed. */
  lemma UnnoticedClientError(input: bytes, events: seq<SocksEvent>)
    requires SessionTo(Adopt(input, true, None), events, |events|).Some?
    requires forall i | 0 <= i < |events| :: !OtherErrorAt(Adopt(input, true, None), events, i)
    requires var d := SessionTo(Adopt(input, true, None), events, |events|).value.conn; d.finished && d.out.readError
    ensures var s := Adopt(input, true, None);
            !SessionTo(s, events, |events|).value.conn.aborted <==>
            forall i, j | 0 <= j < i < |events| && events[j].event == ReaderError :: !DrainedCheckAt(s, events, i)
  {
    hide Adopt, SessionTo, DrainedCheckAt, OtherErrorAt, AbortsAt, SessionStep;
    var s := Adopt(input, true, None);
    SessionErrors(input, true, None, events, |events|);
    forall i: nat | i < |events| && SessionBefore(s, events, i)
      ensures AbortsAt(s, events, i) <==> DrainedCheckAt(s, events, i) && ErrorBefore(events, i)
    {
      SessionErrors(input, true, None, events, i);
      AbortsHere(s, events, i);
    }
    forall i: nat | i < |events| ensures SessionBefore(s, events, i) {
      Earlier(s, events, i, |events|);
    }
  }

  predicate SessionBefore(s: Session, events: seq<SocksEvent>, i: nat)
    requires i <= |events|
  {
    SessionTo(s, events, i).Some?
  }

  lemma {:induction false} Earlier(s: Session, events: seq<SocksEvent>, i: nat, n: nat)
    requires i <= n <= |events| && SessionTo(s, events, n).Some?
    ensures SessionBefore(s, events, i)
    decreases n
  {
    hide SessionStep, MayStep;
    if i < n {
      Earlier(s, events, i, n - 1);
    }
  }

  lemma AbortsHere(s: Session, events: seq<SocksEvent>, i: nat)
    requires i < |events| && SessionTo(s, events, i).Some? && !OtherErrorAt(s, events, i)
    requires SessionTo(s, events, i).value.conn.out.readError <==> ErrorBefore(events, i)
    ensures AbortsAt(s, events, i) <==> DrainedCheckAt(s, events, i) && ErrorBefore(events, i)
  {
    hide OtherError, ErrorBefore, SessionTo, Due, ReplyFails;
  }

  // The end of the tunnel's stream is passed on although the session aborts.

  lemma SessionNext(s: Session, events: seq<SocksEvent>, n: nat, t: Session)
    requires n < |events| && SessionTo(s, events, n) == Some(t) && MayStep(t, events[n].event)
    ensures SessionTo(s, events, n + 1) == Some(SessionStep(t, events[n]))
  {
    hide MayStep, SessionStep;
  }

  /** A quiet first call of a connected session only sends the reply. */
  lemma IdleTransfer(s: Session)
    requires s.conn == Linked() && !s.replied
    ensures SessionStep(s, SocksEvent(Transfer(QUIET), None)) ==
            Say(s, 0, None).(replied := true, conn := Linked().(mid := true))
  {
    hide TransferStep, Said;
    IdleStep();
    assert Added([], []) == [];
  }

  function Linked(): Conn { Init(Local).(tcp := Tcp(true, false, true, false)) }

  lemma IdleStep()
    ensures TransferStep(Local, Linked(), QUIET) == Linked().(mid := true)
  {
    var o := Linked().out;
    assert TakeChunk(o, true, true, false) == Go(o);
    assert Push(o, true, QUIET) == Go(o);
    hide TakeChunk, Push;
    assert WriteHost(Linked().inn, 0) == Linked().inn;
  }

  /** The client is told that the tunnel has ended although reading from it failed before: a local forwarder closes
      without that. */
  lemma EofAfterReadError()
    ensures var events := [SocksEvent(Connected, None), SocksEvent(Transfer(QUIET), None), SocksEvent(Teardown, None),
                           SocksEvent(DeliverEof, None), SocksEvent(ReaderError, None),
                           SocksEvent(Transfer(QUIET), None)];
            && SessionTo(Adopt([], true, None), events, 5).Some? && SessionTo(Adopt([], true, None), events, 6).Some?
            && var c, d := SessionTo(Adopt([], true, None), events, 5).value.conn,
                           SessionTo(Adopt([], true, None), events, 6).value.conn;
               d.finished && d.aborted && d.out.readError && d.inn.shut && !TransferStep(Local, c, QUIET).inn.shut
  {
    hide SessionTo, TransferStep, RelayStep;
    var events := [SocksEvent(Connected, None), SocksEvent(Transfer(QUIET), None), SocksEvent(Teardown, None),
                   SocksEvent(DeliverEof, None), SocksEvent(ReaderError, None), SocksEvent(Transfer(QUIET), None)];
    var s := Adopt([], true, None);
    SessionStart(s, events);
    SessionNext(s, events, 0, s);
    var linked := s.(conn := Linked());
    IdleTransfer(linked);
    SessionNext(s, events, 1, linked);
    var replied := Say(linked, 0, None).(replied := true);
    SessionNext(s, events, 2, replied.(conn := Linked().(mid := true)));
    SessionNext(s, events, 3, replied);
    var ended := Linked().(inn := In([], true, false, [], []));
    SessionNext(s, events, 4, replied.(conn := ended));
    var failed := ended.(out := ended.out.(readEof := true, readError := true));
    FailedTransfer(failed);
    SessionNext(s, events, 5, replied.(conn := failed));
  }

  lemma SessionStart(s: Session, events: seq<SocksEvent>)
    ensures SessionTo(s, events, 0) == Some(s)
  {
  }

  lemma FailedTransfer(c: Conn)
    requires c == Linked().(inn := In([], true, false, [], []),
                            out := Linked().out.(readEof := true, readError := true))
    ensures var d := RelayStep(c, QUIET); d.finished && d.aborted && d.out.readError && d.inn.shut
    ensures !TransferStep(Local, c, QUIET).inn.shut
  {
    FailedInv(c);
    RelayPassesEof(c, QUIET);
    ReadErrorAborts(c, QUIET);
    TransferError(Local, c, QUIET);
    hide TransferStep, RelayStep, Inv;
  }

  lemma FailedInv(c: Conn)
    requires c == Linked().(inn := In([], true, false, [], []),
                            out := Linked().out.(readEof := true, readError := true))
    ensures Inv(c) && !c.mid && Meets(Local, c, QUIET) && MeetsReadError(c, QUIET)
  {
  }
}
