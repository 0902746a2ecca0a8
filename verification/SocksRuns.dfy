/** What the SOCKS proxy achieves: which reply a client gets and when, and that bytes move on while nothing throws. */
module SocksRuns {
  import opened Core
  import opened Pump
  import opened ReadErrors
  import opened Progress
  import opened SocksProxy
  import opened SocksErrors

  /** Whether the call finds a client that waits for its reply. */
  predicate Waits(s: Session, e: SocksEvent) { e.event.Transfer? && !s.conn.finished && !s.replied }

  /** The reply of one event: 5 when the tunnel has failed, 0 when it is connected, and only to a client that waits. */
  lemma ReplyStep(s: Session, e: SocksEvent)
    requires SessionInv(s) && MayStep(s, e.event)
    ensures var d := SessionStep(s, e);
            && d.replies == s.replies + (if !Waits(s, e) then [] else if s.conn.tcp.failed then [5]
                                         else if s.conn.tcp.connected then [0] else [])
            && (Waits(s, e) ==> s.replies == [])
            && (d.replies != [] && !d.replied ==> d.conn.finished)
  {
    SessionStepKeeps(s, e);
    hide SessionInv, Inv, Enabled, RelayStep, Step, Said, TeardownStep;
    SessionSpoken(s);
    SessionSpoken(SessionStep(s, e));
  }

  lemma SessionSpoken(s: Session)
    requires SessionInv(s)
    ensures !s.replied && s.replies != [] ==> s.conn.finished
  {
  }

  /** A call of a connected session in which nothing throws: the client has its success reply and everything that the
      tunnel delivered, the end of the stream is passed on, and the tunnel takes what its buffer allows and gets the FIN
      exactly when the client has ended and everything was accepted. */
  lemma QuietSession(s: Session, io: IO)
    requires SessionInv(s) && Ready(s.conn) && Quiet(io)
    ensures var d, c := SessionStep(s, SocksEvent(Transfer(io), None)), s.conn;
            && d.replied && d.replies == [0] && d.input == s.input
            && d.out == [5, 0] + [5, 0, 0, 1, 0, 0, 0, 0, 0, 0] + c.inn.tunnelIn
            && d.conn.mid && !d.conn.finished && SameSources(c, d.conn)
            && d.conn.inn.hostOut == c.inn.tunnelIn && (d.conn.inn.shut <==> c.inn.eof)
            && |d.conn.out.tunnelOut| == |c.out.tunnelOut| + Min(InHand(c.out), io.accept)
            && d.conn.out.tunnelOut <= s.input
            && (d.conn.out.finSent <==> c.out.finSent || Done(c.out))
  {
    SessionConn(s);
    QuietTransfer(Local, s.conn, io);
    LiveShut(s.conn);
    TransferredKeeps(s, io, None);
    NoReadError(s.conn, io);
    hide Inv, TransferStep, Quiet, Min, InHand, Done, Added;
    assert RelayStep(s.conn, io) == TransferStep(Local, s.conn, io);
    hide RelayStep;
    SessionInput(s);
  }

  lemma NoReadError(c: Conn, io: IO)
    requires Ready(c)
    ensures !MeetsReadError(c, io)
  {
  }

  lemma SessionInput(s: Session)
    requires SessionInv(s)
    ensures s.conn.out.hostIn <= s.input
  {
  }

  /** A call that finds the tunnel still being set up does nothing; one that takes no error path leaves the rest of the
      call to its second lock region. */
  lemma WaitingSession(s: Session, e: SocksEvent)
    requires SessionInv(s) && MayStep(s, e.event) && e.event.Transfer? && !s.conn.finished
    ensures var d := SessionStep(s, e);
            && d.conn.mid == !d.conn.aborted && d.conn.finished == d.conn.aborted
            && (!s.conn.tcp.connected && !s.conn.tcp.failed ==>
                  d == s.(conn := d.conn) && d.conn == s.conn.(mid := true))
  {
    hide Inv, SessionInv, TransferStep, RelayStep, Abort, Said, Added, Enabled;
    SessionConn(s);
    NotAborted(s.conn);
    EnabledMid(s.conn, e.event);
    RelayMid(s.conn, e.event.io);
    AbortEnds(s.conn);
    AbortAborts(s.conn);
  }

  lemma RelayMid(c: Conn, io: IO)
    requires Inv(c) && !c.mid && !c.finished
    ensures var d := RelayStep(c, io); d.mid == !d.aborted && d.finished == d.aborted
  {
    hide Inv, TransferStep, RelayStep;
    MidUnlessAborted(Local, c, io);
    RelayPassesEof(c, io);
    TransferKeeps(Local, c, io);
    EndedNotMid(TransferStep(Local, c, io));
  }

  lemma EndedNotMid(c: Conn)
    requires Inv(c)
    ensures (c.finished ==> !c.mid) && (c.aborted ==> c.finished)
  {
  }

  /** The end of a call: the session ends exactly when both streams have ended and everything was accepted, and then
      both ends are closed, with a FIN unless closing resets. */
  lemma TeardownExactly(s: Session)
    requires SessionInv(s) && MayStep(s, Teardown) && !s.conn.finished
    ensures var d := SessionStep(s, SocksEvent(Teardown, None));
            && (d.conn.finished <==> s.conn.inn.eof && Done(s.conn.out))
            && d == s.(conn := d.conn) && !d.conn.mid && !d.conn.aborted && d.conn.inn == s.conn.inn
            && (d.conn.finished ==> d.conn.hostClosed && !d.conn.tcp.pcb && (d.conn.out.finSent || s.conn.tcp.resets))
            && (!d.conn.finished ==> d.conn == s.conn.(mid := false))
  {
    SessionConn(s);
    LiveDone(s.conn);
    LivePcbMid(s.conn);
    hide Inv, Done;
  }

  lemma LivePcbMid(c: Conn)
    requires Inv(c) && c.mid && !c.finished
    ensures c.tcp.pcb && !c.aborted
  {
  }

  /** Once the client has its reply, any further bytes that it sends may be read next, and its end after them. */
  lemma MayRead(s: Session, chunk: bytes)
    requires s.replied && !s.conn.out.readEof
    ensures MayStep(s, ReaderChunk(chunk)) <==> |chunk| > 0 && s.conn.out.hostIn + chunk <= s.input
    ensures MayStep(s, ReaderEof) <==> s.conn.out.hostIn == s.input
    ensures MayStep(s, ReaderError)
  {
  }

  // Whole runs.

  /** The i-th event is the call that gives the client this reply. */
  ghost predicate RepliesAt(s: Session, events: seq<SocksEvent>, i: nat, code: byte)
    requires i < |events|
  {
    && SessionTo(s, events, i).Some? && Waits(SessionTo(s, events, i).value, events[i])
    && var tcp := SessionTo(s, events, i).value.conn.tcp;
       if tcp.failed then code == 5 else tcp.connected && code == 0
  }

  /** In every run of a session, a client is told 1 exactly if the tunnel could not be dialled, and otherwise 5 or 0
      exactly if some call found it waiting with the tunnel failed or connected; and never two of these. */
  lemma {:induction false} RepliesExactly(
    input: bytes, dialled: bool, breaks: Option<nat>, events: seq<SocksEvent>, n: nat, code: byte
  )
    requires n <= |events| && SessionTo(Adopt(input, dialled, breaks), events, n).Some?
    ensures var s := Adopt(input, dialled, breaks);
            var d := SessionTo(s, events, n).value;
            && |d.replies| <= 1
            && (d.replies == [code] <==>
                if dialled then exists i | 0 <= i < n :: RepliesAt(s, events, i, code) else code == 1)
  {
    hide SessionInv, SessionStep, MayStep, Adopt, Waits;
    var s := Adopt(input, dialled, breaks);
    if n == 0 {
      AdoptReplies(input, dialled, breaks);
    } else {
      AdoptInv(input, dialled, breaks);
      RepliesExactly(input, dialled, breaks, events, n - 1, code);
      SessionToKeeps(s, events, n - 1);
      var t, e := SessionTo(s, events, n - 1).value, events[n - 1];
      ReplyStep(t, e);
      assert t.replies + [] == t.replies && [] + [5] == [5] && [] + [0] == [0];
      if !dialled {
        Undialled(input, breaks, events, n - 1);
        FinishedDoesNotWait(t, e);
      } else {
        assert RepliesAt(s, events, n - 1, code) <==>
               Waits(t, e) && if t.conn.tcp.failed then code == 5 else t.conn.tcp.connected && code == 0;
      }
    }
  }

  lemma FinishedDoesNotWait(s: Session, e: SocksEvent)
    ensures s.conn.finished ==> !Waits(s, e)
  {
  }

  lemma AdoptReplies(input: bytes, dialled: bool, breaks: Option<nat>)
    ensures var s := Adopt(input, dialled, breaks);
            s.replies == (if dialled then [] else [1]) && s.conn.finished == !dialled
  {
    hide Said;
  }

  lemma {:induction false} Undialled(input: bytes, breaks: Option<nat>, events: seq<SocksEvent>, n: nat)
    requires n <= |events| && SessionTo(Adopt(input, false, breaks), events, n).Some?
    ensures SessionTo(Adopt(input, false, breaks), events, n).value.conn.finished
  {
    hide SessionInv, SessionStep, MayStep, Adopt;
    var s := Adopt(input, false, breaks);
    if n == 0 {
      AdoptReplies(input, false, breaks);
    } else {
      AdoptInv(input, false, breaks);
      Undialled(input, breaks, events, n - 1);
      SessionToKeeps(s, events, n - 1);
      StaysFinished(SessionTo(s, events, n - 1).value, events[n - 1]);
    }
  }

  lemma StaysFinished(s: Session, e: SocksEvent)
    requires s.conn.finished
    ensures SessionStep(s, e).conn.finished
  {
    hide Inv, RelayStep, Said;
  }

  // The two ends.

  function ProxyEvents(moves: seq<WorldMove>): seq<SocksEvent> {
    if moves == [] then [] else (if moves[0].OfProxy? then [moves[0].e] else []) + ProxyEvents(moves[1..])
  }

  function ServerEvents(moves: seq<WorldMove>): seq<Event> {
    if moves == [] then [] else (if moves[0].OfServer? then [moves[0].event] else []) + ServerEvents(moves[1..])
  }

  /** The state of a session after all events. */
  function SessionAfter(s: Session, events: seq<SocksEvent>): Option<Session>
    decreases |events|
  {
    if events == [] then Some(s)
    else if MayStep(s, events[0].event) then SessionAfter(SessionStep(s, events[0]), events[1..]) else None
  }

  function ServerAfter(c: Conn, events: seq<Event>): Option<Conn>
    decreases |events|
  {
    if events == [] then Some(c)
    else if Enabled(c, events[0]) then ServerAfter(Step(Served, c, events[0]), events[1..]) else None
  }

  /** Each end of a run is a run of its own: it depends on the other end only through what the tunnel delivers. */
  lemma {:induction false} EndsRun(w: World, moves: seq<WorldMove>)
    requires RunWorld(w, moves).Some?
    ensures SessionAfter(w.session, ProxyEvents(moves)) == Some(RunWorld(w, moves).value.session)
    ensures ServerAfter(w.server, ServerEvents(moves)) == Some(RunWorld(w, moves).value.server)
    decreases |moves|
  {
    hide MayStep, SessionStep, Enabled, Step;
    if moves != [] {
      EndsRun(MovedWorld(w, moves[0]), moves[1..]);
      MayMoveEnds(w, moves[0]);
      if moves[0].OfProxy? {
        assert ProxyEvents(moves)[1..] == ProxyEvents(moves[1..]) && ServerEvents(moves) == ServerEvents(moves[1..]);
      } else {
        assert ServerEvents(moves)[1..] == ServerEvents(moves[1..]) && ProxyEvents(moves) == ProxyEvents(moves[1..]);
      }
    }
  }

  lemma MayMoveEnds(w: World, m: WorldMove)
    requires MayMoveWorld(w, m)
    ensures m.OfProxy? ==> MayStep(w.session, m.e.event)
    ensures m.OfServer? ==> Enabled(w.server, m.event)
  {
    hide Enabled;
  }

  /** Runs counted from the front and from the back are the same. */
  lemma {:induction false} AfterIsTo(s: Session, events: seq<SocksEvent>, n: nat)
    requires n <= |events| && SessionTo(s, events, n).Some?
    ensures SessionAfter(s, events) == SessionAfter(SessionTo(s, events, n).value, events[n..])
  {
    hide MayStep, SessionStep;
    if n == 0 {
      assert events[0..] == events;
    } else {
      AfterIsTo(s, events, n - 1);
      assert events[n - 1..][1..] == events[n..];
    }
  }
}
