/** The calls of `service` are runs of the transition system: what holds of all runs holds of the objects. */
module ServiceRuns {
  import opened Core
  import opened Pump
  import opened Tunnel
  import opened Forwarder

  /** The reader's events for a series of reads; its thread ends with the first empty or failing one. */
  function ReaderEvents(results: seq<HostRead>): seq<Event> {
    if results == [] then []
    else
      match results[0]
      case Chunk(data) => if data == [] then [ReaderEof] else [ReaderChunk(data)] + ReaderEvents(results[1..])
      case End => [ReaderEof]
      case ReadFailed => [ReaderError]
  }

  /** The events of one call of service. */
  function ServiceEvents(kind: Kind, c: Conn, io: IO, between: seq<HostRead>): seq<Event> {
    var d := TransferStep(kind, c, io);
    [Transfer(io)] + if d.mid then (if d.out.readEof then [] else ReaderEvents(between)) + [Teardown] else []
  }

  function MovesOf(side: Side, events: seq<Event>): (moves: seq<Move>)
    ensures |moves| == |events|
    decreases |events|
  {
    if events == [] then [] else [Move(side, events[0])] + MovesOf(side, events[1..])
  }

  lemma {:induction false} RunAppend(s: System, a: seq<Move>, b: seq<Move>)
    requires Run(s, a).Some?
    ensures Run(s, a + b) == Run(Run(s, a).value, b)
    decreases |a|
  {
    hide MayMove, Moved;
    if a == [] {
      assert a + b == b;
    } else {
      assert (a + b)[0] == a[0] && (a + b)[1..] == a[1..] + b;
      RunAppend(Moved(s, a[0]), a[1..], b);
    }
  }

  lemma RunOne(s: System, m: Move)
    requires MayMove(s, m)
    ensures Run(s, [m]) == Some(Moved(s, m))
  {
    hide MayMove, Moved;
    assert [m][1..] == [] && Run(Moved(s, m), []) == Some(Moved(s, m));
  }

  lemma {:induction false} MovesAppend(side: Side, a: seq<Event>, b: seq<Event>)
    ensures MovesOf(side, a + b) == MovesOf(side, a) + MovesOf(side, b)
    decreases |a|
  {
    if a == [] {
      assert a + b == b;
    } else {
      assert (a + b)[0] == a[0] && (a + b)[1..] == a[1..] + b;
      MovesAppend(side, a[1..], b);
    }
  }

  /** One reader event at one end. */
  lemma ReaderMove(s: System, side: Side, e: Event)
    requires !s.At(side).out.readEof && (e.ReaderEof? || e.ReaderError? || (e.ReaderChunk? && e.chunk != []))
    ensures MayMove(s, Move(side, e))
    ensures var o := s.At(side).out;
            Moved(s, Move(side, e)) ==
            s.Set(side, s.At(side).(out := if e.ReaderChunk? then ReadChunk(o, e.chunk)
                  else if e.ReaderEof? then o.(readEof := true)
                  else o.(readEof := true, readError := true)))
  {
    hide ReadChunk, TransferStep, TeardownStep;
  }

  lemma {:induction false} ReadsRun(s: System, side: Side, results: seq<HostRead>)
    requires !s.At(side).out.readEof
    ensures Run(s, MovesOf(side, ReaderEvents(results))) ==
            Some(s.Set(side, s.At(side).(out := AfterReads(s.At(side).out, results))))
    decreases |results|
  {
    hide MayMove, Moved, ReadChunk;
    if results == [] {
      assert s.Set(side, s.At(side)) == s;
    } else {
      var e := ReaderEvents(results)[0];
      var m := Move(side, e);
      ReaderMove(s, side, e);
      RunOne(s, m);
      assert MovesOf(side, [e]) == [m];
      if e.ReaderChunk? {
        var more := ReaderEvents(results[1..]);
        assert ReaderEvents(results)[1..] == more;
        assert MovesOf(side, ReaderEvents(results)) == [m] + MovesOf(side, more);
        RunAppend(s, [m], MovesOf(side, more));
        ReadChunkEof(s.At(side).out, e.chunk);
        ReadsRun(Moved(s, m), side, results[1..]);
      } else {
        assert ReaderEvents(results) == [e];
      }
    }
  }

  lemma ReadChunkEof(o: Out, chunk: bytes)
    ensures ReadChunk(o, chunk).readEof == o.readEof
  {
  }

  lemma TransferMove(s: System, side: Side, io: IO)
    requires !s.At(side).mid
    ensures MayMove(s, Move(side, Transfer(io)))
    ensures Moved(s, Move(side, Transfer(io))) == s.Set(side, TransferStep(KindOf(side), s.At(side), io))
  {
    hide TransferStep;
  }

  lemma TeardownMove(s: System, side: Side)
    requires s.At(side).mid
    ensures MayMove(s, Move(side, Teardown))
    ensures Moved(s, Move(side, Teardown)) == s.Set(side, TeardownStep(s.At(side)))
  {
    hide TeardownStep;
  }

  /** The second part of a call: the reads that come in between, and the teardown. */
  lemma RestIsRun(s: System, side: Side, between: seq<HostRead>)
    requires s.At(side).mid
    ensures var d := s.At(side);
            Run(s, MovesOf(side, (if d.out.readEof then [] else ReaderEvents(between)) + [Teardown])) ==
            Some(s.Set(side, TeardownStep(d.(out := AfterReads(d.out, between)))))
  {
    hide TeardownStep, MayMove, Moved, AfterReads, ReaderEvents, Run, MovesOf;
    var d := s.At(side);
    var more := if d.out.readEof then [] else ReaderEvents(between);
    ReadsOrNone(s, side, between);
    var s' := s.Set(side, d.(out := AfterReads(d.out, between)));
    TeardownMove(s', side);
    RunOne(s', Move(side, Teardown));
    MovesOne(side, Teardown);
    MovesAppend(side, more, [Teardown]);
    RunAppend(s, MovesOf(side, more), [Move(side, Teardown)]);
  }

  /** A call of service at one end of a tunnel, with any reads of the other thread in between, is a run. */
  lemma ServiceIsRun(s: System, side: Side, io: IO, between: seq<HostRead>)
    requires !s.At(side).mid
    ensures var c := s.At(side);
            Run(s, MovesOf(side, ServiceEvents(KindOf(side), c, io, between)))
            == Some(s.Set(side, Serviced(KindOf(side), c, io, between)))
  {
    hide TransferStep, TeardownStep, MayMove, Moved, AfterReads, ReaderEvents, Run, MovesOf;
    var t := Move(side, Transfer(io));
    TransferMove(s, side, io);
    RunOne(s, t);
    MovesOne(side, Transfer(io));
    var d := TransferStep(KindOf(side), s.At(side), io);
    if d.mid {
      var rest := (if d.out.readEof then [] else ReaderEvents(between)) + [Teardown];
      RestIsRun(s.Set(side, d), side, between);
      MovesAppend(side, [Transfer(io)], rest);
      RunAppend(s, [t], MovesOf(side, rest));
    } else {
      assert [Transfer(io)] + [] == [Transfer(io)];
    }
  }

  lemma MovesOne(side: Side, e: Event)
    ensures MovesOf(side, [e]) == [Move(side, e)]
  {
    assert [e][1..] == [] && MovesOf(side, []) == [];
  }

  lemma ReadsOrNone(s: System, side: Side, between: seq<HostRead>)
    ensures var d := s.At(side);
            Run(s, MovesOf(side, if d.out.readEof then [] else ReaderEvents(between))) ==
            Some(s.Set(side, d.(out := AfterReads(d.out, between))))
  {
    var d := s.At(side);
    if d.out.readEof {
      assert MovesOf(side, []) == [] && Run(s, []) == Some(s) && s.Set(side, d) == s;
    } else {
      ReadsRun(s, side, between);
    }
  }
}
