/** The one-shot rendezvous of a server and the WireGuard handshake of a client, over the same clock and relay. */
module Connect {
  import opened Core
  import opened Derp
  import opened Retry

  // rendezvous_server_once.

  /** The reception admits its sender: a valid ping from an allowed key. */
  predicate Admits(r: Reception, allow: Key32 -> bool) {
    && PacketOf(r).Some?
    && AdmitsPacket(PacketOf(r).value.0, PacketOf(r).value.1, allow)
  }

  predicate AdmitsPacket(source: Key32, packet: bytes, allow: Key32 -> bool) {
    IsMeow(packet) && !IsMeowed(packet) && ParseMeowPing(packet).Some? && allow(source)
  }

  ghost predicate NoneAdmits(used: seq<Reception>, allow: Key32 -> bool) {
    forall i | 0 <= i < |used| :: !Admits(used[i], allow) && !Fails(used[i])
  }

  /** `Nobody` is the source's empty result. */
  datatype Served = Peer(node: Key32, disco: Key32) | Nobody | Broke | Waiting | BadTimeout

  /** The outcome after the receptions `used` and the sends `attempts`. */
  ghost predicate Serves(r: Served, used: seq<Reception>, attempts: seq<Attempt>, allow: Key32 -> bool) {
    var front := if used == [] then [] else used[..|used| - 1];
    && NoneAdmits(front, allow)
    && match r
       case Peer(node, disco) =>
         && used != [] && Admits(used[|used| - 1], allow)
         && PacketOf(used[|used| - 1]).value.0 == node
         && ParseMeowPing(PacketOf(used[|used| - 1]).value.1).value.1 == disco
         && |attempts| == 1 && attempts[0].destination == node && attempts[0].packet == EncodeMeowed()
       case Nobody => NoneAdmits(used, allow) && attempts == []
       case Waiting => NoneAdmits(used, allow) && attempts == []
       case BadTimeout => used == [] && attempts == []
       case Broke =>
         && used != []
         && if Admits(used[|used| - 1], allow)
            then |attempts| == 1 && attempts[0].destination == PacketOf(used[|used| - 1]).value.0
            else attempts == [] && Fails(used[|used| - 1])
  }

  lemma ServesAfter(r: Receipt, consumed: seq<Reception>, earlier: seq<Reception>, allow: Key32 -> bool)
    requires ReceiptAfter(r, consumed) && NoneAdmits(earlier, allow)
    ensures var used := earlier + consumed;
            && NoneAdmits(if used == [] then [] else used[..|used| - 1], allow)
            && (r.Got? ==> used != [] && PacketOf(used[|used| - 1]) == Some((r.source, r.packet)))
            && (r == Threw ==> Serves(Broke, used, [], allow))
            && (r != Threw && (!r.Got? || !AdmitsPacket(r.source, r.packet, allow)) ==> NoneAdmits(used, allow))
  {
    hide ParseRecvPacket, IsMeowed, IsMeow, ParseMeowPing;
    if consumed != [] {
      var front, last := consumed[..|consumed| - 1], consumed[|consumed| - 1];
      assert forall i | 0 <= i < |front| :: Control(front[i]);
      assert NoneAdmits(earlier + front, allow);
      assert (earlier + consumed)[..|earlier + consumed| - 1] == earlier + front;
      assert earlier + consumed == (earlier + front) + [last];
    } else {
      assert earlier + consumed == earlier;
    }
  }

  /** Waits for one packet and answers it if it is an admissible ping; None is another round. The wait is cut off to
      whole milliseconds. */
  method ServeOne(t: Transport, now: int, deadline: int, allow: Key32 -> bool, ghost used: seq<Reception>)
    returns (r: Option<Served>, ghost used': seq<Reception>, ghost attempts: seq<Attempt>)
    requires NoneAdmits(used, allow) && now < deadline
    modifies t`clock, t`now, t`inbox, t`pongs, t`sent
    ensures used + old(t.inbox) == used' + t.inbox && t.sent == old(t.sent) + attempts
    ensures used <= used' && t.pongs == old(t.pongs) + PongsFor(used'[|used|..])
    ensures Rest(t.clock, old(t.clock)) && (r.None? ==> |t.clock| < |old(t.clock)|)
    ensures r.None? ==> NoneAdmits(used', allow) && attempts == []
    ensures r.Some? ==> Serves(r.value, used', attempts, allow) && r.value != Served.BadTimeout
    ensures r == Some(Waiting) ==> t.clock == [] || t.inbox == []
    ensures attempts != [] ==> (r == Some(Broke) <==> t.sendFails(|old(t.sent)|))
    ensures r == Some(Nobody) ==>
              || (used' != [] && used'[|used'| - 1] == Nothing)
              || (old(t.clock) != [] && t.now + 1_000_000 > old(t.clock)[0] + (deadline - now))
  {
    hide PongsFor, ReceiptAfter, IsMeow, IsMeowed, ParseMeowPing, EncodeMeowed, PacketOf, NoneAdmits, Remaining;
    var incoming, consumed := ReceivePacketFor(t, Remaining(now, deadline));
    ServesAfter(incoming, consumed, used, allow);
    if NoneAdmits(used + consumed, allow) {
      ServesNobody(used + consumed, allow);
    }
    AppendAssociative(used, consumed, t.inbox);
    used', attempts := used + consumed, [];
    assert used'[|used|..] == consumed;
    match incoming {
      case Running => return Some(Waiting), used', attempts;
      case Threw => return Some(Broke), used', attempts;
      case TimeUp => return Some(Nobody), used', attempts;
      case Invalid => return None, used', attempts;
      case Got(source, packet) =>
        if IsMeow(packet) && !IsMeowed(packet) && ParseMeowPing(packet).Some? && allow(source) {
          var ok := t.SendPacket(source, EncodeMeowed());
          attempts := [Attempt(t.now, source, EncodeMeowed())];
          return Some(if ok then Peer(source, ParseMeowPing(packet).value.1) else Broke), used', attempts;
        }
        return None, used', attempts;
    }
  }

  lemma ServesNobody(used: seq<Reception>, allow: Key32 -> bool)
    requires NoneAdmits(used, allow)
    ensures Serves(Nobody, used, [], allow) && Serves(Waiting, used, [], allow)
    ensures used == [] ==> Serves(Served.BadTimeout, used, [], allow)
  {
  }

  /** Answers the first admissible ping with one acknowledgment, and nothing else at all; gives up when nothing came or
      at the deadline, which it may miss by less than a millisecond. */
  method RendezvousServerOnce(t: Transport, timeout: int, allow: Key32 -> bool)
    returns (r: Served, ghost used: seq<Reception>, ghost attempts: seq<Attempt>)
    modifies t`clock, t`now, t`inbox, t`pongs, t`sent
    ensures old(t.inbox) == used + t.inbox && t.sent == old(t.sent) + attempts
    ensures t.pongs == old(t.pongs) + PongsFor(used)
    ensures Serves(r, used, attempts, allow)
    ensures r == Served.BadTimeout <==> timeout < 0
    ensures r == Waiting ==> t.clock == [] || t.inbox == []
    ensures attempts != [] ==> (r == Broke <==> t.sendFails(|old(t.sent)|))
    ensures r == Nobody && Steady(old(t.clock)) ==>
              || (used != [] && used[|used| - 1] == Nothing)
              || (old(t.clock) != [] && t.now + 1_000_000 > old(t.clock)[0] + timeout * 1_000_000)
  {
    NothingReceived();
    hide PongsFor, Serves, PacketOf, NoneAdmits, Steady, Rest, Remaining;
    used, attempts := [], [];
    NoneYetAdmits(allow);
    ServesNobody(used, allow);
    if timeout < 0 {
      return Served.BadTimeout, used, attempts;
    }
    var began := t.Now();
    if began.None? {
      return Waiting, used, attempts;
    }
    var deadline := began.value + timeout * MILLISECOND;
    RestAll(old(t.clock));
    RestNow(began.value, t.clock, old(t.clock));
    while true
      invariant old(t.inbox) == used + t.inbox && t.sent == old(t.sent) && attempts == []
      invariant t.pongs == old(t.pongs) + PongsFor(used)
      invariant NoneAdmits(used, allow) && Rest(t.clock, old(t.clock))
      decreases |t.clock|
    {
      ServesNobody(used, allow);
      var now := t.Now();
      if now.None? {
        return Waiting, used, attempts;
      }
      if Remaining(now.value, deadline) == 0 {
        return Nobody, used, attempts;
      }
      RestNow(now.value, t.clock, old(t.clock));
      ghost var earlier, readings := used, t.clock;
      var served;
      served, used, attempts := ServeOne(t, now.value, deadline, allow, used);
      PongsAppend(earlier, used[|earlier|..]);
      assert earlier + used[|earlier|..] == used;
      RestOfRest(t.clock, readings, old(t.clock));
      if served.Some? {
        return served.value, used, attempts;
      }
    }
  }

  lemma NoneYetAdmits(allow: Key32 -> bool)
    ensures NoneAdmits([], allow)
  {
  }

  // The WireGuard handshake.

  const RETRY: int := 5 * SECOND

  /** The reception is a packet from the peer that establishes the session. */
  predicate Establishes(r: Reception, peer: Key32) {
    PacketOf(r).Some? && PacketOf(r).value.0 == peer && r.result.established
  }

  ghost predicate NoneEstablishes(used: seq<Reception>, peer: Key32) {
    forall i | 0 <= i < |used| :: !Establishes(used[i], peer) && !Fails(used[i])
  }

  datatype Handled = NoFrame | Frame(plaintext: Option<bytes>) | Error | Stopped

  datatype Connected = Established | GaveUp | Failing | Pending | InvalidTimeout

  class WireGuardDerpPeer {
    const transport: Transport
    const peer: Key32
    var established: bool

    constructor (transport: Transport, peer: Key32)
      ensures this.transport == transport && this.peer == peer && !established
    {
      this.transport, this.peer := transport, peer;
      established := false;
    }

    /** Handles at most one frame; only packets of the peer reach the engine. */
    method ReceiveOneFor() returns (r: Handled, ghost used: seq<Reception>)
      modifies transport`inbox, transport`pongs, transport`sent, this`established
      ensures old(transport.inbox) == used + transport.inbox && |used| <= 1
      ensures established ==
              (old(established)
               || (used != [] && PacketOf(used[0]).Some? && PacketOf(used[0]).value.0 == peer
                   && used[0].result.established))
      ensures r != Error ==> GoesOn(used) && AllSent(transport.sent, |old(transport.sent)|, transport.sendFails)
      ensures match r
              case Stopped => used == [] && transport.inbox == []
              case NoFrame => used == [Nothing]
              case Error =>
                && used != []
                && (Fails(used[0])
                    || (|transport.sent| > |old(transport.sent)| && transport.sendFails(|old(transport.sent)|)))
              case Frame(plaintext) =>
                && used != [] && used[0].Arrived? && !Fails(used[0])
                && (|transport.sent| > |old(transport.sent)| ==> !transport.sendFails(|old(transport.sent)|))
                && plaintext == (if PacketOf(used[0]).Some? && PacketOf(used[0]).value.0 == peer
                                 then used[0].result.plaintext else None)
      ensures var mine := used != [] && PacketOf(used[0]).Some? && PacketOf(used[0]).value.0 == peer
                          && used[0].result.outbound != [];
              transport.sent == old(transport.sent)
              + if mine then [Attempt(transport.now, peer, used[0].result.outbound)] else []
      ensures transport.pongs == old(transport.pongs) + PongsFor(used)
    {
      hide ParseRecvPacket;
      NothingReceived();
      used := [];
      var got := transport.Receive();
      if got.None? {
        return Stopped, used;
      }
      PongsExactly([], got.value);
      assert [] + [got.value] == [got.value];
      used := [got.value];
      match got.value {
        case Nothing => return NoFrame, used;
        case Broken => return Error, used;
        case Arrived(frame, result) =>
          if frame.kind != RECV_PACKET {
            if frame.kind == PING && |frame.payload| == 8 {
              transport.pongs := transport.pongs + [frame.payload];
            }
            return Frame(None), used;
          }
          var parsed := ParseRecvPacket(frame.payload);
          if parsed.None? {
            return Error, used;
          }
          if parsed.value.0 != peer {
            return Frame(None), used;
          }
          established := established || result.established;
          if |result.outbound| > 0 {
            var ok := transport.SendPacket(peer, result.outbound);
            if !ok {
              return Error, used;
            }
          }
          return Frame(result.plaintext), used;
      }
    }

    /** Sends an initiation when one is due. `initiate` is what the engine makes of the request, None when it throws. */
    method InitiateIfDue(
      next: int, initiate: nat -> Option<bytes>,
      ghost from: int, ghost deadline: int, ghost initiations: seq<Attempt>
    ) returns (ok: bool, next': int, ghost initiations': seq<Attempt>)
      requires transport.now < deadline && Initiating(initiations, transport.sent, peer, from, deadline, next)
      modifies transport`sent
      ensures Initiating(initiations', transport.sent, peer, from, deadline, next') && (ok ==> transport.now < next')
      ensures transport.now < next ==> ok && initiations' == initiations && transport.sent == old(transport.sent)
      ensures ok ==> AllSent(transport.sent, |old(transport.sent)|, transport.sendFails)
      ensures old(transport.sent) <= transport.sent && initiations <= initiations'
      ensures !ok ==>
                || (exists n :: initiate(n).None?)
                || (transport.sent != [] && transport.sendFails(|transport.sent| - 1))
      ensures ok && transport.now >= next ==>
                && initiate(|old(transport.sent)|).Some?
                && initiations' == initiations + [Attempt(transport.now, peer, initiate(|old(transport.sent)|).value)]
    {
      ok, next', initiations' := true, next, initiations;
      if transport.now >= next {
        var initiation := initiate(|transport.sent|);
        if initiation.None? {
          return false, next', initiations';
        }
        ghost var a := Attempt(transport.now, peer, initiation.value);
        InitiationSent(initiations, transport.sent, peer, from, deadline, next, a);
        ok := transport.SendPacket(peer, initiation.value);
        initiations' := initiations + [a];
        next' := transport.now + RETRY;
      }
    }

    /** One reception of the loop. */
    method Pump(ghost used: seq<Reception>) returns (r: Handled, ghost used': seq<Reception>)
      requires Scanned(used, peer, false) && GoesOn(used) && !established
      modifies transport`inbox, transport`pongs, transport`sent, this`established
      ensures used + old(transport.inbox) == used' + transport.inbox
      ensures used <= used' && transport.pongs == old(transport.pongs) + PongsFor(used'[|used|..])
      ensures Scanned(used', peer, established) && old(transport.sent) <= transport.sent
      ensures r == Error ==> Excused(used', transport.sent, transport.sendFails)
      ensures r != Error ==> GoesOn(used') && AllSent(transport.sent, |old(transport.sent)|, transport.sendFails)
      ensures r == Stopped ==> transport.inbox == []
    {
      hide PacketOf, PongsFor;
      ghost var consumed;
      r, consumed := ReceiveOneFor();
      OneMoreReception(used, consumed, peer);
      AppendAssociative(used, consumed, transport.inbox);
      used' := used + consumed;
      assert used'[|used|..] == consumed;
    }

    /** Initiations go out at least five seconds apart and only while no session is established; the call succeeds
        exactly on the first packet of the peer that establishes one. */
    method Connect(timeout: int, initiate: nat -> Option<bytes>)
      returns (r: Connected, ghost used: seq<Reception>, ghost initiations: seq<Attempt>)
      requires |transport.clock| >= 2 ==> transport.clock[0] <= transport.clock[1]
      modifies transport`clock, transport`now, transport`inbox, transport`pongs, transport`sent, this`established
      ensures old(transport.inbox) == used + transport.inbox && transport.pongs == old(transport.pongs) + PongsFor(used)
      ensures !old(established) ==> Scanned(used, peer, established)
      ensures r == Established ==> established
      ensures r == Pending ==> transport.clock == [] || transport.inbox == []
      ensures r == Failing ==> Excused(used, transport.sent, transport.sendFails) || exists n :: initiate(n).None?
      ensures r != Failing ==> GoesOn(used) && AllSent(transport.sent, |old(transport.sent)|, transport.sendFails)
      ensures r == GaveUp ==>
                && !established
                && old(transport.clock) != [] && transport.now >= old(transport.clock)[0] + timeout * MILLISECOND
      ensures r == InvalidTimeout <==> timeout <= 0
      ensures timeout <= 0 || old(established) ==>
                used == [] && initiations == [] && transport.sent == old(transport.sent)
      ensures timeout > 0 && old(established) ==> r == Established
      ensures timeout > 0 ==> |initiations| <= (timeout + 4999) / 5000
      ensures initiations != [] ==>
                && |old(transport.clock)| >= 2
                && Paced(initiations, old(transport.clock)[1], old(transport.clock)[0] + timeout * MILLISECOND, RETRY)
      ensures forall a | a in initiations :: a in transport.sent && a.destination == peer
      ensures timeout > 0 && r != Failing && !old(established) && |old(transport.clock)| >= 2 ==>
                var clock := old(transport.clock);
                AtOnce(clock[2..], clock[1], clock[0] + timeout * MILLISECOND, initiations)
    {
      used, initiations := [], [];
      NothingReceived();
      assert Scanned(used, peer, false);
      if timeout <= 0 {
        return InvalidTimeout, used, initiations;
      }
      if established {
        return Established, used, initiations;
      }
      var began := transport.Now();
      if began.None? {
        return Pending, used, initiations;
      }
      var deadline := began.value + timeout * MILLISECOND;
      var from := transport.Now();
      if from.None? {
        return Pending, used, initiations;
      }
      hide PongsFor, PacketOf, Scanned, Initiating, Paced;
      ghost var next;
      r, used, initiations, next := Handshake(from.value, deadline, initiate);
      InitiationBound(initiations, transport.sent, peer, from.value, deadline, next, timeout);
    }

    /** One round of the loop: the checks, an initiation if one is due, and one reception. */
    method Round(
      next: int, from: int, deadline: int, initiate: nat -> Option<bytes>,
      ghost used: seq<Reception>, ghost initiations: seq<Attempt>
    ) returns (r: Option<Connected>, next': int, ghost used': seq<Reception>, ghost initiations': seq<Attempt>)
      requires Scanned(used, peer, established) && GoesOn(used)
      requires Initiating(initiations, transport.sent, peer, from, deadline, next)
      modifies transport`clock, transport`now, transport`inbox, transport`pongs, transport`sent, this`established
      ensures used + old(transport.inbox) == used' + transport.inbox
      ensures used <= used' && transport.pongs == old(transport.pongs) + PongsFor(used'[|used|..])
      ensures Scanned(used', peer, established) && Initiating(initiations', transport.sent, peer, from, deadline, next')
      ensures old(transport.sent) <= transport.sent && initiations <= initiations'
      ensures r.None? ==> |transport.clock| < |old(transport.clock)|
      ensures r == Some(Established) ==> established
      ensures r != Some(InvalidTimeout) && (r == Some(GaveUp) ==> !established && transport.now >= deadline)
      ensures r == Some(Pending) ==> transport.clock == [] || transport.inbox == []
      ensures r == Some(Failing) ==>
                Excused(used', transport.sent, transport.sendFails) || exists n :: initiate(n).None?
      ensures r != Some(Failing) ==>
                GoesOn(used') && AllSent(transport.sent, |old(transport.sent)|, transport.sendFails)
      ensures r != Some(Failing) && !old(established) && next == from ==>
                AtOnce(old(transport.clock), from, deadline, initiations'[|initiations|..])
    {
      hide PongsFor, PacketOf, Paced, Establishes, Initiating, Scanned, NoneEstablishes, NextSend, GoesOn, AllSent;
      r, next', used', initiations' := None, next, used, initiations;
      NothingSent(transport.sent, transport.sendFails);
      NothingReceived();
      assert used'[|used|..] == [] && initiations'[|initiations|..] == [];
      var now := transport.Now();
      if now.None? {
        return Some(Pending), next', used', initiations';
      }
      if established {
        return Some(Established), next', used', initiations';
      }
      if now.value >= deadline {
        return Some(GaveUp), next', used', initiations';
      }
      var ok;
      ok, next', initiations' := InitiateIfDue(next, initiate, from, deadline, initiations);
      if !ok {
        return Some(Failing), next', used', initiations';
      }
      ghost var before := transport.sent;
      now := transport.Now();
      if now.None? {
        return Some(Pending), next', used', initiations';
      }
      var handled;
      handled, used' := Pump(used);
      InitiatingKept(initiations', before, transport.sent, peer, from, deadline, next');
      MoreSent(|old(transport.sent)|, before, transport.sent, transport.sendFails);
      if handled == Error {
        return Some(Failing), next', used', initiations';
      }
      if handled == Stopped {
        return Some(Pending), next', used', initiations';
      }
    }

    method Handshake(from: int, deadline: int, initiate: nat -> Option<bytes>)
      returns (r: Connected, ghost used: seq<Reception>, ghost initiations: seq<Attempt>, ghost due: int)
      requires !established
      modifies transport`clock, transport`now, transport`inbox, transport`pongs, transport`sent, this`established
      ensures old(transport.inbox) == used + transport.inbox && transport.pongs == old(transport.pongs) + PongsFor(used)
      ensures Scanned(used, peer, established)
      ensures r == Established ==> established
      ensures r != InvalidTimeout && (r == GaveUp ==> !established && transport.now >= deadline)
      ensures r == Pending ==> transport.clock == [] || transport.inbox == []
      ensures r == Failing ==> Excused(used, transport.sent, transport.sendFails) || exists n :: initiate(n).None?
      ensures Initiating(initiations, transport.sent, peer, from, deadline, due)
      ensures old(transport.sent) <= transport.sent
      ensures r != Failing ==> GoesOn(used) && AllSent(transport.sent, |old(transport.sent)|, transport.sendFails)
      ensures r != Failing ==> AtOnce(old(transport.clock), from, deadline, initiations)
    {
      hide PongsFor, PacketOf, Paced, Establishes, Initiating, Scanned, NoneEstablishes, NextSend, GoesOn, AllSent;
      hide Excused, AtOnce;
      used, initiations := [], [];
      NothingSent(transport.sent, transport.sendFails);
      NothingReceived();
      NothingYet(transport.sent, peer, from, deadline);
      var next := from;
      ghost var first := true;
      while true
        invariant old(transport.inbox) == used + transport.inbox
        invariant transport.pongs == old(transport.pongs) + PongsFor(used)
        invariant Scanned(used, peer, established) && GoesOn(used)
        invariant old(transport.sent) <= transport.sent
        invariant AllSent(transport.sent, |old(transport.sent)|, transport.sendFails)
        invariant Initiating(initiations, transport.sent, peer, from, deadline, next)
        invariant if first then
                    initiations == [] && next == from && !established && transport.clock == old(transport.clock)
                  else AtOnce(old(transport.clock), from, deadline, initiations)
        decreases |transport.clock|
      {
        ghost var before, earlier, sofar := transport.sent, used, initiations;
        var done;
        done, next, used, initiations := Round(next, from, deadline, initiate, used, initiations);
        due := next;
        PongsAppend(earlier, used[|earlier|..]);
        assert earlier + used[|earlier|..] == used;
        MoreSent(|old(transport.sent)|, before, transport.sent, transport.sendFails);
        if first {
          assert initiations[|sofar|..] == initiations;
        } else {
          AtOnceStays(old(transport.clock), from, deadline, sofar, initiations);
        }
        if done.Some? {
          return done.value, used, initiations, due;
        }
        first := false;
      }
    }
  }

  lemma AtOnceStays(clock: seq<int>, from: int, deadline: int, s: seq<Attempt>, s': seq<Attempt>)
    requires AtOnce(clock, from, deadline, s) && s <= s'
    ensures AtOnce(clock, from, deadline, s')
  {
  }

  /** The last reception does not end the call. */
  ghost predicate GoesOn(used: seq<Reception>) { used == [] || !Fails(used[|used| - 1]) }

  /** No send after the first `from` failed. */
  ghost predicate AllSent(sent: seq<Attempt>, from: nat, sendFails: nat -> bool) {
    forall k | from <= k < |sent| :: !sendFails(k)
  }

  lemma NothingSent(sent: seq<Attempt>, sendFails: nat -> bool)
    ensures AllSent(sent, |sent|, sendFails) && GoesOn([])
  {
  }

  lemma MoreSent(from: nat, before: seq<Attempt>, sent: seq<Attempt>, sendFails: nat -> bool)
    requires from <= |before| <= |sent| && AllSent(before, from, sendFails)
    ensures AllSent(sent, |before|, sendFails) ==> AllSent(sent, from, sendFails)
  {
  }

  /** A failure has a cause: a broken or malformed last reception, or a last send that failed. */
  ghost predicate Excused(used: seq<Reception>, sent: seq<Attempt>, sendFails: nat -> bool) {
    || (used != [] && Fails(used[|used| - 1]))
    || (sent != [] && sendFails(|sent| - 1))
  }

  /** The first initiation goes out with the first reading of the loop. */
  ghost predicate AtOnce(clock: seq<int>, from: int, deadline: int, initiations: seq<Attempt>) {
    clock != [] && from <= clock[0] < deadline ==> initiations != [] && initiations[0].at == clock[0]
  }

  lemma NothingYet(sent: seq<Attempt>, peer: Key32, from: int, deadline: int)
    ensures Scanned([], peer, false) && Initiating([], sent, peer, from, deadline, from)
  {
  }

  /** The session is established exactly by the last of the receptions. */
  ghost predicate Scanned(used: seq<Reception>, peer: Key32, established: bool) {
    && (used != [] ==> NoneEstablishes(used[..|used| - 1], peer))
    && established == (used != [] && Establishes(used[|used| - 1], peer))
  }

  /** The state of the handshake after its initiations. */
  ghost predicate Initiating(s: seq<Attempt>, sent: seq<Attempt>, peer: Key32, from: int, deadline: int, next: int) {
    && Paced(s, from, deadline, RETRY) && next == NextSend(s, from, RETRY)
    && forall a | a in s :: a in sent && a.destination == peer
  }

  lemma InitiationSent(
    s: seq<Attempt>, sent: seq<Attempt>, peer: Key32, from: int, deadline: int, next: int, a: Attempt)
    requires Initiating(s, sent, peer, from, deadline, next) && next <= a.at < deadline && a.destination == peer
    ensures Initiating(s + [a], sent + [a], peer, from, deadline, a.at + RETRY)
  {
    PacedNext(s, from, deadline, RETRY, a);
    hide Paced, NextSend;
  }

  lemma InitiatingKept(
    s: seq<Attempt>, sent: seq<Attempt>, sent': seq<Attempt>, peer: Key32, from: int, deadline: int, next: int)
    requires Initiating(s, sent, peer, from, deadline, next) && sent <= sent'
    ensures Initiating(s, sent', peer, from, deadline, next)
  {
    hide Paced, NextSend;
  }

  lemma InitiationBound(
    s: seq<Attempt>, sent: seq<Attempt>, peer: Key32, from: int, deadline: int, next: int, timeout: int
  )
    requires Initiating(s, sent, peer, from, deadline, next) && timeout > 0 && deadline <= from + timeout * MILLISECOND
    ensures |s| <= (timeout + 4999) / 5000 && Paced(s, from, deadline, RETRY)
    ensures forall a | a in s :: a in sent && a.destination == peer
  {
    if s != [] {
      PacedBound(s, from, from + timeout * MILLISECOND, RETRY);
      var q, e := (timeout + 4999) / 5000, (timeout + 4999) % 5000;
      assert timeout + 4999 == 5000 * q + e;
      DivUnique(timeout * MILLISECOND + RETRY - 1, RETRY, q, e * MILLISECOND + 999_999);
    }
  }

  lemma OneMoreReception(used: seq<Reception>, consumed: seq<Reception>, peer: Key32)
    requires Scanned(used, peer, false) && GoesOn(used) && |consumed| <= 1
    ensures Scanned(used + consumed, peer, consumed != [] && Establishes(consumed[0], peer))
    ensures GoesOn(consumed) ==> GoesOn(used + consumed)
    ensures !GoesOn(consumed) ==> Fails((used + consumed)[|used + consumed| - 1])
  {
    hide Establishes, Fails;
    assert NoneEstablishes(used, peer);
    if consumed == [] {
      assert used + consumed == used;
    } else {
      assert (used + consumed)[..|used|] == used;
    }
  }
}
