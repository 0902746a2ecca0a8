/** The retry loops of the rendezvous and of the WireGuard handshake, driven by a clock and a relay. */
module Retry {
  import opened Core
  import opened Derp
  import opened WireGuardEngine
  import opened Rendezvous

  const MILLISECOND: int := 1_000_000
  const SECOND: int := 1_000_000_000

  /** What one call of `receive_for` gives. `Broken` is a call that throws, or whose pong cannot be sent; `result` is
      what a WireGuard engine makes of the frame's packet. */
  datatype Reception = Nothing | Broken | Arrived(frame: DerpFrame, result: EngineResult)

  datatype Attempt = Attempt(at: int, destination: Key32, packet: bytes)

  /** A finite part of a run: the clock readings and receptions it sees. An operation that runs past their end reports
      that it is still running. */
  class Transport {
    var clock: seq<int>
    var inbox: seq<Reception>
    var sent: seq<Attempt>
    var now: int
    const sendFails: nat -> bool
    ghost var pongs: seq<bytes>

    constructor (clock: seq<int>, inbox: seq<Reception>, sendFails: nat -> bool)
      ensures this.clock == clock && this.inbox == inbox && this.sendFails == sendFails && sent == [] && pongs == []
    {
      this.clock, this.inbox, this.sendFails := clock, inbox, sendFails;
      now, sent, pongs := 0, [], [];
    }

    method Now() returns (t: Option<int>)
      modifies this`clock, this`now
      ensures t.None? ==> old(clock) == [] && clock == [] && now == old(now)
      ensures t.Some? ==> old(clock) == [t.value] + clock && now == t.value
    {
      if |clock| == 0 {
        return None;
      }
      t := Some(clock[0]);
      now := clock[0];
      clock := clock[1..];
    }

    method Receive() returns (r: Option<Reception>)
      modifies this`inbox
      ensures r.None? ==> old(inbox) == [] && inbox == []
      ensures r.Some? ==> old(inbox) == [r.value] + inbox
    {
      if |inbox| == 0 {
        return None;
      }
      r := Some(inbox[0]);
      inbox := inbox[1..];
    }

    method SendPacket(destination: Key32, packet: bytes) returns (ok: bool)
      modifies this`sent
      ensures sent == old(sent) + [Attempt(now, destination, packet)] && ok == !sendFails(|old(sent)|)
    {
      ok := !sendFails(|sent|);
      sent := sent + [Attempt(now, destination, packet)];
    }
  }

  /** Time left in whole milliseconds, rounded up to one as long as the deadline has not passed. */
  function Remaining(now: int, deadline: int): (ms: nat)
    ensures ms == 0 <==> now >= deadline
    ensures ms > 1 ==> now + ms * 1_000_000 <= deadline
    ensures ms > 0 ==> deadline < now + (ms + 1) * 1_000_000
  {
    if now >= deadline then 0 else if (deadline - now) / MILLISECOND == 0 then 1 else (deadline - now) / MILLISECOND
  }

  // Receiving one packet.

  /** The packet of a reception. */
  function PacketOf(r: Reception): Option<(Key32, bytes)> {
    if r.Arrived? && r.frame.kind == RECV_PACKET then ParseRecvPacket(r.frame.payload) else None
  }

  /** A frame that is not a packet: pings are answered, all others ignored. */
  predicate Control(r: Reception) { r.Arrived? && r.frame.kind != RECV_PACKET }

  predicate Malformed(r: Reception) { r.Arrived? && r.frame.kind == RECV_PACKET && PacketOf(r).None? }

  /** The receptions by their bytes: a packet frame of a key and up to 64 KiB, a malformed one, or another frame. */
  lemma ReceptionsExactly(x: Reception, key: Key32, packet: bytes)
    ensures PacketOf(x) == Some((key, packet)) <==>
            x.Arrived? && x.frame.kind == 5 && x.frame.payload == key + packet && |packet| <= 64 * 1024
    ensures Malformed(x) <==>
            x.Arrived? && x.frame.kind == 5 && !(32 <= |x.frame.payload| <= 32 + 64 * 1024)
    ensures Fails(x) <==>
            x.Broken? || (x.Arrived? && x.frame.kind == 5 && !(32 <= |x.frame.payload| <= 32 + 64 * 1024))
    ensures Control(x) <==> x.Arrived? && x.frame.kind != 5
  {
    if x.Arrived? {
      ReceivedExactly(x.frame.payload, key, packet);
    }
  }

  /** The transport throws, or the frame is malformed. */
  predicate Fails(r: Reception) { r == Broken || Malformed(r) }

  function PongsFor(used: seq<Reception>): seq<bytes>
    decreases |used|
  {
    if used == [] then []
    else
      PongsFor(used[..|used| - 1]) + PongFor(used[|used| - 1])
  }

  function PongFor(x: Reception): seq<bytes> {
    if x.Arrived? && x.frame.kind == PING && |x.frame.payload| == 8 then [x.frame.payload] else []
  }

  /** Pings of eight bytes are answered with their own bytes, in order. */
  lemma {:induction false} PongsExactly(used: seq<Reception>, x: Reception)
    ensures PongsFor(used + [x]) == PongsFor(used) +
            if x.Arrived? && x.frame.kind == 0x12 && |x.frame.payload| == 8 then [x.frame.payload] else []
    ensures PongsFor([]) == []
  {
    assert (used + [x])[..|used|] == used;
  }

  lemma {:induction false} PongsAppend(a: seq<Reception>, b: seq<Reception>)
    ensures PongsFor(a + b) == PongsFor(a) + PongsFor(b)
    decreases |b|
  {
    hide PongFor;
    if b == [] {
      assert a + b == a;
    } else {
      var front := b[..|b| - 1];
      assert (a + b)[..|a + b| - 1] == a + front;
      PongsAppend(a, front);
    }
  }

  /** How a receiver leaves its loop after the receptions `used`. */
  datatype Receipt = Got(source: Key32, packet: bytes) | TimeUp | Threw | Running | Invalid

  predicate AllControl(used: seq<Reception>) { forall i | 0 <= i < |used| :: Control(used[i]) }

  /** Which last reception leads to which receipt. */
  predicate Ends(r: Receipt, last: Reception) {
    match r
    case Got(source, packet) => PacketOf(last) == Some((source, packet))
    case TimeUp => last == Nothing || Control(last)
    case Threw => Fails(last)
    case Running => Control(last)
    case Invalid => false
  }

  predicate ReceiptAfter(r: Receipt, used: seq<Reception>) {
    if used == [] then r == TimeUp || r == Running || r == Invalid
    else AllControl(used[..|used| - 1]) && Ends(r, used[|used| - 1])
  }

  lemma OneMore(used: seq<Reception>, x: Reception)
    requires AllControl(used)
    ensures forall r | Ends(r, x) :: ReceiptAfter(r, used + [x])
    ensures Control(x) ==>
              AllControl(used + [x]) && ReceiptAfter(TimeUp, used + [x]) && ReceiptAfter(Running, used + [x])
    ensures PongsFor(used + [x]) == PongsFor(used) + PongFor(x)
  {
    assert (used + [x])[..|used|] == used;
  }

  lemma NothingReceived()
    ensures PongsFor([]) == [] && AllControl([])
    ensures ReceiptAfter(TimeUp, []) && ReceiptAfter(Running, []) && ReceiptAfter(Invalid, [])
  {
  }

  /** A clock that never goes back. */
  ghost predicate Steady(clock: seq<int>) { forall i, j | 0 <= i < j < |clock| :: clock[i] <= clock[j] }

  /** The readings that are left. */
  ghost predicate Rest(clock: seq<int>, was: seq<int>) { |clock| <= |was| && clock == was[|was| - |clock|..] }

  lemma RestAll(was: seq<int>)
    ensures Rest(was, was)
  {
  }

  lemma RestNow(t: int, clock: seq<int>, was: seq<int>)
    requires Rest([t] + clock, was)
    ensures Rest(clock, was)
    ensures Steady(was) && clock != [] ==> t <= clock[0]
  {
    assert was[|was| - |clock|..] == ([t] + clock)[1..];
    assert clock != [] ==> was[|was| - |clock| - 1] == t && was[|was| - |clock|] == clock[0];
  }

  lemma RestOfRest(a: seq<int>, b: seq<int>, was: seq<int>)
    requires Rest(a, b) && Rest(b, was)
    ensures Rest(a, was)
  {
  }

  /** Each of the receptions was waited for when the clock, read just before, had not reached the deadline. */
  ghost predicate InTime(clock: seq<int>, n: nat, timeout: int) {
    n > 0 ==> n < |clock| && forall i | 1 <= i <= n :: clock[i] < clock[0] + timeout * 1_000_000
  }

  method ReceivePacketFor(t: Transport, timeout: int) returns (r: Receipt, ghost used: seq<Reception>)
    modifies t`clock, t`now, t`inbox, t`pongs
    ensures old(t.inbox) == used + t.inbox && t.pongs == old(t.pongs) + PongsFor(used)
    ensures ReceiptAfter(r, used)
    ensures Rest(t.clock, old(t.clock)) && (r != Running && r != Invalid ==> |t.clock| < |old(t.clock)|)
    ensures InTime(old(t.clock), |used|, timeout)
    ensures r == Invalid <==> timeout < 0
    ensures r == Running ==> t.clock == [] || t.inbox == []
    ensures r == TimeUp ==>
              || (used != [] && used[|used| - 1] == Nothing)
              || (old(t.clock) != [] && t.now >= old(t.clock)[0] + timeout * MILLISECOND)
  {
    hide ParseRecvPacket, PongsFor, AllControl, ReceiptAfter, PongFor, Ends, Control, Remaining;
    used := [];
    NothingReceived();
    if timeout < 0 {
      return Invalid, used;
    }
    var began := t.Now();
    if began.None? {
      return Running, used;
    }
    var deadline := began.value + timeout * MILLISECOND;
    while true
      invariant old(t.inbox) == used + t.inbox && t.pongs == old(t.pongs) + PongsFor(used)
      invariant AllControl(used) && ReceiptAfter(TimeUp, used) && ReceiptAfter(Running, used)
      invariant |t.clock| == |old(t.clock)| - 1 - |used| && Rest(t.clock, old(t.clock))
      invariant InTime(old(t.clock), |used|, timeout)
      decreases |t.inbox|
    {
      var now := t.Now();
      if now.None? {
        return Running, used;
      }
      if Remaining(now.value, deadline) == 0 {
        return TimeUp, used;
      }
      var got := t.Receive();
      if got.None? {
        return Running, used;
      }
      OneMore(used, got.value);
      AppendAssociative(used, [got.value], t.inbox);
      used := used + [got.value];
      var done := Dispatch(t, got.value);
      if done.Some? {
        return done.value, used;
      }
    }
  }

  /** What one reception leads to; None is another round. */
  method Dispatch(t: Transport, x: Reception) returns (r: Option<Receipt>)
    modifies t`pongs
    ensures t.pongs == old(t.pongs) + PongFor(x)
    ensures r.None? ==> Control(x)
    ensures r.Some? ==> Ends(r.value, x) && r.value != Running && r.value != Invalid
    ensures r == Some(TimeUp) ==> x == Nothing
  {
    hide ParseRecvPacket;
    match x {
      case Nothing => return Some(TimeUp);
      case Broken => return Some(Threw);
      case Arrived(frame, _) =>
        if frame.kind == PING {
          if |frame.payload| == 8 {
            t.pongs := t.pongs + [frame.payload];
          }
        } else if frame.kind == RECV_PACKET {
          var parsed := ParseRecvPacket(frame.payload);
          if parsed.None? {
            return Some(Threw);
          }
          return Some(Got(parsed.value.0, parsed.value.1));
        }
        return None;
    }
  }

  // Pacing.

  ghost predicate AllOf(s: seq<Attempt>, destination: Key32, packet: bytes) {
    forall i | 0 <= i < |s| :: s[i].destination == destination && s[i].packet == packet
  }

  /** Attempts at least `gap` apart, all of them in the given window. */
  ghost predicate Paced(s: seq<Attempt>, from: int, deadline: int, gap: int) {
    && (forall i | 0 <= i < |s| :: from <= s[i].at < deadline)
    && (forall i | 1 <= i < |s| :: s[i - 1].at + gap <= s[i].at)
  }

  /** No more attempts than the window has gaps, rounded up. */
  lemma PacedBound(s: seq<Attempt>, from: int, deadline: int, gap: int)
    requires gap > 0 && from < deadline && Paced(s, from, deadline, gap)
    ensures |s| <= (deadline - from + gap - 1) / gap
  {
    if s != [] {
      PacedFrom(s, from, deadline, gap, |s| - 1);
      DivAtLeast(deadline - from - 1 + gap, gap, |s|);
    }
  }

  lemma DivAtLeast(v: int, k: int, q: int)
    requires k > 0 && q * k <= v
    ensures q <= v / k
  {
    assert v == k * (v / k) + v % k;
    if v / k < q {
      MulAtLeast(k, q - v / k);
      assert false;
    }
  }

  lemma {:induction false} PacedFrom(s: seq<Attempt>, from: int, deadline: int, gap: int, i: nat)
    requires Paced(s, from, deadline, gap) && i < |s|
    ensures from + i * gap <= s[i].at
  {
    if i > 0 {
      PacedFrom(s, from, deadline, gap, i - 1);
      assert (i - 1) * gap + gap == i * gap;
    }
  }

  /** The earliest time of the next attempt. */
  ghost function NextSend(s: seq<Attempt>, from: int, gap: int): int {
    if s == [] then from else s[|s| - 1].at + gap
  }

  lemma PacedNext(s: seq<Attempt>, from: int, deadline: int, gap: int, a: Attempt)
    requires gap > 0 && Paced(s, from, deadline, gap)
    requires NextSend(s, from, gap) <= a.at < deadline
    ensures Paced(s + [a], from, deadline, gap) && NextSend(s + [a], from, gap) == a.at + gap
  {
  }

  // The client.

  predicate Acks(r: Reception, server: Key32) {
    PacketOf(r).Some? && Acknowledges(PacketOf(r).value.0, PacketOf(r).value.1, server)
  }

  /** The call goes on after all of these. */
  ghost predicate Passed(used: seq<Reception>, server: Key32) {
    forall i | 0 <= i < |used| :: !Acks(used[i], server) && !Fails(used[i])
  }

  /** `TimedOut` says whether the latest send failed, for the error message. */
  datatype Outcome = Returned(elapsed: int) | TimedOut(lastSendFailed: bool) | Failed | Unfinished | BadTimeout

  /** The receptions that lead to an outcome: it is `Returned` exactly on the first acknowledgment. */
  ghost predicate Concludes(r: Outcome, used: seq<Reception>, server: Key32) {
    && (used != [] ==> Passed(used[..|used| - 1], server))
    && match r
       case Returned(_) => used != [] && Acks(used[|used| - 1], server)
       case TimedOut(_) => Passed(used, server)
       case Failed => used != [] && Fails(used[|used| - 1])
       case Unfinished => true
       case BadTimeout => used == []
  }

  lemma AfterReceipt(r: Receipt, consumed: seq<Reception>, earlier: seq<Reception>, server: Key32)
    requires ReceiptAfter(r, consumed) && Passed(earlier, server)
    ensures var used := earlier + consumed;
            && Concludes(Unfinished, used, server)
            && (r == Threw ==> Concludes(Failed, used, server))
            && (if r.Got? && Acknowledges(r.source, r.packet, server)
                then forall e :: Concludes(Returned(e), used, server)
                else r == Threw || Passed(used, server))
  {
    hide ParseRecvPacket, IsMeowed;
    if consumed != [] {
      var front := consumed[..|consumed| - 1];
      assert forall i | 0 <= i < |front| :: Control(front[i]);
      assert Passed(earlier + front, server);
      assert (earlier + consumed)[..|earlier + consumed| - 1] == earlier + front;
      assert earlier + consumed == (earlier + front) + [consumed[|consumed| - 1]];
    } else {
      assert earlier + consumed == earlier;
    }
  }

  lemma NoneYet(server: Key32)
    ensures Passed([], server)
  {
  }

  lemma PassedConcludes(used: seq<Reception>, server: Key32, failed: bool)
    requires Passed(used, server)
    ensures Concludes(Unfinished, used, server) && Concludes(TimedOut(failed), used, server)
    ensures used == [] ==> Concludes(BadTimeout, used, server)
  {
  }

  /** What is sent, from when and until when. */
  datatype Schedule = Schedule(destination: Key32, packet: bytes, started: int, deadline: int)

  /** The state of a paced sender after its attempts: when the next one is due and whether the latest failed. */
  ghost predicate Sending(
    s: Schedule, sent: seq<Attempt>, sendFails: nat -> bool,
    base: seq<Attempt>, attempts: seq<Attempt>, next: int, failed: bool
  ) {
    && s.started < s.deadline
    && sent == base + attempts
    && AllOf(attempts, s.destination, s.packet) && Paced(attempts, s.started, s.deadline, SECOND)
    && next == NextSend(attempts, s.started, SECOND)
    && failed == (attempts != [] && sendFails(|sent| - 1))
  }

  /** Sends a ping when one is due. */
  method SendIfDue(
    t: Transport, s: Schedule, next: int, failed: bool, ghost base: seq<Attempt>, ghost attempts: seq<Attempt>)
    returns (next': int, failed': bool, ghost attempts': seq<Attempt>)
    requires t.now < s.deadline && Sending(s, t.sent, t.sendFails, base, attempts, next, failed)
    modifies t`sent
    ensures Sending(s, t.sent, t.sendFails, base, attempts', next', failed')
    ensures attempts' == attempts + if t.now >= next then [Attempt(t.now, s.destination, s.packet)] else []
  {
    next', failed', attempts' := next, failed, attempts;
    if t.now >= next {
      ghost var a := Attempt(t.now, s.destination, s.packet);
      PacedNext(attempts, s.started, s.deadline, SECOND, a);
      AppendAssociative(base, attempts, [a]);
      var ok := t.SendPacket(s.destination, s.packet);
      failed' := !ok;
      next' := t.now + SECOND;
      attempts' := attempts + [a];
    }
  }

  /** Waits for one packet; None is another round. */
  method AwaitAck(t: Transport, s: Schedule, next: int, ghost used: seq<Reception>)
    returns (r: Option<Outcome>, ghost used': seq<Reception>)
    requires Passed(used, s.destination)
    modifies t`clock, t`now, t`inbox, t`pongs
    ensures used + old(t.inbox) == used' + t.inbox && |t.clock| <= |old(t.clock)|
    ensures used <= used' && t.pongs == old(t.pongs) + PongsFor(used'[|used|..])
    ensures r.None? ==> Passed(used', s.destination)
    ensures r.Some? ==> Concludes(r.value, used', s.destination) && !r.value.TimedOut? && r.value != BadTimeout
    ensures r.Some? && r.value.Returned? ==> r.value.elapsed == (t.now - s.started) / MILLISECOND
    ensures r == Some(Unfinished) ==> t.clock == [] || t.inbox == []
  {
    hide ReceiptAfter, Acknowledges, Concludes, Passed, PongsFor;
    PassedConcludes(used, s.destination, false);
    NothingReceived();
    used' := used;
    assert used'[|used|..] == [];
    var now := t.Now();
    if now.None? {
      return Some(Unfinished), used';
    }
    var wake := if next < s.deadline then next else s.deadline;
    var incoming, consumed := ReceivePacketFor(t, Wait(now.value, wake));
    AfterReceipt(incoming, consumed, used, s.destination);
    AppendAssociative(used, consumed, t.inbox);
    used' := used + consumed;
    assert used'[|used|..] == consumed;
    if incoming == Running {
      return Some(Unfinished), used';
    }
    if incoming == Threw {
      return Some(Failed), used';
    }
    if incoming.Got? && Acknowledges(incoming.source, incoming.packet, s.destination) {
      now := t.Now();
      if now.None? {
        return Some(Unfinished), used';
      }
      return Some(Returned((now.value - s.started) / MILLISECOND)), used';
    }
    return None, used';
  }

  /** The first ping goes out with the first reading of the loop. */
  ghost predicate FirstAtOnce(clock: seq<int>, timeout: int, attempts: seq<Attempt>) {
    |clock| >= 2 && clock[0] <= clock[1] < clock[0] + timeout * MILLISECOND ==>
      attempts != [] && attempts[0].at == clock[1]
  }

  /** At most one ping a second goes out before the deadline; the call returns exactly on the first acknowledgment from
      the server's key and reports a failure only on a malformed packet frame or a broken transport. */
  method RendezvousClient(t: Transport, node: Key32, disco: Key32, server: Key32, timeout: int)
    returns (r: Outcome, ghost used: seq<Reception>, ghost attempts: seq<Attempt>)
    modifies t`clock, t`now, t`inbox, t`pongs, t`sent
    ensures old(t.inbox) == used + t.inbox && t.sent == old(t.sent) + attempts
    ensures t.pongs == old(t.pongs) + PongsFor(used)
    ensures Concludes(r, used, server)
    ensures r == BadTimeout <==> timeout <= 0
    ensures timeout <= 0 || old(t.clock) == [] ==> attempts == [] && used == []
    ensures old(t.clock) != [] ==>
              && AllOf(attempts, server, EncodeMeowPing(node, disco))
              && Paced(attempts, old(t.clock)[0], old(t.clock)[0] + timeout * MILLISECOND, SECOND)
    ensures FirstAtOnce(old(t.clock), timeout, attempts)
    ensures timeout > 0 ==> |attempts| <= (timeout + 999) / 1000
    ensures r == Unfinished ==> t.clock == [] || t.inbox == []
    ensures r.Returned? ==> old(t.clock) != [] && r.elapsed == (t.now - old(t.clock)[0]) / MILLISECOND
    ensures r.TimedOut? ==>
              && old(t.clock) != [] && t.now >= old(t.clock)[0] + timeout * MILLISECOND
              && r.lastSendFailed == (attempts != [] && t.sendFails(|t.sent| - 1))
  {
    hide EncodeMeowPing, Concludes, Passed, PongsFor, Acks, Paced, NextSend, AllOf;
    used, attempts := [], [];
    NothingReceived();
    NoneYet(server);
    PassedConcludes(used, server, false);
    PacedNever(server, EncodeMeowPing(node, disco), if |t.clock| > 0 then t.clock[0] else 0, timeout);
    if timeout <= 0 {
      return BadTimeout, used, attempts;
    }
    var packet := EncodeMeowPing(node, disco);
    var began := t.Now();
    if began.None? {
      return Unfinished, used, attempts;
    }
    var s := Schedule(server, packet, began.value, began.value + timeout * MILLISECOND);
    var next, failed := s.started, false;
    PacedEmpty(server, packet, s.started, s.deadline, SECOND);
    ghost var base := t.sent;
    while true
      invariant old(t.inbox) == used + t.inbox && Passed(used, server) && t.pongs == old(t.pongs) + PongsFor(used)
      invariant Sending(s, t.sent, t.sendFails, base, attempts, next, failed)
      invariant
        || (attempts == [] && next == s.started && t.clock == old(t.clock)[1..])
        || FirstAtOnce(old(t.clock), timeout, attempts)
      decreases |t.clock|
    {
      AtMost(attempts, s, timeout);
      PassedConcludes(used, server, failed);
      var now := t.Now();
      if now.None? {
        return Unfinished, used, attempts;
      }
      if now.value >= s.deadline {
        return TimedOut(failed), used, attempts;
      }
      next, failed, attempts := SendIfDue(t, s, next, failed, base, attempts);
      AtMost(attempts, s, timeout);
      var done;
      ghost var earlier := used;
      done, used := AwaitAck(t, s, next, used);
      PongsAppend(earlier, used[|earlier|..]);
      assert earlier + used[|earlier|..] == used;
      if done.Some? {
        return done.value, used, attempts;
      }
    }
  }

  /** At most one ping a second. */
  lemma AtMost(attempts: seq<Attempt>, s: Schedule, timeout: int)
    requires timeout > 0 && s.deadline == s.started + timeout * MILLISECOND
    requires Paced(attempts, s.started, s.deadline, SECOND)
    ensures |attempts| <= (timeout + 999) / 1000
  {
    PacedBound(attempts, s.started, s.deadline, SECOND);
    var q, e := (timeout + 999) / 1000, (timeout + 999) % 1000;
    assert timeout + 999 == 1000 * q + e;
    DivUnique(timeout * MILLISECOND + SECOND - 1, SECOND, q, e * MILLISECOND + 999_999);
  }

  lemma PacedNever(destination: Key32, packet: bytes, from: int, timeout: int)
    ensures AllOf([], destination, packet) && Paced([], from, from + timeout * MILLISECOND, SECOND)
  {
  }

  lemma PacedEmpty(destination: Key32, packet: bytes, from: int, deadline: int, gap: int)
    ensures AllOf([], destination, packet) && Paced([], from, deadline, gap) && NextSend([], from, gap) == from
  {
  }

  /** Milliseconds from now to the wake-up time, cut off, but at least one. */
  function Wait(now: int, wake: int): (ms: nat)
    ensures ms >= 1 && wake < now + (ms + 1) * 1_000_000
    ensures ms > 1 ==> now + ms * 1_000_000 <= wake
  {
    if wake - now < MILLISECOND then 1 else (wake - now) / MILLISECOND
  }
}
