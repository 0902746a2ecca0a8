/** Reassembly of DERP frames from a byte stream cut into arbitrary chunks. */
module DerpStream {
  import opened Core
  import opened Endian
  import opened Derp

  // TooLong stands for the exception on a header that announces more than 10 MiB.
  datatype Taken = Frame(frame: DerpFrame, rest: bytes) | NeedMore | TooLong

  function Take(buffer: bytes): (t: Taken)
    ensures t.Frame? ==> |t.rest| < |buffer|
  {
    if |buffer| < 5 then NeedMore
    else
      var len := FromBE(buffer[1..5]);
      if len > MAX_FRAME then TooLong
      else if |buffer| < 5 + len then NeedMore
      else Frame(DerpFrame(buffer[0], buffer[5..5 + len]), buffer[5 + len..])
  }

  /** The frames that repeated taking yields, and what is left in the buffer. */
  function Frames(buffer: bytes): seq<DerpFrame>
    decreases |buffer|
  {
    match Take(buffer)
    case Frame(f, rest) => [f] + Frames(rest)
    case _ => []
  }

  function Leftover(buffer: bytes): bytes
    decreases |buffer|
  {
    match Take(buffer)
    case Frame(_, rest) => Leftover(rest)
    case _ => buffer
  }

  function WireAll(frames: seq<DerpFrame>): bytes {
    if frames == [] then [] else Wire(frames[0]) + WireAll(frames[1..])
  }

  lemma TakeWire(f: DerpFrame, rest: bytes)
    requires Fits(f)
    ensures Take(Wire(f) + rest) == Frame(f, rest)
  {
    WireHeader(f, rest);
  }

  /** A frame that was taken decodes on its own, and buffer is its encoding followed by the rest. */
  lemma TakenFrame(buffer: bytes)
    requires Take(buffer).Frame?
    ensures var t := Take(buffer);
            Fits(t.frame) && buffer == Wire(t.frame) + t.rest && DecodeFrame(Wire(t.frame)) == Some(t.frame)
  {
    var t := Take(buffer);
    var len := FromBE(buffer[1..5]);
    ToFromBE(buffer[1..5]);
    assert buffer == [buffer[0]] + buffer[1..5] + buffer[5..5 + len] + buffer[5 + len..];
    FrameRoundTrip(t.frame);
  }

  /** Every outcome of taking a frame: it is the first frame of the buffer, or the header announces more than 10 MiB, or
      the buffer is too short for either. */
  lemma TakeExactly(b: bytes, f: DerpFrame, rest: bytes)
    ensures Take(b) == Frame(f, rest) <==> b == Wire(f) + rest && |f.payload| <= 10 * 1024 * 1024
    ensures Take(b) == TooLong <==>
            |b| >= 5 && 0x100_0000 * b[1] as int + 0x1_0000 * b[2] as int + 0x100 * b[3] as int + b[4] as int
                        > 10 * 1024 * 1024
  {
    hide Wire;
    if b == Wire(f) + rest && |f.payload| <= 10 * 1024 * 1024 {
      TakeWire(f, rest);
    }
    if Take(b).Frame? {
      TakenFrame(b);
    }
    if |b| >= 5 {
      LengthIs(b[1..5]);
    }
  }

  /** Bytes that arrive later never change what an earlier attempt decided, except NeedMore. */
  lemma TakeExtends(buffer: bytes, more: bytes)
    ensures Take(buffer).Frame? ==> Take(buffer + more) == Frame(Take(buffer).frame, Take(buffer).rest + more)
    ensures Take(buffer).TooLong? ==> Take(buffer + more).TooLong?
  {
    if |buffer| >= 5 {
      assert (buffer + more)[1..5] == buffer[1..5];
      var len := FromBE(buffer[1..5]);
      if |buffer| >= 5 + len {
        assert (buffer + more)[5..5 + len] == buffer[5..5 + len];
        assert (buffer + more)[5 + len..] == buffer[5 + len..] + more;
      }
    }
  }

  /** Taking all frames early and the others when more bytes arrived is the same as taking them all at the end. */
  lemma {:induction false} TakeLater(buffer: bytes, more: bytes)
    ensures Frames(buffer + more) == Frames(buffer) + Frames(Leftover(buffer) + more)
    ensures Leftover(buffer + more) == Leftover(Leftover(buffer) + more)
    decreases |buffer|
  {
    hide Take;
    TakeExtends(buffer, more);
    match Take(buffer)
    case Frame(f, rest) =>
      TakeLater(rest, more);
      AppendAssociative([f], Frames(rest), Frames(Leftover(rest) + more));
    case _ =>
      assert [] + Frames(buffer + more) == Frames(buffer + more);
  }

  /** What a reader that drains after every chunk has produced, and what it still holds. */
  function Drained(held: bytes, chunks: seq<bytes>): (seq<DerpFrame>, bytes)
    decreases |chunks|
  {
    if chunks == [] then ([], held)
    else
      var now := held + chunks[0];
      var (later, left) := Drained(Leftover(now), chunks[1..]);
      (Frames(now) + later, left)
  }

  lemma {:induction false} ChunkingIrrelevant(held: bytes, chunks: seq<bytes>)
    requires Frames(held) == [] && Leftover(held) == held
    ensures Drained(held, chunks) == (Frames(held + Concat(chunks)), Leftover(held + Concat(chunks)))
    decreases |chunks|
  {
    hide Frames, Leftover;
    if chunks == [] {
      assert held + [] == held;
    } else {
      var now := held + chunks[0];
      LeftoverIsDone(now);
      ChunkingIrrelevant(Leftover(now), chunks[1..]);
      TakeLater(now, Concat(chunks[1..]));
      AppendAssociative(held, chunks[0], Concat(chunks[1..]));
    }
  }

  lemma {:induction false} LeftoverIsDone(buffer: bytes)
    ensures Frames(Leftover(buffer)) == [] && Leftover(Leftover(buffer)) == Leftover(buffer)
    decreases |buffer|
  {
    hide Take;
    if Take(buffer).Frame? {
      LeftoverIsDone(Take(buffer).rest);
    }
  }

  lemma {:induction false} FramesOfWire(frames: seq<DerpFrame>, tail: bytes)
    requires forall f | f in frames :: Fits(f)
    ensures Frames(WireAll(frames) + tail) == frames + Frames(tail)
    ensures Leftover(WireAll(frames) + tail) == Leftover(tail)
    decreases |frames|
  {
    hide Take, Wire, Fits;
    if frames == [] {
      assert [] + tail == tail && [] + Frames(tail) == Frames(tail);
    } else {
      var f, rest := frames[0], frames[1..];
      AppendAssociative(Wire(f), WireAll(rest), tail);
      TakeWire(f, WireAll(rest) + tail);
      FramesOfWire(rest, tail);
      AppendAssociative([f], rest, Frames(tail));
      assert frames == [f] + rest;
    }
  }

  /** A proper prefix of one more encoded frame yields nothing and stays in the buffer. */
  lemma PrefixWaits(f: DerpFrame, tail: bytes)
    requires Fits(f) && tail < Wire(f)
    ensures Frames(tail) == [] && Leftover(tail) == tail
  {
    WireHeader(f, []);
    assert Wire(f) + [] == Wire(f);
    if |tail| >= 5 {
      assert tail[1..5] == Wire(f)[1..5];
    }
  }

  /** Reassembly does not depend on the chunking: for every list of frames of up to 10 MiB, followed by part of one
      more frame, and every way the bytes are cut into chunks, exactly those frames come out, in order, and the part
      is kept. */
  lemma Reassembly(frames: seq<DerpFrame>, last: DerpFrame, tail: bytes, chunks: seq<bytes>)
    requires (forall f | f in frames :: Fits(f)) && Fits(last) && tail < Wire(last)
    requires Concat(chunks) == WireAll(frames) + tail
    ensures Drained([], chunks) == (frames, tail)
    ensures forall f | f in frames :: DecodeFrame(Wire(f)) == Some(f)
  {
    hide Wire, DecodeFrame;
    assert [] + Concat(chunks) == Concat(chunks);
    NothingTaken();
    ChunkingIrrelevant([], chunks);
    FramesOfWire(frames, tail);
    PrefixWaits(last, tail);
    assert frames + [] == frames;
    forall f | f in frames ensures DecodeFrame(Wire(f)) == Some(f) {
      FrameRoundTrip(f);
    }
  }

  lemma NothingTaken()
    ensures Frames([]) == [] && Leftover([]) == []
  {
  }

  // The receiving and sending ends of the connection.

  /** `late` is whether the clock has passed the deadline at that retry, if there is a deadline. */
  datatype Received = Data(chunk: bytes) | Again(late: bool) | Failed

  /** `Waiting`, like `Blocked`, is a call that is still waiting when the socket's events end. */
  datatype Progress = Bytes | Broken | Late | Waiting

  datatype FrameRead = Read(frame: DerpFrame) | Refused | Disconnected | Expired | Blocked

  /** The bytes that a series of receptions gives. */
  function Got(socket: seq<Received>): bytes {
    if socket == [] then [] else (if socket[0].Data? then socket[0].chunk else []) + Got(socket[1..])
  }

  predicate Breaks(r: Received) { r == Failed || r == Data([]) }

  /** The result of reading one frame when the buffer and the receptions together gave the bytes `all`, and `buffer` is
      left: no frame is left waiting, and none is read early. */
  predicate Reads(r: FrameRead, all: bytes, buffer: bytes, socket: seq<Received>, used: nat)
    requires used <= |socket|
  {
    match r
    case Read(frame) => Take(all) == Frame(frame, buffer)
    case Refused => Take(all) == TooLong && buffer == all
    case Disconnected => Take(all) == NeedMore && buffer == all && used < |socket| && Breaks(socket[used])
    case Expired => Take(all) == NeedMore && buffer == all
    case Blocked => Take(all) == NeedMore && buffer == all && used == |socket|
  }

  /** Whether sends that take at most the given amounts push n bytes out before one fails; None is a retry, 0 a closed
      or failed connection. */
  predicate CanSend(n: nat, sends: seq<Option<nat>>)
    decreases |sends|
  {
    n == 0
    || (sends != []
        && match sends[0]
           case None => CanSend(n, sends[1..])
           case Some(k) => k > 0 && CanSend(if k < n then n - k else 0, sends[1..]))
  }

  /** What the header announces. */
  function Announced(b: bytes): nat
    requires |b| >= 5
  {
    0x100_0000 * b[1] as int + 0x1_0000 * b[2] as int + 0x100 * b[3] as int + b[4] as int
  }

  /** The bytes hold neither a whole frame nor a header that is refused. */
  ghost predicate Incomplete(all: bytes) {
    |all| < 5 || (Announced(all) <= 10 * 1024 * 1024 && |all| < 5 + Announced(all))
  }

  /** The same on the bytes: a frame that is read is the first of all the bytes, and nothing is taken off before. */
  lemma ReadsExactly(r: FrameRead, all: bytes, buffer: bytes, socket: seq<Received>, used: nat)
    requires used <= |socket|
    ensures Reads(r, all, buffer, socket, used) <==>
            match r
            case Read(frame) => all == Wire(frame) + buffer && |frame.payload| <= 10 * 1024 * 1024
            case Refused => |all| >= 5 && Announced(all) > 10 * 1024 * 1024 && buffer == all
            case Disconnected =>
              && Incomplete(all) && buffer == all
              && used < |socket| && (socket[used] == Failed || socket[used] == Data([]))
            case Expired => Incomplete(all) && buffer == all
            case Blocked => Incomplete(all) && buffer == all && used == |socket|
  {
    IncompleteExactly(all);
    hide Take, Wire, Incomplete;
    TakeExactly(all, if r.Read? then r.frame else DerpFrame(0, []), buffer);
  }

  lemma IncompleteExactly(all: bytes)
    ensures Take(all) == NeedMore <==> Incomplete(all)
  {
    if |all| >= 5 {
      LengthIs(all[1..5]);
    }
  }

  /** The first n receptions are waited for in time: no retry passes the deadline, nor has it passed before the first
      reception or after bytes came. */
  predicate InTime(socket: seq<Received>, late: nat -> bool, n: nat) {
    && n <= |socket| && Again(true) !in socket[..n]
    && forall i | 0 <= i < n && (i == 0 || socket[i - 1].Data?) :: !late(i)
  }

  lemma InTimeNothing(socket: seq<Received>, late: nat -> bool)
    ensures InTime(socket, late, 0)
  {
  }

  lemma InTimeLess(socket: seq<Received>, late: nat -> bool, n: nat)
    requires InTime(socket, late, n)
    ensures n > 0 ==> InTime(socket, late, n - 1)
  {
    if n > 0 {
      assert socket[..n] == socket[..n - 1] + [socket[n - 1]];
    }
  }

  lemma InTimeMore(socket: seq<Received>, late: nat -> bool, used: nat, n: nat)
    requires InTime(socket, late, used) && used + n <= |socket| && !late(used)
    requires Again(true) !in socket[used..][..n] && forall i | 0 <= i < n - 1 :: socket[used..][i].Again?
    ensures InTime(socket, late, used + n)
  {
    assert socket[..used + n] == socket[..used] + socket[used..][..n];
    assert forall i | used <= i < used + n - 1 :: socket[i] == socket[used..][i - used];
  }

  /** How much the sends take, retries aside. */
  function TakenBy(sends: seq<Option<nat>>): nat {
    if sends == [] then 0 else (if sends[0].Some? then sends[0].value else 0) + TakenBy(sends[1..])
  }

  /** The first k sends take n bytes and none of them fails. */
  predicate Pushes(n: nat, sends: seq<Option<nat>>, k: nat) {
    k <= |sends| && Some(0) !in sends[..k] && TakenBy(sends[..k]) >= n
  }

  /** Everything is pushed out exactly if some sends take enough before one fails. */
  lemma {:induction false} CanSendExactly(n: nat, sends: seq<Option<nat>>)
    ensures CanSend(n, sends) <==> exists k :: Pushes(n, sends, k)
    decreases |sends|
  {
    hide Pushes;
    PushesNone(n, sends);
    if sends != [] {
      var m := if sends[0].None? then n else if sends[0].value < n then n - sends[0].value else 0;
      CanSendExactly(m, sends[1..]);
      forall k: nat ensures Pushes(n, sends, k + 1) <==> sends[0] != Some(0) && Pushes(m, sends[1..], k) {
        PushesMore(n, m, sends, k);
      }
      forall k: nat | k > 0 && Pushes(n, sends, k) ensures Pushes(m, sends[1..], k - 1) && sends[0] != Some(0) {
        assert Pushes(n, sends, (k - 1) + 1);
      }
    }
  }

  lemma PushesNone(n: nat, sends: seq<Option<nat>>)
    ensures Pushes(n, sends, 0) <==> n == 0
    ensures sends == [] ==> forall k | Pushes(n, sends, k) :: k == 0
  {
    assert TakenBy(sends[..0]) == 0;
  }

  lemma PushesMore(n: nat, m: nat, sends: seq<Option<nat>>, k: nat)
    requires sends != [] && m == if sends[0].None? then n else if sends[0].value < n then n - sends[0].value else 0
    ensures Pushes(n, sends, k + 1) <==> sends[0] != Some(0) && Pushes(m, sends[1..], k)
  {
    if k < |sends| {
      assert sends[..k + 1] == [sends[0]] + sends[1..][..k];
      assert sends[..k + 1][1..] == sends[1..][..k];
    }
  }

  lemma GotNothing(socket: seq<Received>)
    ensures Got(socket[..0]) == []
    ensures forall b: bytes :: b + [] == b
  {
  }

  lemma {:induction false} GotAppend(a: seq<Received>, b: seq<Received>)
    ensures Got(a + b) == Got(a) + Got(b)
  {
    if a == [] {
      assert a + b == b;
    } else {
      assert (a + b)[1..] == a[1..] + b;
      GotAppend(a[1..], b);
    }
  }

  lemma GotSnoc(a: seq<Received>, x: Received)
    ensures Got(a + [x]) == Got(a) + if x.Data? then x.chunk else []
  {
    GotAppend(a, [x]);
    assert [x][1..] == [];
  }

  lemma GotMore(base: bytes, socket: seq<Received>, used: nat, n: nat)
    requires used + n <= |socket|
    ensures base + Got(socket[..used + n]) == base + Got(socket[..used]) + Got(socket[used..][..n])
  {
    assert socket[..used] + socket[used..][..n] == socket[..used + n];
    GotAppend(socket[..used], socket[used..][..n]);
    AppendAssociative(base, Got(socket[..used]), Got(socket[used..][..n]));
  }

  lemma AfterNothing(base: bytes, socket: seq<Received>, used: nat, n: nat)
    requires used + n <= |socket| && Got(socket[used..][..n]) == []
    ensures base + Got(socket[..used + n]) == base + Got(socket[..used])
  {
    GotMore(base, socket, used, n);
  }

  /** `taken` are the frames handed out so far; `arrived` and `sent` are all bytes received and sent. */
  class DerpConnection {
    var receiveBuffer: bytes
    ghost var arrived: bytes
    ghost var taken: seq<DerpFrame>
    ghost var sent: bytes

    /** Whatever was received is the encoding of the frames handed out, followed by the buffer. */
    ghost predicate Valid()
      reads this
    {
      arrived == WireAll(taken) + receiveBuffer && forall f | f in taken :: Fits(f)
    }

    constructor ()
      ensures Valid() && receiveBuffer == [] && arrived == [] && taken == [] && sent == []
    {
      receiveBuffer, arrived, taken, sent := [], [], [], [];
    }

    method TakeBufferedFrame() returns (t: Taken)
      requires Valid()
      modifies this`receiveBuffer, this`taken
      ensures Valid() && t == Take(old(receiveBuffer))
      ensures receiveBuffer == if t.Frame? then t.rest else old(receiveBuffer)
      ensures taken == old(taken) + if t.Frame? then [t.frame] else []
    {
      if |receiveBuffer| < 5 {
        return NeedMore;
      }
      hide FromBE, Wire, WireAll, Fits;
      var len := Length(receiveBuffer[1], receiveBuffer[2], receiveBuffer[3], receiveBuffer[4]);
      LengthIs(receiveBuffer[1..5]);
      if len > MAX_FRAME {
        return TooLong;
      }
      var frameSize := 5 + len;
      if |receiveBuffer| < frameSize {
        return NeedMore;
      }
      t := Frame(DerpFrame(receiveBuffer[0], receiveBuffer[5..frameSize]), receiveBuffer[frameSize..]);
      TakenFrame(receiveBuffer);
      WireSnoc(taken, t.frame, t.rest);
      taken := taken + [t.frame];
      receiveBuffer := receiveBuffer[frameSize..];
    }

    /** Reads from the socket until it gives bytes; closing or an error throws, a retry after the deadline gives up. */
    method ReceiveSome(socket: seq<Received>, deadline: bool) returns (r: Progress, used: nat)
      requires Valid()
      modifies this`receiveBuffer, this`arrived
      ensures Valid() && used <= |socket|
      ensures receiveBuffer == old(receiveBuffer) + Got(socket[..used]) && arrived == old(arrived) + Got(socket[..used])
      ensures match r
              case Bytes => used > 0 && Got(socket[..used]) != [] && Got(socket[..used - 1]) == []
              case Broken =>
                && used < |socket| && (socket[used] == Failed || socket[used] == Data([]))
                && Got(socket[..used]) == []
              case Late => deadline && used > 0 && socket[used - 1] == Again(true) && Got(socket[..used]) == []
              case Waiting => used == |socket| && Got(socket[..used]) == []
      ensures deadline && r != Late ==> Again(true) !in socket[..used]
      ensures deadline && r == Late ==> Again(true) !in socket[..used - 1]
      ensures forall i | 0 <= i < (if r == Bytes then used - 1 else used) :: socket[i].Again?
      ensures r == Bytes ==> socket[used - 1].Data?
    {
      hide WireAll, Got, Valid;
      used := 0;
      GotNothing(socket);
      while used < |socket|
        invariant Valid() && used <= |socket| && Got(socket[..used]) == []
        invariant deadline ==> Again(true) !in socket[..used]
        invariant forall i | 0 <= i < used :: socket[i].Again?
        invariant receiveBuffer == old(receiveBuffer) && arrived == old(arrived)
      {
        GotSnoc(socket[..used], socket[used]);
        assert socket[..used + 1] == socket[..used] + [socket[used]];
        match socket[used] {
          case Data(chunk) =>
            if |chunk| == 0 {
              return Broken, used;
            }
            Append(chunk);
            return Bytes, used + 1;
          case Failed =>
            return Broken, used;
          case Again(late) =>
            used := used + 1;
            if deadline && late {
              return Late, used;
            }
        }
      }
      return Waiting, used;
    }

    method Append(chunk: bytes)
      requires Valid()
      modifies this`receiveBuffer, this`arrived
      ensures Valid() && receiveBuffer == old(receiveBuffer) + chunk && arrived == old(arrived) + chunk
    {
      hide WireAll;
      AppendAssociative(WireAll(taken), receiveBuffer, chunk);
      receiveBuffer := receiveBuffer + chunk;
      arrived := arrived + chunk;
    }

    /** One more wait for bytes after the first `used` receptions, which gave `base` and what `Got` says. */
    method ReceiveNext(
      socket: seq<Received>, start: nat, deadline: bool,
      ghost base: bytes, ghost earlier: bytes, ghost late: nat -> bool
    ) returns (p: Progress, used: nat)
      requires Valid() && start <= |socket|
      requires receiveBuffer == base + Got(socket[..start]) && arrived == earlier + Got(socket[..start])
      requires deadline ==> InTime(socket, late, start) && !late(start)
      modifies this`receiveBuffer, this`arrived
      ensures Valid() && start <= used <= |socket|
      ensures receiveBuffer == base + Got(socket[..used]) && arrived == earlier + Got(socket[..used])
      ensures p == Bytes ==>
                && used > start && socket[used - 1].Data?
                && base + Got(socket[..used - 1]) == old(receiveBuffer)
      ensures p != Bytes ==> receiveBuffer == old(receiveBuffer)
      ensures p == Broken ==> used < |socket| && Breaks(socket[used])
      ensures p == Late ==> deadline && used > start && socket[used - 1] == Again(true)
      ensures p == Waiting ==> used == |socket|
      ensures deadline ==> InTime(socket, late, if p == Late then used - 1 else used)
    {
      hide Got, Valid, InTime, WireAll;
      var n;
      p, n := ReceiveSome(socket[start..], deadline);
      GotMore(base, socket, start, n);
      GotMore(earlier, socket, start, n);
      used := start + n;
      if p == Bytes {
        AfterNothing(base, socket, start, n - 1);
      } else {
        AfterNothing(base, socket, start, n);
      }
      if deadline {
        InTimeMore(socket, late, start, if p == Late then n - 1 else n);
      }
    }

    /** Blocks until a whole frame has arrived: the next one, whatever the socket's chunks are. */
    method ReadFrame(socket: seq<Received>) returns (r: FrameRead, used: nat)
      requires Valid()
      modifies this`receiveBuffer, this`arrived, this`taken
      ensures Valid() && used <= |socket| && arrived == old(arrived) + Got(socket[..used])
      ensures taken == old(taken) + if r.Read? then [r.frame] else []
      ensures Reads(r, old(receiveBuffer) + Got(socket[..used]), receiveBuffer, socket, used)
      ensures r != Expired
      ensures used > 0 && (r.Read? || r == Refused) ==> Take(old(receiveBuffer) + Got(socket[..used - 1])) == NeedMore
    {
      hide Take, WireAll, Got, Fits, Valid, Breaks;
      used := 0;
      GotNothing(socket);
      while true
        invariant Valid() && used <= |socket| && taken == old(taken)
        invariant receiveBuffer == old(receiveBuffer) + Got(socket[..used])
        invariant arrived == old(arrived) + Got(socket[..used])
        invariant used > 0 ==> Take(old(receiveBuffer) + Got(socket[..used - 1])) == NeedMore
        decreases |socket| - used
      {
        var t := TakeBufferedFrame();
        if t.Frame? {
          return Read(t.frame), used;
        }
        if t.TooLong? {
          return Refused, used;
        }
        var p;
        p, used := ReceiveNext(socket, used, false, old(receiveBuffer), old(arrived), _ => false);
        if p != Bytes {
          return if p == Broken then Disconnected else Blocked, used;
        }
      }
    }

    /** The same with a deadline; `late(i)` is whether the clock has passed it before the i-th reception. The call gives
        up as soon as it sees that. */
    method ReadFrameFor(socket: seq<Received>, late: nat -> bool, timeout: int)
      returns (r: Option<FrameRead>, used: nat)
      requires Valid()
      modifies this`receiveBuffer, this`arrived, this`taken
      ensures Valid() && used <= |socket| && arrived == old(arrived) + Got(socket[..used])
      ensures r.None? <==> timeout < 0
      ensures r.None? ==> used == 0 && receiveBuffer == old(receiveBuffer)
      ensures taken == old(taken) + if r.Some? && r.value.Read? then [r.value.frame] else []
      ensures r.Some? ==> Reads(r.value, old(receiveBuffer) + Got(socket[..used]), receiveBuffer, socket, used)
      ensures r == Some(Expired) ==> late(used) || (used > 0 && socket[used - 1] == Again(true))
      ensures r.Some? && used > 0 && (r.value.Read? || r.value == Refused) ==>
                Take(old(receiveBuffer) + Got(socket[..used - 1])) == NeedMore
      ensures r.Some? ==> InTime(socket, late, if r.value == Expired && used > 0 then used - 1 else used)
    {
      hide Take, WireAll, Got, Fits, Valid, InTime, Breaks;
      used := 0;
      GotNothing(socket);
      InTimeNothing(socket, late);
      if timeout < 0 {
        return None, used;
      }
      while true
        invariant Valid() && used <= |socket| && taken == old(taken)
        invariant receiveBuffer == old(receiveBuffer) + Got(socket[..used])
        invariant arrived == old(arrived) + Got(socket[..used])
        invariant used > 0 ==> Take(old(receiveBuffer) + Got(socket[..used - 1])) == NeedMore
        invariant InTime(socket, late, used)
        decreases |socket| - used
      {
        var t := TakeBufferedFrame();
        if t.Frame? {
          return Some(Read(t.frame)), used;
        }
        if t.TooLong? {
          return Some(Refused), used;
        }
        if late(used) {
          InTimeLess(socket, late, used);
          return Some(Expired), used;
        }
        var p;
        p, used := ReceiveNext(socket, used, true, old(receiveBuffer), old(arrived), late);
        if p != Bytes {
          return Some(match p case Broken => Disconnected case Late => Expired case _ => Blocked), used;
        }
      }
    }

    /** Pushes all bytes through partial writes; `sends[i]` is what the socket does with the i-th attempt. */
    method SendAll(data: bytes, sends: seq<Option<nat>>) returns (ok: bool)
      modifies this`sent
      ensures old(sent) <= sent && sent[|old(sent)|..] <= data
      ensures ok ==> sent == old(sent) + data
      ensures ok <==> CanSend(|data|, sends)
    {
      var offset, i := 0, 0;
      while offset < |data| && i < |sends|
        invariant 0 <= offset <= |data| && 0 <= i <= |sends|
        invariant sent == old(sent) + data[..offset]
        invariant CanSend(|data| - offset, sends[i..]) == CanSend(|data|, sends)
      {
        if sends[i].Some? {
          var n := sends[i].value;
          if n == 0 {
            return false;
          }
          var step := if n < |data| - offset then n else |data| - offset;
          assert data[..offset] + data[offset..offset + step] == data[..offset + step];
          sent := sent + data[offset..offset + step];
          offset := offset + step;
        }
        i := i + 1;
      }
      ok := offset == |data|;
    }
  }

  lemma {:induction false} WireSnoc(frames: seq<DerpFrame>, f: DerpFrame, rest: bytes)
    ensures WireAll(frames + [f]) + rest == WireAll(frames) + (Wire(f) + rest)
    decreases |frames|
  {
    hide Wire;
    if frames == [] {
      assert [] + [f] == [f] && [f][1..] == [];
      assert Wire(f) + [] + rest == [] + (Wire(f) + rest);
    } else {
      WireSnoc(frames[1..], f, rest);
      assert (frames + [f])[1..] == frames[1..] + [f];
      AppendAssociative(Wire(frames[0]), WireAll(frames[1..] + [f]), rest);
      AppendAssociative(Wire(frames[0]), WireAll(frames[1..]), Wire(f) + rest);
    }
  }

  /** So at every moment of every schedule of receiving and reading, the frames handed out are a prefix of the frames
      that the other end sent. */
  lemma {:induction false} TakenArePrefix(
    taken: seq<DerpFrame>, buffer: bytes, frames: seq<DerpFrame>, tail: bytes, last: DerpFrame)
    requires (forall f | f in taken :: Fits(f)) && (forall f | f in frames :: Fits(f)) && Fits(last)
    requires WireAll(taken) + buffer <= WireAll(frames) + tail && tail < Wire(last)
    ensures taken <= frames
    decreases |taken|
  {
    hide Take, Fits;
    var all := WireAll(frames) + tail;
    var more := all[|WireAll(taken) + buffer|..];
    assert all == WireAll(taken) + (buffer + more);
    FramesOfWire(taken, buffer + more);
    FramesOfWire(frames, tail);
    PrefixWaits(last, tail);
    assert frames + [] == frames;
  }

  function Length(a: byte, b: byte, c: byte, d: byte): nat {
    a * 0x100_0000 + b * 0x1_0000 + c * 0x100 + d
  }

  lemma LengthIs(s: bytes)
    requires |s| == 4
    ensures FromBE(s) == Length(s[0], s[1], s[2], s[3])
  {
    var s3, s2, s1 := s[..3], s[..2], s[..1];
    assert s3[..2] == s2 && s2[..1] == s1 && s1[..0] == [];
    assert FromBE(s1) == s[0];
    assert FromBE(s2) == FromBE(s1) * 256 + s[1];
    assert FromBE(s3) == FromBE(s2) * 256 + s[2];
  }
}
