/** The SOCKS5 handshake: what the client's bytes mean, section 3 and 4 of RFC 1928, and the thread that reads them in
    chunks of any size. */
module Socks {
  import opened Core
  import opened Endian

  const CONNECT: byte := 1

  datatype Target = V4(address: bytes) | Domain(name: bytes) | V6(address: bytes)

  /** How a handshake ends. `used` is the number of client bytes it consumed. */
  datatype Outcome =
    | Truncated                  // the client's bytes end inside the handshake
    | Malformed                  // closed without a word
    | NoMethod                   // no acceptable method
    | Rejected(code: byte)       // a failure reply
    | Accepted(port: nat, used: nat)

  function Digits(n: nat): bytes
    requires n < 1000
  {
    if n < 10 then [48 + n]
    else if n < 100 then [48 + n / 10, 48 + n % 10]
    else [48 + n / 100, 48 + n / 10 % 10, 48 + n % 10]
  }

  const DOT: bytes := [46]
  const IPV6_NAME: bytes := [60, 105, 112, 118, 54, 62]  // <ipv6>
  const SERVER_NAME: bytes := [115, 101, 114, 118, 101, 114, 46, 116, 97, 105, 108, 99, 97, 116]  // server.tailcat

  /** The target as text. */
  function TargetText(t: Target): bytes {
    match t
    case V4(a) =>
      if |a| != 4 then [] else Digits(a[0]) + DOT + Digits(a[1]) + DOT + Digits(a[2]) + DOT + Digits(a[3])
    case Domain(name) => name
    case V6(_) => IPV6_NAME
  }

  function LowerByte(b: byte): byte { if 65 <= b <= 90 then b + 32 else b }

  function Lower(s: bytes): bytes { seq(|s|, i requires 0 <= i < |s| => LowerByte(s[i])) }

  /** The proxy serves one host only: by its fixed name, in any case, or by its address. */
  predicate Serves(t: Target, server: bytes) { Lower(TargetText(t)) == SERVER_NAME || TargetText(t) == server }

  // Reading the client's bytes.

  /** The target that starts at `s`, of the given address type, and the number of bytes it takes. */
  function ReadTarget(kind: byte, s: bytes): Option<(Target, nat)>
    requires kind in {1, 3, 4}
  {
    if kind == 1 then if |s| < 4 then None else Some((V4(s[..4]), 4))
    else if kind == 4 then if |s| < 16 then None else Some((V6(s[..16]), 16))
    else if |s| < 1 || |s| < 1 + s[0] as int then None
    else Some((Domain(s[1..1 + s[0] as int]), 1 + s[0] as int))
  }

  /** The bytes `r` after a greeting of `start` bytes. */
  function Request(r: bytes, start: nat, server: bytes): Outcome {
    if |r| < 4 then Truncated
    else if r[0] != 5 || r[2] != 0 then Malformed
    else if r[1] != CONNECT then Rejected(7)
    else if r[3] !in {1, 3, 4} then Rejected(8)
    else
      match ReadTarget(r[3], r[4..])
      case None => Truncated
      case Some((target, n)) => PortAfter(target, r, n, start, server)
  }

  function PortAfter(target: Target, r: bytes, n: nat, start: nat, server: bytes): Outcome
    requires 4 + n <= |r|
  {
    if |r| < 6 + n then Truncated
    else
      var port: nat := Word(r[4 + n], r[5 + n]);
      if port == 0 then Rejected(1)
      else if !Serves(target, server) then Rejected(4)
      else Accepted(port, start + 6 + n)
  }

  /** What the whole of a client's bytes means to the proxy. */
  function Negotiate(s: bytes, server: bytes): Outcome {
    if |s| < 2 then Truncated
    else if s[0] != 5 || s[1] == 0 then Malformed
    else if |s| < 2 + s[1] as int then Truncated
    else if 0 !in s[2..2 + s[1] as int] then NoMethod
    else Request(s[2 + s[1] as int..], 2 + s[1] as int, server)
  }

  function Reply(code: byte): bytes { [5, code, 0, 1, 0, 0, 0, 0, 0, 0] }

  const METHOD_REPLY: bytes := [5, 0]
  const NO_METHOD: bytes := [5, 0xff]

  // The wire format of the two messages.

  function Greeting(methods: bytes): bytes
    requires |methods| < 256
  {
    [5, |methods|] + methods
  }

  predicate GoodTarget(t: Target) {
    match t
    case V4(a) => |a| == 4
    case V6(a) => |a| == 16
    case Domain(name) => |name| < 256
  }

  function TargetBytes(t: Target): bytes
    requires GoodTarget(t)
  {
    match t
    case V4(a) => [1] + a
    case V6(a) => [4] + a
    case Domain(name) => [3, |name|] + name
  }

  function ConnectRequest(t: Target, port: nat): bytes
    requires GoodTarget(t) && port < TWO_TO_THE_16
  {
    [5, CONNECT, 0] + TargetBytes(t) + [port / 256, port % 256]
  }

  lemma TargetRead(t: Target, rest: bytes)
    requires GoodTarget(t)
    ensures var b := TargetBytes(t);
            b[0] in {1, 3, 4} && ReadTarget(b[0], b[1..] + rest) == Some((t, |b| - 1))
  {
    var b := TargetBytes(t);
    var s := b[1..] + rest;
    match t {
      case V4(a) => assert s[..4] == a;
      case V6(a) => assert s[..16] == a;
      case Domain(name) => assert s[1..1 + |name|] == name;
    }
  }

  lemma TargetSplit(kind: byte, s: bytes)
    requires kind in {1, 3, 4} && ReadTarget(kind, s).Some?
    ensures var (t, n) := ReadTarget(kind, s).value;
            GoodTarget(t) && n <= |s| && [kind] + s[..n] == TargetBytes(t)
  {
  }

  lemma RequestAccepted(t: Target, port: nat, start: nat, rest: bytes, server: bytes)
    requires GoodTarget(t) && 0 < port < TWO_TO_THE_16 && Serves(t, server)
    ensures var r := ConnectRequest(t, port);
            Request(r + rest, start, server) == Accepted(port, start + |r|)
  {
    hide Serves, ReadTarget;
    var b, tail := TargetBytes(t), [port / 256, port % 256] + rest;
    var r := ConnectRequest(t, port) + rest;
    TargetRead(t, tail);
    assert r[3] == b[0] && r[4..] == b[1..] + tail;
    assert r[3 + |b|] == port / 256 && r[4 + |b|] == port % 256;
  }

  /** A handshake succeeds exactly on a greeting that offers method 0 followed by a CONNECT request for the server and a
      non-zero port, and the connection's data starts right after them. */
  lemma AcceptedExactly(s: bytes, server: bytes, port: nat, used: nat)
    ensures Negotiate(s, server) == Accepted(port, used) <==>
            exists methods: bytes, t :: Offered(s, server, port, used, methods, t)
  {
    if Negotiate(s, server) == Accepted(port, used) {
      AcceptedSplit(s, server, port, used);
    }
    forall methods: bytes, t | Offered(s, server, port, used, methods, t)
      ensures Negotiate(s, server) == Accepted(port, used)
    {
      OfferedAccepted(s, server, port, used, methods, t);
    }
  }

  ghost predicate Offered(s: bytes, server: bytes, port: nat, used: nat, methods: bytes, t: Target) {
    && |methods| < 256 && 0 in methods && GoodTarget(t) && Serves(t, server) && 0 < port < TWO_TO_THE_16
    && used <= |s| && s[..used] == Greeting(methods) + ConnectRequest(t, port)
  }

  lemma OfferedAccepted(s: bytes, server: bytes, port: nat, used: nat, methods: bytes, t: Target)
    requires Offered(s, server, port, used, methods, t)
    ensures Negotiate(s, server) == Accepted(port, used)
  {
    hide Serves, ReadTarget, Request, TargetBytes, GoodTarget, ConnectRequest;
    var g, r := Greeting(methods), ConnectRequest(t, port);
    RequestAccepted(t, port, |g|, s[used..], server);
    assert s == s[..used] + s[used..];
    assert s == g + (r + s[used..]);
    assert s[|g|..] == r + s[used..];
    assert s[2..2 + |methods|] == methods;
  }

  /** The bytes of a request with a target of n bytes. */
  lemma RequestBytes(r: bytes, t: Target, n: nat)
    requires |r| >= 6 + n && r[0] == 5 && r[1] == CONNECT && r[2] == 0
    requires GoodTarget(t) && [r[3]] + r[4..][..n] == TargetBytes(t)
    ensures var port := Word(r[4 + n], r[5 + n]);
            port < TWO_TO_THE_16 && r[..6 + n] == ConnectRequest(t, port)
  {
    hide GoodTarget, TargetBytes;
    assert r[..6 + n] == [r[0], r[1], r[2]] + ([r[3]] + r[4..][..n]) + [r[4 + n], r[5 + n]];
  }

  lemma RequestSplit(s: bytes, start: nat, server: bytes, port: nat, used: nat) returns (t: Target)
    requires start <= |s| && Request(s[start..], start, server) == Accepted(port, used)
    ensures GoodTarget(t) && Serves(t, server) && 0 < port < TWO_TO_THE_16
    ensures start <= used <= |s| && s[start..used] == ConnectRequest(t, port)
  {
    hide Serves, ReadTarget, TargetBytes, GoodTarget;
    var r := s[start..];
    TargetSplit(r[3], r[4..]);
    var n := ReadTarget(r[3], r[4..]).value.1;
    t := ReadTarget(r[3], r[4..]).value.0;
    RequestBytes(r, t, n);
    assert s[start..used] == r[..6 + n];
  }

  lemma AcceptedSplit(s: bytes, server: bytes, port: nat, used: nat)
    requires Negotiate(s, server) == Accepted(port, used)
    ensures exists methods: bytes, t :: Offered(s, server, port, used, methods, t)
  {
    hide Serves, GoodTarget, ConnectRequest, Request;
    var start := 2 + s[1] as int;
    var methods := s[2..start];
    var t := RequestSplit(s, start, server, port, used);
    assert |methods| == s[1] && s[..start] == [s[0], s[1]] + methods;
    assert s[..used] == s[..start] + s[start..used];
    assert Offered(s, server, port, used, methods, t);
  }

  // The handshake thread.

  /** The client's socket. `rest` is what the client sends until it closes its side; every read yields any non-empty
      part of it, or throws, and every write may break off. */
  class ClientSocket {
    var rest: bytes
    var written: bytes
    var closed: bool
    var calls: nat
    const chunk: nat -> nat
    const throws: nat -> bool
    ghost var broken: bool
    ghost var replies: seq<byte>

    constructor (input: bytes, chunk: nat -> nat, throws: nat -> bool)
      ensures rest == input && written == [] && !closed && !broken && replies == []
      ensures this.chunk == chunk && this.throws == throws
    {
      this.chunk, this.throws := chunk, throws;
      rest, written, closed, calls, broken, replies := input, [], false, 0, false, [];
    }

    /** Some call on the socket throws. */
    ghost predicate Throws() { exists n :: throws(n) }

    /** An empty result is the end of the stream; None is an exception. */
    method ReadSome(max: nat) returns (part: Option<bytes>)
      modifies this`rest, this`calls, this`broken
      ensures broken ==> old(broken) || Throws()
      ensures part.None? ==> broken && rest == old(rest)
      ensures part.Some? ==>
                && broken == old(broken)
                && old(rest) == part.value + rest && |part.value| <= max
                && (part.value == [] <==> max == 0 || old(rest) == [])
    {
      var n := calls;
      calls := calls + 1;
      if throws(n) {
        broken := true;
        return None;
      }
      if max == 0 || |rest| == 0 {
        return Some([]);
      }
      var most := if max < |rest| then max else |rest|;
      var size := 1 + chunk(n) % most;
      part := Some(rest[..size]);
      rest := rest[size..];
    }

    method WriteAll(data: bytes) returns (ok: bool)
      modifies this`written, this`calls, this`broken
      ensures broken ==> old(broken) || Throws()
      ensures ok ==> written == old(written) + data && broken == old(broken)
      ensures !ok ==> broken && exists k | 0 <= k <= |data| :: written == old(written) + data[..k]
    {
      var n := calls;
      calls := calls + 1;
      if throws(n) {
        var k := chunk(n) % (|data| + 1);
        written := written + data[..k];
        broken := true;
        return false;
      }
      written := written + data;
      return true;
    }

    /** Exactly `size` bytes, whatever the chunks; None is an exception, the end of the stream included. */
    method ReadExact(size: nat) returns (r: Option<bytes>)
      modifies this`rest, this`calls, this`broken
      ensures broken ==> old(broken) || Throws()
      ensures r.Some? ==> |r.value| == size && old(rest) == r.value + rest && broken == old(broken)
      ensures r.None? ==> broken || |old(rest)| < size
    {
      var out: bytes := [];
      while |out| < size
        invariant |out| <= size && old(rest) == out + rest && broken == old(broken)
        decreases size - |out|
      {
        var part := ReadSome(size - |out|);
        if part.None? || |part.value| == 0 {
          return None;
        }
        AppendAssociative(out, part.value, rest);
        out := out + part.value;
      }
      return Some(out);
    }

    method SocksReply(code: byte) returns (ok: bool)
      modifies this`written, this`calls, this`broken, this`replies
      ensures broken ==> old(broken) || Throws()
      ensures replies == old(replies) + [code]
      ensures ok ==> written == old(written) + Reply(code) && broken == old(broken)
      ensures !ok ==> broken
    {
      replies := replies + [code];
      ok := WriteAll(Reply(code));
    }

    /** Reads the greeting and answers it. None is an exception; false is a refusal. */
    method Greet() returns (r: Option<bool>)
      requires !broken
      modifies this
      ensures broken ==> old(broken) || Throws()
      ensures closed == old(closed) && replies == old(replies)
      ensures broken ==> r.None?
      ensures r.None? && !broken ==> written == old(written) && !Complete(old(rest))
      ensures r.Some? ==> Complete(old(rest)) && r.value == Greeted(old(rest))
      ensures r.Some? ==> rest == old(rest)[2 + old(rest)[1] as int..]
      ensures r.Some? ==> written == old(written) + if r.value then METHOD_REPLY else NO_METHOD
    {
      var greeting := ReadExact(2);
      if greeting.None? || greeting.value[0] != 5 || greeting.value[1] == 0 {
        return None;
      }
      var methods := ReadExact(greeting.value[1]);
      if methods.None? {
        return None;
      }
      ghost var s := old(rest);
      assert s == greeting.value + (methods.value + rest);
      assert s[2..2 + s[1] as int] == methods.value;
      if 0 !in methods.value {
        var ok := WriteAll(NO_METHOD);
        return if ok then Some(false) else None;
      }
      var ok := WriteAll(METHOD_REPLY);
      return if ok then Some(true) else None;
    }

    method ReadTargetOf(kind: byte) returns (r: Option<Target>)
      requires kind in {1, 3, 4} && !broken
      modifies this`rest, this`calls, this`broken
      ensures broken ==> old(broken) || Throws()
      ensures broken ==> r.None?
      ensures r.None? && !broken ==> ReadTarget(kind, old(rest)) == None
      ensures r.Some? ==>
                && |rest| <= |old(rest)| && rest == old(rest)[|old(rest)| - |rest|..]
                && ReadTarget(kind, old(rest)) == Some((r.value, |old(rest)| - |rest|))
    {
      ghost var s := rest;
      if kind == 1 {
        var address := ReadExact(4);
        if address.None? {
          return None;
        }
        assert s[..4] == address.value;
        return Some(V4(address.value));
      } else if kind == 3 {
        var length := ReadExact(1);
        if length.None? {
          return None;
        }
        var name := ReadExact(length.value[0]);
        if name.None? {
          return None;
        }
        assert s == length.value + (name.value + rest);
        assert s[1..1 + s[0] as int] == name.value;
        return Some(Domain(name.value));
      } else {
        var address := ReadExact(16);
        if address.None? {
          return None;
        }
        assert s[..16] == address.value;
        return Some(V6(address.value));
      }
    }

    method ReadRequest(server: bytes, ghost start: nat) returns (r: Ended)
      requires !broken
      modifies this
      ensures broken ==> old(broken) || Throws()
      ensures closed == old(closed)
      ensures broken ==> r.Exception? && |replies| <= |old(replies)| + 1
      ensures !broken ==> Matches(r, Request(old(rest), start, server), start, |old(rest)| - |rest|)
      ensures r.Port? ==> |rest| <= |old(rest)| && rest == old(rest)[|old(rest)| - |rest|..]
      ensures !broken ==> written == old(written) + (if r.Refused? then Reply(r.code) else [])
      ensures !broken ==> replies == old(replies) + (if r.Refused? then [r.code] else [])
    {
      hide PortAfter, ReadTarget, Reply;
      ghost var s := rest;
      var header := ReadExact(4);
      if header.None? || header.value[0] != 5 || header.value[2] != 0 {
        return Exception;
      }
      assert s[4..] == rest && s[..4] == header.value;
      if header.value[1] != CONNECT {
        r := Refuse(7);
        return;
      }
      if header.value[3] !in {1, 3, 4} {
        r := Refuse(8);
        return;
      }
      var target := ReadTargetOf(header.value[3]);
      if target.None? {
        return Exception;
      }
      ghost var n := |s| - 4 - |rest|;
      assert rest == s[4 + n..];
      r := ReadPort(target.value, server, s, n, start);
    }

    method ReadPort(target: Target, server: bytes, ghost s: bytes, ghost n: nat, ghost start: nat) returns (r: Ended)
      requires !broken && 4 + n <= |s| && rest == s[4 + n..]
      modifies this
      ensures broken ==> old(broken) || Throws()
      ensures closed == old(closed)
      ensures broken ==> r.Exception? && |replies| <= |old(replies)| + 1
      ensures !broken ==> Matches(r, PortAfter(target, s, n, start, server), start, |s| - |rest|)
      ensures r.Port? ==> |rest| <= |s| && rest == s[|s| - |rest|..]
      ensures !broken ==> written == old(written) + (if r.Refused? then Reply(r.code) else [])
      ensures !broken ==> replies == old(replies) + (if r.Refused? then [r.code] else [])
    {
      hide Serves, Reply;
      var port := ReadExact(2);
      if port.None? {
        return Exception;
      }
      assert s[4 + n..] == port.value + rest;
      assert s[4 + n] == port.value[0] && s[5 + n] == port.value[1];
      var number := Word(port.value[0], port.value[1]);
      if number == 0 {
        r := Refuse(1);
        return;
      }
      if !Serves(target, server) {
        r := Refuse(4);
        return;
      }
      assert rest == s[6 + n..];
      return Ended.Port(number);
    }

    method Refuse(code: byte) returns (r: Ended)
      requires !broken
      modifies this`written, this`calls, this`broken, this`replies
      ensures broken ==> old(broken) || Throws()
      ensures replies == old(replies) + [code]
      ensures if broken then r == Exception else r == Refused(code) && written == old(written) + Reply(code)
    {
      var ok := SocksReply(code);
      return if ok then Refused(code) else Exception;
    }

    /** The whole handshake: its result depends only on the client's bytes, not on how they arrive, unless the socket
        breaks; and it issues at most one reply, only to refuse. The port is handed to the proxy unless it has
        stopped. */
    method BeginHandshake(server: bytes, stopped: bool) returns (r: Option<nat>)
      requires !broken && !closed && written == [] && replies == []
      modifies this
      ensures broken ==> old(broken) || Throws()
      ensures r.None? <==> closed
      ensures |replies| <= 1
      ensures r.Some? ==>
                && !stopped && |rest| <= |old(rest)| && rest == old(rest)[|old(rest)| - |rest|..]
                && Negotiate(old(rest), server) == Accepted(r.value, |old(rest)| - |rest|)
                && written == METHOD_REPLY && replies == []
      ensures r.None? && !broken ==>
                && (Negotiate(old(rest), server).Accepted? ==> stopped)
                && written == Answer(old(rest), server)
                && var o := Negotiate(old(rest), server); replies == if o.Rejected? then [o.code] else []
    {
      hide Request, Reply;
      ghost var s := rest;
      var greeted := Greet();
      if greeted.None? || !greeted.value {
        closed := true;
        return None;
      }
      ghost var start := 2 + s[1] as int;
      var ended := ReadRequest(server, start);
      if !ended.Port? || stopped {
        closed := true;
        return None;
      }
      return Some(ended.port);
    }
  }

  datatype Ended = Port(port: nat) | Refused(code: byte) | Exception

  /** The thread's view of an outcome. */
  predicate Matches(r: Ended, o: Outcome, start: nat, read: int) {
    match r
    case Port(port) => read >= 0 && o == Accepted(port, start + read)
    case Refused(code) => o == Rejected(code)
    case Exception => o == Truncated || o == Malformed
  }

  /** Everything the handshake says to the client. */
  function Answer(s: bytes, server: bytes): bytes {
    if !Complete(s) then []
    else if !Greeted(s) then NO_METHOD
    else if Negotiate(s, server).Rejected? then METHOD_REPLY + Reply(Negotiate(s, server).code)
    else METHOD_REPLY
  }

  /** A complete greeting. */
  predicate Complete(s: bytes) { |s| >= 2 && s[0] == 5 && s[1] != 0 && |s| >= 2 + s[1] as int }

  /** A complete greeting that offers method 0. */
  predicate Greeted(s: bytes) { Complete(s) && 0 in s[2..2 + s[1] as int] }
}
