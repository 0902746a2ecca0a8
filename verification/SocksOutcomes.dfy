/** The outcomes of a SOCKS handshake, each described on the client's bytes alone: what is refused with which code, what
    closes the connection without a word, and what is still incomplete. */
module SocksOutcomes {
  import opened Core
  import opened Endian
  import opened Socks

  /** A greeting with these methods, and what follows it. */
  ghost predicate Greets(s: bytes, methods: bytes, r: bytes) {
    0 < |methods| < 256 && s == [5, |methods|] + methods + r
  }

  /** A request to connect to a target at the port of these two bytes, and what follows it. */
  ghost predicate Connects(r: bytes, t: Target, high: byte, low: byte, rest: bytes) {
    GoodTarget(t) && r == [5, 1, 0] + TargetBytes(t) + [high, low] + rest
  }

  /** The first four bytes of a request are not those of any. */
  predicate WrongRequest(r: bytes) { |r| >= 4 && (r[0] != 5 || r[2] != 0) }

  /** The request may still become one. */
  ghost predicate Unfinished(r: bytes) {
    || |r| < 4
    || (r[..3] == [5, 1, 0] && r[3] in {1, 3, 4} && !exists t, high, low, rest :: Connects(r, t, high, low, rest))
  }

  /** What is refused with which code: commands that are not CONNECT, address types that do not exist, port 0, and hosts
      that are not the server. */
  ghost predicate Refuses(r: bytes, server: bytes, code: byte) {
    match code
    case 7 => |r| >= 4 && r[0] == 5 && r[1] != 1 && r[2] == 0
    case 8 => |r| >= 4 && r[..3] == [5, 1, 0] && r[3] != 1 && r[3] != 3 && r[3] != 4
    case 1 => exists t, rest :: Connects(r, t, 0, 0, rest)
    case 4 =>
      exists t, high, low, rest :: (high != 0 || low != 0) && Connects(r, t, high, low, rest) && !Serves(t, server)
    case _ => false
  }

  lemma GreetsIs(s: bytes, methods: bytes, r: bytes)
    ensures Greets(s, methods, r) <==>
            && |s| >= 2 && s[0] == 5 && s[1] != 0 && |s| >= 2 + s[1] as int
            && methods == s[2..2 + s[1] as int] && r == s[2 + s[1] as int..]
  {
    if |s| >= 2 && |s| >= 2 + s[1] as int {
      assert s == [s[0], s[1]] + s[2..2 + s[1] as int] + s[2 + s[1] as int..];
    }
    if Greets(s, methods, r) {
      assert s[1] == |methods| && s[2..2 + |methods|] == methods && s[2 + |methods|..] == r;
    }
  }

  /** A CONNECT request is read as its target and its port. */
  lemma ConnectsRead(r: bytes, t: Target, high: byte, low: byte, rest: bytes, start: nat, server: bytes)
    requires Connects(r, t, high, low, rest)
    ensures Request(r, start, server) ==
            if high == 0 && low == 0 then Rejected(1)
            else if Serves(t, server) then Accepted(Word(high, low), start + 5 + |TargetBytes(t)|)
            else Rejected(4)
  {
    hide Serves, ReadTarget;
    var b, tail := TargetBytes(t), [high, low] + rest;
    TargetRead(t, tail);
    assert r == [5, 1, 0] + b + tail;
    assert r[3] == b[0] && r[4..] == b[1..] + tail;
    assert r[3 + |b|] == high && r[4 + |b|] == low;
  }

  lemma TargetTyped(t: Target)
    requires GoodTarget(t)
    ensures var b := TargetBytes(t); |b| >= 1 && (b[0] == 1 || b[0] == 3 || b[0] == 4)
  {
  }

  /** What was read as a CONNECT request is one. */
  lemma ReadConnects(r: bytes, start: nat, server: bytes) returns (t: Target, high: byte, low: byte, rest: bytes)
    requires |r| >= 4 && r[0] == 5 && r[1] == 1 && r[2] == 0 && r[3] in {1, 3, 4}
    requires Request(r, start, server) != Truncated
    ensures Connects(r, t, high, low, rest)
  {
    hide Serves, ReadTarget, TargetBytes, GoodTarget;
    TargetSplit(r[3], r[4..]);
    var n := ReadTarget(r[3], r[4..]).value.1;
    t, high, low, rest := ReadTarget(r[3], r[4..]).value.0, r[4 + n], r[5 + n], r[6 + n..];
    assert r == [r[0], r[1], r[2]] + ([r[3]] + r[4..][..n]) + [high, low] + rest;
  }

  lemma ConnectsStart(r: bytes, t: Target, high: byte, low: byte, rest: bytes)
    requires Connects(r, t, high, low, rest)
    ensures GoodTarget(t) && |r| >= 4 && r[0] == 5 && r[1] == 1 && r[2] == 0 && r[3] in {1, 3, 4}
  {
    hide TargetBytes, GoodTarget;
    TargetTyped(t);
    assert r[3] == TargetBytes(t)[0];
  }

  lemma RequestRefuses(r: bytes, start: nat, server: bytes, code: byte)
    ensures Request(r, start, server) == Rejected(code) <==> Refuses(r, server, code)
  {
    hide Connects, Serves, ReadTarget, PortAfter;
    forall t, high, low, rest | Connects(r, t, high, low, rest)
      ensures GoodTarget(t) && |r| >= 4 && r[0] == 5 && r[1] == 1 && r[2] == 0 && r[3] in {1, 3, 4}
      ensures Request(r, start, server) ==
              if high == 0 && low == 0 then Rejected(1)
              else if Serves(t, server) then Accepted(Word(high, low), start + 5 + |TargetBytes(t)|)
              else Rejected(4)
    {
      ConnectsStart(r, t, high, low, rest);
      ConnectsRead(r, t, high, low, rest, start, server);
    }
    if |r| >= 4 && r[0] == 5 && r[1] == 1 && r[2] == 0 && r[3] in {1, 3, 4} {
      if Request(r, start, server) != Truncated {
        var t, high, low, rest := ReadConnects(r, start, server);
      }
      assert r[..3] == [5, 1, 0];
    }
  }

  /** Each refusal, over all inputs: exactly after a greeting that offers method 0. */
  lemma RefusedExactly(s: bytes, server: bytes, code: byte)
    ensures Negotiate(s, server) == Rejected(code) <==>
            exists methods: bytes, r :: Greets(s, methods, r) && 0 in methods && Refuses(r, server, code)
  {
    hide Greets, Refuses, Request;
    forall methods: bytes, r
      ensures Greets(s, methods, r) <==>
              && |s| >= 2 && s[0] == 5 && s[1] != 0 && |s| >= 2 + s[1] as int
              && methods == s[2..2 + s[1] as int] && r == s[2 + s[1] as int..]
    {
      GreetsIs(s, methods, r);
    }
    if |s| >= 2 && s[0] == 5 && s[1] != 0 && |s| >= 2 + s[1] as int {
      RequestRefuses(s[2 + s[1] as int..], 2 + s[1] as int, server, code);
      assert Greets(s, s[2..2 + s[1] as int], s[2 + s[1] as int..]);
    }
  }

  lemma RequestSilent(r: bytes, start: nat, server: bytes)
    ensures Request(r, start, server) == Malformed <==> WrongRequest(r)
    ensures Request(r, start, server) == Truncated <==> Unfinished(r)
    ensures Request(r, start, server) != NoMethod
  {
    hide Connects, Serves, ReadTarget, PortAfter;
    forall t, high, low, rest | Connects(r, t, high, low, rest)
      ensures !Request(r, start, server).Truncated? && |r| >= 4 && r[..3] == [5, 1, 0]
    {
      ConnectsStart(r, t, high, low, rest);
      ConnectsRead(r, t, high, low, rest, start, server);
    }
    if |r| >= 4 && r[0] == 5 && r[1] == 1 && r[2] == 0 && r[3] in {1, 3, 4} {
      PortNotSilent(r, start, server);
      assert r[..3] == [5, 1, 0];
      if Request(r, start, server) != Truncated {
        var t, high, low, rest := ReadConnects(r, start, server);
      }
    }
  }

  lemma PortNotSilent(r: bytes, start: nat, server: bytes)
    requires |r| >= 4 && r[0] == 5 && r[1] == 1 && r[2] == 0 && r[3] in {1, 3, 4}
    ensures Request(r, start, server) != Malformed && Request(r, start, server) != NoMethod
  {
    hide Serves;
  }

  /** The silent ends: no acceptable method, a wrong greeting or request, and bytes that end too early. */
  lemma UnansweredExactly(s: bytes, server: bytes)
    ensures Negotiate(s, server) == NoMethod <==> exists methods: bytes, r :: Greets(s, methods, r) && 0 !in methods
    ensures Negotiate(s, server) == Malformed <==>
            || (|s| >= 2 && (s[0] != 5 || s[1] == 0))
            || (exists methods: bytes, r :: Greets(s, methods, r) && 0 in methods && WrongRequest(r))
    ensures Negotiate(s, server) == Truncated <==>
            || |s| < 2 || (s[0] == 5 && 0 < s[1] && |s| < 2 + s[1] as int)
            || (exists methods: bytes, r :: Greets(s, methods, r) && 0 in methods && Unfinished(r))
  {
    hide Greets, Request, WrongRequest, Unfinished;
    forall methods: bytes, r
      ensures Greets(s, methods, r) <==>
              && |s| >= 2 && s[0] == 5 && s[1] != 0 && |s| >= 2 + s[1] as int
              && methods == s[2..2 + s[1] as int] && r == s[2 + s[1] as int..]
    {
      GreetsIs(s, methods, r);
    }
    if |s| >= 2 && s[0] == 5 && s[1] != 0 && |s| >= 2 + s[1] as int {
      RequestSilent(s[2 + s[1] as int..], 2 + s[1] as int, server);
      assert Greets(s, s[2..2 + s[1] as int], s[2 + s[1] as int..]);
    }
  }

  /** What the client is told, by outcome: 05 ff, or 05 00 and after that at most one reply. */
  lemma AnswerExactly(s: bytes, server: bytes)
    ensures Answer(s, server) ==
            match Negotiate(s, server)
            case NoMethod => [5, 0xff]
            case Rejected(code) => [5, 0, 5, code, 0, 1, 0, 0, 0, 0, 0, 0]
            case Accepted(_, _) => [5, 0]
            case _ => if exists methods: bytes, r :: Greets(s, methods, r) && 0 in methods then [5, 0] else []
  {
    hide Greets, Request;
    forall methods: bytes, r
      ensures Greets(s, methods, r) <==>
              && |s| >= 2 && s[0] == 5 && s[1] != 0 && |s| >= 2 + s[1] as int
              && methods == s[2..2 + s[1] as int] && r == s[2 + s[1] as int..]
    {
      GreetsIs(s, methods, r);
    }
    if |s| >= 2 && s[0] == 5 && s[1] != 0 && |s| >= 2 + s[1] as int {
      RequestSilent(s[2 + s[1] as int..], 2 + s[1] as int, server);
      assert Greets(s, s[2..2 + s[1] as int], s[2 + s[1] as int..]);
    }
  }

  // The host that is served.

  function DecimalValue(d: bytes): int {
    if d == [] then 0 else
    var low: int := d[|d| - 1];
    10 * DecimalValue(d[..|d| - 1]) + low - 48
  }

  /** The digits of a number, without leading zeros. */
  predicate Decimal(d: bytes, n: byte) {
    && d != [] && (forall i | 0 <= i < |d| :: 48 <= d[i] <= 57) && (|d| > 1 ==> d[0] != 48) && DecimalValue(d) == n
  }

  lemma DigitsAreDecimal(n: byte)
    ensures Decimal(Digits(n), n)
  {
    var d := Digits(n);
    ShortValue(d);
    assert n == 10 * (n / 10) + n % 10 && n / 10 == 10 * (n / 100) + n / 10 % 10;
  }

  lemma ShortValue(d: bytes)
    ensures |d| == 1 ==> DecimalValue(d) == d[0] as int - 48
    ensures |d| == 2 ==> DecimalValue(d) == 10 * (d[0] as int - 48) + (d[1] as int - 48)
    ensures |d| == 3 ==> DecimalValue(d) == 10 * (10 * (d[0] as int - 48) + (d[1] as int - 48)) + (d[2] as int - 48)
  {
    if |d| == 2 {
      assert DecimalValue(d[..1]) == 10 * DecimalValue([]) + (d[0] as int - 48);
    } else if |d| == 3 {
      ShortValue(d[..2]);
    }
  }

  lemma {:induction false} LongValue(d: bytes)
    requires d != [] && forall i | 0 <= i < |d| :: 48 <= d[i] <= 57
    ensures DecimalValue(d) >= 0 && (d[0] != 48 ==> DecimalValue(d) >= 1)
    ensures |d| > 3 && d[0] != 48 ==> DecimalValue(d) >= 1000
  {
    if |d| > 1 {
      LongValue(d[..|d| - 1]);
      if |d| == 4 {
        ShortValue(d[..3]);
      }
    }
  }

  lemma DecimalUnique(d: bytes, n: byte)
    requires Decimal(d, n)
    ensures d == Digits(n)
  {
    ShortValue(d);
    LongValue(d);
    if |d| == 2 {
      DivUnique(n, 10, d[0] as int - 48, d[1] as int - 48);
    } else if |d| == 3 {
      var x, y, z := d[0] as int - 48, d[1] as int - 48, d[2] as int - 48;
      DivUnique(n, 10, 10 * x + y, z);
      DivUnique(n, 100, x, 10 * y + z);
      DivUnique(n / 10, 10, x, y);
    }
    hide DecimalValue;
  }

  predicate CharMatches(b: byte, c: char) { b == c as int || ('a' <= c <= 'z' && b + 32 == c as int) }

  /** server.tailcat in any case. */
  predicate NamesServer(name: bytes) {
    |name| == 14 && forall i | 0 <= i < 14 :: CharMatches(name[i], "server.tailcat"[i])
  }

  /** The four numbers of an address between dots. */
  ghost predicate Dotted(a: bytes, text: bytes)
    requires |a| == 4
  {
    exists p: bytes, q: bytes, r: bytes, s: bytes ::
      && Decimal(p, a[0]) && Decimal(q, a[1]) && Decimal(r, a[2]) && Decimal(s, a[3])
      && text == p + ['.' as int] + q + ['.' as int] + r + ['.' as int] + s
  }

  lemma LowerByteMatches(b: byte, c: char)
    requires c < 128 as char && !('A' <= c <= 'Z')
    ensures LowerByte(b) == c as int <==> CharMatches(b, c)
  {
  }

  lemma LowerNames(name: bytes)
    ensures Lower(name) == SERVER_NAME <==> NamesServer(name)
  {
    hide CharMatches, LowerByte;
    forall i | 0 <= i < 14 ensures SERVER_NAME[i] == "server.tailcat"[i] as int {
      NameBytes(i);
    }
    if |name| == 14 {
      forall i | 0 <= i < 14
        ensures Lower(name)[i] == SERVER_NAME[i] <==> CharMatches(name[i], "server.tailcat"[i])
      {
        LowerByteMatches(name[i], "server.tailcat"[i]);
      }
    }
  }

  lemma NameBytes(i: nat)
    requires i < 14
    ensures SERVER_NAME[i] == "server.tailcat"[i] as int && "server.tailcat"[i] < 128 as char
    ensures !('A' <= "server.tailcat"[i] <= 'Z')
  {
  }

  lemma DottedText(a: bytes, text: bytes)
    requires |a| == 4
    ensures text == TargetText(V4(a)) <==> Dotted(a, text)
  {
    DigitsAreDecimal(a[0]);
    DigitsAreDecimal(a[1]);
    DigitsAreDecimal(a[2]);
    DigitsAreDecimal(a[3]);
    hide Digits, Decimal;
    forall d: bytes, i | 0 <= i < 4 && Decimal(d, a[i]) ensures d == Digits(a[i]) {
      DecimalUnique(d, a[i]);
    }
  }

  /** The proxy connects to a domain name if it is server.tailcat in any case or literally the server's address, to an
      IPv4 address if its dotted decimal form is the server's address, and to an IPv6 address if the server's address is
      the placeholder <ipv6>. */
  lemma ServesExactly(t: Target, server: bytes)
    requires GoodTarget(t)
    ensures Serves(t, server) <==>
            match t
            case Domain(name) => NamesServer(name) || name == server
            case V4(a) => Dotted(a, server)
            case V6(_) => server == seq(6, i requires 0 <= i < 6 => "<ipv6>"[i] as int)
  {
    hide Lower, Digits, Decimal, Dotted, NamesServer;
    match t {
      case Domain(name) => LowerNames(name);
      case V4(a) =>
        DottedText(a, server);
        FirstDigit(a[0]);
        LowerFirst(TargetText(t));
      case V6(_) => LowerFirst(IPV6_NAME);
    }
  }

  lemma FirstDigit(n: byte)
    ensures |Digits(n)| >= 1 && 48 <= Digits(n)[0] <= 57
  {
  }

  lemma LowerFirst(s: bytes)
    requires s != [] && s[0] < 65
    ensures Lower(s) != SERVER_NAME
  {
    assert |Lower(s)| > 0 ==> Lower(s)[0] == s[0];
  }
}
