/** The handshake time stamps: 12-byte TAI64N strings that must increase whatever the system clock does. */
module Tai64n {
  import opened Core
  import opened Endian

  const TAI64_BASE: int := 0x4000_0000_0000_000a
  const NANOS: int := 1_000_000_000

  /** The nanoseconds used for a clock reading after `last`: the counter advances by itself when the clock does not, and
      wraps around. */
  function NextNs(last: uint64, reading: int64): uint64 {
    var unix := if reading > 0 then reading else 0;
    if unix <= last then (last + 1) % TWO_TO_THE_64 else unix
  }

  function Stamp(ns: uint64): (s: bytes)
    ensures |s| == 12
  {
    ToBE(TAI64_BASE + ns / NANOS, 8) + ToBE(ns % NANOS, 4)
  }

  /** A stamp counts seconds from 2^62 + 10, in eight big-endian bytes, and nanoseconds in four; so it determines its
      time. */
  lemma StampExactly(ns: uint64)
    ensures var seconds, nanos := FromBE(Stamp(ns)[..8]), FromBE(Stamp(ns)[8..]);
            nanos < 1_000_000_000 && (seconds - 4_611_686_018_427_387_914) * 1_000_000_000 + nanos == ns
  {
    hide ToBE, FromBE, Pow256;
    Pow256Values();
    FromToBE(TAI64_BASE + ns / NANOS, 8);
    FromToBE(ns % NANOS, 4);
    assert Stamp(ns)[..8] == ToBE(TAI64_BASE + ns / NANOS, 8) && Stamp(ns)[8..] == ToBE(ns % NANOS, 4);
  }

  /** Byte strings of one length, compared at the first difference. */
  ghost predicate LexLess(s: bytes, t: bytes) {
    exists k | 0 <= k < |s| && k < |t| :: s[..k] == t[..k] && s[k] < t[k]
  }

  lemma LongerLess(s: bytes, t: bytes, n: nat)
    requires n <= |s| && n <= |t| && LexLess(s[..n], t[..n])
    ensures LexLess(s, t)
  {
    var k :| 0 <= k < n && s[..n][..k] == t[..n][..k] && s[..n][k] < t[..n][k];
    assert s[..k] == s[..n][..k] && t[..k] == t[..n][..k];
  }

  lemma {:induction false} BigEndianOrder(s: bytes, t: bytes)
    requires |s| == |t| && FromBE(s) < FromBE(t)
    ensures LexLess(s, t)
  {
    var n := |s| - 1;
    var fs, ft := s[..n], t[..n];
    assert FromBE(s) == FromBE(fs) * 256 + s[n] && FromBE(t) == FromBE(ft) * 256 + t[n];
    hide FromBE, ToBE;
    if FromBE(fs) < FromBE(ft) {
      BigEndianOrder(fs, ft);
      LongerLess(s, t, n);
    } else {
      ToFromBE(fs);
      ToFromBE(ft);
      assert s[..n] == t[..n] && s[n] < t[n];
    }
  }

  lemma ToBEOrder(a: nat, b: nat, n: nat)
    requires a < b < Pow256(n)
    ensures LexLess(ToBE(a, n), ToBE(b, n))
  {
    FromToBE(a, n);
    FromToBE(b, n);
    BigEndianOrder(ToBE(a, n), ToBE(b, n));
  }

  lemma LexConcat(front: bytes, s: bytes, t: bytes, u: bytes, v: bytes)
    requires LexLess(s, t)
    ensures LexLess(front + s, front + t) && LexLess(s + u, t + v)
  {
    var k :| 0 <= k < |s| && k < |t| && s[..k] == t[..k] && s[k] < t[k];
    var i := |front| + k;
    assert (front + s)[..i] == front + s[..k] == (front + t)[..i] && (front + s)[i] < (front + t)[i];
    assert (s + u)[..k] == s[..k] == (t + v)[..k] && (s + u)[k] < (t + v)[k];
  }

  /** Stamps are ordered as strings like their times. */
  lemma StampOrder(a: uint64, b: uint64)
    requires a < b
    ensures LexLess(Stamp(a), Stamp(b))
  {
    Pow256Values();
    hide Pow256, ToBE, LexLess;
    var s, t := ToBE(TAI64_BASE + a / NANOS, 8), ToBE(TAI64_BASE + b / NANOS, 8);
    var u, v := ToBE(a % NANOS, 4), ToBE(b % NANOS, 4);
    if a / NANOS < b / NANOS {
      ToBEOrder(TAI64_BASE + a / NANOS, TAI64_BASE + b / NANOS, 8);
      LexConcat([], s, t, u, v);
    } else {
      ToBEOrder(a % NANOS, b % NANOS, 4);
      LexConcat(s, u, v, [], []);
    }
  }

  /** A call makes a later time than the one before exactly when the counter has not reached its end. */
  lemma Advances(last: uint64, reading: int64)
    ensures NextNs(last, reading) > last <==> last < TWO_TO_THE_64 - 1
  {
  }

  /** The stamp's time is the first one after the last that is not before the clock; at its end the counter starts
      over. */
  lemma NextIsLeast(last: uint64, reading: int64, ns: uint64)
    ensures NextNs(last, reading) == ns <==>
            if last < TWO_TO_THE_64 - 1 then ns > last && ns >= reading && (ns - 1 <= last || ns - 1 < reading)
            else ns == 0
  {
  }

  class Tai64nClock {
    var lastNs: uint64

    constructor ()
      ensures lastNs == 0
    {
      lastNs := 0;
    }

    method Now(reading: int64, output: array<byte>)
      requires output.Length == 12
      modifies this, output
      ensures lastNs == NextNs(old(lastNs), reading)
      ensures output[..] == Stamp(lastNs)
      ensures old(lastNs) < TWO_TO_THE_64 - 1 ==> lastNs > old(lastNs)
    {
      var unix := if reading > 0 then reading else 0;
      if unix <= lastNs {
        unix := (lastNs + 1) % TWO_TO_THE_64;
      }
      lastNs := unix;
      WriteStamp(output, unix);
    }

    method WriteStamp(output: array<byte>, unix: uint64)
      requires output.Length == 12
      modifies output
      ensures output[..] == Stamp(unix)
    {
      hide ToBE;
      ghost var seconds, nanos := ToBE(TAI64_BASE + unix / NANOS, 8), ToBE(unix % NANOS, 4);
      ghost var back := output[8..];
      Store(output, 0, 8, TAI64_BASE + unix / NANOS);
      assert output[..] == seconds + back;
      assert output[..8] == seconds;
      Store(output, 8, 4, unix % NANOS);
      assert output[..] == seconds + nanos;
    }

    /** Writes the low `n` bytes of a number, most significant first. */
    method Store(output: array<byte>, at: nat, n: nat, value: nat)
      requires at + n <= output.Length
      modifies output
      ensures output[..] == old(output[..at]) + ToBE(value, n) + old(output[at + n..])
    {
      ghost var done: bytes, front, back := [], output[..at], output[at..];
      assert output[..] == front + done + back[0..];
      var i := 0;
      while i < n
        invariant i <= n && |done| == i
        invariant output[..] == front + done + back[i..]
        invariant done + ToBE(value, n - i) == ToBE(value, n)
      {
        var digit: byte := value / Pow256(n - 1 - i) % 256;
        ghost var before := output[..];
        output[at + i] := digit;
        assert output[..] == before[at + i := digit];
        UpdateMiddle(front + done, back[i..], digit);
        AppendAssociative(front, done, [digit]);
        AppendAssociative(done, [digit], ToBE(value, n - i - 1));
        done := done + [digit];
        i := i + 1;
      }
      assert done + [] == done && back[n..] == old(output[at + n..]);
    }
  }

  /** The counter after each of a history of readings. */
  function History(last: uint64, readings: seq<int64>): (h: seq<uint64>)
    ensures |h| == |readings|
    decreases |readings|
  {
    if readings == [] then [] else
    var ns := NextNs(last, readings[0]);
    [ns] + History(ns, readings[1..])
  }

  lemma {:induction false} HistoryIncreases(last: uint64, readings: seq<int64>, j: nat)
    requires j < |readings| && |readings| + (if last < TWO_TO_THE_63 then TWO_TO_THE_63 - 1 else last) < TWO_TO_THE_64
    ensures last < History(last, readings)[j]
    ensures forall i | 0 <= i < j :: History(last, readings)[i] < History(last, readings)[j]
    decreases |readings|
  {
    var ns := NextNs(last, readings[0]);
    var rest := readings[1..];
    assert last < ns && (ns < TWO_TO_THE_63 || ns == last + 1);
    assert History(last, readings) == [ns] + History(ns, rest);
    hide NextNs;
    if j > 0 {
      HistoryIncreases(ns, rest, j - 1);
      forall i | 0 <= i < j ensures History(last, readings)[i] < History(last, readings)[j] {
        if i > 0 {
          assert History(last, readings)[i] == History(ns, rest)[i - 1];
        }
      }
    }
  }

  /** For every history of clock readings, backward steps included, the stamps of a process increase strictly as byte
      strings; 2^63 of them fit before the counter wraps. */
  lemma StampsIncrease(readings: seq<int64>, i: nat, j: nat)
    requires i < j < |readings| <= TWO_TO_THE_63
    ensures LexLess(Stamp(History(0, readings)[i]), Stamp(History(0, readings)[j]))
  {
    HistoryIncreases(0, readings, j);
    StampOrder(History(0, readings)[i], History(0, readings)[j]);
  }
}
