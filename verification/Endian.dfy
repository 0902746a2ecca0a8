/** Big-endian and little-endian numbers as the C++ code reads and writes them, byte by byte. */
module Endian {
  import opened Core

  function Pow256(n: nat): (p: nat)
    ensures p > 0
  {
    if n == 0 then 1 else 256 * Pow256(n - 1)
  }

  lemma Pow256Values()
    ensures Pow256(1) == 256 && Pow256(2) == TWO_TO_THE_16 && Pow256(4) == TWO_TO_THE_32
    ensures Pow256(8) == TWO_TO_THE_64
  {
    assert Pow256(3) == 256 * Pow256(2) && Pow256(5) == 256 * Pow256(4);
    assert Pow256(7) == 256 * Pow256(6) && Pow256(6) == 256 * Pow256(5);
  }

  /** The low n bytes of v, most significant first: what a descending shift loop pushes. */
  function ToBE(v: nat, n: nat): (s: bytes)
    ensures |s| == n
  {
    if n == 0 then [] else [v / Pow256(n - 1) % 256] + ToBE(v, n - 1)
  }

  /** What `value = value << 8 | byte` accumulates. */
  function FromBE(s: bytes): nat {
    if s == [] then 0 else FromBE(s[..|s| - 1]) * 256 + s[|s| - 1]
  }

  lemma DivDiv(v: nat, p: nat)
    requires p > 0
    ensures v / 256 / p == v / (256 * p)
  {
    var q := v / 256 / p;
    var r := v / 256 % p;
    assert v / 256 == p * q + r;
    assert v == 256 * (p * q + r) + v % 256;
    assert 256 * (p * q) == (256 * p) * q;
    DivUnique(v, 256 * p, q, 256 * r + v % 256);
  }

  lemma {:induction false} ToBELast(v: nat, n: nat)
    requires n > 0
    ensures ToBE(v, n) == ToBE(v / 256, n - 1) + [v % 256]
  {
    if n > 1 {
      ToBELast(v, n - 1);
      DivDiv(v, Pow256(n - 2));
    }
  }

  lemma ToBEShort(v: nat)
    ensures ToBE(v, 0) == [] && ToBE(v, 1) == [v % 256] && ToBE(v, 2) == [v / 256 % 256, v % 256]
  {
    hide Pow256;
    Pow256Small();
    assert ToBE(v, 1) == [v / Pow256(0) % 256] + ToBE(v, 0);
    assert ToBE(v, 2) == [v / Pow256(1) % 256] + ToBE(v, 1);
  }

  lemma Pow256Small()
    ensures Pow256(0) == 1 && Pow256(1) == 256
  {
  }

  lemma {:induction false} FromBEBound(s: bytes)
    ensures FromBE(s) < Pow256(|s|)
  {
    if s != [] {
      FromBEBound(s[..|s| - 1]);
    }
  }

  /** Reading back n written bytes gives the number, provided it fits. */
  lemma {:induction false} FromToBE(v: nat, n: nat)
    requires v < Pow256(n)
    ensures FromBE(ToBE(v, n)) == v
  {
    if n > 0 {
      ToBELast(v, n);
      FromToBE(v / 256, n - 1);
      var s := ToBE(v, n);
      assert s[..n - 1] == ToBE(v / 256, n - 1);
    }
  }

  lemma {:induction false} ToFromBE(s: bytes)
    ensures ToBE(FromBE(s), |s|) == s
  {
    if s != [] {
      var front, last := s[..|s| - 1], s[|s| - 1];
      ToFromBE(front);
      DivUnique(FromBE(s), 256, FromBE(front), last);
      ToBELast(FromBE(s), |s|);
      assert s == front + [last];
    }
  }

  /** A two-byte number, as network protocols write it. */
  function Word(high: byte, low: byte): (w: nat)
    ensures w < TWO_TO_THE_16
  {
    var h: nat := high;
    h * 256 + low
  }
}
