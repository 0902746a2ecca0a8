/** Unpadded base64url (RFC 4648 section 5). */
module Base64Url {
  import opened Core

  type sextet = n: int | 0 <= n < 64

  function Alphabet(i: sextet): char {
    if i < 26 then (65 + i) as char
    else if i < 52 then (97 + i - 26) as char
    else if i < 62 then (48 + i - 52) as char
    else if i == 62 then '-' else '_'
  }

  function Value(c: char): Option<sextet> {
    if 'A' <= c <= 'Z' then Some(c as int - 65)
    else if 'a' <= c <= 'z' then Some(26 + c as int - 97)
    else if '0' <= c <= '9' then Some(52 + c as int - 48)
    else if c == '-' then Some(62)
    else if c == '_' then Some(63)
    else None
  }

  /** The alphabet of table 2 of RFC 4648. */
  const UPPER := "ABCDEFGHIJKLMNOPQRSTUVWXYZ"
  const LOWER := "abcdefghijklmnopqrstuvwxyz"
  const DIGITS := "0123456789"

  lemma UpperAt(i: nat)
    requires i < 26
    ensures UPPER[i] as int == 65 + i
  {
  }

  lemma LowerAt(i: nat)
    requires i < 26
    ensures LOWER[i] as int == 97 + i
  {
  }

  lemma DigitAt(i: nat)
    requires i < 10
    ensures DIGITS[i] as int == 48 + i
  {
  }

  lemma AlphabetExactly(i: sextet, c: char)
    ensures |UPPER + LOWER + DIGITS + "-_"| == 64 && Alphabet(i) == (UPPER + LOWER + DIGITS + "-_")[i]
    ensures Value(c) == Some(i) <==> c == (UPPER + LOWER + DIGITS + "-_")[i]
  {
    hide UPPER, LOWER, DIGITS;
    Lengths();
    if i < 26 {
      UpperAt(i);
    } else if i < 52 {
      LowerAt(i - 26);
    } else if i < 62 {
      DigitAt(i - 52);
    }
  }

  lemma Lengths()
    ensures |UPPER| == 26 && |LOWER| == 26 && |DIGITS| == 10
  {
  }

  /** The four sextets of three bytes. */
  function SextetGroup(a: byte, b: byte, c: byte): (s: seq<sextet>)
    ensures |s| == 4
  {
    [a / 4, a % 4 * 16 + b / 16, b % 16 * 4 + c / 64, c % 64]
  }

  /** The three bytes of four sextets. */
  function OctetGroup(w: int, x: int, y: int, z: int): (d: bytes)
    requires 0 <= w < 64 && 0 <= x < 64 && 0 <= y < 64 && 0 <= z < 64
    ensures |d| == 3
  {
    [w * 4 + x / 16, x % 16 * 16 + y / 4, y % 4 * 64 + z]
  }

  /** Cuts bytes into six-bit groups; the last group is padded with zero bits. */
  function Sextets(data: bytes): seq<sextet> {
    match |data|
    case 0 => []
    case 1 => SextetGroup(data[0], 0, 0)[..2]
    case 2 => SextetGroup(data[0], data[1], 0)[..3]
    case _ => SextetGroup(data[0], data[1], data[2]) + Sextets(data[3..])
  }

  /** Joins six-bit groups into bytes; bits that do not fill a byte are dropped. */
  function Octets(s: seq<sextet>): bytes {
    match |s|
    case 0 => []
    case 1 => []
    case 2 => OctetGroup(s[0], s[1], 0, 0)[..1]
    case 3 => OctetGroup(s[0], s[1], s[2], 0)[..2]
    case _ => OctetGroup(s[0], s[1], s[2], s[3]) + Octets(s[4..])
  }

  function ToText(s: seq<sextet>): string {
    seq(|s|, i requires 0 <= i < |s| => Alphabet(s[i]))
  }

  function EncodeText(data: bytes): string {
    ToText(Sextets(data))
  }

  /** The bytes of a text of alphabet characters; None when some character is outside the alphabet. */
  function DecodeGroups(text: string): Option<bytes> {
    var s :- Collect(Value, text);
    Some(Octets(s))
  }

  function DecodeText(text: string): Option<bytes> {
    if text == [] || '=' in text || |text| % 4 == 1 then None else DecodeGroups(text)
  }

  // The loops move each group through one 24-bit word.

  function Word3(a: int, b: int, c: int): int { a * 65536 + b * 256 + c }

  function Word4(w: int, x: int, y: int, z: int): int { w * 262144 + x * 4096 + y * 64 + z }

  lemma SplitWord(a: byte, b: byte, c: byte)
    ensures var v := Word3(a, b, c); [v / 262144 % 64, v / 4096 % 64, v / 64 % 64, v % 64] == SextetGroup(a, b, c)
  {
    SplitFirst(a, b, c);
    SplitSecond(a, b, c);
    SplitThird(a, b, c);
    SplitFourth(a, b, c);
    hide Word3;
  }

  lemma SplitFirst(a: byte, b: byte, c: byte)
    ensures Word3(a, b, c) / 262144 % 64 == a / 4
  {
    var q, r := a / 4, a % 4;
    assert a == 4 * q + r && 0 <= q < 64;
    DivUnique(Word3(a, b, c), 262144, q, r * 65536 + b * 256 + c);
  }

  lemma SplitSecond(a: byte, b: byte, c: byte)
    ensures Word3(a, b, c) / 4096 % 64 == a % 4 * 16 + b / 16
  {
    var q, r, t, u := a / 4, a % 4, b / 16, b % 16;
    assert a == 4 * q + r && b == 16 * t + u && 0 <= t < 16;
    DivUnique(Word3(a, b, c), 4096, a * 16 + t, u * 256 + c);
    DivUnique(a * 16 + t, 64, q, r * 16 + t);
  }

  lemma SplitThird(a: byte, b: byte, c: byte)
    ensures Word3(a, b, c) / 64 % 64 == b % 16 * 4 + c / 64
  {
    var t, u, x, y := b / 16, b % 16, c / 64, c % 64;
    assert b == 16 * t + u && c == 64 * x + y && 0 <= x < 4;
    DivUnique(Word3(a, b, c), 64, a * 1024 + b * 4 + x, y);
    DivUnique(a * 1024 + b * 4 + x, 64, a * 16 + t, u * 4 + x);
  }

  lemma SplitFourth(a: byte, b: byte, c: byte)
    ensures Word3(a, b, c) % 64 == c % 64
  {
    var x, y := c / 64, c % 64;
    assert c == 64 * x + y;
    DivUnique(Word3(a, b, c), 64, a * 1024 + b * 4 + x, y);
  }

  lemma JoinWord(w: sextet, x: sextet, y: sextet, z: sextet)
    ensures var v := Word4(w, x, y, z); [v / 65536 % 256, v / 256 % 256, v % 256] == OctetGroup(w, x, y, z)
  {
    JoinFirst(w, x, y, z);
    JoinSecond(w, x, y, z);
    JoinThird(w, x, y, z);
    hide Word4;
  }

  lemma JoinFirst(w: sextet, x: sextet, y: sextet, z: sextet)
    ensures Word4(w, x, y, z) / 65536 % 256 == w * 4 + x / 16
  {
    var q, r := x / 16, x % 16;
    assert x == 16 * q + r && 0 <= q < 4;
    DivUnique(Word4(w, x, y, z), 65536, w * 4 + q, r * 4096 + y * 64 + z);
  }

  lemma JoinSecond(w: sextet, x: sextet, y: sextet, z: sextet)
    ensures Word4(w, x, y, z) / 256 % 256 == x % 16 * 16 + y / 4
  {
    var q, r, t, u := x / 16, x % 16, y / 4, y % 4;
    assert x == 16 * q + r && y == 4 * t + u && 0 <= t < 16;
    DivUnique(Word4(w, x, y, z), 256, w * 1024 + x * 16 + t, u * 64 + z);
    DivUnique(w * 1024 + x * 16 + t, 256, w * 4 + q, r * 16 + t);
  }

  lemma JoinThird(w: sextet, x: sextet, y: sextet, z: sextet)
    ensures Word4(w, x, y, z) % 256 == y % 4 * 64 + z
  {
    var t, u := y / 4, y % 4;
    assert y == 4 * t + u;
    DivUnique(Word4(w, x, y, z), 256, w * 1024 + x * 16 + t, u * 64 + z);
  }

  lemma EncodeStep(data: bytes)
    requires |data| >= 3
    ensures var v := Word3(data[0], data[1], data[2]);
            EncodeText(data) ==
            [Alphabet(v / 262144 % 64), Alphabet(v / 4096 % 64), Alphabet(v / 64 % 64), Alphabet(v % 64)]
            + EncodeText(data[3..])
  {
    hide SextetGroup, Word3, Alphabet;
    SplitWord(data[0], data[1], data[2]);
    var s := Sextets(data);
    assert s[4..] == Sextets(data[3..]);
    assert forall i | 4 <= i < |s| :: s[i] == s[4..][i - 4];
  }

  lemma EncodeShort(data: bytes)
    requires |data| <= 2
    ensures |data| == 0 ==> EncodeText(data) == []
    ensures |data| == 1 ==> var v := Word3(data[0], 0, 0);
                            EncodeText(data) == [Alphabet(v / 262144 % 64), Alphabet(v / 4096 % 64)]
    ensures |data| == 2 ==> var v := Word3(data[0], data[1], 0);
                            EncodeText(data) ==
                            [Alphabet(v / 262144 % 64), Alphabet(v / 4096 % 64), Alphabet(v / 64 % 64)]
  {
    hide SextetGroup, Word3, Alphabet;
    if data != [] {
      SplitWord(data[0], if |data| > 1 then data[1] else 0, 0);
    }
  }

  method Base64UrlEncode(data: bytes) returns (out: string)
    ensures out == EncodeText(data)
  {
    hide EncodeText, Sextets, Word3, Alphabet;
    out := [];
    var i := 0;
    assert data[0..] == data;
    while i + 3 <= |data|
      invariant 0 <= i <= |data|
      invariant out + EncodeText(data[i..]) == EncodeText(data)
    {
      var v := Word3(data[i], data[i + 1], data[i + 2]);
      EncodeStep(data[i..]);
      assert data[i..][3..] == data[i + 3..];
      out := out + [Alphabet(v / 262144 % 64), Alphabet(v / 4096 % 64), Alphabet(v / 64 % 64), Alphabet(v % 64)];
      i := i + 3;
    }
    var remain := |data| - i;
    EncodeShort(data[i..]);
    if remain == 1 {
      var v := Word3(data[i], 0, 0);
      out := out + [Alphabet(v / 262144 % 64), Alphabet(v / 4096 % 64)];
    } else if remain == 2 {
      var v := Word3(data[i], data[i + 1], 0);
      out := out + [Alphabet(v / 262144 % 64), Alphabet(v / 4096 % 64), Alphabet(v / 64 % 64)];
    }
  }

  function Prepend(front: bytes, r: Option<bytes>): Option<bytes> {
    if r.Some? then Some(front + r.value) else None
  }

  lemma DecodeStep(text: string)
    requires |text| >= 4
    ensures var w, x, y, z := Value(text[0]), Value(text[1]), Value(text[2]), Value(text[3]);
            DecodeGroups(text) ==
            if w.Some? && x.Some? && y.Some? && z.Some?
            then var v := Word4(w.value, x.value, y.value, z.value);
                 Prepend([v / 65536 % 256, v / 256 % 256, v % 256], DecodeGroups(text[4..]))
            else None
  {
    hide Value, OctetGroup, Word4;
    var t1 := text[1..];
    var t2 := t1[1..];
    var t3 := t2[1..];
    assert t1[0] == text[1] && t2[0] == text[2] && t3[0] == text[3] && t3[1..] == text[4..];
    assert Collect(Value, t3).Some? ==> Collect(Value, t2).Some? || Value(t2[0]).None?;
    assert Collect(Value, t2).Some? ==> Collect(Value, t1).Some? || Value(t1[0]).None?;
    if Collect(Value, text).Some? {
      var s, s1 := Collect(Value, text).value, Collect(Value, t1).value;
      var s2, s3 := Collect(Value, t2).value, Collect(Value, t3).value;
      assert s3[1..] == Collect(Value, text[4..]).value;
      assert s1 == [s1[0]] + s2 && s2 == [s2[0]] + s3 && s3 == [s3[0]] + s3[1..];
      assert s[4..] == s3[1..];
      JoinWord(s[0], s[1], s[2], s[3]);
    }
  }

  lemma DecodeShort(text: string)
    requires 2 <= |text| <= 3
    ensures var w, x, y := Value(text[0]), Value(text[1]), if |text| == 3 then Value(text[2]) else Some(0);
            DecodeGroups(text) ==
            if w.Some? && x.Some? && y.Some?
            then var v := Word4(w.value, x.value, y.value, 0);
                 Some(if |text| == 3 then [v / 65536 % 256, v / 256 % 256] else [v / 65536 % 256])
            else None
  {
    hide Value, OctetGroup, Word4;
    var t1 := text[1..];
    var t2 := t1[1..];
    assert t1[0] == text[1];
    if |text| == 3 {
      assert t2[0] == text[2] && Collect(Value, t2[1..]) == Some([]);
    }
    assert Collect(Value, t2).Some? <==> |text| == 2 || Value(text[2]).Some?;
    assert Collect(Value, t1).Some? <==> Value(text[1]).Some? && Collect(Value, t2).Some?;
    if Collect(Value, text).Some? {
      var s := Collect(Value, text).value;
      assert s[1..] == Collect(Value, t1).value && s[1..][1..] == Collect(Value, t2).value;
      assert |text| == 3 ==> s[1..][1..][0] == s[2];
      assert s[1..][0] == s[1];
      JoinWord(s[0], s[1], if |text| == 3 then s[2] else 0, 0);
      var g := OctetGroup(s[0], s[1], if |text| == 3 then s[2] else 0, 0);
      assert g[..1] == [g[0]] && g[..2] == [g[0], g[1]];
    }
  }

  lemma DecodeNothing(text: string)
    ensures text == [] ==> DecodeGroups(text) == Some([])
  {
  }

  lemma PrependLaws(a: bytes, b: bytes, r: Option<bytes>)
    ensures Prepend([], r) == r
    ensures Prepend(a, Prepend(b, r)) == Prepend(a + b, r)
  {
    if r.Some? {
      assert [] + r.value == r.value;
      assert a + (b + r.value) == (a + b) + r.value;
    }
  }

  method Base64UrlDecode(text: string) returns (r: Option<bytes>)
    ensures r == DecodeText(text)
  {
    hide DecodeGroups, Value, Word4;
    if |text| == 0 || '=' in text || |text| % 4 == 1 {
      return None;
    }
    var out: bytes := [];
    var i := 0;
    assert text[0..] == text;
    PrependLaws([], [], DecodeGroups(text));
    while i + 4 <= |text|
      invariant 0 <= i <= |text| && i % 4 == 0
      invariant DecodeGroups(text) == Prepend(out, DecodeGroups(text[i..]))
    {
      DecodeStep(text[i..]);
      assert text[i..][4..] == text[i + 4..];
      var w, x, y, z := Value(text[i]), Value(text[i + 1]), Value(text[i + 2]), Value(text[i + 3]);
      if w.None? || x.None? || y.None? || z.None? {
        return None;
      }
      var v := Word4(w.value, x.value, y.value, z.value);
      var group: bytes := [v / 65536 % 256, v / 256 % 256, v % 256];
      PrependLaws(out, group, DecodeGroups(text[i + 4..]));
      out := out + group;
      i := i + 4;
    }
    var remain := |text| - i;
    DecodeNothing(text[i..]);
    assert out + [] == out;
    if remain == 2 {
      DecodeShort(text[i..]);
      var w, x := Value(text[i]), Value(text[i + 1]);
      if w.None? || x.None? {
        return None;
      }
      var v := Word4(w.value, x.value, 0, 0);
      out := out + [v / 65536 % 256];
    } else if remain == 3 {
      DecodeShort(text[i..]);
      var w, x, y := Value(text[i]), Value(text[i + 1]), Value(text[i + 2]);
      if w.None? || x.None? || y.None? {
        return None;
      }
      var v := Word4(w.value, x.value, y.value, 0);
      out := out + [v / 65536 % 256, v / 256 % 256];
    }
    r := Some(out);
  }

  // Inverses.

  lemma GroupInverse(a: byte, b: byte, c: byte)
    ensures var s := SextetGroup(a, b, c); OctetGroup(s[0], s[1], s[2], s[3]) == [a, b, c]
    ensures var s := SextetGroup(a, b, 0); OctetGroup(s[0], s[1], s[2], 0)[..2] == [a, b]
    ensures var s := SextetGroup(a, 0, 0); OctetGroup(s[0], s[1], 0, 0)[..1] == [a]
  {
    DivUnique(a % 4 * 16 + b / 16, 16, a % 4, b / 16);
    DivUnique(b % 16 * 4 + c / 64, 4, b % 16, c / 64);
  }

  lemma GroupReverse(w: sextet, x: sextet, y: sextet, z: sextet)
    ensures var d := OctetGroup(w, x, y, z); SextetGroup(d[0], d[1], d[2]) == [w, x, y, z]
  {
    ReverseOuter(w, x, y, z);
    ReverseInner(w, x, y, z);
  }

  lemma ReverseOuter(w: sextet, x: sextet, y: sextet, z: sextet)
    ensures (w * 4 + x / 16) / 4 == w && (y % 4 * 64 + z) % 64 == z
  {
    DivUnique(w * 4 + x / 16, 4, w, x / 16);
    DivUnique(y % 4 * 64 + z, 64, y % 4, z);
  }

  lemma ReverseInner(w: sextet, x: sextet, y: sextet, z: sextet)
    ensures (w * 4 + x / 16) % 4 * 16 + (x % 16 * 16 + y / 4) / 16 == x
    ensures (x % 16 * 16 + y / 4) % 16 * 4 + (y % 4 * 64 + z) / 64 == y
  {
    var q, r, t, u := x / 16, x % 16, y / 4, y % 4;
    assert x == 16 * q + r && y == 4 * t + u && 0 <= q < 4 && 0 <= t < 16;
    DivUnique(w * 4 + q, 4, w, q);
    DivUnique(r * 16 + t, 16, r, t);
    DivUnique(u * 64 + z, 64, u, z);
  }

  lemma ShortGroupReverse(w: sextet, x: sextet, y: sextet)
    ensures var d := OctetGroup(w, x, y, 0); SextetGroup(d[0], d[1], 0)[..3] == [w, x, y / 4 * 4]
    ensures var d := OctetGroup(w, x, 0, 0); SextetGroup(d[0], 0, 0)[..2] == [w, x / 16 * 16]
  {
    DivUnique(w * 4 + x / 16, 4, w, x / 16);
    DivUnique(x % 16 * 16 + y / 4, 16, x % 16, y / 4);
    DivUnique(x % 16 * 16, 16, x % 16, 0);
  }

  lemma {:induction false} OctetsOfSextets(data: bytes)
    ensures Octets(Sextets(data)) == data
    ensures |Sextets(data)| == (4 * |data| + 2) / 3
  {
    hide SextetGroup, OctetGroup;
    if data != [] {
      GroupInverse(data[0], if |data| > 1 then data[1] else 0, if |data| > 2 then data[2] else 0);
      if |data| >= 3 {
        OctetsOfSextets(data[3..]);
        assert Sextets(data)[4..] == Sextets(data[3..]);
      }
    }
  }

  /** The bits of the last sextet that carry no data. */
  predicate UnusedBitsZero(s: seq<sextet>) {
    && (|s| % 4 == 2 ==> s[|s| - 1] % 16 == 0)
    && (|s| % 4 == 3 ==> s[|s| - 1] % 4 == 0)
  }

  lemma ShortSextetsOfOctets(s: seq<sextet>)
    requires |s| in {0, 2, 3}
    ensures Sextets(Octets(s)) == s <==> UnusedBitsZero(s)
    ensures |Sextets(Octets(s))| == |s|
  {
    hide SextetGroup, OctetGroup;
    if s != [] {
      ShortGroupReverse(s[0], s[1], if |s| > 2 then s[2] else 0);
    }
  }

  lemma SextetsStep(d: bytes, rest: bytes)
    requires |d| == 3
    ensures Sextets(d + rest) == SextetGroup(d[0], d[1], d[2]) + Sextets(rest)
  {
    hide SextetGroup;
    assert (d + rest)[3..] == rest;
  }

  lemma OctetsStep(g: seq<sextet>, tail: seq<sextet>)
    requires |g| == 4
    ensures Octets(g + tail) == OctetGroup(g[0], g[1], g[2], g[3]) + Octets(tail)
  {
    hide OctetGroup;
    assert (g + tail)[4..] == tail;
  }

  lemma SextetsOfOctetsStep(g: seq<sextet>, tail: seq<sextet>)
    requires |g| == 4
    ensures Sextets(Octets(g + tail)) == g + Sextets(Octets(tail))
  {
    hide SextetGroup, OctetGroup, Sextets, Octets;
    OctetsStep(g, tail);
    GroupReverse(g[0], g[1], g[2], g[3]);
    SextetsStep(OctetGroup(g[0], g[1], g[2], g[3]), Octets(tail));
  }

  lemma {:induction false} SextetsOfOctets(s: seq<sextet>)
    requires |s| % 4 != 1
    ensures Sextets(Octets(s)) == s <==> UnusedBitsZero(s)
    ensures |Sextets(Octets(s))| == |s|
  {
    hide Sextets, Octets, UnusedBitsZero;
    if |s| < 4 {
      ShortSextetsOfOctets(s);
    } else {
      var g, tail := s[..4], s[4..];
      assert s == g + tail;
      SextetsOfOctets(tail);
      SextetsOfOctetsStep(g, tail);
      AppendInjective(g, Sextets(Octets(tail)), tail);
      UnusedBitsOfTail(s);
    }
  }

  lemma UnusedBitsOfTail(s: seq<sextet>)
    requires |s| >= 4
    ensures UnusedBitsZero(s) <==> UnusedBitsZero(s[4..])
  {
  }

  lemma ValueAlphabet(i: sextet)
    ensures Value(Alphabet(i)) == Some(i)
  {
  }

  lemma NoPadding(s: seq<sextet>)
    ensures '=' !in ToText(s)
  {
    forall i | 0 <= i < |s| ensures ToText(s)[i] != '=' {
      ValueAlphabet(s[i]);
    }
  }

  lemma ValuesOfText(s: seq<sextet>)
    ensures Collect(Value, ToText(s)) == Some(s)
  {
    forall i | 0 <= i < |s| ensures Value(ToText(s)[i]) == Some(s[i]) {
      ValueAlphabet(s[i]);
    }
    CollectInverse(Value, ToText(s), s);
  }

  lemma {:induction false} TextOfValues(text: string)
    requires Collect(Value, text).Some?
    ensures ToText(Collect(Value, text).value) == text
  {
    if text != [] {
      TextOfValues(text[1..]);
      var s := Collect(Value, text).value;
      assert s[1..] == Collect(Value, text[1..]).value;
      assert forall i | 1 <= i < |s| :: ToText(s)[i] == ToText(s[1..])[i - 1];
      assert text == [text[0]] + text[1..];
    }
  }

  /** Decoding undoes encoding; the text has ceil(4n/3) characters and its length is never 1 modulo 4. */
  lemma RoundTrip(data: bytes)
    requires data != []
    ensures DecodeText(EncodeText(data)) == Some(data)
    ensures |EncodeText(data)| == (4 * |data| + 2) / 3 && |EncodeText(data)| % 4 != 1
  {
    hide Sextets, Octets, Value, Alphabet, Collect;
    OctetsOfSextets(data);
    ValuesOfText(Sextets(data));
    NoPadding(Sextets(data));
    TextLengths(|data|);
  }

  lemma TextLengths(n: nat)
    ensures (4 * n + 2) / 3 % 4 != 1 && (n > 0 ==> (4 * n + 2) / 3 > 0)
  {
    var q, r := n / 3, n % 3;
    assert n == 3 * q + r;
    if r == 0 {
      DivUnique(4 * n + 2, 3, 4 * q, 2);
    } else if r == 1 {
      DivUnique(4 * n + 2, 3, 4 * q + 2, 0);
    } else {
      DivUnique(4 * n + 2, 3, 4 * q + 3, 1);
    }
  }

  /** An accepted text is the encoding of what it decodes to exactly when its unused low bits are zero. */
  lemma Reencode(text: string)
    requires DecodeText(text).Some?
    ensures EncodeText(DecodeText(text).value) == text <==> UnusedBitsZero(Collect(Value, text).value)
  {
    hide Sextets, Octets, Value, Alphabet, Collect, UnusedBitsZero;
    var s := Collect(Value, text).value;
    TextOfValues(text);
    SextetsOfOctets(s);
    ValuesOfText(s);
    ValuesOfText(Sextets(Octets(s)));
  }
}
