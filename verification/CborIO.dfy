/** The cursor-based CBOR reader and the appending CBOR writer. */
module CborIO {
  import opened Core
  import opened Endian
  import opened Cbor

  // What each typed reading does to the unread bytes.

  function ReadMajor(s: bytes, want: nat): (r: Option<(uint64, bytes)>)
    ensures r.Some? ==> |r.value.1| < |s|
  {
    var (h, rest) :- ReadHead(s);
    if h.major == want then Some((h.value, rest)) else None
  }

  function ReadString(s: bytes, want: nat): (r: Option<(bytes, bytes)>)
    ensures r.Some? ==> |r.value.0| < TWO_TO_THE_64 && |r.value.1| < |s|
  {
    var (len, rest) :- ReadMajor(s, want);
    if len > |rest| then None else Some((rest[..len], rest[len..]))
  }

  function ReadText(s: bytes): Option<(bytes, bytes)> { ReadString(s, 3) }

  function ReadBytes(s: bytes): Option<(bytes, bytes)> { ReadString(s, 2) }

  function ReadInteger(s: bytes): (r: Option<(int64, bytes)>)
    ensures r.Some? ==> |r.value.1| < |s|
  {
    var (h, rest) :- ReadHead(s);
    if h.value >= TWO_TO_THE_63 then None
    else if h.major == 0 then Some((h.value, rest))
    else if h.major == 1 then Some((-1 - h.value, rest))
    else None
  }

  function ReadBoolean(s: bytes): (r: Option<(bool, bytes)>)
    ensures r.Some? ==> |r.value.1| < |s|
  {
    if s == [] then None
    else if s[0] == 0xf4 then Some((false, s[1..]))
    else if s[0] == 0xf5 then Some((true, s[1..]))
    else None
  }

  class CborReader {
    const data: bytes
    var pos: nat

    constructor (data: bytes)
      ensures this.data == data && Valid() && Rest() == data
    {
      this.data := data;
      pos := 0;
    }

    /** The cursor never leaves the buffer. */
    ghost predicate Valid()
      reads this
    {
      pos <= |data|
    }

    ghost function Rest(): bytes
      requires Valid()
      reads this
    {
      data[pos..]
    }

    /** The reader did what the specification of the unread bytes says; a failed reading stops anywhere inside the
        buffer. */
    ghost predicate Agrees<T>(spec: Option<(T, bytes)>, r: Option<T>)
      reads this
    {
      && Valid()
      && (spec.None? ==> r.None?)
      && (spec.Some? ==> r == Some(spec.value.0) && Rest() == spec.value.1)
    }

    method Done() returns (b: bool)
      requires Valid()
      ensures b <==> Rest() == []
    {
      b := pos == |data|;
    }

    method ReadHeadAt() returns (r: Option<Head>)
      requires Valid()
      modifies this`pos
      ensures Agrees(ReadHead(old(Rest())), r)
    {
      ghost var s := Rest();
      if pos == |data| {
        return None;
      }
      var first := data[pos];
      pos := pos + 1;
      var major, ai := first / 32, first % 32;
      if ai < 24 {
        return Some(Head(major, ai));
      }
      var n := ExtraBytes(ai);
      if n == 0 || n > |data| - pos {
        return None;
      }
      var value := ReadArgument(n);
      assert s[1..1 + n] == data[pos - n..pos];
      FromBEFits(s[1..1 + n]);
      return Some(Head(major, value));
    }

    /** The accumulating loop over the n argument bytes of a head. */
    method ReadArgument(n: nat) returns (value: nat)
      requires Valid() && n <= |data| - pos
      modifies this`pos
      ensures pos == old(pos) + n
      ensures value == FromBE(data[old(pos)..pos])
    {
      value := 0;
      var i := 0;
      while i < n
        invariant 0 <= i <= n && pos == old(pos) + i
        invariant value == FromBE(data[old(pos)..pos])
      {
        assert data[old(pos)..pos + 1][..i] == data[old(pos)..pos];
        value := value * 256 + data[pos];
        pos := pos + 1;
        i := i + 1;
      }
    }

    method ExpectMajor(want: nat) returns (r: Option<uint64>)
      requires Valid()
      modifies this`pos
      ensures Agrees(ReadMajor(old(Rest()), want), r)
    {
      hide ReadHead;
      var h := ReadHeadAt();
      if h.None? || h.value.major != want {
        return None;
      }
      return Some(h.value.value);
    }

    method MapSize() returns (r: Option<uint64>)
      requires Valid()
      modifies this`pos
      ensures Agrees(ReadMajor(old(Rest()), 5), r)
    {
      r := ExpectMajor(5);
    }

    method ArraySize() returns (r: Option<uint64>)
      requires Valid()
      modifies this`pos
      ensures Agrees(ReadMajor(old(Rest()), 4), r)
    {
      r := ExpectMajor(4);
    }

    method Text() returns (r: Option<bytes>)
      requires Valid()
      modifies this`pos
      ensures Agrees(ReadText(old(Rest())), r)
    {
      hide ReadMajor;
      var len := ExpectMajor(3);
      if len.None? || len.value > |data| - pos {
        return None;
      }
      var start := pos;
      ghost var rest := Rest();
      pos := pos + len.value;
      assert rest[..len.value] == data[start..pos] && rest[len.value..] == Rest();
      return Some(data[start..pos]);
    }

    method Bytes() returns (r: Option<bytes>)
      requires Valid()
      modifies this`pos
      ensures Agrees(ReadBytes(old(Rest())), r)
    {
      hide ReadMajor;
      var len := ExpectMajor(2);
      if len.None? || len.value > |data| - pos {
        return None;
      }
      var start := pos;
      ghost var rest := Rest();
      pos := pos + len.value;
      assert rest[..len.value] == data[start..pos] && rest[len.value..] == Rest();
      return Some(data[start..pos]);
    }

    method Integer() returns (r: Option<int64>)
      requires Valid()
      modifies this`pos
      ensures Agrees(ReadInteger(old(Rest())), r)
    {
      hide ReadHead;
      var h := ReadHeadAt();
      if h.None? {
        return None;
      }
      if h.value.major == 0 {
        return if h.value.value >= TWO_TO_THE_63 then None else Some(h.value.value);
      }
      if h.value.major == 1 {
        return if h.value.value >= TWO_TO_THE_63 then None else Some(-1 - h.value.value);
      }
      return None;
    }

    method Boolean() returns (r: Option<bool>)
      requires Valid()
      modifies this`pos
      ensures Agrees(ReadBoolean(old(Rest())), r)
    {
      if pos == |data| {
        return None;
      }
      var b := data[pos];
      pos := pos + 1;
      if b == 0xf4 {
        return Some(false);
      }
      return if b == 0xf5 then Some(true) else None;
    }

    /** Skips one item of any kind. Terminates on every input because each head consumes a byte. */
    method Skip() returns (ok: bool)
      requires Valid()
      modifies this`pos
      ensures Valid() && (ok <==> SkipOne(old(Rest())).Some?)
      ensures ok ==> Rest() == SkipOne(old(Rest())).value
      decreases |data| - pos, 0
    {
      hide ReadHead;
      ghost var s := Rest();
      var h := ReadHeadAt();
      if h.None? {
        return false;
      }
      match h.value.major
      case 0 | 1 | 7 =>
        return true;
      case 2 | 3 =>
        if h.value.value > |data| - pos {
          return false;
        }
        pos := pos + h.value.value;
        return true;
      case 4 =>
        ok := SkipRepeatedly(h.value.value);
      case 5 =>
        ok := SkipRepeatedly(2 * h.value.value);
      case _ =>
        ok := Skip();
    }

    /** The counting loops of `Skip`: n items in a row. */
    method SkipRepeatedly(n: nat) returns (ok: bool)
      requires Valid()
      modifies this`pos
      ensures Valid() && (ok <==> SkipMany(old(Rest()), n).Some?)
      ensures ok ==> Rest() == SkipMany(old(Rest()), n).value
      decreases |data| - pos, 1
    {
      hide SkipOne;
      ghost var s := Rest();
      var i := 0;
      while i < n
        invariant 0 <= i <= n && Valid() && pos >= old(pos)
        invariant SkipMany(Rest(), n - i) == SkipMany(s, n)
      {
        ok := Skip();
        if !ok {
          return;
        }
        i := i + 1;
      }
      ok := true;
    }
  }

  class CborWriter {
    var out: bytes

    constructor ()
      ensures out == []
    {
      out := [];
    }

    method WriteHead(major: nat, value: uint64)
      requires major < 8
      modifies this
      ensures Shortest(value).Fits(value)
      ensures out == old(out) + EncodeHead(major, Shortest(value), value)
    {
      hide ToBE;
      Pow256Values();
      ToBEShort(value);
      var prefix := major * 32;
      if value < 24 {
        out := out + [prefix + value];
      } else if value <= 0xff {
        out := out + [prefix + 24];
        out := out + [value];
      } else if value <= 0xffff {
        out := out + [prefix + 25];
        out := out + [value / 256 % 256];
        out := out + [value % 256];
      } else if value <= 0xffff_ffff {
        out := out + [prefix + 26];
        PushBigEndian(value, 4);
      } else {
        out := out + [prefix + 27];
        PushBigEndian(value, 8);
      }
    }

    /** The descending shift loop: one byte per step, most significant first. */
    method PushBigEndian(value: nat, n: nat)
      modifies this
      ensures out == old(out) + ToBE(value, n)
    {
      var k := n;
      while k > 0
        invariant 0 <= k <= n
        invariant out + ToBE(value, k) == old(out) + ToBE(value, n)
      {
        AppendAssociative(out, [value / Pow256(k - 1) % 256], ToBE(value, k - 1));
        out := out + [value / Pow256(k - 1) % 256];
        k := k - 1;
      }
    }

    method WriteText(s: bytes)
      requires |s| < TWO_TO_THE_64
      modifies this
      ensures WellFormed(TextItem(s)) && out == old(out) + Encode(TextItem(s))
    {
      hide EncodeHead;
      WriteHead(3, |s|);
      AppendAssociative(old(out), EncodeHead(3, Shortest(|s|), |s|), s);
      out := out + s;
    }

    method WriteBytes(b: Key32)
      modifies this
      ensures WellFormed(BytesItem(b)) && out == old(out) + Encode(BytesItem(b))
    {
      hide EncodeHead;
      WriteHead(2, |b|);
      AppendAssociative(old(out), EncodeHead(2, Shortest(|b|), |b|), b);
      out := out + b;
    }

    method WriteInteger(value: int64)
      modifies this
      ensures WellFormed(IntegerItem(value)) && out == old(out) + Encode(IntegerItem(value))
    {
      hide EncodeHead;
      if value >= 0 {
        WriteHead(0, value);
      } else {
        WriteHead(1, -(value + 1));
      }
    }

    method WriteBoolean(value: bool)
      modifies this
      ensures out == old(out) + Encode(BooleanItem(value))
    {
      out := out + [if value then 0xf5 else 0xf4];
      assert ToBE(20, 0) == [] && ToBE(21, 0) == [];
    }
  }

  // The items the writer emits.

  function TextItem(s: bytes): Item { Str(3, Shortest(|s|), s) }

  function BytesItem(s: bytes): Item { Str(2, Shortest(|s|), s) }

  function IntegerItem(v: int64): Item {
    if v >= 0 then Scalar(0, Shortest(v), v) else Scalar(1, Shortest(-(v + 1)), -(v + 1))
  }

  function BooleanItem(b: bool): (item: Item)
    ensures WellFormed(item)
  {
    Scalar(7, Inline, if b then 21 else 20)
  }

  // What a whole item means as a typed value.

  function StringOf(item: Item, want: nat): Option<bytes> {
    if item.Str? && item.major == want && |item.payload| < TWO_TO_THE_64 then Some(item.payload) else None
  }

  function TextOf(item: Item): Option<bytes> { StringOf(item, 3) }

  function BytesOf(item: Item): Option<bytes> { StringOf(item, 2) }

  function IntegerOf(item: Item): Option<int64> {
    if !item.Scalar? || item.value >= TWO_TO_THE_63 then None
    else if item.major == 0 then Some(item.value)
    else if item.major == 1 then Some(-1 - item.value)
    else None
  }

  function BooleanOf(item: Item): Option<bool> {
    if item == Scalar(7, Inline, 20) then Some(false)
    else if item == Scalar(7, Inline, 21) then Some(true)
    else None
  }

  /** Reading an item and then interpreting it. */
  function Via<T>(s: bytes, of: Item -> Option<T>): Option<(T, bytes)> {
    var (item, rest) :- ReadItem(s);
    var v :- of(item);
    Some((v, rest))
  }

  // On every input the typed readings are "read one item, then interpret it".

  lemma TextVia(s: bytes)
    ensures ReadText(s) == Via(s, TextOf)
  {
  }

  lemma BytesVia(s: bytes)
    ensures ReadBytes(s) == Via(s, BytesOf)
  {
  }

  lemma IntegerVia(s: bytes)
    ensures ReadInteger(s) == Via(s, IntegerOf)
  {
  }

  lemma BooleanVia(s: bytes)
    ensures ReadBoolean(s) == Via(s, BooleanOf)
  {
  }

  /** Integers survive writing and reading, for the whole int64 range and any continuation. */
  lemma IntegerRoundTrip(v: int64, rest: bytes)
    ensures WellFormed(IntegerItem(v)) && ReadInteger(Encode(IntegerItem(v)) + rest) == Some((v, rest))
  {
    var n := if v >= 0 then v else -(v + 1);
    ShortestHead(if v >= 0 then 0 else 1, n, rest);
  }
}
