/** Definite-length CBOR (RFC 8949 section 3): item trees, the reader and the writer.

    `Item` is the tree an encoder could have in mind, with the width of every head kept, so that
    non-shortest heads are trees of their own. `ReadItem` is the independent reference the
    cursor-based reader is compared with. */
module Cbor {
  import opened Core
  import opened Endian

  /** How a head stores its argument: in the initial byte, or in 1, 2, 4 or 8 bytes after it. */
  datatype Width = Inline | One | Two | Four | Eight {
    function Extra(): nat {
      match this
      case Inline => 0
      case One => 1
      case Two => 2
      case Four => 4
      case Eight => 8
    }

    predicate Fits(v: nat) {
      if Inline? then v < 24 else v < Pow256(Extra())
    }

    /** The additional information in the low five bits of the initial byte. */
    function Info(v: nat): byte
      requires Fits(v)
    {
      match this
      case Inline => v
      case One => 24
      case Two => 25
      case Four => 26
      case Eight => 27
    }
  }

  datatype Item =
    | Scalar(major: nat, w: Width, value: nat)
    | Str(major: nat, w: Width, payload: bytes)
    | Arr(w: Width, elems: seq<Item>)
    | Map(w: Width, pairs: seq<Pair>)
    | Tag(w: Width, value: nat, inner: Item)

  datatype Pair = Pair(key: Item, val: Item)

  /** What the reader takes for well-formed: unsigned and negative integers and simple values are scalars (majors 0,
      1, 7); byte and text strings carry a payload (majors 2, 3). Simple values below 32 may have a byte of their own,
      which RFC 8949 does not allow; the module CborStrict is about the difference. */
  predicate WellFormed(item: Item) {
    match item
    case Scalar(major, w, value) => major in {0, 1, 7} && w.Fits(value)
    case Str(major, w, payload) => major in {2, 3} && w.Fits(|payload|)
    case Arr(w, elems) => w.Fits(|elems|) && forall e | e in elems :: WellFormed(e)
    case Map(w, pairs) => w.Fits(|pairs|) && forall p | p in pairs :: WellFormedPair(p)
    case Tag(w, value, inner) => w.Fits(value) && WellFormed(inner)
  }

  predicate WellFormedPair(p: Pair) {
    WellFormed(p.key) && WellFormed(p.val)
  }

  function EncodeHead(major: nat, w: Width, v: nat): bytes
    requires major < 8 && w.Fits(v)
  {
    [major * 32 + w.Info(v)] + ToBE(v, w.Extra())
  }

  function Encode(item: Item): bytes
    requires WellFormed(item)
  {
    match item
    case Scalar(major, w, value) => EncodeHead(major, w, value)
    case Str(major, w, payload) => EncodeHead(major, w, |payload|) + payload
    case Arr(w, elems) => EncodeHead(4, w, |elems|) + EncodeItems(elems)
    case Map(w, pairs) => EncodeHead(5, w, |pairs|) + EncodePairs(pairs)
    case Tag(w, value, inner) => EncodeHead(6, w, value) + Encode(inner)
  }

  function EncodeItems(items: seq<Item>): bytes
    requires forall e | e in items :: WellFormed(e)
  {
    if items == [] then [] else Encode(items[0]) + EncodeItems(items[1..])
  }

  function EncodePairs(pairs: seq<Pair>): bytes
    requires forall p | p in pairs :: WellFormedPair(p)
  {
    if pairs == [] then [] else EncodePair(pairs[0]) + EncodePairs(pairs[1..])
  }

  function EncodePair(p: Pair): bytes
    requires WellFormedPair(p)
  {
    Encode(p.key) + Encode(p.val)
  }

  // Reading. Every function takes the unread bytes and returns the value with what is left unread.

  datatype Head = Head(major: nat, value: uint64)

  function ReadHead(s: bytes): (r: Option<(Head, bytes)>)
    ensures r.Some? ==> r.value.0.major < 8 && |r.value.1| < |s|
  {
    if s == [] then None
    else
      var major, ai := s[0] / 32, s[0] % 32;
      if ai < 24 then Some((Head(major, ai), s[1..]))
      else
        var n := ExtraBytes(ai);
        if n == 0 || n > |s| - 1 then None
        else
          FromBEFits(s[1..1 + n]);
          Some((Head(major, FromBE(s[1..1 + n])), s[1 + n..]))
  }

  /** The number of argument bytes; 0 for the reserved values and for indefinite length. */
  function ExtraBytes(ai: nat): nat {
    if ai == 24 then 1 else if ai == 25 then 2 else if ai == 26 then 4 else if ai == 27 then 8 else 0
  }

  lemma FromBEFits(s: bytes)
    requires |s| in {1, 2, 4, 8}
    ensures FromBE(s) < TWO_TO_THE_64
  {
    FromBEBound(s);
    Pow256Values();
  }

  /** The width of the head that starts s. */
  function WidthOf(s: bytes): Width
    requires s != []
  {
    match s[0] % 32
    case 24 => One
    case 25 => Two
    case 26 => Four
    case 27 => Eight
    case _ => Inline
  }

  /** Reference parser: one whole item tree off the front of s. */
  function ReadItem(s: bytes): (r: Option<(Item, bytes)>)
    ensures r.Some? ==> |r.value.1| < |s|
    decreases |s|, 0
  {
    var (h, rest) :- ReadHead(s);
    var w := WidthOf(s);
    if h.major in {0, 1, 7} then Some((Scalar(h.major, w, h.value), rest))
    else if h.major in {2, 3} then
      if h.value > |rest| then None else Some((Str(h.major, w, rest[..h.value]), rest[h.value..]))
    else if h.major == 4 then
      var (elems, after) :- ReadItems(rest, h.value);
      Some((Arr(w, elems), after))
    else if h.major == 5 then
      var (pairs, after) :- ReadPairs(rest, h.value);
      Some((Map(w, pairs), after))
    else
      var (inner, after) :- ReadItem(rest);
      Some((Tag(w, h.value, inner), after))
  }

  function ReadItems(s: bytes, n: nat): (r: Option<(seq<Item>, bytes)>)
    ensures r.Some? ==> |r.value.0| == n && |r.value.1| <= |s|
    decreases |s|, 1
  {
    if n == 0 then Some(([], s))
    else
      var (item, rest) :- ReadItem(s);
      var (items, after) :- ReadItems(rest, n - 1);
      Some(([item] + items, after))
  }

  function ReadPairs(s: bytes, n: nat): (r: Option<(seq<Pair>, bytes)>)
    ensures r.Some? ==> |r.value.0| == n && |r.value.1| <= |s|
    decreases |s|, 2
  {
    if n == 0 then Some(([], s))
    else
      var (p, rest) :- ReadPair(s);
      var (pairs, after) :- ReadPairs(rest, n - 1);
      Some(([p] + pairs, after))
  }

  function ReadPair(s: bytes): (r: Option<(Pair, bytes)>)
    ensures r.Some? ==> |r.value.1| < |s|
    decreases |s|, 1
  {
    var (key, rest) :- ReadItem(s);
    var (val, after) :- ReadItem(rest);
    Some((Pair(key, val), after))
  }

  /** The bytes left after the recursive `skip`; None where it throws. The number of remaining bytes
      decreases although a declared count may be close to 2^64. */
  function SkipOne(s: bytes): (r: Option<bytes>)
    ensures r.Some? ==> |r.value| < |s|
    decreases |s|, 0
  {
    var (h, rest) :- ReadHead(s);
    if h.major in {0, 1, 7} then Some(rest)
    else if h.major in {2, 3} then
      if h.value > |rest| then None else Some(rest[h.value..])
    else if h.major == 4 then SkipMany(rest, h.value)
    else if h.major == 5 then SkipMany(rest, 2 * h.value)
    else SkipOne(rest)
  }

  function SkipMany(s: bytes, n: nat): (r: Option<bytes>)
    ensures r.Some? ==> |r.value| <= |s|
    decreases |s|, 1
  {
    if n == 0 then Some(s)
    else
      var rest :- SkipOne(s);
      SkipMany(rest, n - 1)
  }

  // Heads.

  lemma HeadRoundTrip(major: nat, w: Width, v: nat, rest: bytes)
    requires major < 8 && w.Fits(v)
    ensures v < TWO_TO_THE_64
    ensures ReadHead(EncodeHead(major, w, v) + rest) == Some((Head(major, v), rest))
    ensures WidthOf(EncodeHead(major, w, v) + rest) == w
  {
    var s := EncodeHead(major, w, v) + rest;
    Pow256Values();
    DivUnique(s[0], 32, major, w.Info(v));
    FromToBE(v, if w.Inline? then 8 else w.Extra());
    assert s[1..1 + w.Extra()] == ToBE(v, w.Extra()) && s[1 + w.Extra()..] == rest;
  }

  lemma NoExtraBytes(v: nat)
    ensures ToBE(v, 0) == []
  {
  }

  lemma HeadSplit(s: bytes)
    requires ReadHead(s).Some?
    ensures var (h, rest) := ReadHead(s).value;
            WidthOf(s).Fits(h.value) && s == EncodeHead(h.major, WidthOf(s), h.value) + rest
  {
    hide FromBE, ToBE, Pow256;
    var n := WidthOf(s).Extra();
    assert s[0] == s[0] / 32 * 32 + s[0] % 32;
    assert s == [s[0]] + s[1..1 + n] + s[1 + n..];
    if n > 0 {
      FromBEBound(s[1..1 + n]);
      ToFromBE(s[1..1 + n]);
    } else {
      NoExtraBytes(ReadHead(s).value.0.value);
    }
  }

  /** The width the writer chooses. */
  function Shortest(v: nat): Width {
    if v < 24 then Inline
    else if v <= 0xff then One
    else if v <= 0xffff then Two
    else if v <= 0xffff_ffff then Four
    else Eight
  }

  /** The writer's head is the shortest one (RFC 8949 section 4.2.1) and the reader inverts it, for every uint64. */
  lemma ShortestHead(major: nat, v: uint64, rest: bytes)
    requires major < 8
    ensures Shortest(v).Fits(v)
    ensures ReadHead(EncodeHead(major, Shortest(v), v) + rest) == Some((Head(major, v), rest))
    ensures forall w: Width | w.Fits(v) ::
              |EncodeHead(major, Shortest(v), v)| < |EncodeHead(major, w, v)| || w == Shortest(v)
  {
    Pow256Values();
    HeadRoundTrip(major, Shortest(v), v, rest);
  }

  // Items.

  /** The reference parser reads exactly one encoded item and stops at the suffix. */
  lemma {:induction false} ReadEncoded(item: Item, rest: bytes)
    requires WellFormed(item)
    ensures ReadItem(Encode(item) + rest) == Some((item, rest))
    decreases item, 0
  {
    hide EncodeHead, ReadHead, WidthOf, EncodeItems, EncodePairs;
    match item
    case Scalar(major, w, value) =>
      HeadRoundTrip(major, w, value, rest);
    case Str(major, w, payload) =>
      ReadEncodedStr(major, w, payload, rest);
    case Arr(w, elems) =>
      ReadEncodedItems(elems, rest);
      ReadEncodedArr(w, elems, rest);
    case Map(w, pairs) =>
      ReadEncodedPairs(pairs, rest);
      ReadEncodedMap(w, pairs, rest);
    case Tag(w, value, inner) =>
      ReadEncoded(inner, rest);
      ReadEncodedTag(w, value, inner, rest);
  }

  lemma ReadEncodedArr(w: Width, elems: seq<Item>, rest: bytes)
    requires WellFormed(Arr(w, elems))
    requires ReadItems(EncodeItems(elems) + rest, |elems|) == Some((elems, rest))
    ensures ReadItem(Encode(Arr(w, elems)) + rest) == Some((Arr(w, elems), rest))
  {
    hide EncodeHead, ReadHead, WidthOf;
    AfterHead(4, w, |elems|, EncodeItems(elems), rest);
  }

  lemma ReadEncodedMap(w: Width, pairs: seq<Pair>, rest: bytes)
    requires WellFormed(Map(w, pairs))
    requires ReadPairs(EncodePairs(pairs) + rest, |pairs|) == Some((pairs, rest))
    ensures ReadItem(Encode(Map(w, pairs)) + rest) == Some((Map(w, pairs), rest))
  {
    hide EncodeHead, ReadHead, WidthOf;
    AfterHead(5, w, |pairs|, EncodePairs(pairs), rest);
  }

  lemma ReadEncodedTag(w: Width, value: nat, inner: Item, rest: bytes)
    requires WellFormed(Tag(w, value, inner))
    requires ReadItem(Encode(inner) + rest) == Some((inner, rest))
    ensures ReadItem(Encode(Tag(w, value, inner)) + rest) == Some((Tag(w, value, inner), rest))
  {
    hide EncodeHead, ReadHead, WidthOf;
    AfterHead(6, w, value, Encode(inner), rest);
  }

  lemma AfterHead(major: nat, w: Width, v: nat, body: bytes, rest: bytes)
    requires major < 8 && w.Fits(v)
    ensures v < TWO_TO_THE_64
    ensures ReadHead(EncodeHead(major, w, v) + body + rest) == Some((Head(major, v), body + rest))
    ensures WidthOf(EncodeHead(major, w, v) + body + rest) == w
  {
    HeadRoundTrip(major, w, v, body + rest);
    assert EncodeHead(major, w, v) + body + rest == EncodeHead(major, w, v) + (body + rest);
  }

  lemma ReadEncodedStr(major: nat, w: Width, payload: bytes, rest: bytes)
    requires WellFormed(Str(major, w, payload))
    ensures ReadItem(Encode(Str(major, w, payload)) + rest) == Some((Str(major, w, payload), rest))
  {
    hide EncodeHead, ReadHead, WidthOf;
    AfterHead(major, w, |payload|, payload, rest);
    assert (payload + rest)[..|payload|] == payload && (payload + rest)[|payload|..] == rest;
  }

  lemma {:induction false} ReadEncodedItems(items: seq<Item>, rest: bytes)
    requires forall e | e in items :: WellFormed(e)
    ensures ReadItems(EncodeItems(items) + rest, |items|) == Some((items, rest))
    decreases items, 1
  {
    hide ReadItem, Encode, WellFormed;
    if items == [] {
      assert EncodeItems(items) + rest == rest;
    } else {
      var tail := items[1..];
      ReadEncoded(items[0], EncodeItems(tail) + rest);
      ReadEncodedItems(tail, rest);
      assert EncodeItems(items) + rest == Encode(items[0]) + (EncodeItems(tail) + rest);
      assert items == [items[0]] + tail;
    }
  }

  lemma {:induction false} ReadEncodedPairs(pairs: seq<Pair>, rest: bytes)
    requires forall p | p in pairs :: WellFormedPair(p)
    ensures ReadPairs(EncodePairs(pairs) + rest, |pairs|) == Some((pairs, rest))
    decreases pairs, 1
  {
    hide ReadItem, ReadPair, Encode, EncodePair, WellFormedPair;
    if pairs == [] {
      assert EncodePairs(pairs) + rest == rest;
    } else {
      var p, tail := pairs[0], pairs[1..];
      ReadEncodedPair(p, EncodePairs(tail) + rest);
      ReadEncodedPairs(tail, rest);
      assert EncodePairs(pairs) + rest == EncodePair(p) + (EncodePairs(tail) + rest);
      assert pairs == [p] + tail;
    }
  }

  lemma {:induction false} ReadEncodedPair(p: Pair, rest: bytes)
    requires WellFormedPair(p)
    ensures ReadPair(EncodePair(p) + rest) == Some((p, rest))
    decreases p, 0
  {
    hide ReadItem, Encode;
    ReadEncoded(p.key, Encode(p.val) + rest);
    ReadEncoded(p.val, rest);
    assert EncodePair(p) + rest == Encode(p.key) + (Encode(p.val) + rest);
  }

  /** Whatever the reference parser accepts is the encoding of the tree it returns, followed by the rest. */
  lemma {:induction false} ReadSplit(s: bytes)
    requires ReadItem(s).Some?
    ensures WellFormed(ReadItem(s).value.0)
    ensures s == Encode(ReadItem(s).value.0) + ReadItem(s).value.1
    decreases |s|, 0
  {
    hide EncodeHead, ReadHead, WidthOf, Encode;
    var (h, body) := ReadHead(s).value;
    if h.major == 4 {
      ReadSplitItems(body, h.value);
      ReadSplitArr(s);
    } else if h.major == 5 {
      ReadSplitPairs(body, h.value);
      ReadSplitMap(s);
    } else if h.major == 6 {
      ReadSplit(body);
      ReadSplitTag(s);
    } else {
      ReadSplitFlat(s);
    }
  }

  lemma ReadSplitFlat(s: bytes)
    requires ReadItem(s).Some? && ReadHead(s).value.0.major in {0, 1, 2, 3, 7}
    ensures WellFormed(ReadItem(s).value.0)
    ensures s == Encode(ReadItem(s).value.0) + ReadItem(s).value.1
  {
    hide EncodeHead, ReadHead, WidthOf;
    HeadSplit(s);
    var (h, body) := ReadHead(s).value;
    if h.major in {2, 3} {
      AppendAssociative(EncodeHead(h.major, WidthOf(s), h.value), body[..h.value], body[h.value..]);
      assert body == body[..h.value] + body[h.value..];
    }
  }

  lemma ReadSplitArr(s: bytes)
    requires ReadItem(s).Some? && ReadHead(s).value.0.major == 4
    requires var (h, body) := ReadHead(s).value;
             var (elems, rest) := ReadItems(body, h.value).value;
             (forall e | e in elems :: WellFormed(e)) && body == EncodeItems(elems) + rest
    ensures WellFormed(ReadItem(s).value.0)
    ensures s == Encode(ReadItem(s).value.0) + ReadItem(s).value.1
  {
    hide EncodeHead, ReadHead, WidthOf;
    HeadSplit(s);
    var (h, body) := ReadHead(s).value;
    var (elems, rest) := ReadItems(body, h.value).value;
    AppendAssociative(EncodeHead(4, WidthOf(s), h.value), EncodeItems(elems), rest);
  }

  lemma ReadSplitMap(s: bytes)
    requires ReadItem(s).Some? && ReadHead(s).value.0.major == 5
    requires var (h, body) := ReadHead(s).value;
             var (pairs, rest) := ReadPairs(body, h.value).value;
             (forall p | p in pairs :: WellFormedPair(p)) && body == EncodePairs(pairs) + rest
    ensures WellFormed(ReadItem(s).value.0)
    ensures s == Encode(ReadItem(s).value.0) + ReadItem(s).value.1
  {
    hide EncodeHead, ReadHead, WidthOf;
    HeadSplit(s);
    var (h, body) := ReadHead(s).value;
    var (pairs, rest) := ReadPairs(body, h.value).value;
    AppendAssociative(EncodeHead(5, WidthOf(s), h.value), EncodePairs(pairs), rest);
  }

  lemma ReadSplitTag(s: bytes)
    requires ReadItem(s).Some? && ReadHead(s).value.0.major == 6
    requires var (inner, rest) := ReadItem(ReadHead(s).value.1).value;
             WellFormed(inner) && ReadHead(s).value.1 == Encode(inner) + rest
    ensures WellFormed(ReadItem(s).value.0)
    ensures s == Encode(ReadItem(s).value.0) + ReadItem(s).value.1
  {
    hide EncodeHead, ReadHead, WidthOf;
    HeadSplit(s);
    var (h, body) := ReadHead(s).value;
    var (inner, rest) := ReadItem(body).value;
    AppendAssociative(EncodeHead(6, WidthOf(s), h.value), Encode(inner), rest);
  }

  lemma {:induction false} ReadSplitItems(s: bytes, n: nat)
    requires ReadItems(s, n).Some?
    ensures forall e | e in ReadItems(s, n).value.0 :: WellFormed(e)
    ensures s == EncodeItems(ReadItems(s, n).value.0) + ReadItems(s, n).value.1
    decreases |s|, 1
  {
    hide ReadItem, Encode;
    if n > 0 {
      var after := ReadItem(s).value.1;
      ReadSplit(s);
      ReadSplitItems(after, n - 1);
      assert ReadItems(s, n).value.0[1..] == ReadItems(after, n - 1).value.0;
    }
  }

  lemma {:induction false} ReadSplitPairs(s: bytes, n: nat)
    requires ReadPairs(s, n).Some?
    ensures forall p | p in ReadPairs(s, n).value.0 :: WellFormedPair(p)
    ensures s == EncodePairs(ReadPairs(s, n).value.0) + ReadPairs(s, n).value.1
    decreases |s|, 2
  {
    hide ReadItem, Encode;
    if n > 0 {
      var (p, after) := ReadPair(s).value;
      var (pairs, rest) := ReadPairs(after, n - 1).value;
      ReadSplitPair(s);
      ReadSplitPairs(after, n - 1);
      EncodePairsCons(p, pairs, rest);
      assert ReadPairs(s, n).value == ([p] + pairs, rest);
    }
  }

  lemma EncodePairsCons(p: Pair, pairs: seq<Pair>, rest: bytes)
    requires WellFormedPair(p) && forall q | q in pairs :: WellFormedPair(q)
    ensures forall q | q in [p] + pairs :: WellFormedPair(q)
    ensures EncodePairs([p] + pairs) + rest == EncodePair(p) + (EncodePairs(pairs) + rest)
  {
    hide ReadItem, Encode;
    assert ([p] + pairs)[1..] == pairs;
  }

  lemma {:induction false} ReadSplitPair(s: bytes)
    requires ReadPair(s).Some?
    ensures WellFormedPair(ReadPair(s).value.0)
    ensures s == EncodePair(ReadPair(s).value.0) + ReadPair(s).value.1
    decreases |s|, 1
  {
    hide ReadItem, Encode;
    var (key, body) := ReadItem(s).value;
    var (val, after) := ReadItem(body).value;
    ReadSplit(s);
    ReadSplit(body);
    assert Encode(key) + (Encode(val) + after) == Encode(key) + Encode(val) + after;
  }

  // Skipping.

  lemma {:induction false} SkipAgrees(s: bytes)
    ensures SkipOne(s) == (if ReadItem(s).Some? then Some(ReadItem(s).value.1) else None)
    decreases |s|, 0
  {
    hide ReadHead;
    if ReadHead(s).Some? {
      var (h, body) := ReadHead(s).value;
      if h.major == 4 {
        SkipItemsAgrees(body, h.value);
      } else if h.major == 5 {
        SkipPairsAgrees(body, h.value);
      } else if h.major == 6 {
        SkipAgrees(body);
      }
    }
  }

  lemma {:induction false} SkipItemsAgrees(s: bytes, n: nat)
    ensures SkipMany(s, n) == (if ReadItems(s, n).Some? then Some(ReadItems(s, n).value.1) else None)
    decreases |s|, 1
  {
    hide ReadItem, SkipOne;
    if n > 0 {
      SkipAgrees(s);
      if ReadItem(s).Some? {
        SkipItemsAgrees(ReadItem(s).value.1, n - 1);
      }
    }
  }

  lemma {:induction false} SkipPairsAgrees(s: bytes, n: nat)
    ensures SkipMany(s, 2 * n) == (if ReadPairs(s, n).Some? then Some(ReadPairs(s, n).value.1) else None)
    decreases |s|, 2
  {
    hide ReadItem, SkipOne;
    if n > 0 {
      SkipPairAgrees(s, 2 * (n - 1));
      if ReadPair(s).Some? {
        SkipPairsAgrees(ReadPair(s).value.1, n - 1);
      }
    }
  }

  lemma {:induction false} SkipPairAgrees(s: bytes, k: nat)
    ensures SkipMany(s, k + 2) == (if ReadPair(s).Some? then SkipMany(ReadPair(s).value.1, k) else None)
    decreases |s|, 1
  {
    hide ReadItem, SkipOne;
    SkipAgrees(s);
    if ReadItem(s).Some? {
      var rest := ReadItem(s).value.1;
      SkipAgrees(rest);
      assert SkipMany(s, k + 2) == SkipMany(rest, k + 1);
    }
  }

  /** `skip` succeeds leaving `rest` exactly when the input is one well-formed item followed by `rest`. */
  lemma SkipExactlyOneItem(s: bytes, rest: bytes)
    ensures SkipOne(s) == Some(rest) <==> exists item :: WellFormed(item) && s == Encode(item) + rest
  {
    SkipAgrees(s);
    if SkipOne(s) == Some(rest) {
      ReadSplit(s);
    }
    forall item | WellFormed(item) && s == Encode(item) + rest
      ensures SkipOne(s) == Some(rest)
    {
      ReadEncoded(item, rest);
    }
  }
}
