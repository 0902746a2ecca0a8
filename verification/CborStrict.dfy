/** How the reader's items differ from the well-formed ones of RFC 8949 section 3: it takes simple values below 32
    that have a byte of their own. */
module CborStrict {
  import opened Core
  import opened Cbor
  import opened Endian

  /** Well-formed by RFC 8949, definite lengths only. */
  predicate Strict(item: Item) {
    match item
    case Scalar(major, w, value) => major in {0, 1, 7} && w.Fits(value) && !(major == 7 && w == One && value < 32)
    case Str(major, w, payload) => major in {2, 3} && w.Fits(|payload|)
    case Arr(w, elems) => w.Fits(|elems|) && forall e | e in elems :: Strict(e)
    case Map(w, pairs) => w.Fits(|pairs|) && forall p | p in pairs :: StrictPair(p)
    case Tag(w, value, inner) => w.Fits(value) && Strict(inner)
  }

  predicate StrictPair(p: Pair) {
    Strict(p.key) && Strict(p.val)
  }

  /** The one head that RFC 8949 section 3.3 forbids and the reader takes. */
  predicate ShortSimple(s: bytes) { |s| >= 2 && s[0] == 0xf8 && s[1] < 0x20 }

  /** `skip` as it would be if it refused these heads. */
  function StrictOne(s: bytes): (r: Option<bytes>)
    ensures r.Some? ==> |r.value| < |s|
    decreases |s|, 0
  {
    if ShortSimple(s) then None
    else
      var (h, rest) :- ReadHead(s);
      if h.major in {0, 1, 7} then Some(rest)
      else if h.major in {2, 3} then
        if h.value > |rest| then None else Some(rest[h.value..])
      else if h.major == 4 then StrictMany(rest, h.value)
      else if h.major == 5 then StrictMany(rest, 2 * h.value)
      else StrictOne(rest)
  }

  function StrictMany(s: bytes, n: nat): (r: Option<bytes>)
    ensures r.Some? ==> |r.value| <= |s|
    decreases |s|, 1
  {
    if n == 0 then Some(s)
    else
      var rest :- StrictOne(s);
      StrictMany(rest, n - 1)
  }

  lemma HeadOfShortSimple(s: bytes)
    requires ReadHead(s).Some?
    ensures ShortSimple(s) <==>
            var h := ReadHead(s).value.0; h.major == 7 && WidthOf(s) == One && h.value < 32
    ensures WidthOf(s).Fits(ReadHead(s).value.0.value)
  {
    HeadSplit(s);
    hide ToBE;
    if s[0] % 32 == 24 {
      assert s[1..2][..0] == [];
      assert FromBE(s[1..2]) == s[1];
    }
  }

  lemma {:induction false} StrictAgrees(s: bytes)
    ensures StrictOne(s) ==
            (if ReadItem(s).Some? && Strict(ReadItem(s).value.0) then Some(ReadItem(s).value.1) else None)
    decreases |s|, 0
  {
    hide ReadHead, ShortSimple, WidthOf;
    if ReadHead(s).Some? {
      HeadOfShortSimple(s);
      var (h, body) := ReadHead(s).value;
      if h.major == 4 {
        StrictItemsAgree(body, h.value);
      } else if h.major == 5 {
        StrictPairsAgree(body, h.value);
      } else if h.major == 6 {
        StrictAgrees(body);
      }
    }
  }

  lemma {:induction false} StrictItemsAgree(s: bytes, n: nat)
    ensures StrictMany(s, n) ==
            (if ReadItems(s, n).Some? && (forall e | e in ReadItems(s, n).value.0 :: Strict(e))
             then Some(ReadItems(s, n).value.1) else None)
    decreases |s|, 1
  {
    hide ReadItem, StrictOne, Strict;
    if n > 0 {
      StrictAgrees(s);
      if ReadItem(s).Some? {
        var (e, rest) := ReadItem(s).value;
        StrictItemsAgree(rest, n - 1);
        if ReadItems(rest, n - 1).Some? {
          assert ReadItems(s, n).value.0 == [e] + ReadItems(rest, n - 1).value.0;
        }
      }
    }
  }

  lemma {:induction false} StrictPairsAgree(s: bytes, n: nat)
    ensures StrictMany(s, 2 * n) ==
            (if ReadPairs(s, n).Some? && (forall p | p in ReadPairs(s, n).value.0 :: StrictPair(p))
             then Some(ReadPairs(s, n).value.1) else None)
    decreases |s|, 2
  {
    hide ReadPair, StrictOne, StrictPair;
    if n > 0 {
      StrictPairAgrees(s, 2 * (n - 1));
      if ReadPair(s).Some? {
        var (p, rest) := ReadPair(s).value;
        StrictPairsAgree(rest, n - 1);
        if ReadPairs(rest, n - 1).Some? {
          assert ReadPairs(s, n).value.0 == [p] + ReadPairs(rest, n - 1).value.0;
        }
      }
    }
  }

  lemma {:induction false} StrictPairAgrees(s: bytes, k: nat)
    ensures StrictMany(s, k + 2) ==
            (if ReadPair(s).Some? && StrictPair(ReadPair(s).value.0) then StrictMany(ReadPair(s).value.1, k) else None)
    decreases |s|, 1
  {
    hide ReadItem, StrictOne, Strict;
    StrictAgrees(s);
    if ReadItem(s).Some? {
      var rest := ReadItem(s).value.1;
      StrictAgrees(rest);
      if StrictOne(s).Some? {
        assert StrictMany(s, k + 2) == StrictMany(rest, k + 1);
      }
    }
  }

  /** The reader takes such a value; the standard does not. */
  lemma ShortSimpleAccepted(v: byte, rest: bytes)
    requires v < 32
    ensures var s := [0xf8, v] + rest;
            && ReadItem(s) == Some((Scalar(7, One, v), rest)) && SkipOne(s) == Some(rest)
            && WellFormed(Scalar(7, One, v)) && !Strict(Scalar(7, One, v)) && StrictOne(s) == None
  {
    Pow256Small();
    ToBEShort(v);
    hide ToBE, Pow256;
    HeadRoundTrip(7, One, v, rest);
    assert [0xf8, v] + rest == EncodeHead(7, One, v) + rest;
  }

  /** Whatever the reader skips is well-formed by the standard exactly when no head inside it is a short simple value:
      skipping strictly accepts the well-formed items, skipping as the code does and not strictly accepts the others. */
  lemma StrictExactly(s: bytes, rest: bytes)
    ensures StrictOne(s) == Some(rest) <==> exists item :: Strict(item) && WellFormed(item) && s == Encode(item) + rest
    ensures SkipOne(s) == Some(rest) && StrictOne(s).None? <==>
            exists item :: !Strict(item) && WellFormed(item) && s == Encode(item) + rest
  {
    hide ReadItem, Encode, Strict, WellFormed, SkipOne, StrictOne;
    StrictAgrees(s);
    SkipAgrees(s);
    if ReadItem(s).Some? {
      ReadSplit(s);
    }
    forall item | WellFormed(item) && s == Encode(item) + rest ensures ReadItem(s) == Some((item, rest)) {
      ReadEncoded(item, rest);
    }
  }
}
