/** The bytes of a printed address, written out: which letter stands for which field, in which order, and what is left
    out. */
module AddressWire {
  import opened Core
  import opened Endian
  import opened Cbor
  import opened CborIO
  import opened Address
  import opened AddressItems
  import Base64Url

  /** A head of section 3 of RFC 8949, as short as possible. */
  function Head(major: nat, n: nat): bytes
    requires major < 8
  {
    if n < 24 then [32 * major + n]
    else if n < 0x100 then [32 * major + 24, n]
    else if n < 0x1_0000 then [32 * major + 25] + ToBE(n, 2)
    else if n < 0x1_0000_0000 then [32 * major + 26] + ToBE(n, 4)
    else [32 * major + 27] + ToBE(n, 8)
  }

  function TextWire(t: bytes): bytes { Head(3, |t|) + t }

  function KeyWire(k: Key32): bytes { [0x58, 0x20] + k }

  function IntegerWire(i: int64): bytes { if i >= 0 then Head(0, i) else Head(1, -1 - i) }

  /** A one-letter text key and a value. */
  function Entry(letter: char, value: bytes): bytes
    requires letter < 128 as char
  {
    [0x61, letter as int] + value
  }

  function Mapped<A, B>(f: A -> B, s: seq<A>): (r: seq<B>)
    ensures |r| == |s| && forall i | 0 <= i < |s| :: r[i] == f(s[i])
  {
    seq(|s|, i requires 0 <= i < |s| => f(s[i]))
  }

  // Nodes.

  function NodeEntries(n: DerpNode): seq<bytes> {
    Opt(n.name != [], Entry('n', TextWire(n.name))) + Opt(n.regionId != 0, Entry('i', IntegerWire(n.regionId)))
    + Opt(n.hostName != [], Entry('h', TextWire(n.hostName))) + Opt(n.certName != [], Entry('t', TextWire(n.certName)))
    + Opt(n.ipv4 != [], Entry('4', TextWire(n.ipv4))) + Opt(n.ipv6 != [], Entry('6', TextWire(n.ipv6)))
    + Opt(n.stunPort != 0, Entry('s', IntegerWire(n.stunPort)))
    + Opt(n.derpPort != 0, Entry('d', IntegerWire(n.derpPort)))
    + Opt(n.insecureForTests, Entry('x', [0xf5]))
  }

  function NodeWire(n: DerpNode): bytes { Head(5, |NodeEntries(n)|) + Concat(NodeEntries(n)) }

  function NodePairWire(f: NodeField): bytes {
    match f
    case NodeName(t) => Entry('n', TextWire(t))
    case NodeRegion(i) => Entry('i', IntegerWire(i))
    case HostName(t) => Entry('h', TextWire(t))
    case CertName(t) => Entry('t', TextWire(t))
    case Ipv4(t) => Entry('4', TextWire(t))
    case Ipv6(t) => Entry('6', TextWire(t))
    case StunPort(i) => Entry('s', IntegerWire(i))
    case DerpPort(i) => Entry('d', IntegerWire(i))
    case InsecureForTests(b) => Entry('x', [if b then 0xf5 else 0xf4])
    case UnknownInNode => Entry('?', [0x60])
  }

  // Regions and addresses.

  function RegionEntries(r: DerpRegion): seq<bytes> {
    Opt(r.regionId != 0, Entry('i', IntegerWire(r.regionId)))
    + Opt(r.regionCode != [], Entry('c', TextWire(r.regionCode)))
    + Opt(r.regionName != [], Entry('m', TextWire(r.regionName)))
    + Opt(r.nodes != [], Entry('N', Head(4, |r.nodes|) + Concat(Mapped(NodeWire, r.nodes))))
  }

  function RegionWire(r: DerpRegion): bytes { Head(5, |RegionEntries(r)|) + Concat(RegionEntries(r)) }

  function InfoEntries(info: ConnInfo): seq<bytes> {
    [Entry('p', KeyWire(info.serverPublic))]
    + Opt(info.serverDiscoPublic.Some?, Entry('k', KeyWire(KeyOr(info.serverDiscoPublic))))
    + Opt(info.presharedKey.Some?, Entry('q', KeyWire(KeyOr(info.presharedKey))))
    + Opt(info.regions != [], Entry('r', Head(4, |info.regions|) + Concat(Mapped(RegionWire, info.regions))))
    + Opt(info.regionId != 0, Entry('i', IntegerWire(info.regionId)))
  }

  function InfoWire(info: ConnInfo): bytes { Head(5, |InfoEntries(info)|) + Concat(InfoEntries(info)) }

  // The encodings are these bytes.

  lemma HeadIs(major: nat, n: nat)
    requires major < 8 && n < TWO_TO_THE_64
    ensures Shortest(n).Fits(n) && EncodeHead(major, Shortest(n), n) == Head(major, n)
  {
    ShortestFits(n);
    ToBEShort(n);
    assert ToBE(n, 0) == [];
    hide ToBE;
  }

  lemma LeavesAre(t: bytes, i: int64)
    requires Sized(t)
    ensures WellFormed(TextItem(t)) && WellFormed(BytesItem(t)) && WellFormed(IntegerItem(i))
    ensures Encode(TextItem(t)) == TextWire(t) && Encode(BytesItem(t)) == Head(2, |t|) + t
    ensures Encode(IntegerItem(i)) == IntegerWire(i)
  {
    LeavesWellFormed(t, i);
    HeadIs(3, |t|);
    HeadIs(2, |t|);
    HeadIs(if i >= 0 then 0 else 1, if i >= 0 then i else -1 - i);
    hide Head, EncodeHead, Shortest;
  }

  lemma EntryIs(letter: char, value: Item)
    requires letter < 128 as char && WellFormed(value)
    ensures WellFormedPair(Pair(TextItem(Key(letter)), value))
    ensures EncodePair(Pair(TextItem(Key(letter)), value)) == Entry(letter, Encode(value))
  {
    LeavesAre(Key(letter), 0);
    assert TextWire(Key(letter)) == [0x61, letter as int];
    hide Encode, WellFormed;
  }

  lemma {:induction false} PairsAre(pairs: seq<Pair>, wires: seq<bytes>)
    requires |pairs| == |wires|
    requires forall i | 0 <= i < |pairs| :: WellFormedPair(pairs[i]) && EncodePair(pairs[i]) == wires[i]
    ensures (forall p | p in pairs :: WellFormedPair(p)) && EncodePairs(pairs) == Concat(wires)
  {
    hide EncodePair, WellFormedPair;
    if pairs != [] {
      PairsAre(pairs[1..], wires[1..]);
      assert forall p | p in pairs :: p == pairs[0] || p in pairs[1..];
    }
  }

  lemma {:induction false} ItemsAre(items: seq<Item>, wires: seq<bytes>)
    requires |items| == |wires|
    requires forall i | 0 <= i < |items| :: WellFormed(items[i]) && Encode(items[i]) == wires[i]
    ensures (forall e | e in items :: WellFormed(e)) && EncodeItems(items) == Concat(wires)
  {
    hide Encode, WellFormed;
    if items != [] {
      ItemsAre(items[1..], wires[1..]);
      assert forall e | e in items :: e == items[0] || e in items[1..];
    }
  }

  lemma MapIs(pairs: seq<Pair>, wires: seq<bytes>)
    requires |pairs| == |wires| < TWO_TO_THE_64
    requires forall i | 0 <= i < |pairs| :: WellFormedPair(pairs[i]) && EncodePair(pairs[i]) == wires[i]
    ensures WellFormed(MapItem(pairs)) && Encode(MapItem(pairs)) == Head(5, |wires|) + Concat(wires)
  {
    PairsAre(pairs, wires);
    HeadIs(5, |wires|);
    hide Head, EncodeHead, EncodePairs, Shortest, WellFormedPair, EncodePair;
  }

  lemma ArrayIs(items: seq<Item>, wires: seq<bytes>)
    requires |items| == |wires| < TWO_TO_THE_64
    requires forall i | 0 <= i < |items| :: WellFormed(items[i]) && Encode(items[i]) == wires[i]
    ensures WellFormed(ArrayItem(items)) && Encode(ArrayItem(items)) == Head(4, |wires|) + Concat(wires)
  {
    ItemsAre(items, wires);
    HeadIs(4, |wires|);
    var item := ArrayItem(items);
    hide Head, EncodeHead, EncodeItems, Shortest;
    assert item == Arr(Shortest(|items|), items);
  }

  lemma BooleanIs(b: bool)
    ensures WellFormed(BooleanItem(b)) && Encode(BooleanItem(b)) == [if b then 0xf5 else 0xf4]
  {
    assert ToBE(20, 0) == [] && ToBE(21, 0) == [];
  }

  lemma NodePairIs(f: NodeField)
    requires NodeFieldFits(f) && !f.UnknownInNode?
    ensures WellFormedPair(NodePair(f)) && EncodePair(NodePair(f)) == NodePairWire(f)
  {
    hide Entry, TextWire, IntegerWire, EncodePair, Encode, WellFormed, WellFormedPair, TextItem, IntegerItem;
    hide BooleanItem, Sized;
    match f {
      case NodeName(t) => TextPairIs('n', t);
      case NodeRegion(i) => IntegerPairIs('i', i);
      case HostName(t) => TextPairIs('h', t);
      case CertName(t) => TextPairIs('t', t);
      case Ipv4(t) => TextPairIs('4', t);
      case Ipv6(t) => TextPairIs('6', t);
      case StunPort(i) => IntegerPairIs('s', i);
      case DerpPort(i) => IntegerPairIs('d', i);
      case InsecureForTests(b) =>
        BooleanIs(b);
        EntryIs('x', BooleanItem(b));
    }
  }

  lemma TextPairIs(letter: char, t: bytes)
    requires letter < 128 as char && Sized(t)
    ensures WellFormedPair(TextPair(letter, t)) && EncodePair(TextPair(letter, t)) == Entry(letter, TextWire(t))
  {
    LeavesAre(t, 0);
    EntryIs(letter, TextItem(t));
    hide Entry, TextWire, EncodePair, Encode, WellFormed, WellFormedPair, TextItem;
  }

  lemma IntegerPairIs(letter: char, i: int64)
    requires letter < 128 as char
    ensures WellFormedPair(IntegerPair(letter, i))
    ensures EncodePair(IntegerPair(letter, i)) == Entry(letter, IntegerWire(i))
  {
    LeavesAre([], i);
    EntryIs(letter, IntegerItem(i));
    hide Entry, IntegerWire, EncodePair, Encode, WellFormed, WellFormedPair, IntegerItem;
  }

  /** The entries of a record are those of its fields. */
  lemma MappedAppend<A, B>(f: A -> B, a: seq<A>, b: seq<A>)
    ensures Mapped(f, a + b) == Mapped(f, a) + Mapped(f, b)
  {
  }

  lemma MappedOpt<A, B>(f: A -> B, front: seq<A>, c: bool, x: A)
    ensures Mapped(f, front + Opt(c, x)) == Mapped(f, front) + Opt(c, f(x))
  {
    MappedAppend(f, front, Opt(c, x));
    assert Mapped(f, Opt(c, x)) == Opt(c, f(x));
  }

  lemma MappedFirst<A, B>(f: A -> B, c: bool, x: A)
    ensures Mapped(f, Opt(c, x)) == Opt(c, f(x))
  {
  }

  lemma NodeEntriesFront(n: DerpNode)
    ensures Mapped(NodePairWire, NodeFieldsFront(n)) ==
            Opt(n.name != [], Entry('n', TextWire(n.name))) + Opt(n.regionId != 0, Entry('i', IntegerWire(n.regionId)))
            + Opt(n.hostName != [], Entry('h', TextWire(n.hostName)))
            + Opt(n.certName != [], Entry('t', TextWire(n.certName)))
  {
    hide Opt, Entry, TextWire, IntegerWire, Mapped;
    var f1 := Opt(n.name != [], NodeName(n.name));
    var f2 := f1 + Opt(n.regionId != 0, NodeRegion(n.regionId));
    var f3 := f2 + Opt(n.hostName != [], HostName(n.hostName));
    MappedFirst(NodePairWire, n.name != [], NodeName(n.name));
    MappedOpt(NodePairWire, f1, n.regionId != 0, NodeRegion(n.regionId));
    MappedOpt(NodePairWire, f2, n.hostName != [], HostName(n.hostName));
    MappedOpt(NodePairWire, f3, n.certName != [], CertName(n.certName));
  }

  lemma NodeEntriesMapped(n: DerpNode)
    ensures NodeEntries(n) == Mapped(NodePairWire, NodeFields(n))
  {
    hide Opt, Entry, TextWire, IntegerWire, Mapped, NodeFieldsFront;
    NodeEntriesFront(n);
    var f0 := NodeFieldsFront(n);
    var f1 := f0 + Opt(n.ipv4 != [], Ipv4(n.ipv4));
    var f2 := f1 + Opt(n.ipv6 != [], Ipv6(n.ipv6));
    var f3 := f2 + Opt(n.stunPort != 0, StunPort(n.stunPort));
    var f4 := f3 + Opt(n.derpPort != 0, DerpPort(n.derpPort));
    MappedOpt(NodePairWire, f0, n.ipv4 != [], Ipv4(n.ipv4));
    MappedOpt(NodePairWire, f1, n.ipv6 != [], Ipv6(n.ipv6));
    MappedOpt(NodePairWire, f2, n.stunPort != 0, StunPort(n.stunPort));
    MappedOpt(NodePairWire, f3, n.derpPort != 0, DerpPort(n.derpPort));
    MappedOpt(NodePairWire, f4, n.insecureForTests, InsecureForTests(true));
  }

  predicate NodeKnown(f: NodeField) { !f.UnknownInNode? }

  ghost predicate AllKnown(fs: seq<NodeField>) { forall f | f in fs :: NodeKnown(f) }

  lemma KnownOpt(front: seq<NodeField>, c: bool, f: NodeField)
    requires AllKnown(front) && NodeKnown(f)
    ensures AllKnown(front + Opt(c, f))
  {
  }

  lemma NodeFrontKnown(n: DerpNode)
    ensures AllKnown(NodeFieldsFront(n))
  {
    hide Opt, AllKnown;
    var f1 := Opt(n.name != [], NodeName(n.name));
    var f2 := f1 + Opt(n.regionId != 0, NodeRegion(n.regionId));
    var f3 := f2 + Opt(n.hostName != [], HostName(n.hostName));
    OneKnown(n.name != [], NodeName(n.name));
    KnownOpt(f1, n.regionId != 0, NodeRegion(n.regionId));
    KnownOpt(f2, n.hostName != [], HostName(n.hostName));
    KnownOpt(f3, n.certName != [], CertName(n.certName));
  }

  lemma OneKnown(c: bool, f: NodeField)
    requires NodeKnown(f)
    ensures AllKnown(Opt(c, f))
  {
  }

  lemma NodeFieldsKnown(n: DerpNode)
    ensures AllKnown(NodeFields(n))
  {
    hide Opt, AllKnown, NodeFieldsFront;
    NodeFrontKnown(n);
    var f0 := NodeFieldsFront(n);
    var f1 := f0 + Opt(n.ipv4 != [], Ipv4(n.ipv4));
    var f2 := f1 + Opt(n.ipv6 != [], Ipv6(n.ipv6));
    var f3 := f2 + Opt(n.stunPort != 0, StunPort(n.stunPort));
    var f4 := f3 + Opt(n.derpPort != 0, DerpPort(n.derpPort));
    KnownOpt(f0, n.ipv4 != [], Ipv4(n.ipv4));
    KnownOpt(f1, n.ipv6 != [], Ipv6(n.ipv6));
    KnownOpt(f2, n.stunPort != 0, StunPort(n.stunPort));
    KnownOpt(f3, n.derpPort != 0, DerpPort(n.derpPort));
    KnownOpt(f4, n.insecureForTests, InsecureForTests(true));
  }

  lemma NodeIs(n: DerpNode)
    requires NodeFits(n)
    ensures WellFormed(NodeItem(n)) && Encode(NodeItem(n)) == NodeWire(n)
  {
    hide NodeFields, NodeEntries, NodePair, NodePairWire, NodeFieldFits, EncodePair, WellFormedPair, Encode, WellFormed;
    hide Head, Concat, MapItem;
    var fs := NodeFields(n);
    NodeFieldsFit(n);
    NodeFieldsKnown(n);
    NodeEntriesMapped(n);
    forall i | 0 <= i < |fs|
      ensures WellFormedPair(NodePairs(fs)[i]) && EncodePair(NodePairs(fs)[i]) == NodeEntries(n)[i]
    {
      assert fs[i] in fs;
      NodePairIs(fs[i]);
    }
    MapIs(NodePairs(fs), NodeEntries(n));
  }

  function RegionPairWire(f: RegionField): bytes {
    match f
    case RegionId(i) => Entry('i', IntegerWire(i))
    case RegionCode(t) => Entry('c', TextWire(t))
    case RegionName(t) => Entry('m', TextWire(t))
    case Nodes(ns) => Entry('N', Head(4, |ns|) + Concat(Mapped(NodeWire, ns)))
    case UnknownInRegion => Entry('?', [0x60])
  }

  lemma RegionPairIs(f: RegionField)
    requires RegionFieldFits(f) && !f.UnknownInRegion?
    ensures WellFormedPair(RegionPair(f)) && EncodePair(RegionPair(f)) == RegionPairWire(f)
  {
    hide Entry, TextWire, IntegerWire, EncodePair, Encode, WellFormed, WellFormedPair, TextItem, IntegerItem, NodeItem;
    hide Sized, Head, Concat, NodeWire, NodeFits, ArrayItem;
    match f {
      case RegionId(i) => IntegerPairIs('i', i);
      case RegionCode(t) => TextPairIs('c', t);
      case RegionName(t) => TextPairIs('m', t);
      case Nodes(ns) =>
        forall i | 0 <= i < |ns|
          ensures WellFormed(NodeItems(ns)[i]) && Encode(NodeItems(ns)[i]) == Mapped(NodeWire, ns)[i]
        {
          NodeIs(ns[i]);
        }
        SizedIs(ns);
        ArrayIs(NodeItems(ns), Mapped(NodeWire, ns));
        EntryIs('N', ArrayItem(NodeItems(ns)));
    }
  }

  lemma SizedIs<T>(s: seq<T>)
    ensures Sized(s) <==> |s| < TWO_TO_THE_64
  {
  }

  lemma RegionEntriesMapped(r: DerpRegion)
    ensures RegionEntries(r) == Mapped(RegionPairWire, RegionFields(r))
  {
    hide Opt, Entry, TextWire, IntegerWire, Mapped, Head, Concat;
    var f1 := Opt(r.regionId != 0, RegionId(r.regionId));
    var f2 := f1 + Opt(r.regionCode != [], RegionCode(r.regionCode));
    var f3 := f2 + Opt(r.regionName != [], RegionName(r.regionName));
    MappedFirst(RegionPairWire, r.regionId != 0, RegionId(r.regionId));
    MappedOpt(RegionPairWire, f1, r.regionCode != [], RegionCode(r.regionCode));
    MappedOpt(RegionPairWire, f2, r.regionName != [], RegionName(r.regionName));
    MappedOpt(RegionPairWire, f3, r.nodes != [], Nodes(r.nodes));
  }

  predicate RegionKnown(f: RegionField) { !f.UnknownInRegion? }

  lemma RegionFieldsKnown(r: DerpRegion)
    ensures forall f | f in RegionFields(r) :: RegionKnown(f)
  {
  }

  lemma RegionIs(r: DerpRegion)
    requires RegionFits(r)
    ensures WellFormed(RegionItem(r)) && Encode(RegionItem(r)) == RegionWire(r)
  {
    hide RegionFields, RegionEntries, RegionPair, RegionPairWire, RegionFieldFits, EncodePair, WellFormedPair;
    hide Encode, WellFormed, Head, Concat, MapItem;
    var fs := RegionFields(r);
    RegionFieldsFit(r);
    RegionFieldsKnown(r);
    RegionEntriesMapped(r);
    forall i | 0 <= i < |fs|
      ensures WellFormedPair(RegionPairs(fs)[i]) && EncodePair(RegionPairs(fs)[i]) == RegionEntries(r)[i]
    {
      assert fs[i] in fs;
      RegionPairIs(fs[i]);
    }
    MapIs(RegionPairs(fs), RegionEntries(r));
  }

  function TopPairWire(f: TopField): bytes {
    match f
    case ServerPublic(k) => Entry('p', KeyWire(k))
    case ServerDisco(k) => Entry('k', KeyWire(k))
    case PresharedKey(k) => Entry('q', KeyWire(k))
    case Regions(rs) => Entry('r', Head(4, |rs|) + Concat(Mapped(RegionWire, rs)))
    case TopRegion(i) => Entry('i', IntegerWire(i))
    case UnknownAtTop => Entry('?', [0x60])
  }

  lemma KeyPairIs(letter: char, k: Key32)
    requires letter < 128 as char
    ensures WellFormedPair(Pair(TextItem(Key(letter)), BytesItem(k)))
    ensures EncodePair(Pair(TextItem(Key(letter)), BytesItem(k))) == Entry(letter, KeyWire(k))
  {
    LeavesAre(k, 0);
    EntryIs(letter, BytesItem(k));
    assert Head(2, 32) == [0x58, 0x20];
    hide Entry, EncodePair, Encode, WellFormed, WellFormedPair, BytesItem, Head;
  }

  lemma TopPairIs(f: TopField)
    requires TopFieldFits(f) && !f.UnknownAtTop?
    ensures WellFormedPair(TopPair(f)) && EncodePair(TopPair(f)) == TopPairWire(f)
  {
    hide Entry, KeyWire, IntegerWire, EncodePair, Encode, WellFormed, WellFormedPair, BytesItem, IntegerItem;
    hide RegionItem, Sized, Head, Concat, RegionWire, RegionFits, ArrayItem;
    match f {
      case ServerPublic(k) => KeyPairIs('p', k);
      case ServerDisco(k) => KeyPairIs('k', k);
      case PresharedKey(k) => KeyPairIs('q', k);
      case TopRegion(i) => IntegerPairIs('i', i);
      case Regions(rs) =>
        forall i | 0 <= i < |rs|
          ensures WellFormed(RegionItems(rs)[i]) && Encode(RegionItems(rs)[i]) == Mapped(RegionWire, rs)[i]
        {
          RegionIs(rs[i]);
        }
        SizedIs(rs);
        ArrayIs(RegionItems(rs), Mapped(RegionWire, rs));
        EntryIs('r', ArrayItem(RegionItems(rs)));
    }
  }

  lemma InfoEntriesMapped(info: ConnInfo)
    ensures InfoEntries(info) == Mapped(TopPairWire, TopFields(info))
  {
    hide Opt, Entry, KeyWire, IntegerWire, Mapped, Head, Concat;
    var psk, disco := KeyOr(info.presharedKey), KeyOr(info.serverDiscoPublic);
    var f1: seq<TopField> := [ServerPublic(info.serverPublic)];
    var f2 := f1 + Opt(info.serverDiscoPublic.Some?, ServerDisco(disco));
    var f3 := f2 + Opt(info.presharedKey.Some?, PresharedKey(psk));
    var f4 := f3 + Opt(info.regions != [], Regions(info.regions));
    assert Mapped(TopPairWire, f1) == [TopPairWire(f1[0])];
    MappedOpt(TopPairWire, f1, info.serverDiscoPublic.Some?, ServerDisco(disco));
    MappedOpt(TopPairWire, f2, info.presharedKey.Some?, PresharedKey(psk));
    MappedOpt(TopPairWire, f3, info.regions != [], Regions(info.regions));
    MappedOpt(TopPairWire, f4, info.regionId != 0, TopRegion(info.regionId));
  }

  predicate TopKnown(f: TopField) { !f.UnknownAtTop? }

  lemma TopFieldsKnown(info: ConnInfo)
    ensures forall f | f in TopFields(info) :: TopKnown(f)
  {
  }

  /** A printed address is tc and the base64url text of exactly these bytes. */
  lemma PrintedBytes(info: ConnInfo)
    requires InfoFits(info) && Print(info).Ok?
    ensures Print(info).value == "tc" + Base64Url.EncodeText(InfoWire(info))
  {
    hide TopFields, InfoEntries, TopPair, TopPairWire, TopFieldFits, EncodePair, WellFormedPair, Encode, WellFormed;
    hide Head, Concat, MapItem, Base64Url.EncodeText;
    var fs := TopFields(info);
    TopFieldsFit(info);
    TopFieldsKnown(info);
    InfoEntriesMapped(info);
    forall i | 0 <= i < |fs|
      ensures WellFormedPair(TopPairs(fs)[i]) && EncodePair(TopPairs(fs)[i]) == InfoEntries(info)[i]
    {
      assert fs[i] in fs;
      TopPairIs(fs[i]);
    }
    MapIs(TopPairs(fs), InfoEntries(info));
  }
}
