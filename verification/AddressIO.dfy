/** `parse_tailcat_addr` and `encode_tailcat_addr` as they run: one cursor, one growing buffer, records filled in
    loops. */
module AddressIO {
  import opened Core
  import opened Cbor
  import opened CborIO
  import opened Entries
  import opened Address
  import opened AddressItems
  import Base64Url

  /** A field reading followed by the update of the record. */
  function Updated<R, F>(set1: (R, F) -> R, acc: R, read: Option<(F, bytes)>): Option<(R, bytes)> {
    var (f, rest) :- read;
    Some((set1(acc, f), rest))
  }

  lemma FoldEntriesStep<R, F>(
    readField: (bytes, bytes) -> Option<(F, bytes)>, set1: (R, F) -> R, s: bytes, n: nat, acc: R)
    requires n > 0
    ensures FoldEntries(readField, set1, s, n, acc) ==
            if ReadText(s).None? then None
            else
              var (key, rest) := ReadText(s).value;
              var next := Updated(set1, acc, readField(key, rest));
              if next.None? then None else FoldEntries(readField, set1, next.value.1, n - 1, next.value.0)
  {
  }

  method ReadNodeEntry(r: CborReader, key: bytes, n: DerpNode) returns (res: Option<DerpNode>)
    requires r.Valid()
    modifies r`pos
    ensures r.Agrees(Updated(SetNode, n, ReadNodeField(key, old(r.Rest()))), res)
  {
    hide ReadText, ReadInteger, ReadBoolean, SkipOne;
    if key == Key('n') || key == Key('h') || key == Key('t') || key == Key('4') || key == Key('6') {
      var t := r.Text();
      if t.None? {
        return None;
      }
      return Some(if key == Key('n') then n.(name := t.value)
                  else if key == Key('h') then n.(hostName := t.value)
                  else if key == Key('t') then n.(certName := t.value)
                  else if key == Key('4') then n.(ipv4 := t.value)
                  else n.(ipv6 := t.value));
    } else if key == Key('i') || key == Key('s') || key == Key('d') {
      var i := r.Integer();
      if i.None? {
        return None;
      }
      return Some(if key == Key('i') then n.(regionId := i.value)
                  else if key == Key('s') then n.(stunPort := i.value)
                  else n.(derpPort := i.value));
    } else if key == Key('x') {
      var b := r.Boolean();
      if b.None? {
        return None;
      }
      return Some(n.(insecureForTests := b.value));
    } else {
      var ok := r.Skip();
      return if ok then Some(n) else None;
    }
  }

  method ReadNodeFrom(r: CborReader) returns (res: Option<DerpNode>)
    requires r.Valid()
    modifies r`pos
    ensures r.Agrees(ReadNode(old(r.Rest())), res)
  {
    hide ReadText, ReadMajor, ReadNodeField, FoldEntries, Updated;
    var count := r.MapSize();
    if count.None? {
      return None;
    }
    ghost var s := r.Rest();
    var n := EMPTY_NODE;
    var i := 0;
    while i < count.value
      invariant r.Valid() && 0 <= i <= count.value
      invariant FoldEntries(ReadNodeField, SetNode, r.Rest(), count.value - i, n) ==
                FoldEntries(ReadNodeField, SetNode, s, count.value, EMPTY_NODE)
    {
      FoldEntriesStep(ReadNodeField, SetNode, r.Rest(), count.value - i, n);
      var key := r.Text();
      if key.None? {
        return None;
      }
      var next := ReadNodeEntry(r, key.value, n);
      if next.None? {
        return None;
      }
      n := next.value;
      i := i + 1;
    }
    FoldEntriesDone(ReadNodeField, SetNode, r.Rest(), n);
    return Some(n);
  }

  lemma FoldEntriesDone<R, F>(readField: (bytes, bytes) -> Option<(F, bytes)>, set1: (R, F) -> R, s: bytes, acc: R)
    ensures FoldEntries(readField, set1, s, 0, acc) == Some((acc, s))
  {
  }

  /** What is left to read after the first elements of an array. */
  function AfterSome<T>(front: seq<T>, more: Option<(seq<T>, bytes)>): Option<(seq<T>, bytes)> {
    var (xs, rest) :- more;
    Some((front + xs, rest))
  }

  lemma ReadManyStep<T>(read: bytes -> Option<(T, bytes)>, s: bytes, n: nat, front: seq<T>)
    ensures n == 0 ==> AfterSome(front, ReadMany(read, s, n)) == Some((front, s))
    ensures n > 0 && read(s).None? ==> AfterSome(front, ReadMany(read, s, n)) == None
    ensures n > 0 && read(s).Some? ==>
              var (x, rest) := read(s).value;
              AfterSome(front, ReadMany(read, s, n)) == AfterSome(front + [x], ReadMany(read, rest, n - 1))
  {
    if n == 0 {
      assert front + [] == front;
    } else if read(s).Some? && ReadMany(read, read(s).value.1, n - 1).Some? {
      AppendAssociative(front, [read(s).value.0], ReadMany(read, read(s).value.1, n - 1).value.0);
    }
  }

  lemma AfterNone<T>(more: Option<(seq<T>, bytes)>)
    ensures AfterSome([], more) == more
  {
    if more.Some? {
      assert [] + more.value.0 == more.value.0;
    }
  }

  method ReadNodesFrom(r: CborReader) returns (res: Option<seq<DerpNode>>)
    requires r.Valid()
    modifies r`pos
    ensures r.Agrees(ReadNodes(old(r.Rest())), res)
  {
    hide ReadMajor, ReadNode, ReadMany;
    var n := r.ArraySize();
    if n.None? {
      return None;
    }
    ghost var s := r.Rest();
    var nodes: seq<DerpNode> := [];
    var j := 0;
    AfterNone(ReadMany(ReadNode, s, n.value));
    while j < n.value
      invariant r.Valid() && 0 <= j <= n.value
      invariant AfterSome(nodes, ReadMany(ReadNode, r.Rest(), n.value - j)) == ReadMany(ReadNode, s, n.value)
    {
      ReadManyStep(ReadNode, r.Rest(), n.value - j, nodes);
      var node := ReadNodeFrom(r);
      if node.None? {
        return None;
      }
      nodes := nodes + [node.value];
      j := j + 1;
    }
    ReadManyStep(ReadNode, r.Rest(), 0, nodes);
    return Some(nodes);
  }

  method ReadRegionEntry(r: CborReader, key: bytes, region: DerpRegion) returns (res: Option<DerpRegion>)
    requires r.Valid()
    modifies r`pos
    ensures r.Agrees(Updated(SetRegion, region, ReadRegionField(key, old(r.Rest()))), res)
  {
    hide ReadText, ReadInteger, SkipOne, ReadNodes;
    if key == Key('i') {
      var i := r.Integer();
      if i.None? {
        return None;
      }
      return Some(region.(regionId := i.value));
    } else if key == Key('c') {
      var t := r.Text();
      if t.None? {
        return None;
      }
      return Some(region.(regionCode := t.value));
    } else if key == Key('m') {
      var t := r.Text();
      if t.None? {
        return None;
      }
      return Some(region.(regionName := t.value));
    } else if key == Key('N') {
      var ns := ReadNodesFrom(r);
      if ns.None? {
        return None;
      }
      return Some(region.(nodes := region.nodes + ns.value));
    } else {
      var ok := r.Skip();
      return if ok then Some(region) else None;
    }
  }

  method ReadRegionFrom(r: CborReader) returns (res: Option<DerpRegion>)
    requires r.Valid()
    modifies r`pos
    ensures r.Agrees(ReadRegion(old(r.Rest())), res)
  {
    hide ReadText, ReadMajor, ReadRegionField, FoldEntries, Updated, FillNodes;
    var count := r.MapSize();
    if count.None? {
      return None;
    }
    ghost var s := r.Rest();
    var region := EMPTY_REGION;
    var i := 0;
    while i < count.value
      invariant r.Valid() && 0 <= i <= count.value
      invariant FoldEntries(ReadRegionField, SetRegion, r.Rest(), count.value - i, region) ==
                FoldEntries(ReadRegionField, SetRegion, s, count.value, EMPTY_REGION)
    {
      FoldEntriesStep(ReadRegionField, SetRegion, r.Rest(), count.value - i, region);
      var key := r.Text();
      if key.None? {
        return None;
      }
      var next := ReadRegionEntry(r, key.value, region);
      if next.None? {
        return None;
      }
      region := next.value;
      i := i + 1;
    }
    FoldEntriesDone(ReadRegionField, SetRegion, r.Rest(), region);
    var nodes := FillRegionIds(region);
    return Some(region.(nodes := nodes));
  }

  /** The loop at the end of `read_region`. */
  method FillRegionIds(region: DerpRegion) returns (nodes: seq<DerpNode>)
    ensures region.(nodes := nodes) == FillNodes(region)
  {
    nodes := region.nodes;
    var i := 0;
    while i < |nodes|
      invariant 0 <= i <= |nodes| == |region.nodes|
      invariant forall j | 0 <= j < i :: nodes[j] == FillNodes(region).nodes[j]
      invariant forall j | i <= j < |nodes| :: nodes[j] == region.nodes[j]
    {
      if nodes[i].regionId == 0 {
        nodes := nodes[i := nodes[i].(regionId := region.regionId)];
      }
      i := i + 1;
    }
    assert nodes == FillNodes(region).nodes;
  }

  method ReadKeyFrom(r: CborReader) returns (res: Option<Key32>)
    requires r.Valid()
    modifies r`pos
    ensures r.Agrees(ReadKey(old(r.Rest())), res)
  {
    hide ReadBytes;
    var raw := r.Bytes();
    if raw.None? || |raw.value| != 32 {
      return None;
    }
    return Some(raw.value);
  }

  method ReadRegionsFrom(r: CborReader) returns (res: Option<seq<DerpRegion>>)
    requires r.Valid()
    modifies r`pos
    ensures r.Agrees(ReadRegions(old(r.Rest())), res)
  {
    hide ReadMajor, ReadRegion, ReadMany;
    var n := r.ArraySize();
    if n.None? || n.value > 1 {
      return None;
    }
    ghost var s := r.Rest();
    var regions: seq<DerpRegion> := [];
    var j := 0;
    AfterNone(ReadMany(ReadRegion, s, n.value));
    while j < n.value
      invariant r.Valid() && 0 <= j <= n.value
      invariant AfterSome(regions, ReadMany(ReadRegion, r.Rest(), n.value - j)) == ReadMany(ReadRegion, s, n.value)
    {
      ReadManyStep(ReadRegion, r.Rest(), n.value - j, regions);
      var region := ReadRegionFrom(r);
      if region.None? {
        return None;
      }
      regions := regions + [region.value];
      j := j + 1;
    }
    ReadManyStep(ReadRegion, r.Rest(), 0, regions);
    return Some(regions);
  }

  method ReadTopEntry(r: CborReader, key: bytes, d: Draft) returns (res: Option<Draft>)
    requires r.Valid()
    modifies r`pos
    ensures r.Agrees(Updated(SetTop, d, ReadTopField(key, old(r.Rest()))), res)
  {
    hide ReadKey, ReadInteger, SkipOne, ReadRegions;
    if key == Key('p') || key == Key('k') || key == Key('q') {
      var k := ReadKeyFrom(r);
      if k.None? {
        return None;
      }
      return Some(if key == Key('p') then Draft(d.info.(serverPublic := k.value), true)
                  else if key == Key('k') then d.(info := d.info.(serverDiscoPublic := k))
                  else d.(info := d.info.(presharedKey := k)));
    } else if key == Key('r') {
      var rs := ReadRegionsFrom(r);
      if rs.None? {
        return None;
      }
      return Some(d.(info := d.info.(regions := d.info.regions + rs.value)));
    } else if key == Key('i') {
      var i := r.Integer();
      if i.None? {
        return None;
      }
      return Some(d.(info := d.info.(regionId := i.value)));
    } else {
      var ok := r.Skip();
      return if ok then Some(d) else None;
    }
  }

  method ReadTopFrom(r: CborReader) returns (res: Option<Draft>)
    requires r.Valid()
    modifies r`pos
    ensures r.Agrees(ReadTop(old(r.Rest())), res)
  {
    hide ReadText, ReadMajor, ReadTopField, FoldEntries, Updated;
    var count := r.MapSize();
    if count.None? {
      return None;
    }
    ghost var s := r.Rest();
    var d := EMPTY_DRAFT;
    var i := 0;
    while i < count.value
      invariant r.Valid() && 0 <= i <= count.value
      invariant FoldEntries(ReadTopField, SetTop, r.Rest(), count.value - i, d) ==
                FoldEntries(ReadTopField, SetTop, s, count.value, EMPTY_DRAFT)
    {
      FoldEntriesStep(ReadTopField, SetTop, r.Rest(), count.value - i, d);
      var key := r.Text();
      if key.None? {
        return None;
      }
      var next := ReadTopEntry(r, key.value, d);
      if next.None? {
        return None;
      }
      d := next.value;
      i := i + 1;
    }
    FoldEntriesDone(ReadTopField, SetTop, r.Rest(), d);
    return Some(d);
  }

  method ParseTailcatAddr(addr: string) returns (res: Result<ConnInfo, AddressError>)
    ensures res == Parse(addr)
  {
    hide ReadTop;
    if |addr| < 2 || addr[..2] != "tc" {
      return Err(BadPrefix);
    }
    assert "tc" <= addr;
    var raw := Base64Url.Base64UrlDecode(addr[2..]);
    if raw.None? {
      return Err(BadBase64);
    }
    var r := new CborReader(raw.value);
    var d := ReadTopFrom(r);
    if d.None? {
      return Err(BadCbor);
    }
    var done := r.Done();
    if !done {
      return Err(TrailingData);
    }
    var info := d.value.info;
    if !d.value.havePublic || AllZero(info.serverPublic) {
      return Err(MissingServerPublic);
    }
    if info.serverDiscoPublic.Some? && AllZero(info.serverDiscoPublic.value) {
      return Err(ZeroServerDisco);
    }
    if |info.regions| > 0 && info.regionId == 0 {
      info := info.(regionId := info.regions[0].regionId);
    }
    if info.regionId == 0 && |info.regions| == 0 {
      return Err(MissingRegion);
    }
    return Ok(info);
  }

  // Printing.

  lemma {:induction false} EncodePairsSnoc(a: seq<Pair>, p: Pair)
    requires WellFormedPair(p) && forall q | q in a :: WellFormedPair(q)
    ensures forall q | q in a + [p] :: WellFormedPair(q)
    ensures EncodePairs(a + [p]) == EncodePairs(a) + EncodePair(p)
  {
    hide EncodePair, WellFormedPair;
    if a == [] {
      assert a + [p] == [p] && [p][1..] == [];
    } else {
      EncodePairsSnoc(a[1..], p);
      assert (a + [p])[1..] == a[1..] + [p];
      AppendAssociative(EncodePair(a[0]), EncodePairs(a[1..]), EncodePair(p));
    }
  }

  /** The buffer after a map header and some entries. */
  ghost predicate Wrote(out: bytes, before: bytes, n: nat, pairs: seq<Pair>) {
    && n < TWO_TO_THE_64 && Shortest(n).Fits(n)
    && (forall p | p in pairs :: WellFormedPair(p))
    && out == before + EncodeHead(5, Shortest(n), n) + EncodePairs(pairs)
  }

  /** Key and value appended after some entries. */
  lemma EntryWritten(out: bytes, before: bytes, n: nat, pairs: seq<Pair>, p: Pair)
    requires Wrote(out, before, n, pairs) && WellFormedPair(p)
    ensures Wrote(out + Encode(p.key) + Encode(p.val), before, n, pairs + [p])
  {
    hide Encode, EncodeHead, EncodePairs, WellFormed;
    EncodePairsSnoc(pairs, p);
    var front := before + EncodeHead(5, Shortest(n), n);
    AppendAssociative(out, Encode(p.key), Encode(p.val));
    AppendAssociative(front, EncodePairs(pairs), EncodePair(p));
  }

  method StartMap(w: CborWriter, n: uint64)
    modifies w
    ensures Wrote(w.out, old(w.out), n, [])
  {
    hide EncodeHead;
    w.WriteHead(5, n);
    assert w.out + [] == w.out;
  }

  method TextEntry(w: CborWriter, c: char, t: bytes, ghost before: bytes, ghost n: nat, ghost pairs: seq<Pair>)
    requires c < 128 as char && Sized(t) && Wrote(w.out, before, n, pairs)
    modifies w
    ensures Wrote(w.out, before, n, pairs + Opt(t != [], TextPair(c, t)))
  {
    hide TextItem, Encode, EncodeHead, EncodePairs, WellFormed;
    if |t| > 0 {
      ghost var start := w.out;
      w.WriteText(Key(c));
      w.WriteText(t);
      EntryWritten(start, before, n, pairs, TextPair(c, t));
    } else {
      assert pairs + [] == pairs;
    }
  }

  method IntegerEntry(w: CborWriter, c: char, i: int64, ghost before: bytes, ghost n: nat, ghost pairs: seq<Pair>)
    requires c < 128 as char && Wrote(w.out, before, n, pairs)
    modifies w
    ensures Wrote(w.out, before, n, pairs + Opt(i != 0, IntegerPair(c, i)))
  {
    hide TextItem, IntegerItem, Encode, EncodeHead, EncodePairs, WellFormed;
    if i != 0 {
      ghost var start := w.out;
      w.WriteText(Key(c));
      w.WriteInteger(i);
      EntryWritten(start, before, n, pairs, IntegerPair(c, i));
    } else {
      assert pairs + [] == pairs;
    }
  }

  method KeyEntry(w: CborWriter, c: char, k: Option<Key32>, ghost before: bytes, ghost n: nat, ghost pairs: seq<Pair>)
    requires c < 128 as char && Wrote(w.out, before, n, pairs)
    modifies w
    ensures Wrote(w.out, before, n, pairs + Opt(k.Some?, Pair(TextItem(Key(c)), BytesItem(KeyOr(k)))))
  {
    hide TextItem, BytesItem, Encode, EncodeHead, EncodePairs, WellFormed;
    if k.Some? {
      ghost var start := w.out;
      w.WriteText(Key(c));
      w.WriteBytes(k.value);
      EntryWritten(start, before, n, pairs, Pair(TextItem(Key(c)), BytesItem(k.value)));
    } else {
      assert pairs + [] == pairs;
    }
  }

  lemma MapWritten(w: CborWriter, before: bytes, pairs: seq<Pair>)
    requires Wrote(w.out, before, |pairs|, pairs)
    ensures WellFormed(MapItem(pairs)) && w.out == before + Encode(MapItem(pairs))
  {
    hide EncodeHead, EncodePairs;
    AppendAssociative(before, EncodeHead(5, Shortest(|pairs|), |pairs|), EncodePairs(pairs));
  }

  function One(c: bool): nat { if c then 1 else 0 }

  /** Writing an optional field extends the pairs of the fields written so far. */
  lemma NodePairsSnoc(fs: seq<NodeField>, c: bool, f: NodeField)
    ensures NodePairs(fs) + Opt(c, NodePair(f)) == NodePairs(fs + Opt(c, f))
    ensures |fs + Opt(c, f)| == |fs| + One(c)
  {
    hide NodePair;
  }

  lemma RegionPairsSnoc(fs: seq<RegionField>, c: bool, f: RegionField)
    ensures RegionPairs(fs) + Opt(c, RegionPair(f)) == RegionPairs(fs + Opt(c, f))
    ensures |fs + Opt(c, f)| == |fs| + One(c)
  {
    hide RegionPair;
  }

  lemma TopPairsSnoc(fs: seq<TopField>, c: bool, f: TopField)
    ensures TopPairs(fs) + Opt(c, TopPair(f)) == TopPairs(fs + Opt(c, f))
    ensures |fs + Opt(c, f)| == |fs| + One(c)
  {
    hide TopPair;
  }

  /** The number of entries counted before the map header is written. */
  function NodeEntries(n: DerpNode): nat {
    One(n.name != []) + One(n.regionId != 0) + One(n.hostName != []) + One(n.certName != [])
    + One(n.ipv4 != []) + One(n.ipv6 != []) + One(n.stunPort != 0) + One(n.derpPort != 0) + One(n.insecureForTests)
  }

  lemma NodeCount(n: DerpNode)
    ensures |NodePairs(NodeFields(n))| == NodeEntries(n) < TWO_TO_THE_64
  {
    hide NodePair, Opt;
  }

  method WriteNode(w: CborWriter, n: DerpNode)
    requires NodeFits(n)
    modifies w
    ensures WellFormed(NodeItem(n)) && w.out == old(w.out) + Encode(NodeItem(n))
  {
    hide Wrote, Opt, NodePairs, NodeFieldsFront, NodeFields, WellFormed, Encode, NodeEntries;
    NodeCount(n);
    var count := NodeEntries(n);
    ghost var before := w.out;
    StartMap(w, count);
    WriteNodeFront(w, n, before, count);
    WriteNodeBack(w, n, before, count);
    MapWritten(w, before, NodePairs(NodeFields(n)));
  }

  /** The other five conditional entries of `write_node`. */
  method WriteNodeBack(w: CborWriter, n: DerpNode, ghost before: bytes, ghost count: nat)
    requires NodeFits(n) && Wrote(w.out, before, count, NodePairs(NodeFieldsFront(n)))
    modifies w
    ensures Wrote(w.out, before, count, NodePairs(NodeFields(n)))
  {
    hide Wrote, Opt, NodePairs, NodeFieldsFront;
    ghost var fs := NodeFieldsFront(n);
    TextEntry(w, '4', n.ipv4, before, count, NodePairs(fs));
    NodePairsSnoc(fs, n.ipv4 != [], Ipv4(n.ipv4));
    fs := fs + Opt(n.ipv4 != [], Ipv4(n.ipv4));
    TextEntry(w, '6', n.ipv6, before, count, NodePairs(fs));
    NodePairsSnoc(fs, n.ipv6 != [], Ipv6(n.ipv6));
    fs := fs + Opt(n.ipv6 != [], Ipv6(n.ipv6));
    IntegerEntry(w, 's', n.stunPort, before, count, NodePairs(fs));
    NodePairsSnoc(fs, n.stunPort != 0, StunPort(n.stunPort));
    fs := fs + Opt(n.stunPort != 0, StunPort(n.stunPort));
    IntegerEntry(w, 'd', n.derpPort, before, count, NodePairs(fs));
    NodePairsSnoc(fs, n.derpPort != 0, DerpPort(n.derpPort));
    fs := fs + Opt(n.derpPort != 0, DerpPort(n.derpPort));
    FlagEntry(w, 'x', n.insecureForTests, before, count, NodePairs(fs));
    NodePairsSnoc(fs, n.insecureForTests, InsecureForTests(true));
  }

  /** The first four conditional entries of `write_node`. */
  method WriteNodeFront(w: CborWriter, n: DerpNode, ghost before: bytes, ghost count: nat)
    requires NodeFits(n) && Wrote(w.out, before, count, [])
    modifies w
    ensures Wrote(w.out, before, count, NodePairs(NodeFieldsFront(n)))
  {
    hide Wrote, Opt, NodePairs;
    ghost var fs: seq<NodeField> := [];
    NoNodePairs();
    TextEntry(w, 'n', n.name, before, count, NodePairs(fs));
    NodePairsSnoc(fs, n.name != [], NodeName(n.name));
    fs := Opt(n.name != [], NodeName(n.name));
    assert [] + fs == fs;
    IntegerEntry(w, 'i', n.regionId, before, count, NodePairs(fs));
    NodePairsSnoc(fs, n.regionId != 0, NodeRegion(n.regionId));
    fs := fs + Opt(n.regionId != 0, NodeRegion(n.regionId));
    TextEntry(w, 'h', n.hostName, before, count, NodePairs(fs));
    NodePairsSnoc(fs, n.hostName != [], HostName(n.hostName));
    fs := fs + Opt(n.hostName != [], HostName(n.hostName));
    TextEntry(w, 't', n.certName, before, count, NodePairs(fs));
    NodePairsSnoc(fs, n.certName != [], CertName(n.certName));
  }

  lemma NoNodePairs()
    ensures NodePairs([]) == []
  {
  }

  method FlagEntry(w: CborWriter, c: char, b: bool, ghost before: bytes, ghost n: nat, ghost pairs: seq<Pair>)
    requires c < 128 as char && Wrote(w.out, before, n, pairs)
    modifies w
    ensures Wrote(w.out, before, n, pairs + Opt(b, Pair(TextItem(Key(c)), BooleanItem(true))))
  {
    hide TextItem, BooleanItem, Encode, EncodeHead, EncodePairs, WellFormed;
    if b {
      ghost var start := w.out;
      w.WriteText(Key(c));
      w.WriteBoolean(true);
      EntryWritten(start, before, n, pairs, Pair(TextItem(Key(c)), BooleanItem(true)));
    } else {
      assert pairs + [] == pairs;
    }
  }

  lemma {:induction false} EncodeItemsSnoc(a: seq<Item>, x: Item)
    requires WellFormed(x) && forall e | e in a :: WellFormed(e)
    ensures forall e | e in a + [x] :: WellFormed(e)
    ensures EncodeItems(a + [x]) == EncodeItems(a) + Encode(x)
  {
    hide Encode, WellFormed;
    if a == [] {
      assert a + [x] == [x] && [x][1..] == [];
    } else {
      EncodeItemsSnoc(a[1..], x);
      assert (a + [x])[1..] == a[1..] + [x];
      AppendAssociative(Encode(a[0]), EncodeItems(a[1..]), Encode(x));
    }
  }

  /** The buffer after an array header and some elements. */
  ghost predicate WroteElements(out: bytes, before: bytes, n: nat, elems: seq<Item>) {
    && n < TWO_TO_THE_64 && Shortest(n).Fits(n)
    && (forall e | e in elems :: WellFormed(e))
    && out == before + EncodeHead(4, Shortest(n), n) + EncodeItems(elems)
  }

  lemma ElementWritten(out: bytes, before: bytes, n: nat, elems: seq<Item>, x: Item)
    requires WroteElements(out, before, n, elems) && WellFormed(x)
    ensures WroteElements(out + Encode(x), before, n, elems + [x])
  {
    hide Encode, EncodeHead, EncodeItems, WellFormed;
    EncodeItemsSnoc(elems, x);
    AppendAssociative(before + EncodeHead(4, Shortest(n), n), EncodeItems(elems), Encode(x));
  }

  method StartArray(w: CborWriter, n: uint64)
    modifies w
    ensures WroteElements(w.out, old(w.out), n, [])
  {
    hide EncodeHead;
    w.WriteHead(4, n);
    assert w.out + [] == w.out;
  }

  lemma ArrayWritten(out: bytes, before: bytes, elems: seq<Item>)
    requires WroteElements(out, before, |elems|, elems)
    ensures WellFormed(ArrayItem(elems)) && out == before + Encode(ArrayItem(elems))
  {
    hide EncodeHead, EncodeItems;
    AppendAssociative(before, EncodeHead(4, Shortest(|elems|), |elems|), EncodeItems(elems));
  }

  method WriteNodes(w: CborWriter, nodes: seq<DerpNode>)
    requires Sized(nodes) && forall n | n in nodes :: NodeFits(n)
    modifies w
    ensures WellFormed(ArrayItem(NodeItems(nodes))) && w.out == old(w.out) + Encode(ArrayItem(NodeItems(nodes)))
  {
    hide WroteElements, Encode, WellFormed, NodeItem, ArrayItem, NodeFits;
    ghost var before := w.out;
    StartArray(w, |nodes|);
    var i := 0;
    assert NodeItems(nodes[..0]) == [];
    while i < |nodes|
      invariant 0 <= i <= |nodes|
      invariant WroteElements(w.out, before, |nodes|, NodeItems(nodes[..i]))
    {
      assert nodes[i] in nodes;
      ghost var start := w.out;
      WriteNode(w, nodes[i]);
      ElementWritten(start, before, |nodes|, NodeItems(nodes[..i]), NodeItem(nodes[i]));
      assert NodeItems(nodes[..i]) + [NodeItem(nodes[i])] == NodeItems(nodes[..i + 1]);
      i := i + 1;
    }
    assert nodes[..i] == nodes;
    ArrayWritten(w.out, before, NodeItems(nodes));
  }

  /** The number of entries counted before the map header is written. */
  function RegionEntries(r: DerpRegion): nat {
    One(r.regionId != 0) + One(r.regionCode != []) + One(r.regionName != []) + One(r.nodes != [])
  }

  lemma RegionCount(r: DerpRegion)
    ensures |RegionPairs(RegionFields(r))| == RegionEntries(r) < TWO_TO_THE_64
  {
    hide RegionPair;
  }

  lemma NoPairs()
    ensures RegionPairs([]) == [] && TopPairs([]) == []
  {
  }

  method WriteRegion(w: CborWriter, r: DerpRegion)
    requires RegionFits(r)
    modifies w
    ensures WellFormed(RegionItem(r)) && w.out == old(w.out) + Encode(RegionItem(r))
  {
    hide Wrote, RegionPairs, RegionFields, RegionFits, WellFormed, Encode, RegionEntries, MapItem;
    RegionCount(r);
    var count := RegionEntries(r);
    ghost var before := w.out;
    StartMap(w, count);
    WriteRegionEntries(w, r, before, count);
    MapWritten(w, before, RegionPairs(RegionFields(r)));
  }

  /** The four conditional entries of `write_region`. */
  method WriteRegionEntries(w: CborWriter, r: DerpRegion, ghost before: bytes, ghost count: nat)
    requires RegionFits(r) && Wrote(w.out, before, count, [])
    modifies w
    ensures Wrote(w.out, before, count, RegionPairs(RegionFields(r)))
  {
    hide Wrote, Opt, RegionPairs, NodeFits, TextItem, IntegerItem;
    NoPairs();
    ghost var fs: seq<RegionField> := [];
    IntegerEntry(w, 'i', r.regionId, before, count, RegionPairs(fs));
    RegionPairsSnoc(fs, r.regionId != 0, RegionId(r.regionId));
    fs := Opt(r.regionId != 0, RegionId(r.regionId));
    assert [] + fs == fs;
    TextEntry(w, 'c', r.regionCode, before, count, RegionPairs(fs));
    RegionPairsSnoc(fs, r.regionCode != [], RegionCode(r.regionCode));
    fs := fs + Opt(r.regionCode != [], RegionCode(r.regionCode));
    TextEntry(w, 'm', r.regionName, before, count, RegionPairs(fs));
    RegionPairsSnoc(fs, r.regionName != [], RegionName(r.regionName));
    fs := fs + Opt(r.regionName != [], RegionName(r.regionName));
    NodesEntry(w, r.nodes, before, count, RegionPairs(fs));
    RegionPairsSnoc(fs, r.nodes != [], Nodes(r.nodes));
  }

  method NodesEntry(w: CborWriter, nodes: seq<DerpNode>, ghost before: bytes, ghost n: nat, ghost pairs: seq<Pair>)
    requires Sized(nodes) && (forall x | x in nodes :: NodeFits(x)) && Wrote(w.out, before, n, pairs)
    modifies w
    ensures Wrote(w.out, before, n, pairs + Opt(nodes != [], RegionPair(Nodes(nodes))))
  {
    hide TextItem, ArrayItem, NodeItems, Encode, EncodeHead, EncodePairs, WellFormed, NodeFits;
    if |nodes| > 0 {
      ghost var start := w.out;
      w.WriteText(Key('N'));
      WriteNodes(w, nodes);
      EntryWritten(start, before, n, pairs, RegionPair(Nodes(nodes)));
    } else {
      assert pairs + [] == pairs;
    }
  }

  method WriteRegions(w: CborWriter, regions: seq<DerpRegion>)
    requires Sized(regions) && forall r | r in regions :: RegionFits(r)
    modifies w
    ensures WellFormed(ArrayItem(RegionItems(regions))) && w.out == old(w.out) + Encode(ArrayItem(RegionItems(regions)))
  {
    hide WroteElements, Encode, WellFormed, RegionItem, ArrayItem, RegionFits;
    ghost var before := w.out;
    StartArray(w, |regions|);
    var i := 0;
    assert RegionItems(regions[..0]) == [];
    while i < |regions|
      invariant 0 <= i <= |regions|
      invariant WroteElements(w.out, before, |regions|, RegionItems(regions[..i]))
    {
      assert regions[i] in regions;
      ghost var start := w.out;
      WriteRegion(w, regions[i]);
      ElementWritten(start, before, |regions|, RegionItems(regions[..i]), RegionItem(regions[i]));
      assert RegionItems(regions[..i]) + [RegionItem(regions[i])] == RegionItems(regions[..i + 1]);
      i := i + 1;
    }
    assert regions[..i] == regions;
    ArrayWritten(w.out, before, RegionItems(regions));
  }

  method RegionsEntry(
    w: CborWriter, regions: seq<DerpRegion>, ghost before: bytes, ghost n: nat, ghost pairs: seq<Pair>)
    requires Sized(regions) && (forall x | x in regions :: RegionFits(x)) && Wrote(w.out, before, n, pairs)
    modifies w
    ensures Wrote(w.out, before, n, pairs + Opt(regions != [], TopPair(Regions(regions))))
  {
    hide TextItem, ArrayItem, RegionItems, Encode, EncodeHead, EncodePairs, WellFormed, RegionFits;
    if |regions| > 0 {
      ghost var start := w.out;
      w.WriteText(Key('r'));
      WriteRegions(w, regions);
      EntryWritten(start, before, n, pairs, TopPair(Regions(regions)));
    } else {
      assert pairs + [] == pairs;
    }
  }

  /** The number of entries counted before the map header is written. */
  function TopEntries(info: ConnInfo): nat {
    1 + One(info.serverDiscoPublic.Some?) + One(info.presharedKey.Some?)
    + One(info.regions != []) + One(info.regionId != 0)
  }

  lemma TopCount(info: ConnInfo)
    ensures |TopPairs(TopFields(info))| == TopEntries(info) < TWO_TO_THE_64
  {
    hide TopPair;
  }

  method EncodeTailcatAddr(info: ConnInfo) returns (res: Result<string, AddressError>)
    requires InfoFits(info)
    ensures res == Print(info)
  {
    hide Wrote, Opt, TopPairs, WellFormed, Encode, RegionFits;
    if AllZero(info.serverPublic) {
      return Err(ZeroServerPublic);
    }
    if info.serverDiscoPublic.Some? && AllZero(info.serverDiscoPublic.value) {
      return Err(ZeroServerDisco);
    }
    var w := new CborWriter();
    WriteInfo(w, info);
    assert [] + Encode(InfoItem(info)) == Encode(InfoItem(info));
    var text := Base64Url.Base64UrlEncode(w.out);
    return Ok("tc" + text);
  }

  /** The map written by `encode_tailcat_addr`. */
  method WriteInfo(w: CborWriter, info: ConnInfo)
    requires InfoFits(info)
    modifies w
    ensures WellFormed(InfoItem(info)) && w.out == old(w.out) + Encode(InfoItem(info))
  {
    hide Wrote, TopPairs, TopFields, InfoFits, WellFormed, Encode, TopEntries, MapItem;
    TopCount(info);
    var count := TopEntries(info);
    ghost var before := w.out;
    StartMap(w, count);
    WriteInfoEntries(w, info, before, count);
    MapWritten(w, before, TopPairs(TopFields(info)));
  }

  /** The entry that is always there and the four conditional ones. */
  method WriteInfoEntries(w: CborWriter, info: ConnInfo, ghost before: bytes, ghost count: nat)
    requires InfoFits(info) && Wrote(w.out, before, count, [])
    modifies w
    ensures Wrote(w.out, before, count, TopPairs(TopFields(info)))
  {
    hide Wrote, Opt, TopPairs, RegionFits;
    NoPairs();
    KeyEntry(w, 'p', Some(info.serverPublic), before, count, TopPairs([]));
    TopPairsSnoc([], true, ServerPublic(info.serverPublic));
    ghost var fs: seq<TopField> := [ServerPublic(info.serverPublic)];
    OptTrue(ServerPublic(info.serverPublic));
    KeyEntry(w, 'k', info.serverDiscoPublic, before, count, TopPairs(fs));
    TopPairsSnoc(fs, info.serverDiscoPublic.Some?, ServerDisco(KeyOr(info.serverDiscoPublic)));
    fs := fs + Opt(info.serverDiscoPublic.Some?, ServerDisco(KeyOr(info.serverDiscoPublic)));
    KeyEntry(w, 'q', info.presharedKey, before, count, TopPairs(fs));
    TopPairsSnoc(fs, info.presharedKey.Some?, PresharedKey(KeyOr(info.presharedKey)));
    fs := fs + Opt(info.presharedKey.Some?, PresharedKey(KeyOr(info.presharedKey)));
    RegionsEntry(w, info.regions, before, count, TopPairs(fs));
    TopPairsSnoc(fs, info.regions != [], Regions(info.regions));
    fs := fs + Opt(info.regions != [], Regions(info.regions));
    IntegerEntry(w, 'i', info.regionId, before, count, TopPairs(fs));
    TopPairsSnoc(fs, info.regionId != 0, TopRegion(info.regionId));
  }

  lemma OptTrue<F>(f: F)
    ensures [] + Opt(true, f) == [f]
  {
  }
}
