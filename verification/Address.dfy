/** The content of a `tc...` address: what the nested CBOR maps mean, on bytes and on item trees. */
module Address {
  import opened Core
  import opened Cbor
  import opened CborIO
  import opened Entries
  import Base64Url

  datatype DerpNode = DerpNode(
    name: bytes, regionId: int64, hostName: bytes, certName: bytes, ipv4: bytes, ipv6: bytes,
    stunPort: int64, derpPort: int64, insecureForTests: bool)

  datatype DerpRegion = DerpRegion(regionId: int64, regionCode: bytes, regionName: bytes, nodes: seq<DerpNode>)

  datatype ConnInfo = ConnInfo(
    serverPublic: Key32, serverDiscoPublic: Option<Key32>, presharedKey: Option<Key32>,
    regions: seq<DerpRegion>, regionId: int64)

  const EMPTY_NODE := DerpNode([], 0, [], [], [], [], 0, 0, false)
  const EMPTY_REGION := DerpRegion(0, [], [], [])

  /** The record while the top-level map is being read, with the flag that ServerPublic was seen. */
  datatype Draft = Draft(info: ConnInfo, havePublic: bool)

  const EMPTY_DRAFT := Draft(ConnInfo(ZERO_KEY, None, None, [], 0), false)

  function Key(c: char): bytes
    requires c < 128 as char
  {
    [c as int]
  }

  /** A 32-byte field. */
  function KeyOf(b: bytes): Option<Key32> {
    if |b| == 32 then Some(b) else None
  }

  // One entry of each map. An entry with an unknown key is skipped whatever its value is.

  datatype NodeField =
    | NodeName(t: bytes) | NodeRegion(i: int64) | HostName(t: bytes) | CertName(t: bytes)
    | Ipv4(t: bytes) | Ipv6(t: bytes) | StunPort(i: int64) | DerpPort(i: int64)
    | InsecureForTests(b: bool) | UnknownInNode

  datatype RegionField =
    | RegionId(i: int64) | RegionCode(t: bytes) | RegionName(t: bytes) | Nodes(nodes: seq<DerpNode>) | UnknownInRegion

  datatype TopField =
    | ServerPublic(k: Key32) | ServerDisco(k: Key32) | PresharedKey(k: Key32)
    | Regions(regions: seq<DerpRegion>) | TopRegion(i: int64) | UnknownAtTop

  function SetNode(n: DerpNode, f: NodeField): DerpNode {
    match f
    case NodeName(t) => n.(name := t)
    case NodeRegion(i) => n.(regionId := i)
    case HostName(t) => n.(hostName := t)
    case CertName(t) => n.(certName := t)
    case Ipv4(t) => n.(ipv4 := t)
    case Ipv6(t) => n.(ipv6 := t)
    case StunPort(i) => n.(stunPort := i)
    case DerpPort(i) => n.(derpPort := i)
    case InsecureForTests(b) => n.(insecureForTests := b)
    case UnknownInNode => n
  }

  /** A repeated "N" entry adds its nodes to the ones already read. */
  function SetRegion(r: DerpRegion, f: RegionField): DerpRegion {
    match f
    case RegionId(i) => r.(regionId := i)
    case RegionCode(t) => r.(regionCode := t)
    case RegionName(t) => r.(regionName := t)
    case Nodes(ns) => r.(nodes := r.nodes + ns)
    case UnknownInRegion => r
  }

  /** A repeated "r" entry adds its region to the ones already read. */
  function SetTop(d: Draft, f: TopField): Draft {
    match f
    case ServerPublic(k) => Draft(d.info.(serverPublic := k), true)
    case ServerDisco(k) => d.(info := d.info.(serverDiscoPublic := Some(k)))
    case PresharedKey(k) => d.(info := d.info.(presharedKey := Some(k)))
    case Regions(rs) => d.(info := d.info.(regions := d.info.regions + rs))
    case TopRegion(i) => d.(info := d.info.(regionId := i))
    case UnknownAtTop => d
  }

  /** Nodes without a region id take the id of their region. */
  function FillNodes(r: DerpRegion): (f: DerpRegion)
    ensures |f.nodes| == |r.nodes|
  {
    r.(nodes := seq(|r.nodes|, i requires 0 <= i < |r.nodes| =>
      if r.nodes[i].regionId == 0 then r.nodes[i].(regionId := r.regionId) else r.nodes[i]))
  }

  // Reading from bytes.

  function ReadNodeField(key: bytes, s: bytes): Option<(NodeField, bytes)> {
    if key == Key('n') then var (t, r) :- ReadText(s); Some((NodeName(t), r))
    else if key == Key('i') then var (i, r) :- ReadInteger(s); Some((NodeRegion(i), r))
    else if key == Key('h') then var (t, r) :- ReadText(s); Some((HostName(t), r))
    else if key == Key('t') then var (t, r) :- ReadText(s); Some((CertName(t), r))
    else if key == Key('4') then var (t, r) :- ReadText(s); Some((Ipv4(t), r))
    else if key == Key('6') then var (t, r) :- ReadText(s); Some((Ipv6(t), r))
    else if key == Key('s') then var (i, r) :- ReadInteger(s); Some((StunPort(i), r))
    else if key == Key('d') then var (i, r) :- ReadInteger(s); Some((DerpPort(i), r))
    else if key == Key('x') then var (b, r) :- ReadBoolean(s); Some((InsecureForTests(b), r))
    else var r :- SkipOne(s); Some((UnknownInNode, r))
  }

  function ReadNode(s: bytes): Option<(DerpNode, bytes)> {
    ReadRecord(ReadNodeField, SetNode, s, EMPTY_NODE)
  }

  function ReadNodes(s: bytes): Option<(seq<DerpNode>, bytes)> {
    var (n, r) :- ReadMajor(s, 4);
    ReadMany(ReadNode, r, n)
  }

  function ReadRegionField(key: bytes, s: bytes): Option<(RegionField, bytes)> {
    if key == Key('i') then var (i, r) :- ReadInteger(s); Some((RegionId(i), r))
    else if key == Key('c') then var (t, r) :- ReadText(s); Some((RegionCode(t), r))
    else if key == Key('m') then var (t, r) :- ReadText(s); Some((RegionName(t), r))
    else if key == Key('N') then var (ns, r) :- ReadNodes(s); Some((Nodes(ns), r))
    else var r :- SkipOne(s); Some((UnknownInRegion, r))
  }

  function ReadRegion(s: bytes): Option<(DerpRegion, bytes)> {
    var (region, r) :- ReadRecord(ReadRegionField, SetRegion, s, EMPTY_REGION);
    Some((FillNodes(region), r))
  }

  function ReadKey(s: bytes): Option<(Key32, bytes)> {
    var (b, r) :- ReadBytes(s);
    var k :- KeyOf(b);
    Some((k, r))
  }

  function ReadRegions(s: bytes): Option<(seq<DerpRegion>, bytes)> {
    var (n, r) :- ReadMajor(s, 4);
    if n > 1 then None else ReadMany(ReadRegion, r, n)
  }

  function ReadTopField(key: bytes, s: bytes): Option<(TopField, bytes)> {
    if key == Key('p') then var (k, r) :- ReadKey(s); Some((ServerPublic(k), r))
    else if key == Key('k') then var (k, r) :- ReadKey(s); Some((ServerDisco(k), r))
    else if key == Key('q') then var (k, r) :- ReadKey(s); Some((PresharedKey(k), r))
    else if key == Key('r') then var (rs, r) :- ReadRegions(s); Some((Regions(rs), r))
    else if key == Key('i') then var (i, r) :- ReadInteger(s); Some((TopRegion(i), r))
    else var r :- SkipOne(s); Some((UnknownAtTop, r))
  }

  function ReadTop(s: bytes): Option<(Draft, bytes)> {
    ReadRecord(ReadTopField, SetTop, s, EMPTY_DRAFT)
  }

  // Interpreting item trees.

  function NodeFieldOf(key: bytes, item: Item): Option<NodeField> {
    if key == Key('n') then var t :- TextOf(item); Some(NodeName(t))
    else if key == Key('i') then var i :- IntegerOf(item); Some(NodeRegion(i))
    else if key == Key('h') then var t :- TextOf(item); Some(HostName(t))
    else if key == Key('t') then var t :- TextOf(item); Some(CertName(t))
    else if key == Key('4') then var t :- TextOf(item); Some(Ipv4(t))
    else if key == Key('6') then var t :- TextOf(item); Some(Ipv6(t))
    else if key == Key('s') then var i :- IntegerOf(item); Some(StunPort(i))
    else if key == Key('d') then var i :- IntegerOf(item); Some(DerpPort(i))
    else if key == Key('x') then var b :- BooleanOf(item); Some(InsecureForTests(b))
    else Some(UnknownInNode)
  }

  function NodeOf(item: Item): Option<DerpNode> {
    RecordOf(NodeFieldOf, SetNode, item, EMPTY_NODE)
  }

  function ElementsOf(item: Item): Option<seq<Item>> {
    if item.Arr? && |item.elems| < TWO_TO_THE_64 then Some(item.elems) else None
  }

  function NodesOf(item: Item): Option<seq<DerpNode>> {
    var elems :- ElementsOf(item);
    Collect(NodeOf, elems)
  }

  function RegionFieldOf(key: bytes, item: Item): Option<RegionField> {
    if key == Key('i') then var i :- IntegerOf(item); Some(RegionId(i))
    else if key == Key('c') then var t :- TextOf(item); Some(RegionCode(t))
    else if key == Key('m') then var t :- TextOf(item); Some(RegionName(t))
    else if key == Key('N') then var ns :- NodesOf(item); Some(Nodes(ns))
    else Some(UnknownInRegion)
  }

  function RegionOf(item: Item): Option<DerpRegion> {
    var r :- RecordOf(RegionFieldOf, SetRegion, item, EMPTY_REGION);
    Some(FillNodes(r))
  }

  function RegionsOf(item: Item): Option<seq<DerpRegion>> {
    var elems :- ElementsOf(item);
    if |elems| > 1 then None else Collect(RegionOf, elems)
  }

  function KeyItemOf(item: Item): Option<Key32> {
    var b :- BytesOf(item);
    KeyOf(b)
  }

  function TopFieldOf(key: bytes, item: Item): Option<TopField> {
    if key == Key('p') then var k :- KeyItemOf(item); Some(ServerPublic(k))
    else if key == Key('k') then var k :- KeyItemOf(item); Some(ServerDisco(k))
    else if key == Key('q') then var k :- KeyItemOf(item); Some(PresharedKey(k))
    else if key == Key('r') then var rs :- RegionsOf(item); Some(Regions(rs))
    else if key == Key('i') then var i :- IntegerOf(item); Some(TopRegion(i))
    else Some(UnknownAtTop)
  }

  function DraftOf(item: Item): Option<Draft> {
    RecordOf(TopFieldOf, SetTop, item, EMPTY_DRAFT)
  }

  // Checks after reading, and the whole parser.

  datatype AddressError =
    | BadPrefix | BadBase64 | BadCbor | TrailingData | MissingServerPublic | ZeroServerDisco | MissingRegion
    | ZeroServerPublic

  function Finish(d: Draft): Result<ConnInfo, AddressError> {
    if !d.havePublic || AllZero(d.info.serverPublic) then Err(MissingServerPublic)
    else if d.info.serverDiscoPublic.Some? && AllZero(d.info.serverDiscoPublic.value) then Err(ZeroServerDisco)
    else
      var info := FillRegionId(d.info);
      if info.regionId == 0 && info.regions == [] then Err(MissingRegion) else Ok(info)
  }

  /** A zero top-level region id is taken from the first embedded region. */
  function FillRegionId(info: ConnInfo): ConnInfo {
    if info.regions != [] && info.regionId == 0 then info.(regionId := info.regions[0].regionId) else info
  }

  function ParseCbor(raw: bytes): Result<ConnInfo, AddressError> {
    match ReadTop(raw)
    case None => Err(BadCbor)
    case Some((d, rest)) => if rest != [] then Err(TrailingData) else Finish(d)
  }

  function Parse(addr: string): Result<ConnInfo, AddressError> {
    if !("tc" <= addr) then Err(BadPrefix)
    else
      match Base64Url.DecodeText(addr[2..])
      case None => Err(BadBase64)
      case Some(raw) => ParseCbor(raw)
  }

  // The byte readers are the tree interpretations, on every input.

  lemma NodeFieldVia()
    ensures FieldVia(ReadNodeField, NodeFieldOf)
  {
    hide ReadText, ReadInteger, ReadBoolean, TextOf, IntegerOf, BooleanOf, ReadItem;
    forall key, s
      ensures ReadNodeField(key, s) ==
              if ReadItem(s).None? || NodeFieldOf(key, ReadItem(s).value.0).None? then None
              else Some((NodeFieldOf(key, ReadItem(s).value.0).value, ReadItem(s).value.1))
    {
      TextVia(s);
      IntegerVia(s);
      BooleanVia(s);
      SkipAgrees(s);
    }
  }

  lemma NodeVia(s: bytes)
    ensures ReadNode(s) == Via(s, NodeOf)
  {
    hide ReadItem, ReadRecord, RecordOf;
    NodeFieldVia();
    RecordVia(ReadNodeField, NodeFieldOf, SetNode, s, EMPTY_NODE);
  }

  lemma NodesVia(s: bytes)
    ensures ReadNodes(s) == Via(s, NodesOf)
  {
    hide ReadHead, ReadNode, NodeOf, ReadMany;
    forall t ensures ReadNode(t) == Via(t, NodeOf) {
      NodeVia(t);
    }
    if ReadMajor(s, 4).Some? {
      var (n, r) := ReadMajor(s, 4).value;
      ManyVia(ReadNode, NodeOf, r, n);
    }
  }

  lemma RegionFieldVia()
    ensures FieldVia(ReadRegionField, RegionFieldOf)
  {
    hide ReadText, ReadInteger, TextOf, IntegerOf, ReadItem, ReadNodes, NodesOf;
    forall key, s
      ensures ReadRegionField(key, s) ==
              if ReadItem(s).None? || RegionFieldOf(key, ReadItem(s).value.0).None? then None
              else Some((RegionFieldOf(key, ReadItem(s).value.0).value, ReadItem(s).value.1))
    {
      TextVia(s);
      IntegerVia(s);
      NodesVia(s);
      SkipAgrees(s);
    }
  }

  lemma RegionVia(s: bytes)
    ensures ReadRegion(s) == Via(s, RegionOf)
  {
    hide ReadItem, ReadRecord, RecordOf, FillNodes;
    RegionFieldVia();
    RecordVia(ReadRegionField, RegionFieldOf, SetRegion, s, EMPTY_REGION);
  }

  lemma RegionsVia(s: bytes)
    ensures ReadRegions(s) == Via(s, RegionsOf)
  {
    hide ReadHead, ReadRegion, RegionOf, ReadMany;
    forall t ensures ReadRegion(t) == Via(t, RegionOf) {
      RegionVia(t);
    }
    if ReadMajor(s, 4).Some? {
      var (n, r) := ReadMajor(s, 4).value;
      ManyVia(ReadRegion, RegionOf, r, n);
    }
  }

  lemma KeyVia(s: bytes)
    ensures ReadKey(s) == Via(s, KeyItemOf)
  {
    hide ReadItem, ReadBytes, BytesOf, KeyOf;
    BytesVia(s);
  }

  lemma TopFieldVia()
    ensures FieldVia(ReadTopField, TopFieldOf)
  {
    hide ReadKey, ReadInteger, KeyItemOf, IntegerOf, ReadItem, ReadRegions, RegionsOf;
    forall key, s
      ensures ReadTopField(key, s) ==
              if ReadItem(s).None? || TopFieldOf(key, ReadItem(s).value.0).None? then None
              else Some((TopFieldOf(key, ReadItem(s).value.0).value, ReadItem(s).value.1))
    {
      KeyVia(s);
      IntegerVia(s);
      RegionsVia(s);
      SkipAgrees(s);
    }
  }

  /** On every byte string, reading a whole address is reading one item tree and interpreting it. */
  lemma TopVia(s: bytes)
    ensures ReadTop(s) == Via(s, DraftOf)
  {
    hide ReadItem, ReadRecord, RecordOf;
    TopFieldVia();
    RecordVia(ReadTopField, TopFieldOf, SetTop, s, EMPTY_DRAFT);
  }

  /** The tree's interpretation passes the checks with this result. */
  predicate Means(item: Item, info: ConnInfo) {
    DraftOf(item).Some? && Finish(DraftOf(item).value) == Ok(info)
  }

  /** A document is accepted exactly when it is the encoding of some well-formed item tree whose
      interpretation passes the checks, and the result is that interpretation. */
  lemma AcceptedExactly(raw: bytes, info: ConnInfo)
    ensures ParseCbor(raw) == Ok(info) <==>
            exists item :: WellFormed(item) && raw == Encode(item) && Means(item, info)
  {
    hide ReadTop, DraftOf, Finish;
    TopVia(raw);
    if ParseCbor(raw) == Ok(info) {
      ReadSplit(raw);
      var item := ReadItem(raw).value.0;
      assert raw == Encode(item) + [] == Encode(item);
    }
    forall item | WellFormed(item) && raw == Encode(item) && Means(item, info)
      ensures ParseCbor(raw) == Ok(info)
    {
      ParseEncoded(item);
    }
  }

  /** Parsing the encoding of a tree is interpreting the tree. */
  lemma ParseEncoded(item: Item)
    requires WellFormed(item)
    ensures ParseCbor(Encode(item)) == if DraftOf(item).Some? then Finish(DraftOf(item).value) else Err(BadCbor)
  {
    hide ReadTop, DraftOf, Finish, ReadItem, Encode;
    TopVia(Encode(item));
    ReadEncoded(item, []);
    assert Encode(item) + [] == Encode(item);
  }
}
