/** The item trees that `encode_tailcat_addr` writes, and the inverse laws between printing and parsing. */
module AddressItems {
  import opened Core
  import opened Cbor
  import opened CborIO
  import opened Entries
  import opened Address
  import Base64Url

  function Opt<F>(c: bool, f: F): (fs: seq<F>)
    ensures |fs| == if c then 1 else 0
  {
    if c then [f] else []
  }

  function KeyOr(k: Option<Key32>): Key32 {
    if k.Some? then k.value else ZERO_KEY
  }

  // The fields that are written: the ones that differ from their default, in a fixed order.

  function NodeFieldsFront(n: DerpNode): seq<NodeField> {
    Opt(n.name != [], NodeName(n.name)) + Opt(n.regionId != 0, NodeRegion(n.regionId))
    + Opt(n.hostName != [], HostName(n.hostName)) + Opt(n.certName != [], CertName(n.certName))
  }

  function NodeFields(n: DerpNode): seq<NodeField> {
    NodeFieldsFront(n) + Opt(n.ipv4 != [], Ipv4(n.ipv4)) + Opt(n.ipv6 != [], Ipv6(n.ipv6))
    + Opt(n.stunPort != 0, StunPort(n.stunPort)) + Opt(n.derpPort != 0, DerpPort(n.derpPort))
    + Opt(n.insecureForTests, InsecureForTests(true))
  }

  function RegionFields(r: DerpRegion): seq<RegionField> {
    Opt(r.regionId != 0, RegionId(r.regionId)) + Opt(r.regionCode != [], RegionCode(r.regionCode))
    + Opt(r.regionName != [], RegionName(r.regionName)) + Opt(r.nodes != [], Nodes(r.nodes))
  }

  function TopFields(info: ConnInfo): seq<TopField> {
    [ServerPublic(info.serverPublic)]
    + Opt(info.serverDiscoPublic.Some?, ServerDisco(KeyOr(info.serverDiscoPublic)))
    + Opt(info.presharedKey.Some?, PresharedKey(KeyOr(info.presharedKey)))
    + Opt(info.regions != [], Regions(info.regions)) + Opt(info.regionId != 0, TopRegion(info.regionId))
  }

  // Their items. A C++ size is below 2^64, which is what the Fits predicates say.

  predicate Sized<T>(s: seq<T>) { |s| < TWO_TO_THE_64 }

  predicate NodeFits(n: DerpNode) {
    Sized(n.name) && Sized(n.hostName) && Sized(n.certName) && Sized(n.ipv4) && Sized(n.ipv6)
  }

  predicate RegionFits(r: DerpRegion) {
    Sized(r.regionCode) && Sized(r.regionName) && Sized(r.nodes) && forall n | n in r.nodes :: NodeFits(n)
  }

  predicate InfoFits(info: ConnInfo) {
    Sized(info.regions) && forall r | r in info.regions :: RegionFits(r)
  }

  function TextPair(c: char, t: bytes): Pair
    requires c < 128 as char
  {
    Pair(TextItem(Key(c)), TextItem(t))
  }

  function IntegerPair(c: char, i: int64): Pair
    requires c < 128 as char
  {
    Pair(TextItem(Key(c)), IntegerItem(i))
  }

  function NodePair(f: NodeField): Pair {
    match f
    case NodeName(t) => TextPair('n', t)
    case NodeRegion(i) => IntegerPair('i', i)
    case HostName(t) => TextPair('h', t)
    case CertName(t) => TextPair('t', t)
    case Ipv4(t) => TextPair('4', t)
    case Ipv6(t) => TextPair('6', t)
    case StunPort(i) => IntegerPair('s', i)
    case DerpPort(i) => IntegerPair('d', i)
    case InsecureForTests(b) => Pair(TextItem(Key('x')), BooleanItem(b))
    case UnknownInNode => TextPair('?', [])
  }

  function MapItem(pairs: seq<Pair>): Item { Map(Shortest(|pairs|), pairs) }

  function ArrayItem(elems: seq<Item>): Item { Arr(Shortest(|elems|), elems) }

  function NodePairs(fs: seq<NodeField>): seq<Pair> {
    seq(|fs|, i requires 0 <= i < |fs| => NodePair(fs[i]))
  }

  function NodeItem(n: DerpNode): Item { MapItem(NodePairs(NodeFields(n))) }

  function NodeItems(nodes: seq<DerpNode>): seq<Item> {
    seq(|nodes|, i requires 0 <= i < |nodes| => NodeItem(nodes[i]))
  }

  function RegionPair(f: RegionField): Pair {
    match f
    case RegionId(i) => IntegerPair('i', i)
    case RegionCode(t) => TextPair('c', t)
    case RegionName(t) => TextPair('m', t)
    case Nodes(ns) => Pair(TextItem(Key('N')), ArrayItem(NodeItems(ns)))
    case UnknownInRegion => TextPair('?', [])
  }

  function RegionPairs(fs: seq<RegionField>): seq<Pair> {
    seq(|fs|, i requires 0 <= i < |fs| => RegionPair(fs[i]))
  }

  function RegionItem(r: DerpRegion): Item { MapItem(RegionPairs(RegionFields(r))) }

  function RegionItems(regions: seq<DerpRegion>): seq<Item> {
    seq(|regions|, i requires 0 <= i < |regions| => RegionItem(regions[i]))
  }

  function TopPair(f: TopField): Pair {
    match f
    case ServerPublic(k) => Pair(TextItem(Key('p')), BytesItem(k))
    case ServerDisco(k) => Pair(TextItem(Key('k')), BytesItem(k))
    case PresharedKey(k) => Pair(TextItem(Key('q')), BytesItem(k))
    case Regions(rs) => Pair(TextItem(Key('r')), ArrayItem(RegionItems(rs)))
    case TopRegion(i) => IntegerPair('i', i)
    case UnknownAtTop => TextPair('?', [])
  }

  function TopPairs(fs: seq<TopField>): seq<Pair> {
    seq(|fs|, i requires 0 <= i < |fs| => TopPair(fs[i]))
  }

  function InfoItem(info: ConnInfo): Item { MapItem(TopPairs(TopFields(info))) }

  /** The text of an address: None stands for a zero ServerPublic or a zero disco key. */
  function Print(info: ConnInfo): Result<string, AddressError>
    requires InfoFits(info)
  {
    if AllZero(info.serverPublic) then Err(ZeroServerPublic)
    else if info.serverDiscoPublic.Some? && AllZero(info.serverDiscoPublic.value) then Err(ZeroServerDisco)
    else
      InfoWellFormed(info);
      Ok("tc" + Base64Url.EncodeText(Encode(InfoItem(info))))
  }

  // Well-formedness of what is written.

  lemma ShortestFits(v: nat)
    requires v < TWO_TO_THE_64
    ensures Shortest(v).Fits(v)
  {
    ShortestHead(0, v, []);
  }

  lemma LeavesWellFormed(t: bytes, i: int64)
    requires Sized(t)
    ensures WellFormed(TextItem(t)) && WellFormed(BytesItem(t)) && WellFormed(IntegerItem(i))
  {
    ShortestFits(|t|);
    ShortestFits(if i >= 0 then i else -(i + 1));
  }

  predicate NodeFieldFits(f: NodeField) {
    match f
    case NodeName(t) => Sized(t)
    case HostName(t) => Sized(t)
    case CertName(t) => Sized(t)
    case Ipv4(t) => Sized(t)
    case Ipv6(t) => Sized(t)
    case _ => true
  }

  lemma NodePairWellFormed(f: NodeField)
    requires NodeFieldFits(f)
    ensures WellFormedPair(NodePair(f))
  {
    hide Shortest;
    forall t: bytes | Sized(t) ensures WellFormed(TextItem(t)) {
      LeavesWellFormed(t, 0);
    }
    forall i: int64 ensures WellFormed(IntegerItem(i)) {
      LeavesWellFormed([], i);
    }
  }

  lemma NodeFrontFits(n: DerpNode)
    requires NodeFits(n)
    ensures |NodeFieldsFront(n)| <= 4 && forall f | f in NodeFieldsFront(n) :: NodeFieldFits(f)
  {
  }

  lemma NodeFieldsFit(n: DerpNode)
    requires NodeFits(n)
    ensures |NodeFields(n)| <= 9 && forall f | f in NodeFields(n) :: NodeFieldFits(f)
  {
    hide NodeFieldsFront;
    NodeFrontFits(n);
  }

  lemma NodeWellFormed(n: DerpNode)
    requires NodeFits(n)
    ensures WellFormed(NodeItem(n))
  {
    hide NodePair, NodeFields, NodeFieldFits;
    NodeFieldsFit(n);
    forall f | f in NodeFields(n) ensures WellFormedPair(NodePair(f)) {
      NodePairWellFormed(f);
    }
    ShortestFits(|NodeFields(n)|);
  }

  lemma RegionPairWellFormed(f: RegionField)
    requires RegionFieldFits(f)
    ensures WellFormedPair(RegionPair(f))
  {
    hide Shortest, NodeItem;
    forall t: bytes | Sized(t) ensures WellFormed(TextItem(t)) {
      LeavesWellFormed(t, 0);
    }
    if f.RegionId? {
      LeavesWellFormed([], f.i);
    } else if f.Nodes? {
      ShortestFits(|f.nodes|);
      forall n | n in f.nodes ensures WellFormed(NodeItem(n)) {
        NodeWellFormed(n);
      }
    }
  }

  lemma RegionWellFormed(r: DerpRegion)
    requires RegionFits(r)
    ensures WellFormed(RegionItem(r))
  {
    hide Shortest, RegionPair, RegionFields, RegionFieldFits;
    RegionFieldsFit(r);
    forall f | f in RegionFields(r) ensures WellFormedPair(RegionPair(f)) {
      RegionPairWellFormed(f);
    }
    ShortestFits(|RegionFields(r)|);
  }

  predicate TopFieldFits(f: TopField) {
    f.Regions? ==> Sized(f.regions) && forall r | r in f.regions :: RegionFits(r)
  }

  lemma TopPairWellFormed(f: TopField)
    requires TopFieldFits(f)
    ensures WellFormedPair(TopPair(f))
  {
    hide Shortest, RegionItem;
    forall t: bytes | Sized(t) ensures WellFormed(TextItem(t)) {
      LeavesWellFormed(t, 0);
    }
    forall k: Key32 ensures WellFormed(BytesItem(k)) {
      LeavesWellFormed(k, 0);
    }
    if f.TopRegion? {
      LeavesWellFormed([], f.i);
    } else if f.Regions? {
      ShortestFits(|f.regions|);
      forall r | r in f.regions ensures WellFormed(RegionItem(r)) {
        RegionWellFormed(r);
      }
    }
  }

  lemma InfoWellFormed(info: ConnInfo)
    requires InfoFits(info)
    ensures WellFormed(InfoItem(info))
  {
    hide Shortest, TopPair;
    forall f | f in TopFields(info) ensures WellFormedPair(TopPair(f)) {
      TopPairWellFormed(f);
    }
    ShortestFits(|TopFields(info)|);
  }

  // Interpreting what is written gives the fields back.

  lemma LeavesInverse(t: bytes, i: int64, b: bool)
    requires Sized(t)
    ensures TextOf(TextItem(t)) == Some(t) && BytesOf(BytesItem(t)) == Some(t)
    ensures IntegerOf(IntegerItem(i)) == Some(i) && BooleanOf(BooleanItem(b)) == Some(b)
  {
  }

  lemma NodeFieldInverse(f: NodeField)
    requires NodeFieldFits(f)
    ensures TextOf(NodePair(f).key).Some? && NodeFieldOf(TextOf(NodePair(f).key).value, NodePair(f).val) == Some(f)
  {
    hide TextOf, TextItem, IntegerOf, IntegerItem, BooleanOf, BooleanItem;
    forall t: bytes | Sized(t) ensures TextOf(TextItem(t)) == Some(t) {
      LeavesInverse(t, 0, true);
    }
    forall i: int64 ensures IntegerOf(IntegerItem(i)) == Some(i) {
      LeavesInverse([], i, true);
    }
    forall b: bool ensures BooleanOf(BooleanItem(b)) == Some(b) {
      LeavesInverse([], 0, b);
    }
  }

  lemma FoldOpt<R, F>(step: (R, F) -> R, acc: R, before: seq<F>, c: bool, f: F)
    ensures Fold(step, acc, before + Opt(c, f)) ==
            if c then step(Fold(step, acc, before), f) else Fold(step, acc, before)
  {
    FoldAppend(step, acc, before, Opt(c, f));
  }

  function NodeFront(n: DerpNode): DerpNode {
    DerpNode(n.name, n.regionId, n.hostName, n.certName, [], [], 0, 0, false)
  }

  lemma NodeFrontRebuild(n: DerpNode)
    ensures Fold(SetNode, EMPTY_NODE, NodeFieldsFront(n)) == NodeFront(n)
  {
    hide Fold, Opt;
    var f1 := Opt(n.name != [], NodeName(n.name));
    var f2 := f1 + Opt(n.regionId != 0, NodeRegion(n.regionId));
    var f3 := f2 + Opt(n.hostName != [], HostName(n.hostName));
    FoldFirst(SetNode, EMPTY_NODE, n.name != [], NodeName(n.name));
    FoldOpt(SetNode, EMPTY_NODE, f1, n.regionId != 0, NodeRegion(n.regionId));
    FoldOpt(SetNode, EMPTY_NODE, f2, n.hostName != [], HostName(n.hostName));
    FoldOpt(SetNode, EMPTY_NODE, f3, n.certName != [], CertName(n.certName));
  }

  lemma NodeFieldsRebuild(n: DerpNode)
    ensures Fold(SetNode, EMPTY_NODE, NodeFields(n)) == n
  {
    hide Fold, Opt, NodeFieldsFront;
    var f0 := NodeFieldsFront(n);
    var f1 := f0 + Opt(n.ipv4 != [], Ipv4(n.ipv4));
    var f2 := f1 + Opt(n.ipv6 != [], Ipv6(n.ipv6));
    var f3 := f2 + Opt(n.stunPort != 0, StunPort(n.stunPort));
    var f4 := f3 + Opt(n.derpPort != 0, DerpPort(n.derpPort));
    NodeFrontRebuild(n);
    FoldOpt(SetNode, EMPTY_NODE, f0, n.ipv4 != [], Ipv4(n.ipv4));
    FoldOpt(SetNode, EMPTY_NODE, f1, n.ipv6 != [], Ipv6(n.ipv6));
    FoldOpt(SetNode, EMPTY_NODE, f2, n.stunPort != 0, StunPort(n.stunPort));
    FoldOpt(SetNode, EMPTY_NODE, f3, n.derpPort != 0, DerpPort(n.derpPort));
    FoldOpt(SetNode, EMPTY_NODE, f4, n.insecureForTests, InsecureForTests(true));
  }

  lemma FoldFirst<R, F>(step: (R, F) -> R, acc: R, c: bool, f: F)
    ensures Fold(step, acc, Opt(c, f)) == if c then step(acc, f) else acc
  {
    assert [f][1..] == [];
  }

  lemma NodeRoundTrip(n: DerpNode)
    requires NodeFits(n)
    ensures NodeOf(NodeItem(n)) == Some(n)
  {
    hide NodePair, NodeFieldOf, TextOf, Shortest, NodeFields, NodeFieldsFront, NodeFieldFits, SetNode, Fold, FieldsOf;
    NodeFieldsFit(n);
    var fs := NodeFields(n);
    forall i | 0 <= i < |fs|
      ensures TextOf(NodePairs(fs)[i].key).Some?
      ensures NodeFieldOf(TextOf(NodePairs(fs)[i].key).value, NodePairs(fs)[i].val) == Some(fs[i])
    {
      assert fs[i] in fs;
      NodeFieldInverse(fs[i]);
    }
    FieldsInverse(NodeFieldOf, NodePairs(fs), fs);
    NodeFieldsRebuild(n);
  }

  lemma NodesRoundTrip(nodes: seq<DerpNode>)
    requires Sized(nodes) && forall n | n in nodes :: NodeFits(n)
    ensures NodesOf(ArrayItem(NodeItems(nodes))) == Some(nodes)
  {
    hide NodeOf, NodeItem, Shortest;
    forall i | 0 <= i < |nodes| ensures NodeOf(NodeItems(nodes)[i]) == Some(nodes[i]) {
      NodeRoundTrip(nodes[i]);
    }
    CollectInverse(NodeOf, NodeItems(nodes), nodes);
  }

  lemma RegionFieldsRebuild(r: DerpRegion)
    ensures Fold(SetRegion, EMPTY_REGION, RegionFields(r)) == r
  {
    hide Fold, Opt;
    var f1 := Opt(r.regionId != 0, RegionId(r.regionId));
    var f2 := f1 + Opt(r.regionCode != [], RegionCode(r.regionCode));
    var f3 := f2 + Opt(r.regionName != [], RegionName(r.regionName));
    FoldFirst(SetRegion, EMPTY_REGION, r.regionId != 0, RegionId(r.regionId));
    FoldOpt(SetRegion, EMPTY_REGION, f1, r.regionCode != [], RegionCode(r.regionCode));
    FoldOpt(SetRegion, EMPTY_REGION, f2, r.regionName != [], RegionName(r.regionName));
    FoldOpt(SetRegion, EMPTY_REGION, f3, r.nodes != [], Nodes(r.nodes));
    assert [] + r.nodes == r.nodes;
  }

  predicate RegionFieldFits(f: RegionField) {
    match f
    case RegionId(_) => true
    case RegionCode(t) => Sized(t)
    case RegionName(t) => Sized(t)
    case Nodes(ns) => Sized(ns) && forall n | n in ns :: NodeFits(n)
    case UnknownInRegion => true
  }

  lemma RegionFieldInverse(f: RegionField)
    requires RegionFieldFits(f)
    ensures TextOf(RegionPair(f).key).Some?
    ensures RegionFieldOf(TextOf(RegionPair(f).key).value, RegionPair(f).val) == Some(f)
  {
    hide TextOf, TextItem, IntegerOf, IntegerItem, NodesOf, NodeItems, ArrayItem;
    forall t: bytes | Sized(t) ensures TextOf(TextItem(t)) == Some(t) {
      LeavesInverse(t, 0, true);
    }
    forall i: int64 ensures IntegerOf(IntegerItem(i)) == Some(i) {
      LeavesInverse([], i, true);
    }
    if f.Nodes? {
      NodesRoundTrip(f.nodes);
    }
  }

  lemma RegionFieldsFit(r: DerpRegion)
    requires RegionFits(r)
    ensures forall f | f in RegionFields(r) :: RegionFieldFits(f)
    ensures |RegionFields(r)| <= 4
  {
  }

  /** A region comes back with its nodes' missing region ids filled in. */
  lemma RegionRoundTrip(r: DerpRegion)
    requires RegionFits(r)
    ensures RegionOf(RegionItem(r)) == Some(FillNodes(r))
  {
    hide RegionPair, RegionFieldOf, TextOf, Shortest, FillNodes, RegionFields, RegionFieldFits;
    hide SetRegion, Fold, FieldsOf;
    RegionFieldsFit(r);
    var fs := RegionFields(r);
    forall i | 0 <= i < |fs|
      ensures TextOf(RegionPairs(fs)[i].key).Some?
      ensures RegionFieldOf(TextOf(RegionPairs(fs)[i].key).value, RegionPairs(fs)[i].val) == Some(fs[i])
    {
      assert fs[i] in fs;
      RegionFieldInverse(fs[i]);
    }
    FieldsInverse(RegionFieldOf, RegionPairs(fs), fs);
    RegionFieldsRebuild(r);
  }

  function FillRegions(rs: seq<DerpRegion>): seq<DerpRegion> {
    seq(|rs|, i requires 0 <= i < |rs| => FillNodes(rs[i]))
  }

  lemma RegionsRoundTrip(rs: seq<DerpRegion>)
    requires Sized(rs) && forall r | r in rs :: RegionFits(r)
    ensures RegionsOf(ArrayItem(RegionItems(rs))) == if |rs| > 1 then None else Some(FillRegions(rs))
  {
    hide RegionOf, RegionItem, Shortest, FillNodes;
    forall i | 0 <= i < |rs| ensures RegionOf(RegionItems(rs)[i]) == Some(FillRegions(rs)[i]) {
      RegionRoundTrip(rs[i]);
    }
    CollectInverse(RegionOf, RegionItems(rs), FillRegions(rs));
  }

  /** The fields of a printed address as they are read back. */
  function ReadBack(f: TopField): Option<TopField> {
    match f
    case Regions(rs) => if |rs| > 1 then None else Some(Regions(FillRegions(rs)))
    case _ => Some(f)
  }

  lemma TopFieldsFit(info: ConnInfo)
    requires InfoFits(info)
    ensures forall f | f in TopFields(info) :: TopFieldFits(f)
    ensures |TopFields(info)| <= 5
    ensures |TopFields(Refilled(info))| == |TopFields(info)|
    ensures |info.regions| <= 1 ==>
              forall i | 0 <= i < |TopFields(info)| ::
                ReadBack(TopFields(info)[i]) == Some(TopFields(Refilled(info))[i])
    ensures info.regions != [] ==> Regions(info.regions) in TopFields(info)
  {
    hide FillRegions;
    FilledLength(info.regions);
  }

  lemma TopFieldInverse(f: TopField)
    requires TopFieldFits(f)
    ensures TextOf(TopPair(f).key).Some? && TopFieldOf(TextOf(TopPair(f).key).value, TopPair(f).val) == ReadBack(f)
  {
    hide TextOf, TextItem, IntegerOf, IntegerItem, BytesItem, BytesOf, RegionsOf, RegionItems, ArrayItem, FillRegions;
    forall t: bytes | Sized(t) ensures TextOf(TextItem(t)) == Some(t) {
      LeavesInverse(t, 0, true);
    }
    forall k: Key32 ensures BytesOf(BytesItem(k)) == Some(k) && KeyOf(k) == Some(k) {
      LeavesInverse(k, 0, true);
    }
    forall i: int64 ensures IntegerOf(IntegerItem(i)) == Some(i) {
      LeavesInverse([], i, true);
    }
    if f.Regions? {
      RegionsRoundTrip(f.regions);
    }
  }

  lemma TopFieldsRebuild(info: ConnInfo)
    ensures Fold(SetTop, EMPTY_DRAFT, TopFields(info)) == Draft(info, true)
  {
    hide Fold, Opt;
    var psk, disco := KeyOr(info.presharedKey), KeyOr(info.serverDiscoPublic);
    var f1: seq<TopField> := [ServerPublic(info.serverPublic)];
    var f2 := f1 + Opt(info.serverDiscoPublic.Some?, ServerDisco(disco));
    var f3 := f2 + Opt(info.presharedKey.Some?, PresharedKey(psk));
    var f4 := f3 + Opt(info.regions != [], Regions(info.regions));
    FoldOne(SetTop, EMPTY_DRAFT, ServerPublic(info.serverPublic));
    FoldOpt(SetTop, EMPTY_DRAFT, f1, info.serverDiscoPublic.Some?, ServerDisco(disco));
    FoldOpt(SetTop, EMPTY_DRAFT, f2, info.presharedKey.Some?, PresharedKey(psk));
    FoldOpt(SetTop, EMPTY_DRAFT, f3, info.regions != [], Regions(info.regions));
    FoldOpt(SetTop, EMPTY_DRAFT, f4, info.regionId != 0, TopRegion(info.regionId));
    assert [] + info.regions == info.regions;
  }

  lemma FoldOne<R, F>(step: (R, F) -> R, acc: R, f: F)
    ensures Fold(step, acc, [f]) == step(acc, f)
  {
    assert [f][1..] == [];
  }

  function Refilled(info: ConnInfo): ConnInfo {
    info.(regions := FillRegions(info.regions))
  }

  lemma DraftRoundTrip(info: ConnInfo)
    requires InfoFits(info)
    ensures DraftOf(InfoItem(info)) == if |info.regions| > 1 then None else Some(Draft(Refilled(info), true))
  {
    hide TopPair, TopFieldOf, TextOf, Shortest, FillRegions, Fold, TopFields, TopFieldFits, SetTop, FieldsOf;
    TopFieldsFit(info);
    var fs, back := TopFields(info), TopFields(Refilled(info));
    var pairs := TopPairs(fs);
    forall i | 0 <= i < |fs|
      ensures TextOf(pairs[i].key).Some?
      ensures TopFieldOf(TextOf(pairs[i].key).value, pairs[i].val) == ReadBack(fs[i])
    {
      assert fs[i] in fs;
      TopFieldInverse(fs[i]);
    }
    if |info.regions| > 1 {
      var i :| 0 <= i < |fs| && fs[i] == Regions(info.regions);
      FieldsFail(TopFieldOf, pairs, i);
    } else {
      FieldsInverse(TopFieldOf, pairs, back);
      TopFieldsRebuild(Refilled(info));
    }
  }

  lemma FilledLength(rs: seq<DerpRegion>)
    ensures |FillRegions(rs)| == |rs|
  {
  }

  lemma {:induction false} FieldsFail<F>(fieldOf: (bytes, Item) -> Option<F>, pairs: seq<Pair>, i: nat)
    requires i < |pairs|
    requires TextOf(pairs[i].key).Some? && fieldOf(TextOf(pairs[i].key).value, pairs[i].val).None?
    ensures FieldsOf(fieldOf, pairs).None?
  {
    if i > 0 {
      FieldsFail(fieldOf, pairs[1..], i - 1);
    }
  }

  // The laws of the whole codec.

  /** What parsing turns a printed record into: missing node region ids come from their region, a missing
      top-level region id from the first region. */
  function Normal(info: ConnInfo): ConnInfo {
    FillRegionId(Refilled(info))
  }

  lemma EncodeNonEmpty(item: Item)
    requires WellFormed(item)
    ensures Encode(item) != []
  {
  }

  /** Full round trip, with the exact outcome for every record: printing fails only on zero keys, and parsing the
      printed text gives the normal form unless there are two regions or no region information at all. */
  lemma PrintParse(info: ConnInfo)
    requires InfoFits(info)
    ensures Print(info).Ok? <==>
            !AllZero(info.serverPublic) && (info.serverDiscoPublic.Some? ==> !AllZero(info.serverDiscoPublic.value))
    ensures Print(info).Ok? ==>
              Parse(Print(info).value) ==
              if |info.regions| > 1 then Err(BadCbor)
              else if info.regions == [] && info.regionId == 0 then Err(MissingRegion)
              else Ok(Normal(info))
  {
    hide DraftOf, Encode, InfoItem, FillRegions;
    if Print(info).Ok? {
      InfoWellFormed(info);
      var raw := Encode(InfoItem(info));
      EncodeNonEmpty(InfoItem(info));
      Base64Url.RoundTrip(raw);
      var addr := Print(info).value;
      assert addr[2..] == Base64Url.EncodeText(raw);
      ParseEncoded(InfoItem(info));
      DraftRoundTrip(info);
      FilledLength(info.regions);
    }
  }
}
