/** Laws of address parsing: stability under re-encoding, and independence of entry order and of unknown entries. */
module AddressLaws {
  import opened Core
  import opened Cbor
  import opened CborIO
  import opened Entries
  import opened Address
  import opened AddressItems
  import Base64Url

  // What the entry loop keeps, given how many bytes are still unread.

  ghost predicate Monotone<R(!new)>(ok: (R, nat) -> bool) {
    forall r, k: nat, k': nat | k' <= k && ok(r, k) :: ok(r, k')
  }

  ghost predicate FieldKeeps<R(!new), F(!new)>(readField: (bytes, bytes) -> Option<(F, bytes)>, set1: (R, F) -> R,
                                               ok: (R, nat) -> bool) {
    forall key, s, r | ok(r, |s|) && readField(key, s).Some? ::
      ok(set1(r, readField(key, s).value.0), |readField(key, s).value.1|)
  }

  lemma {:induction false} EntriesKeep<R(!new), F(!new)>(
    readField: (bytes, bytes) -> Option<(F, bytes)>, set1: (R, F) -> R, ok: (R, nat) -> bool, s: bytes, n: nat, acc: R)
    requires Monotone(ok) && FieldKeeps(readField, set1, ok) && ok(acc, |s|)
    requires FoldEntries(readField, set1, s, n, acc).Some?
    ensures var (r, rest) := FoldEntries(readField, set1, s, n, acc).value; ok(r, |rest|)
    decreases n
  {
    hide ReadString;
    if n > 0 {
      var (key, rest) := ReadText(s).value;
      TextShrinks(s);
      var (f, after) := readField(key, rest).value;
      assert ok(acc, |rest|);
      EntriesKeep(readField, set1, ok, after, n - 1, set1(acc, f));
    }
  }

  lemma TextShrinks(s: bytes)
    ensures ReadText(s).Some? ==> |ReadText(s).value.1| < |s| && Sized(ReadText(s).value.0)
  {
  }

  lemma RecordKeeps<R(!new), F(!new)>(
    readField: (bytes, bytes) -> Option<(F, bytes)>, set1: (R, F) -> R, ok: (R, nat) -> bool, s: bytes, start: R)
    requires Monotone(ok) && FieldKeeps(readField, set1, ok) && ok(start, |s|)
    requires ReadRecord(readField, set1, s, start).Some?
    ensures var (r, rest) := ReadRecord(readField, set1, s, start).value; ok(r, |rest|)
  {
    hide ReadHead;
    var (n, rest) := ReadMajor(s, 5).value;
    assert ok(start, |rest|);
    EntriesKeep(readField, set1, ok, rest, n, start);
  }

  /** A successful entry loop or record reading consumes bytes. */
  lemma RecordShrinks(s: bytes)
    ensures ReadNode(s).Some? ==> |ReadNode(s).value.1| < |s|
    ensures ReadRegion(s).Some? ==> |ReadRegion(s).value.1| < |s|
  {
    hide ReadRecord, RecordOf, NodeOf, RegionOf, ReadItem;
    NodeVia(s);
    RegionVia(s);
  }

  lemma {:induction false} ManyKeeps<T(!new)>(read: bytes -> Option<(T, bytes)>, good: T -> bool, s: bytes, n: nat)
    requires forall t | read(t).Some? :: good(read(t).value.0) && |read(t).value.1| < |t|
    requires ReadMany(read, s, n).Some?
    ensures var (xs, rest) := ReadMany(read, s, n).value; |xs| + |rest| <= |s| && forall x | x in xs :: good(x)
    decreases n
  {
    if n > 0 {
      var (x, rest) := read(s).value;
      assert good(read(s).value.0);
      ManyKeeps(read, good, rest, n - 1);
    }
  }

  // Every string and list that is read fits in 64 bits, and every region that is read has its nodes filled.

  lemma NodeReadFits(s: bytes)
    requires ReadNode(s).Some?
    ensures NodeFits(ReadNode(s).value.0)
  {
    hide ReadRecord, ReadText, ReadInteger, ReadBoolean, SkipOne;
    forall t ensures ReadText(t).Some? ==> Sized(ReadText(t).value.0) {
      TextShrinks(t);
    }
    RecordKeeps(ReadNodeField, SetNode, (n, k) => NodeFits(n), s, EMPTY_NODE);
  }

  predicate RegionGood(r: DerpRegion) {
    Sized(r.regionCode) && Sized(r.regionName) && (forall n | n in r.nodes :: NodeFits(n))
  }

  lemma NodesReadFit(s: bytes)
    requires ReadNodes(s).Some?
    ensures var (ns, rest) := ReadNodes(s).value; |ns| + |rest| <= |s| && forall n | n in ns :: NodeFits(n)
  {
    hide ReadHead, ReadMany, ReadNode, NodeFits;
    forall t | ReadNode(t).Some? ensures NodeFits(ReadNode(t).value.0) && |ReadNode(t).value.1| < |t| {
      NodeReadFits(t);
      RecordShrinks(t);
    }
    var (n, rest) := ReadMajor(s, 4).value;
    ManyKeeps(ReadNode, NodeFits, rest, n);
  }

  lemma RegionReadFits(s: bytes)
    requires ReadRegion(s).Some? && Sized(s)
    ensures RegionFits(ReadRegion(s).value.0) && FillNodes(ReadRegion(s).value.0) == ReadRegion(s).value.0
  {
    var ok := (r: DerpRegion, k: nat) => RegionGood(r) && |r.nodes| + k <= |s|;
    RegionFieldsKeep(|s|);
    RecordKeeps(ReadRegionField, SetRegion, ok, s, EMPTY_REGION);
    FillFits(ReadRecord(ReadRegionField, SetRegion, s, EMPTY_REGION).value.0);
  }

  lemma RegionFieldsKeep(total: nat)
    ensures var ok := (r: DerpRegion, k: nat) => RegionGood(r) && |r.nodes| + k <= total;
            Monotone(ok) && FieldKeeps(ReadRegionField, SetRegion, ok)
  {
    hide ReadText, ReadInteger, ReadNodes, NodeFits;
    forall t ensures ReadText(t).Some? ==> Sized(ReadText(t).value.0) && |ReadText(t).value.1| < |t| {
      TextShrinks(t);
    }
    forall t | ReadNodes(t).Some?
      ensures |ReadNodes(t).value.0| + |ReadNodes(t).value.1| <= |t|
      ensures forall n | n in ReadNodes(t).value.0 :: NodeFits(n)
    {
      NodesReadFit(t);
    }
  }

  lemma FillFits(r: DerpRegion)
    ensures RegionGood(r) && Sized(r.nodes) ==> RegionFits(FillNodes(r))
    ensures FillNodes(FillNodes(r)) == FillNodes(r)
  {
    assert FillNodes(FillNodes(r)).nodes == FillNodes(r).nodes;
    if RegionGood(r) {
      forall n | n in FillNodes(r).nodes ensures NodeFits(n) {
        var i :| 0 <= i < |r.nodes| && n == FillNodes(r).nodes[i];
        assert NodeFits(r.nodes[i]);
      }
    }
  }

  predicate TopGood(d: Draft) {
    forall r | r in d.info.regions :: RegionFits(r) && FillNodes(r) == r
  }

  lemma RegionsReadGood(s: bytes)
    requires ReadRegions(s).Some? && Sized(s)
    ensures forall r | r in ReadRegions(s).value.0 :: RegionFits(r) && FillNodes(r) == r
    ensures |ReadRegions(s).value.0| <= 1 && |ReadRegions(s).value.0| + |ReadRegions(s).value.1| <= |s|
  {
    hide ReadHead, ReadRegion, RegionFits, FillNodes;
    var (n, rest) := ReadMajor(s, 4).value;
    if n == 1 {
      RegionReadFits(rest);
      RecordShrinks(rest);
    }
  }

  lemma TopFieldsKeep(total: nat)
    requires total < TWO_TO_THE_64
    ensures var ok := (d: Draft, k: nat) => TopGood(d) && |d.info.regions| + k <= total;
            Monotone(ok) && FieldKeeps(ReadTopField, SetTop, ok)
  {
    hide ReadKey, ReadInteger, ReadRegions, RegionFits, FillNodes;
    forall t | ReadKey(t).Some? ensures |ReadKey(t).value.1| < |t| {
      KeyShrinks(t);
    }
    forall t: bytes | Sized(t) && ReadRegions(t).Some?
      ensures forall r | r in ReadRegions(t).value.0 :: RegionFits(r) && FillNodes(r) == r
      ensures |ReadRegions(t).value.0| + |ReadRegions(t).value.1| <= |t|
    {
      RegionsReadGood(t);
    }
  }

  lemma KeyShrinks(s: bytes)
    ensures ReadKey(s).Some? ==> |ReadKey(s).value.1| < |s|
  {
  }

  lemma ParsedGood(raw: bytes)
    requires ReadTop(raw).Some? && Sized(raw)
    ensures TopGood(ReadTop(raw).value.0) && Sized(ReadTop(raw).value.0.info.regions)
  {
    hide ReadRecord;
    var ok := (d: Draft, k: nat) => TopGood(d) && |d.info.regions| + k <= |raw|;
    TopFieldsKeep(|raw|);
    RecordKeeps(ReadTopField, SetTop, ok, raw, EMPTY_DRAFT);
  }

  lemma DecodedSize(addr: string)
    requires Base64Url.DecodeText(addr).Some?
    ensures |Base64Url.DecodeText(addr).value| <= |addr|
  {
    var s := Collect(Base64Url.Value, addr).value;
    CollectLength(Base64Url.Value, addr);
    Base64Url.SextetsOfOctets(s);
    Base64Url.OctetsOfSextets(Base64Url.Octets(s));
  }

  lemma {:induction false} CollectLength<A, B>(f: A -> Option<B>, s: seq<A>)
    ensures Collect(f, s).Some? ==> |Collect(f, s).value| == |s|
  {
    if s != [] {
      CollectLength(f, s[1..]);
    }
  }

  /** Re-encoding: an accepted address can be printed again, and parsing that text gives the same record back
      exactly when at most one region was collected. */
  lemma Stable(addr: string)
    requires Sized(addr) && Parse(addr).Ok?
    ensures InfoFits(Parse(addr).value) && Print(Parse(addr).value).Ok?
    ensures Parse(Print(Parse(addr).value).value) == Parse(addr) <==> |Parse(addr).value.regions| <= 1
  {
    hide ReadTop, FillNodes, RegionFits, Print;
    var raw := Base64Url.DecodeText(addr[2..]).value;
    DecodedSize(addr[2..]);
    ParsedGood(raw);
    var info := Parse(addr).value;
    assert info.regions == ReadTop(raw).value.0.info.regions;
    assert FillRegions(info.regions) == info.regions;
    assert Normal(info) == info;
    PrintParse(info);
  }

  // Entry order and unknown entries.

  ghost predicate Commute<R(!new), F>(step: (R, F) -> R, f: F, g: F) {
    forall r :: step(step(r, f), g) == step(step(r, g), f)
  }

  ghost predicate AllCommute<R(!new), F>(step: (R, F) -> R, fs: seq<F>) {
    forall f, g | f in fs && g in fs :: Commute(step, f, g)
  }

  lemma {:induction false} MoveToFront<R(!new), F>(step: (R, F) -> R, acc: R, a: seq<F>, f: F)
    requires forall g | g in a :: Commute(step, g, f)
    ensures Fold(step, step(acc, f), a) == step(Fold(step, acc, a), f)
  {
    if a != [] {
      assert Commute(step, a[0], f);
      MoveToFront(step, step(acc, a[0]), a[1..], f);
    }
  }

  lemma PullForward<R(!new), F>(step: (R, F) -> R, acc: R, front: seq<F>, f: F, back: seq<F>)
    requires forall g | g in front :: Commute(step, g, f)
    ensures Fold(step, acc, front + ([f] + back)) == Fold(step, step(acc, f), front + back)
  {
    FoldAppend(step, acc, front, [f] + back);
    FoldAppend(step, step(acc, f), front, back);
    FoldAppend(step, Fold(step, acc, front), [f], back);
    FoldOne(step, Fold(step, acc, front), f);
    MoveToFront(step, acc, front, f);
  }

  lemma RemoveOne<F>(f: F, tail: seq<F>, front: seq<F>, back: seq<F>)
    requires multiset([f] + tail) == multiset(front + ([f] + back))
    ensures multiset(tail) == multiset(front + back)
    ensures forall g | g in front :: g in [f] + tail
  {
    assert multiset([f] + tail) == multiset{f} + multiset(tail);
    assert multiset(front + ([f] + back)) == multiset(front) + (multiset{f} + multiset(back));
    assert multiset(front + back) == multiset([f] + tail) - multiset{f};
    forall g | g in front ensures g in [f] + tail {
      assert g in multiset(front + ([f] + back));
      assert g in multiset([f] + tail);
    }
  }

  lemma SplitAt<F>(f: F, b: seq<F>) returns (front: seq<F>, back: seq<F>)
    requires f in b
    ensures b == front + ([f] + back)
  {
    var i :| 0 <= i < |b| && b[i] == f;
    front, back := b[..i], b[i + 1..];
  }

  /** Folding pairwise commuting steps does not depend on their order. */
  lemma {:induction false} FoldPermutation<R(!new), F>(step: (R, F) -> R, acc: R, a: seq<F>, b: seq<F>)
    requires multiset(a) == multiset(b) && AllCommute(step, a)
    ensures Fold(step, acc, a) == Fold(step, acc, b)
    decreases |a|
  {
    assert |multiset(a)| == |a| && |multiset(b)| == |b|;
    if a == [] {
      assert b == [];
    } else {
      hide Commute;
      var f, tail := a[0], a[1..];
      assert a == [f] + tail;
      assert f in multiset(b);
      var front, back := SplitAt(f, b);
      RemoveOne(f, tail, front, back);
      PullForward(step, acc, front, f, back);
      FoldPermutation(step, step(acc, f), tail, front + back);
    }
  }

  function Filter<F>(keep: F -> bool, fs: seq<F>): seq<F> {
    if fs == [] then [] else (if keep(fs[0]) then [fs[0]] else []) + Filter(keep, fs[1..])
  }

  lemma {:induction false} FoldFilter<R(!new), F>(step: (R, F) -> R, acc: R, keep: F -> bool, fs: seq<F>)
    requires forall f, r | !keep(f) :: step(r, f) == r
    ensures Fold(step, acc, fs) == Fold(step, acc, Filter(keep, fs))
    decreases |fs|
  {
    if fs != [] {
      var rest := Filter(keep, fs[1..]);
      FoldFilter(step, step(acc, fs[0]), keep, fs[1..]);
      if keep(fs[0]) {
        assert Filter(keep, fs) == [fs[0]] + rest && ([fs[0]] + rest)[1..] == rest;
      } else {
        assert Filter(keep, fs) == rest;
      }
    }
  }

  lemma {:induction false} FilterMember<F>(keep: F -> bool, fs: seq<F>, f: F)
    requires f in Filter(keep, fs)
    ensures f in fs && keep(f)
  {
    if fs != [] && f in Filter(keep, fs[1..]) {
      FilterMember(keep, fs[1..], f);
    }
  }

  /** Two lists whose known fields are a permutation of each other, equal kinds carrying equal values, fold alike. */
  lemma SameKnownFields<R(!new), F>(step: (R, F) -> R, acc: R, keep: F -> bool, a: seq<F>, b: seq<F>)
    requires forall f, r | !keep(f) :: step(r, f) == r
    requires forall f, g | f in a && g in a && f != g :: Commute(step, f, g)
    requires multiset(Filter(keep, a)) == multiset(Filter(keep, b))
    ensures Fold(step, acc, a) == Fold(step, acc, b)
  {
    FoldFilter(step, acc, keep, a);
    FoldFilter(step, acc, keep, b);
    forall f, g | f in Filter(keep, a) && g in Filter(keep, a) ensures Commute(step, f, g) {
      FilterMember(keep, a, f);
      FilterMember(keep, a, g);
    }
    FoldPermutation(step, acc, Filter(keep, a), Filter(keep, b));
  }

  // The kind of a field is its key.

  function NodeKind(f: NodeField): nat {
    match f
    case NodeName(_) => 0
    case NodeRegion(_) => 1
    case HostName(_) => 2
    case CertName(_) => 3
    case Ipv4(_) => 4
    case Ipv6(_) => 5
    case StunPort(_) => 6
    case DerpPort(_) => 7
    case InsecureForTests(_) => 8
    case UnknownInNode => 9
  }

  function RegionKind(f: RegionField): nat {
    match f
    case RegionId(_) => 0
    case RegionCode(_) => 1
    case RegionName(_) => 2
    case Nodes(_) => 3
    case UnknownInRegion => 4
  }

  function TopKind(f: TopField): nat {
    match f
    case ServerPublic(_) => 0
    case ServerDisco(_) => 1
    case PresharedKey(_) => 2
    case Regions(_) => 3
    case TopRegion(_) => 4
    case UnknownAtTop => 5
  }

  /** No key is given two different values. */
  predicate Consistent<F(==)>(kind: F -> nat, fs: seq<F>) {
    forall f, g | f in fs && g in fs && kind(f) == kind(g) :: f == g
  }

  predicate KnownInNode(f: NodeField) { f != UnknownInNode }

  predicate KnownInRegion(f: RegionField) { f != UnknownInRegion }

  predicate KnownAtTop(f: TopField) { f != UnknownAtTop }

  /** A node does not depend on the order of its entries, on unknown entries or on how heads are encoded. */
  lemma NodeOrder(a: Item, b: Item, fa: seq<NodeField>, fb: seq<NodeField>)
    requires a.Map? && b.Map? && |a.pairs| < TWO_TO_THE_64 && |b.pairs| < TWO_TO_THE_64
    requires FieldsOf(NodeFieldOf, a.pairs) == Some(fa) && FieldsOf(NodeFieldOf, b.pairs) == Some(fb)
    requires Consistent(NodeKind, fa) && multiset(Filter(KnownInNode, fa)) == multiset(Filter(KnownInNode, fb))
    ensures NodeOf(a) == NodeOf(b)
  {
    hide FieldsOf, Fold, NodeFieldOf, Filter;
    forall f, g | f in fa && g in fa && f != g ensures Commute(SetNode, f, g) {
      NodeFieldsCommute(f, g);
    }
    SameKnownFields(SetNode, EMPTY_NODE, KnownInNode, fa, fb);
  }

  lemma NodeFieldsCommute(f: NodeField, g: NodeField)
    requires NodeKind(f) != NodeKind(g)
    ensures Commute(SetNode, f, g)
  {
    forall n ensures SetNode(SetNode(n, f), g) == SetNode(SetNode(n, g), f) {
      NodeFieldsSwap(n, f, g);
    }
  }

  lemma NodeFieldsSwap(n: DerpNode, f: NodeField, g: NodeField)
    requires NodeKind(f) != NodeKind(g)
    ensures SetNode(SetNode(n, f), g) == SetNode(SetNode(n, g), f)
  {
    match f
    case NodeName(_) =>
    case NodeRegion(_) =>
    case HostName(_) =>
    case CertName(_) =>
    case Ipv4(_) =>
    case Ipv6(_) =>
    case StunPort(_) =>
    case DerpPort(_) =>
    case InsecureForTests(_) =>
    case UnknownInNode =>
  }

  lemma RegionOrder(a: Item, b: Item, fa: seq<RegionField>, fb: seq<RegionField>)
    requires a.Map? && b.Map? && |a.pairs| < TWO_TO_THE_64 && |b.pairs| < TWO_TO_THE_64
    requires FieldsOf(RegionFieldOf, a.pairs) == Some(fa) && FieldsOf(RegionFieldOf, b.pairs) == Some(fb)
    requires Consistent(RegionKind, fa) && multiset(Filter(KnownInRegion, fa)) == multiset(Filter(KnownInRegion, fb))
    ensures RegionOf(a) == RegionOf(b)
  {
    hide FieldsOf, Fold, RegionFieldOf, Filter, FillNodes;
    forall f, g | f in fa && g in fa && f != g ensures Commute(SetRegion, f, g) {
      assert RegionKind(f) != RegionKind(g);
    }
    SameKnownFields(SetRegion, EMPTY_REGION, KnownInRegion, fa, fb);
  }

  /** Whole addresses: two documents whose top-level entries mean the same known fields, in any order and with any
      unknown entries between them, parse to the same result. The fields already are what nested maps mean, so by
      RegionOrder and NodeOrder the inner maps may be reordered and extended as well. */
  lemma TopOrder(a: Item, b: Item, fa: seq<TopField>, fb: seq<TopField>)
    requires WellFormed(a) && WellFormed(b) && a.Map? && b.Map?
    requires FieldsOf(TopFieldOf, a.pairs) == Some(fa) && FieldsOf(TopFieldOf, b.pairs) == Some(fb)
    requires Consistent(TopKind, fa) && multiset(Filter(KnownAtTop, fa)) == multiset(Filter(KnownAtTop, fb))
    ensures ParseCbor(Encode(a)) == ParseCbor(Encode(b))
  {
    hide FieldsOf, Fold, TopFieldOf, Filter, Finish, ParseCbor, Encode;
    forall f, g | f in fa && g in fa && f != g ensures Commute(SetTop, f, g) {
      assert TopKind(f) != TopKind(g);
    }
    SameKnownFields(SetTop, EMPTY_DRAFT, KnownAtTop, fa, fb);
    CountsFit(a);
    CountsFit(b);
    ParseEncoded(a);
    ParseEncoded(b);
  }

  lemma CountsFit(item: Item)
    requires WellFormed(item) && item.Map?
    ensures |item.pairs| < TWO_TO_THE_64
  {
    HeadRoundTrip(5, item.w, |item.pairs|, []);
  }

  /** An entry that sets nothing can be inserted anywhere, whatever the other entries are. */
  lemma InsertIgnored<R(!new), F>(fieldOf: (bytes, Item) -> Option<F>, set1: (R, F) -> R, start: R,
                                  a: seq<Pair>, p: Pair, b: seq<Pair>, ignored: F)
    requires TextOf(p.key).Some? && fieldOf(TextOf(p.key).value, p.val) == Some(ignored)
    requires forall r :: set1(r, ignored) == r
    ensures FieldsOf(fieldOf, a + [p] + b).Some? <==> FieldsOf(fieldOf, a + b).Some?
    ensures FieldsOf(fieldOf, a + b).Some? ==>
              Fold(set1, start, FieldsOf(fieldOf, a + [p] + b).value) ==
              Fold(set1, start, FieldsOf(fieldOf, a + b).value)
  {
    FieldsAppend(fieldOf, a + [p], b);
    FieldsAppend(fieldOf, a, [p]);
    FieldsAppend(fieldOf, a, b);
    FieldsSingle(fieldOf, p);
    if FieldsOf(fieldOf, a).Some? && FieldsOf(fieldOf, b).Some? {
      var fa, fb := FieldsOf(fieldOf, a).value, FieldsOf(fieldOf, b).value;
      FoldAppend(set1, start, fa + [ignored], fb);
      FoldAppend(set1, start, fa, [ignored]);
      FoldAppend(set1, start, fa, fb);
      FoldOne(set1, Fold(set1, start, fa), ignored);
    }
  }

  lemma FieldsSingle<F>(fieldOf: (bytes, Item) -> Option<F>, p: Pair)
    requires TextOf(p.key).Some? && fieldOf(TextOf(p.key).value, p.val).Some?
    ensures FieldsOf(fieldOf, [p]) == Some([fieldOf(TextOf(p.key).value, p.val).value])
  {
    var f := fieldOf(TextOf(p.key).value, p.val).value;
    assert [p][1..] == [] && FieldsOf(fieldOf, [p][1..]) == Some([]);
    assert [f] + [] == [f];
  }

  predicate TopKey(key: bytes) {
    key in {Key('p'), Key('k'), Key('q'), Key('r'), Key('i')}
  }

  predicate RegionKey(key: bytes) {
    key in {Key('i'), Key('c'), Key('m'), Key('N')}
  }

  predicate NodeKey(key: bytes) {
    key in {Key('n'), Key('i'), Key('h'), Key('t'), Key('4'), Key('6'), Key('s'), Key('d'), Key('x')}
  }

  /** Inserting an entry with an unknown text key and any well-formed value at any place of the top-level map,
      of a region map or of a node map never changes what is parsed, whether parsing succeeds or fails. */
  lemma UnknownTopEntry(w: Width, w': Width, a: seq<Pair>, p: Pair, b: seq<Pair>)
    requires WellFormed(Map(w, a + b)) && WellFormed(Map(w', a + [p] + b))
    requires TextOf(p.key).Some? && !TopKey(TextOf(p.key).value)
    ensures ParseCbor(Encode(Map(w', a + [p] + b))) == ParseCbor(Encode(Map(w, a + b)))
  {
    hide ParseCbor, Encode, Finish, FieldsOf, Fold;
    CountsFit(Map(w, a + b));
    CountsFit(Map(w', a + [p] + b));
    ParseEncoded(Map(w, a + b));
    ParseEncoded(Map(w', a + [p] + b));
    InsertIgnored(TopFieldOf, SetTop, EMPTY_DRAFT, a, p, b, UnknownAtTop);
  }

  lemma UnknownRegionEntry(w: Width, w': Width, a: seq<Pair>, p: Pair, b: seq<Pair>)
    requires WellFormed(Map(w, a + b)) && WellFormed(Map(w', a + [p] + b))
    requires TextOf(p.key).Some? && !RegionKey(TextOf(p.key).value)
    ensures RegionOf(Map(w', a + [p] + b)) == RegionOf(Map(w, a + b))
  {
    hide FieldsOf, Fold, FillNodes;
    CountsFit(Map(w, a + b));
    CountsFit(Map(w', a + [p] + b));
    InsertIgnored(RegionFieldOf, SetRegion, EMPTY_REGION, a, p, b, UnknownInRegion);
  }

  lemma UnknownNodeEntry(w: Width, w': Width, a: seq<Pair>, p: Pair, b: seq<Pair>)
    requires WellFormed(Map(w, a + b)) && WellFormed(Map(w', a + [p] + b))
    requires TextOf(p.key).Some? && !NodeKey(TextOf(p.key).value)
    ensures NodeOf(Map(w', a + [p] + b)) == NodeOf(Map(w, a + b))
  {
    hide FieldsOf, Fold;
    CountsFit(Map(w, a + b));
    CountsFit(Map(w', a + [p] + b));
    InsertIgnored(NodeFieldOf, SetNode, EMPTY_NODE, a, p, b, UnknownInNode);
  }

  // Repeated "r" entries.

  /** The regions that the "r" entries of a document carry in all. */
  function CarriedRegions(fs: seq<TopField>): nat {
    if fs == [] then 0 else (if fs[0].Regions? then |fs[0].regions| else 0) + CarriedRegions(fs[1..])
  }

  function CountRegions(fs: seq<TopField>): nat {
    if fs == [] then 0 else (if fs[0].Regions? then 1 else 0) + CountRegions(fs[1..])
  }

  lemma {:induction false} RegionsCollected(d: Draft, fs: seq<TopField>)
    ensures |Fold(SetTop, d, fs).info.regions| == |d.info.regions| + CarriedRegions(fs)
    decreases |fs|
  {
    if fs != [] {
      RegionsCollected(SetTop(d, fs[0]), fs[1..]);
    }
  }

  /** One entry carries at most one region. */
  lemma {:induction false} CarriedBounded(pairs: seq<Pair>)
    requires FieldsOf(TopFieldOf, pairs).Some?
    ensures CarriedRegions(FieldsOf(TopFieldOf, pairs).value) <= CountRegions(FieldsOf(TopFieldOf, pairs).value)
  {
    hide KeyItemOf, IntegerOf, TextOf, NodeOf, RegionOf;
    if pairs != [] {
      var fs := FieldsOf(TopFieldOf, pairs).value;
      assert fs == [fs[0]] + FieldsOf(TopFieldOf, pairs[1..]).value;
      CarriedBounded(pairs[1..]);
      RegionsOfAtMostOne(pairs[0].val);
    }
  }

  lemma RegionsOfAtMostOne(item: Item)
    ensures RegionsOf(item).Some? ==> |RegionsOf(item).value| <= 1
  {
    hide RegionOf;
    if item.Arr? {
      CollectLength(RegionOf, item.elems);
    }
  }

  /** Parsing an accepted address is stable under re-encoding, whatever head widths, unknown entries or unused base64
      bits it has, if and only if the "r" entries of its document carry at most one region in all. */
  lemma StableExactly(addr: string, item: Item, fs: seq<TopField>)
    requires Sized(addr) && Parse(addr).Ok?
    requires WellFormed(item) && item.Map? && Base64Url.DecodeText(addr[2..]) == Some(Encode(item))
    requires FieldsOf(TopFieldOf, item.pairs) == Some(fs)
    ensures InfoFits(Parse(addr).value) && Print(Parse(addr).value).Ok?
    ensures Parse(Print(Parse(addr).value).value) == Parse(addr) <==> CarriedRegions(fs) <= 1
  {
    hide FieldsOf, Fold, Encode, ParseCbor, Print, InfoFits, CarriedRegions, WellFormed, Base64Url.DecodeText;
    Stable(addr);
    ParsedRegions(item, fs);
    assert Parse(addr) == ParseCbor(Encode(item)) by {
      hide ParseCbor, Encode;
    }
  }

  /** So one "r" entry at the most suffices. */
  lemma StableWithOneRegionsEntry(addr: string, item: Item, fs: seq<TopField>)
    requires Sized(addr) && Parse(addr).Ok?
    requires WellFormed(item) && item.Map? && Base64Url.DecodeText(addr[2..]) == Some(Encode(item))
    requires FieldsOf(TopFieldOf, item.pairs) == Some(fs) && CountRegions(fs) <= 1
    ensures InfoFits(Parse(addr).value) && Print(Parse(addr).value).Ok?
    ensures Parse(Print(Parse(addr).value).value) == Parse(addr)
  {
    hide FieldsOf, Encode, Parse, Print, InfoFits, CarriedRegions, CountRegions, WellFormed, Base64Url.DecodeText;
    StableExactly(addr, item, fs);
    CarriedBounded(item.pairs);
  }

  lemma ParsedRegions(item: Item, fs: seq<TopField>)
    requires WellFormed(item) && item.Map? && FieldsOf(TopFieldOf, item.pairs) == Some(fs)
    requires ParseCbor(Encode(item)).Ok?
    ensures |ParseCbor(Encode(item)).value.regions| == CarriedRegions(fs)
  {
    hide FieldsOf, Fold, Encode, ParseCbor, CarriedRegions;
    ParseEncoded(item);
    CountsFit(item);
    RegionsCollected(EMPTY_DRAFT, fs);
  }

  /** With two of them it need not be: this document is accepted with two regions, and its re-encoding is refused. */
  lemma RepeatedRegionsEntry(k: Key32)
    requires !AllZero(k)
    ensures var r := DerpRegion(1, [], [], []);
            var item := MapItem(TopPairs([ServerPublic(k), Regions([r]), Regions([r])]));
            var info := ConnInfo(k, None, None, [r, r], 1);
            && WellFormed(item) && ParseCbor(Encode(item)) == Ok(info)
            && InfoFits(info) && Print(info).Ok? && Parse(Print(info).value) == Err(BadCbor)
  {
    var r := DerpRegion(1, [], [], []);
    var fs := [ServerPublic(k), Regions([r]), Regions([r])];
    var item := MapItem(TopPairs(fs));
    var info := ConnInfo(k, None, None, [r, r], 1);
    RepeatedWellFormed(k, r);
    RepeatedFields(k, r);
    RepeatedFold(k, r);
    hide Encode, TopPairs, FieldsOf, Fold, Print, Parse;
    ParseEncoded(item);
    PrintParse(info);
  }

  lemma RepeatedFields(k: Key32, r: DerpRegion)
    requires r == DerpRegion(1, [], [], [])
    ensures var fs := [ServerPublic(k), Regions([r]), Regions([r])]; FieldsOf(TopFieldOf, TopPairs(fs)) == Some(fs)
  {
    hide TopPair, TopFieldOf, TextOf;
    var fs := [ServerPublic(k), Regions([r]), Regions([r])];
    forall i | 0 <= i < 3
      ensures TextOf(TopPairs(fs)[i].key).Some?
      ensures TopFieldOf(TextOf(TopPairs(fs)[i].key).value, TopPairs(fs)[i].val) == Some(fs[i])
    {
      TopFieldInverse(fs[i]);
      assert FillRegions([r]) == [r];
    }
    FieldsInverse(TopFieldOf, TopPairs(fs), fs);
  }

  lemma RepeatedFold(k: Key32, r: DerpRegion)
    ensures Fold(SetTop, EMPTY_DRAFT, [ServerPublic(k), Regions([r]), Regions([r])]) ==
            Draft(ConnInfo(k, None, None, [r, r], 0), true)
  {
    hide Fold;
    var a: seq<TopField> := [ServerPublic(k)];
    var b: seq<TopField> := [Regions([r])];
    assert [ServerPublic(k), Regions([r]), Regions([r])] == a + b + b;
    FoldAppend(SetTop, EMPTY_DRAFT, a + b, b);
    FoldAppend(SetTop, EMPTY_DRAFT, a, b);
    FoldOne(SetTop, EMPTY_DRAFT, ServerPublic(k));
    FoldOne(SetTop, Draft(ConnInfo(k, None, None, [], 0), true), Regions([r]));
    FoldOne(SetTop, Draft(ConnInfo(k, None, None, [r], 0), true), Regions([r]));
    assert [] + [r] == [r] && [r] + [r] == [r, r];
  }

  lemma RepeatedWellFormed(k: Key32, r: DerpRegion)
    requires r == DerpRegion(1, [], [], [])
    ensures WellFormed(MapItem(TopPairs([ServerPublic(k), Regions([r]), Regions([r])])))
  {
    hide TopPair, RegionItem;
    RegionWellFormed(r);
    TopPairWellFormed(ServerPublic(k));
    TopPairWellFormed(Regions([r]));
    ShortestFits(3);
  }
}
