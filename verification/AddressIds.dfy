/** The region ids of an address: what printing and parsing do to each field of each record, and what holds of every
    address that is accepted. */
module AddressIds {
  import opened Core
  import opened Cbor
  import opened Entries
  import opened Address
  import opened AddressItems
  import opened AddressLaws
  import Base64Url

  /** A region id that is missing is taken from the enclosing record. */
  function IdOr(id: int64, enclosing: int64): int64 { if id != 0 then id else enclosing }

  /** The node as it comes back inside a region with this id: only a missing region id changes. */
  ghost predicate SameNode(a: DerpNode, b: DerpNode, region: int64) {
    && b.name == a.name && b.hostName == a.hostName && b.certName == a.certName && b.ipv4 == a.ipv4 && b.ipv6 == a.ipv6
    && b.stunPort == a.stunPort && b.derpPort == a.derpPort && b.insecureForTests == a.insecureForTests
    && b.regionId == IdOr(a.regionId, region)
  }

  ghost predicate SameRegion(a: DerpRegion, b: DerpRegion) {
    && b.regionId == a.regionId && b.regionCode == a.regionCode && b.regionName == a.regionName
    && |b.nodes| == |a.nodes| && forall i | 0 <= i < |a.nodes| :: SameNode(a.nodes[i], b.nodes[i], a.regionId)
  }

  /** What comes back, field by field. */
  ghost predicate ComesBack(a: ConnInfo, b: ConnInfo) {
    && b.serverPublic == a.serverPublic && b.serverDiscoPublic == a.serverDiscoPublic
    && b.presharedKey == a.presharedKey
    && |b.regions| == |a.regions| && (forall i | 0 <= i < |a.regions| :: SameRegion(a.regions[i], b.regions[i]))
    && b.regionId == IdOr(a.regionId, if |a.regions| > 0 then a.regions[0].regionId else 0)
  }

  /** Printing and parsing keep every field of every record; a node without a region id takes that of its region, and
      an address without one that of its first region. */
  lemma PrintParseFields(info: ConnInfo)
    requires InfoFits(info)
    ensures Print(info).Ok? ==>
              match Parse(Print(info).value)
              case Ok(back) =>
                |info.regions| <= 1 && (info.regions != [] || info.regionId != 0) && ComesBack(info, back)
              case Err(e) => e == if |info.regions| > 1 then BadCbor else MissingRegion
  {
    hide Parse, Print, InfoFits;
    PrintParse(info);
  }

  lemma FillsExactly(a: DerpRegion, b: DerpRegion)
    ensures b == FillNodes(a) <==> SameRegion(a, b)
  {
    if SameRegion(a, b) {
      assert b.nodes == FillNodes(a).nodes;
    }
  }

  /** A region, written or not by this program, is what its entries say, with the missing region ids of its nodes
      filled in. */
  lemma RegionExactly(item: Item, r: DerpRegion)
    ensures RegionOf(item) == Some(r) <==>
            var said := RecordOf(RegionFieldOf, SetRegion, item, EMPTY_REGION);
            said.Some? && SameRegion(said.value, r)
  {
    hide RecordOf, SameRegion, FillNodes;
    var said := RecordOf(RegionFieldOf, SetRegion, item, EMPTY_REGION);
    if said.Some? {
      FillsExactly(said.value, r);
    }
  }

  /** In an accepted address, nodes lack a region id only if their region does, and so does the address only if its
      first region does. */
  lemma AcceptedIds(addr: string)
    requires Sized(addr) && Parse(addr).Ok?
    ensures var info := Parse(addr).value;
            && (forall r, n | r in info.regions && n in r.nodes :: n.regionId == 0 ==> r.regionId == 0)
            && (info.regionId == 0 ==> info.regions != [] && info.regions[0].regionId == 0)
  {
    hide ReadTop, RegionFits;
    var raw := Base64Url.DecodeText(addr[2..]).value;
    DecodedSize(addr[2..]);
    ParsedGood(raw);
    var info := Parse(addr).value;
    forall r | r in info.regions ensures forall n | n in r.nodes :: n.regionId == 0 ==> r.regionId == 0 {
      FillsExactly(r, r);
    }
  }

  /** The checks after reading: the keys must be there and not zero, the disco key must not be zero, and there must be
      some region. */
  lemma FinishExactly(d: Draft, info: ConnInfo)
    ensures Finish(d) == Ok(info) <==>
            && d.havePublic && (exists i | 0 <= i < 32 :: d.info.serverPublic[i] != 0)
            && (d.info.serverDiscoPublic.Some? ==> exists i | 0 <= i < 32 :: d.info.serverDiscoPublic.value[i] != 0)
            && (d.info.regionId != 0 || |d.info.regions| > 0)
            && info == d.info.(regionId := IdOr(d.info.regionId, info.regionId))
            && info.regionId == IdOr(d.info.regionId, if |d.info.regions| > 0 then d.info.regions[0].regionId else 0)
    ensures Finish(d) == Err(MissingServerPublic) <==>
            !d.havePublic || forall i | 0 <= i < 32 :: d.info.serverPublic[i] == 0
    ensures Finish(d) == Err(ZeroServerDisco) <==>
            && Finish(d) != Err(MissingServerPublic) && d.info.serverDiscoPublic.Some?
            && forall i | 0 <= i < 32 :: d.info.serverDiscoPublic.value[i] == 0
    ensures Finish(d) == Err(MissingRegion) <==>
            && Finish(d) != Err(MissingServerPublic) && Finish(d) != Err(ZeroServerDisco)
            && d.info.regionId == 0 && d.info.regions == []
  {
  }

  /** A document is malformed exactly if no front part of it encodes a tree that means an address; after such a part
      nothing may follow, and then the checks decide. */
  lemma OutcomeExactly(raw: bytes)
    ensures forall item, rest | WellFormed(item) && raw == Encode(item) + rest && DraftOf(item).Some? ::
              ParseCbor(raw) == if |rest| > 0 then Err(TrailingData) else Finish(DraftOf(item).value)
    ensures ParseCbor(raw) == Err(BadCbor) <==>
            forall item, rest | WellFormed(item) && raw == Encode(item) + rest :: DraftOf(item).None?
  {
    hide ReadTop, DraftOf, Finish, ReadItem, Encode, WellFormed;
    TopVia(raw);
    forall item, rest | WellFormed(item) && raw == Encode(item) + rest ensures ReadItem(raw) == Some((item, rest)) {
      ReadEncoded(item, rest);
    }
    if ReadItem(raw).Some? {
      ReadSplit(raw);
    }
    forall d ensures Finish(d) != Err(BadCbor) && Finish(d) != Err(TrailingData) {
      FinishErrors(d);
    }
  }

  lemma FinishErrors(d: Draft)
    ensures Finish(d).Err? ==> Finish(d).error in {MissingServerPublic, ZeroServerDisco, MissingRegion}
  {
  }

  /** The text form: the letters tc, then a base64url text. */
  lemma TextExactly(addr: string)
    ensures Parse(addr) == Err(BadPrefix) <==> !(|addr| >= 2 && addr[0] == 't' && addr[1] == 'c')
    ensures Parse(addr) == Err(BadBase64) <==>
            |addr| >= 2 && addr[0] == 't' && addr[1] == 'c' && Base64Url.DecodeText(addr[2..]).None?
    ensures forall raw | |addr| >= 2 && addr[..2] == "tc" && Base64Url.DecodeText(addr[2..]) == Some(raw) ::
              Parse(addr) == ParseCbor(raw)
  {
    hide ReadTop, Base64Url.DecodeText, Finish;
    forall d ensures Finish(d).Err? ==> Finish(d).error in {MissingServerPublic, ZeroServerDisco, MissingRegion} {
      FinishErrors(d);
    }
    if |addr| >= 2 && addr[0] == 't' && addr[1] == 'c' {
      assert addr[..2] == "tc";
    }
  }
}
