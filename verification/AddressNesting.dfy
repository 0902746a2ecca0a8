/** Addresses depend on nested maps only through their meaning: together with the laws for each kind of map this carries
    reordering, unknown entries and other head widths inside nodes and regions up to whole addresses. */
module AddressNesting {
  import opened Core
  import opened Cbor
  import opened CborIO
  import opened Entries
  import opened Address

  lemma SameFields<F>(fieldOf: (bytes, Item) -> Option<F>, a: seq<Pair>, p: Pair, q: Pair, b: seq<Pair>)
    requires p.key == q.key
    requires TextOf(p.key).Some? ==> fieldOf(TextOf(p.key).value, p.val) == fieldOf(TextOf(p.key).value, q.val)
    ensures FieldsOf(fieldOf, a + [p] + b) == FieldsOf(fieldOf, a + [q] + b)
  {
    assert [p][1..] == [] && [q][1..] == [];
    assert FieldsOf(fieldOf, [p]) == FieldsOf(fieldOf, [q]);
    hide FieldsOf;
    FieldsAppend(fieldOf, a, [p]);
    FieldsAppend(fieldOf, a, [q]);
    FieldsAppend(fieldOf, a + [p], b);
    FieldsAppend(fieldOf, a + [q], b);
  }

  lemma SameCollect<A, B>(f: A -> Option<B>, a: seq<A>, x: A, y: A, b: seq<A>)
    requires f(x) == f(y)
    ensures Collect(f, a + [x] + b) == Collect(f, a + [y] + b)
  {
    assert [x][1..] == [] && [y][1..] == [];
    assert Collect(f, [x]) == Collect(f, [y]);
    hide Collect;
    CollectAppend(f, a, [x]);
    CollectAppend(f, a, [y]);
    CollectAppend(f, a + [x], b);
    CollectAppend(f, a + [y], b);
  }

  /** A region does not change when one of its nodes is replaced by an item that means the same node. */
  lemma ReplaceNode(
    w: Width, a: seq<Pair>, key: Item, b: seq<Pair>, v: Width, front: seq<Item>, n: Item, m: Item, back: seq<Item>
  )
    requires NodeOf(n) == NodeOf(m)
    ensures RegionOf(Map(w, a + [Pair(key, Arr(v, front + [n] + back))] + b)) ==
            RegionOf(Map(w, a + [Pair(key, Arr(v, front + [m] + back))] + b))
  {
    var x, y := Arr(v, front + [n] + back), Arr(v, front + [m] + back);
    SameCollect(NodeOf, front, n, m, back);
    assert NodesOf(x) == NodesOf(y);
    hide NodesOf, NodeOf;
    SameFields(RegionFieldOf, a, Pair(key, x), Pair(key, y), b);
    hide FieldsOf, RegionFieldOf;
    assert |a + [Pair(key, x)] + b| == |a + [Pair(key, y)] + b|;
  }

  /** An address does not change when an item among its regions is replaced by one that means the same region. */
  lemma ReplaceRegion(
    w: Width, a: seq<Pair>, key: Item, b: seq<Pair>, v: Width, front: seq<Item>, r: Item, s: Item, back: seq<Item>
  )
    requires RegionOf(r) == RegionOf(s)
    requires WellFormed(Map(w, a + [Pair(key, Arr(v, front + [r] + back))] + b))
    requires WellFormed(Map(w, a + [Pair(key, Arr(v, front + [s] + back))] + b))
    ensures ParseCbor(Encode(Map(w, a + [Pair(key, Arr(v, front + [r] + back))] + b))) ==
            ParseCbor(Encode(Map(w, a + [Pair(key, Arr(v, front + [s] + back))] + b)))
  {
    hide WellFormed, ParseCbor, Encode, RegionOf, FieldsOf, Collect;
    var x, y := Arr(v, front + [r] + back), Arr(v, front + [s] + back);
    SameCollect(RegionOf, front, r, s, back);
    assert RegionsOf(x) == RegionsOf(y);
    SameTopField(key, x, y);
    SameFields(TopFieldOf, a, Pair(key, x), Pair(key, y), b);
    assert |a + [Pair(key, x)] + b| == |a + [Pair(key, y)] + b|;
    ParseEncoded(Map(w, a + [Pair(key, x)] + b));
    ParseEncoded(Map(w, a + [Pair(key, y)] + b));
    hide TopFieldOf, Finish, SetTop;
  }

  lemma SameTopField(key: Item, x: Item, y: Item)
    requires x.Arr? && y.Arr? && RegionsOf(x) == RegionsOf(y)
    ensures TextOf(key).Some? ==> TopFieldOf(TextOf(key).value, x) == TopFieldOf(TextOf(key).value, y)
  {
    hide RegionsOf;
  }
}
