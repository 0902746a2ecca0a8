/** Order independence on the entries themselves: permuting the entries of a map with distinct keys never changes what
    is parsed, whether parsing succeeds or fails. */
module AddressOrder {
  import opened Core
  import opened Cbor
  import opened CborIO
  import opened Entries
  import opened Address
  import opened AddressLaws

  /** No two entries have the same text key. Entries without a text key fail wherever they are. */
  ghost predicate DistinctKeys(pairs: seq<Pair>) {
    forall i, j | 0 <= i < j < |pairs| && TextOf(pairs[i].key).Some? :: TextOf(pairs[i].key) != TextOf(pairs[j].key)
  }

  /** Fields of a permutation are a permutation of the fields. */
  lemma {:induction false} FieldsPermutation<F>(fieldOf: (bytes, Item) -> Option<F>, a: seq<Pair>, b: seq<Pair>)
    requires multiset(a) == multiset(b)
    ensures FieldsOf(fieldOf, a).Some? <==> FieldsOf(fieldOf, b).Some?
    ensures FieldsOf(fieldOf, a).Some? ==>
              multiset(FieldsOf(fieldOf, a).value) == multiset(FieldsOf(fieldOf, b).value)
    decreases |a|
  {
    hide FieldsOf;
    assert |multiset(a)| == |a| && |multiset(b)| == |b|;
    if a == [] {
      assert b == [];
    } else {
      var p, tail := a[0], a[1..];
      assert a == [p] + tail && p in multiset(b);
      var front, back := SplitAt(p, b);
      RemoveOne(p, tail, front, back);
      FieldsPermutation(fieldOf, tail, front + back);
      FieldsAppend(fieldOf, [p], tail);
      FieldsAppend(fieldOf, front, [p] + back);
      FieldsAppend(fieldOf, [p], back);
      FieldsAppend(fieldOf, front, back);
    }
  }

  /** A record does not depend on the order of its entries when its fields commute. */
  lemma RecordPermutation<R(!new), F>(
    fieldOf: (bytes, Item) -> Option<F>, set1: (R, F) -> R, start: R, a: Item, b: Item
  )
    requires a.Map? && b.Map? && multiset(a.pairs) == multiset(b.pairs)
    requires FieldsOf(fieldOf, a.pairs).Some? ==> AllCommute(set1, FieldsOf(fieldOf, a.pairs).value)
    ensures RecordOf(fieldOf, set1, a, start) == RecordOf(fieldOf, set1, b, start)
  {
    hide FieldsOf, Fold, AllCommute;
    assert |multiset(a.pairs)| == |a.pairs| && |multiset(b.pairs)| == |b.pairs|;
    FieldsPermutation(fieldOf, a.pairs, b.pairs);
    if FieldsOf(fieldOf, a.pairs).Some? {
      FoldPermutation(set1, start, FieldsOf(fieldOf, a.pairs).value, FieldsOf(fieldOf, b.pairs).value);
    }
  }

  /** The i-th field is the meaning of the i-th entry. */
  lemma {:induction false} FieldAt<F>(fieldOf: (bytes, Item) -> Option<F>, pairs: seq<Pair>, i: nat)
    requires FieldsOf(fieldOf, pairs).Some? && i < |pairs|
    ensures |FieldsOf(fieldOf, pairs).value| == |pairs| && TextOf(pairs[i].key).Some?
    ensures fieldOf(TextOf(pairs[i].key).value, pairs[i].val) == Some(FieldsOf(fieldOf, pairs).value[i])
  {
    FieldsCons(fieldOf, pairs);
    FieldsLength(fieldOf, pairs);
    if i > 0 {
      FieldAt(fieldOf, pairs[1..], i - 1);
    }
  }

  lemma {:induction false} FieldsLength<F>(fieldOf: (bytes, Item) -> Option<F>, pairs: seq<Pair>)
    requires FieldsOf(fieldOf, pairs).Some?
    ensures |FieldsOf(fieldOf, pairs).value| == |pairs|
  {
    if pairs != [] {
      FieldsLength(fieldOf, pairs[1..]);
    }
  }

  /** A known field's kind tells its key, and an unknown field is like any other. */
  ghost predicate KindIsKey<F(!new)>(fieldOf: (bytes, Item) -> Option<F>, kind: F -> nat) {
    forall k: bytes, v, l: bytes, w |
      fieldOf(k, v).Some? && fieldOf(l, w).Some? && kind(fieldOf(k, v).value) == kind(fieldOf(l, w).value) ::
      k == l || fieldOf(k, v) == fieldOf(l, w)
  }

  /** Distinct keys give no key two values. */
  lemma DistinctConsistent<F(!new)>(fieldOf: (bytes, Item) -> Option<F>, kind: F -> nat, pairs: seq<Pair>)
    requires FieldsOf(fieldOf, pairs).Some? && DistinctKeys(pairs) && KindIsKey(fieldOf, kind)
    ensures Consistent(kind, FieldsOf(fieldOf, pairs).value)
  {
    hide FieldsOf;
    var fs := FieldsOf(fieldOf, pairs).value;
    FieldsLength(fieldOf, pairs);
    forall f, g | f in fs && g in fs && kind(f) == kind(g) ensures f == g {
      var i :| 0 <= i < |fs| && fs[i] == f;
      var j :| 0 <= j < |fs| && fs[j] == g;
      FieldAt(fieldOf, pairs, i);
      FieldAt(fieldOf, pairs, j);
      assert i != j ==> TextOf(pairs[i].key) != TextOf(pairs[j].key);
    }
  }

  lemma NodeKindIsKey()
    ensures KindIsKey(NodeFieldOf, NodeKind)
  {
    hide TextOf, IntegerOf, BooleanOf;
  }

  lemma RegionKindIsKey()
    ensures KindIsKey(RegionFieldOf, RegionKind)
  {
    hide TextOf, IntegerOf, NodesOf;
  }

  lemma TopKindIsKey()
    ensures KindIsKey(TopFieldOf, TopKind)
  {
    hide KeyItemOf, IntegerOf, RegionsOf;
  }

  lemma NodeEntriesOrder(a: Item, b: Item)
    requires a.Map? && b.Map? && multiset(a.pairs) == multiset(b.pairs) && DistinctKeys(a.pairs)
    ensures NodeOf(a) == NodeOf(b)
  {
    hide FieldsOf, NodeFieldOf, SetNode, RecordOf, NodeKind, DistinctKeys, KindIsKey;
    if FieldsOf(NodeFieldOf, a.pairs).Some? {
      var fs := FieldsOf(NodeFieldOf, a.pairs).value;
      NodeKindIsKey();
      DistinctConsistent(NodeFieldOf, NodeKind, a.pairs);
      forall f, g | f in fs && g in fs ensures Commute(SetNode, f, g) {
        if f != g {
          NodeFieldsCommute(f, g);
        }
      }
    }
    RecordPermutation(NodeFieldOf, SetNode, EMPTY_NODE, a, b);
  }

  lemma RegionEntriesOrder(a: Item, b: Item)
    requires a.Map? && b.Map? && multiset(a.pairs) == multiset(b.pairs) && DistinctKeys(a.pairs)
    ensures RegionOf(a) == RegionOf(b)
  {
    hide FieldsOf, RegionFieldOf, SetRegion, RecordOf, RegionKind, DistinctKeys, KindIsKey, FillNodes;
    if FieldsOf(RegionFieldOf, a.pairs).Some? {
      var fs := FieldsOf(RegionFieldOf, a.pairs).value;
      RegionKindIsKey();
      DistinctConsistent(RegionFieldOf, RegionKind, a.pairs);
      forall f, g | f in fs && g in fs ensures Commute(SetRegion, f, g) {
        if f != g {
          RegionFieldsCommute(f, g);
        }
      }
    }
    RecordPermutation(RegionFieldOf, SetRegion, EMPTY_REGION, a, b);
  }

  lemma RegionFieldsCommute(f: RegionField, g: RegionField)
    requires RegionKind(f) != RegionKind(g)
    ensures Commute(SetRegion, f, g)
  {
  }

  lemma TopFieldsCommute(f: TopField, g: TopField)
    requires TopKind(f) != TopKind(g)
    ensures Commute(SetTop, f, g)
  {
  }

  /** Permuting the top-level entries of a document with distinct keys never changes the result of parsing it. */
  lemma TopEntriesOrder(a: Item, b: Item)
    requires WellFormed(a) && WellFormed(b) && a.Map? && b.Map?
    requires multiset(a.pairs) == multiset(b.pairs) && DistinctKeys(a.pairs)
    ensures ParseCbor(Encode(a)) == ParseCbor(Encode(b))
  {
    hide FieldsOf, TopFieldOf, SetTop, RecordOf, TopKind, DistinctKeys, KindIsKey;
    hide WellFormed, Encode, ParseCbor, Finish;
    if FieldsOf(TopFieldOf, a.pairs).Some? {
      var fs := FieldsOf(TopFieldOf, a.pairs).value;
      TopKindIsKey();
      DistinctConsistent(TopFieldOf, TopKind, a.pairs);
      forall f, g | f in fs && g in fs ensures Commute(SetTop, f, g) {
        if f != g {
          TopFieldsCommute(f, g);
        }
      }
    }
    RecordPermutation(TopFieldOf, SetTop, EMPTY_DRAFT, a, b);
    ParseEncoded(a);
    ParseEncoded(b);
  }
}
