/** CBOR maps read entry by entry: a text key, then a value chosen by the key.
    Generic in the record being filled, so that nodes, regions and whole addresses share one proof. */
module Entries {
  import opened Core
  import opened Cbor
  import opened CborIO

  /** The entry loop: reads n keys and values and updates the record after each one. */
  function FoldEntries<R, F>(readField: (bytes, bytes) -> Option<(F, bytes)>, set1: (R, F) -> R,
                             s: bytes, n: nat, acc: R): Option<(R, bytes)>
    decreases n
  {
    if n == 0 then Some((acc, s))
    else
      var (key, rest) :- ReadText(s);
      var (f, after) :- readField(key, rest);
      FoldEntries(readField, set1, after, n - 1, set1(acc, f))
  }

  /** A map header and its entries. */
  function ReadRecord<R, F>(readField: (bytes, bytes) -> Option<(F, bytes)>, set1: (R, F) -> R,
                            s: bytes, start: R): Option<(R, bytes)>
  {
    var (n, rest) :- ReadMajor(s, 5);
    FoldEntries(readField, set1, rest, n, start)
  }

  /** The element loop of an array. */
  function ReadMany<T>(read: bytes -> Option<(T, bytes)>, s: bytes, n: nat): (r: Option<(seq<T>, bytes)>)
    ensures r.Some? ==> |r.value.0| == n
    decreases n
  {
    if n == 0 then Some(([], s))
    else
      var (x, rest) :- read(s);
      var (xs, after) :- ReadMany(read, rest, n - 1);
      Some(([x] + xs, after))
  }

  // The same on item trees.

  function FieldsOf<F>(fieldOf: (bytes, Item) -> Option<F>, pairs: seq<Pair>): Option<seq<F>> {
    if pairs == [] then Some([])
    else
      var key :- TextOf(pairs[0].key);
      var f :- fieldOf(key, pairs[0].val);
      var fs :- FieldsOf(fieldOf, pairs[1..]);
      Some([f] + fs)
  }

  function RecordOf<R, F>(fieldOf: (bytes, Item) -> Option<F>, set1: (R, F) -> R, item: Item, start: R): Option<R> {
    if !item.Map? || |item.pairs| >= TWO_TO_THE_64 then None
    else
      var fs :- FieldsOf(fieldOf, item.pairs);
      Some(Fold(set1, start, fs))
  }

  /** The field reader reads one item and interprets it, whatever the key and the input. */
  ghost predicate FieldVia<F(!new)>(
    readField: (bytes, bytes) -> Option<(F, bytes)>, fieldOf: (bytes, Item) -> Option<F>) {
    forall key, s ::
      readField(key, s) ==
      if ReadItem(s).None? || fieldOf(key, ReadItem(s).value.0).None? then None
      else Some((fieldOf(key, ReadItem(s).value.0).value, ReadItem(s).value.1))
  }

  lemma FieldsCons<F>(fieldOf: (bytes, Item) -> Option<F>, pairs: seq<Pair>)
    requires pairs != []
    ensures FieldsOf(fieldOf, pairs).Some? <==>
            && TextOf(pairs[0].key).Some? && fieldOf(TextOf(pairs[0].key).value, pairs[0].val).Some?
            && FieldsOf(fieldOf, pairs[1..]).Some?
    ensures FieldsOf(fieldOf, pairs).Some? ==>
              var fs := FieldsOf(fieldOf, pairs).value;
              && fs != [] && fs[0] == fieldOf(TextOf(pairs[0].key).value, pairs[0].val).value
              && fs[1..] == FieldsOf(fieldOf, pairs[1..]).value
  {
  }

  lemma {:induction false} FoldEntriesVia<R, F(!new)>(
    readField: (bytes, bytes) -> Option<(F, bytes)>, fieldOf: (bytes, Item) -> Option<F>, set1: (R, F) -> R,
    s: bytes, n: nat, acc: R)
    requires FieldVia(readField, fieldOf)
    ensures FoldEntries(readField, set1, s, n, acc) ==
            if ReadPairs(s, n).None? || FieldsOf(fieldOf, ReadPairs(s, n).value.0).None? then None
            else Some((Fold(set1, acc, FieldsOf(fieldOf, ReadPairs(s, n).value.0).value), ReadPairs(s, n).value.1))
    decreases n
  {
    hide ReadItem, ReadText, TextOf;
    if n > 0 {
      TextVia(s);
      if ReadItem(s).Some? {
        var (keyItem, rest) := ReadItem(s).value;
        if TextOf(keyItem).Some? {
          var key := TextOf(keyItem).value;
          if readField(key, rest).Some? {
            var (f, after) := readField(key, rest).value;
            FoldEntriesVia(readField, fieldOf, set1, after, n - 1, set1(acc, f));
            assert ReadPair(s) == Some((Pair(keyItem, ReadItem(rest).value.0), after));
            if ReadPairs(s, n).Some? {
              var pairs := ReadPairs(s, n).value.0;
              assert pairs[1..] == ReadPairs(after, n - 1).value.0;
              FieldsCons(fieldOf, pairs);
            }
          }
        }
      }
    }
  }

  lemma RecordVia<R, F(!new)>(
    readField: (bytes, bytes) -> Option<(F, bytes)>, fieldOf: (bytes, Item) -> Option<F>, set1: (R, F) -> R,
    s: bytes, start: R)
    requires FieldVia(readField, fieldOf)
    ensures ReadRecord(readField, set1, s, start) ==
            if ReadItem(s).None? || RecordOf(fieldOf, set1, ReadItem(s).value.0, start).None? then None
            else Some((RecordOf(fieldOf, set1, ReadItem(s).value.0, start).value, ReadItem(s).value.1))
  {
    hide ReadHead, FoldEntries, FieldsOf;
    if ReadMajor(s, 5).Some? {
      var (n, rest) := ReadMajor(s, 5).value;
      FoldEntriesVia(readField, fieldOf, set1, rest, n, start);
    }
  }

  lemma {:induction false} ManyVia<T(!new)>(read: bytes -> Option<(T, bytes)>, of: Item -> Option<T>, s: bytes, n: nat)
    requires forall t :: read(t) == Via(t, of)
    ensures ReadMany(read, s, n) ==
            if ReadItems(s, n).None? || Collect(of, ReadItems(s, n).value.0).None? then None
            else Some((Collect(of, ReadItems(s, n).value.0).value, ReadItems(s, n).value.1))
    decreases n
  {
    hide ReadItem;
    if n > 0 {
      assert read(s) == Via(s, of);
      if ReadItem(s).Some? {
        var (item, rest) := ReadItem(s).value;
        if of(item).Some? {
          ManyVia(read, of, rest, n - 1);
          if ReadItems(s, n).Some? {
            assert ReadItems(s, n).value.0[1..] == ReadItems(rest, n - 1).value.0;
          }
        }
      }
    }
  }

  /** Interpreting pairs built from fields gives the fields back. */
  lemma {:induction false} FieldsInverse<F>(fieldOf: (bytes, Item) -> Option<F>, pairs: seq<Pair>, fs: seq<F>)
    requires |pairs| == |fs|
    requires forall i | 0 <= i < |fs| ::
               TextOf(pairs[i].key).Some? && fieldOf(TextOf(pairs[i].key).value, pairs[i].val) == Some(fs[i])
    ensures FieldsOf(fieldOf, pairs) == Some(fs)
  {
    if fs != [] {
      FieldsInverse(fieldOf, pairs[1..], fs[1..]);
      assert fs == [fs[0]] + fs[1..];
    }
  }

  lemma {:induction false} FieldsAppend<F>(fieldOf: (bytes, Item) -> Option<F>, a: seq<Pair>, b: seq<Pair>)
    ensures FieldsOf(fieldOf, a + b) ==
            if FieldsOf(fieldOf, a).Some? && FieldsOf(fieldOf, b).Some?
            then Some(FieldsOf(fieldOf, a).value + FieldsOf(fieldOf, b).value) else None
  {
    if a == [] {
      assert a + b == b;
      if FieldsOf(fieldOf, b).Some? {
        assert [] + FieldsOf(fieldOf, b).value == FieldsOf(fieldOf, b).value;
      }
    } else {
      assert (a + b)[0] == a[0] && (a + b)[1..] == a[1..] + b;
      FieldsAppend(fieldOf, a[1..], b);
      if FieldsOf(fieldOf, a).Some? && FieldsOf(fieldOf, b).Some? {
        var fa, ft, fb := FieldsOf(fieldOf, a).value, FieldsOf(fieldOf, a[1..]).value, FieldsOf(fieldOf, b).value;
        assert fa == [fa[0]] + ft;
        AppendAssociative([fa[0]], ft, fb);
      }
    }
  }
}
