/**
 An ordered map from byte offsets to values, kept as a sequence of entries
 sorted by strictly increasing key. It models the ordered tree map the index
 uses for its reverse index: iteration visits entries in key order, and
 inserting at a key that is already present replaces that entry.
 */
module OrderedMap {
  datatype Entry<V> = Entry(key: nat, value: V)
  predicate Sorted<V>(es: seq<Entry<V>>) {
    forall i, j :: 0 <= i < j < |es| ==> es[i].key < es[j].key
  }
  type SortedEntries<V> = es: seq<Entry<V>> | Sorted(es) witness []

  /** The tail of a sorted sequence is sorted and lies above its head. */
  lemma TailSorted<V>(es: seq<Entry<V>>)
    requires Sorted(es) && es != []
    ensures Sorted(es[1..])
    ensures forall e :: e in es[1..] ==> e.key > es[0].key
  {
    forall e | e in es[1..] ensures e.key > es[0].key {
      var i :| 0 <= i < |es[1..]| && es[1..][i] == e;
      assert es[i + 1] == e;
    }
  }

  /** An entry below every key of a sorted sequence can be put in front. */
  lemma ConsSorted<V>(x: Entry<V>, es: seq<Entry<V>>)
    requires Sorted(es)
    requires forall e :: e in es ==> x.key < e.key
    ensures Sorted([x] + es)
  {
    var r := [x] + es;
    forall i, j | 0 <= i < j < |r| ensures r[i].key < r[j].key {
      assert r[j] == es[j - 1];
      assert es[j - 1] in es;
      if i > 0 { assert r[i] == es[i - 1]; }
    }
  }

  /** Inserts `v` at `k`: the new entry is present, every entry at another
      key is kept, and nothing else is there. Sortedness (hence at most one
      entry per key) is kept by the result type. */
  function Insert<V>(es: SortedEntries<V>, k: nat, v: V): (r: SortedEntries<V>)
    ensures Entry(k, v) in r
    ensures forall e :: e in es && e.key != k ==> e in r
    ensures forall e :: e in r ==> e in es || e == Entry(k, v)
    decreases |es|
  {
    if es == [] then [Entry(k, v)]
    else
      TailSorted(es);
      if es[0].key == k then
        ConsSorted(Entry(k, v), es[1..]);
        [Entry(k, v)] + es[1..]
      else if k < es[0].key then
        ConsSorted(Entry(k, v), es);
        [Entry(k, v)] + es
      else
        var rest := Insert(es[1..], k, v);
        ConsSorted(es[0], rest);
        [es[0]] + rest
  }
}
