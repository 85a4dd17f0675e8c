/**
 * The `ratings` object of the vote screen. A JavaScript object with string
 * keys keeps its keys in insertion order, so it is modelled as an ordered list
 * of entries with pairwise distinct keys: `Object.entries(ratings)` is the list
 * itself and `Object.keys(ratings).length` is its length.
 */
module Ratings {
  import opened Wrappers
  import Catalog

  datatype Entry = Entry(key: string, rating: int)

  type Entries = seq<Entry>

  predicate DistinctKeys(es: Entries) {
    forall i, j :: 0 <= i < j < |es| ==> es[i].key != es[j].key
  }

  /** The keys of the object, `new Set(Object.keys(es))`. */
  function Keys(es: Entries): (r: set<string>)
    ensures forall i :: 0 <= i < |es| ==> es[i].key in r
    ensures forall k :: k in r ==> exists i :: 0 <= i < |es| && es[i].key == k
  {
    if es == [] then {} else {es[0].key} + Keys(es[1..])
  }

  /** `ratings[key]`: the value stored under a key, or None for `undefined`. */
  function Get(es: Entries, key: string): (r: Option<int>)
    ensures r.Some? <==> key in Keys(es)
    ensures r.Some? ==> Entry(key, r.value) in es
  {
    if es == [] then None
    else if es[0].key == key then Some(es[0].rating)
    else
      Get(es[1..], key)
  }

  /**
   * `{ ...es, [key]: value }`: an existing key keeps its position and takes the
   * new value; a new key is appended.
   */
  function Put(es: Entries, key: string, value: int): (r: Entries)
    ensures Get(r, key) == Some(value)
    ensures forall k :: k != key ==> Get(r, k) == Get(es, k)
    ensures Keys(r) == Keys(es) + {key}
    ensures |r| == if key in Keys(es) then |es| else |es| + 1
  {
    if es == [] then [Entry(key, value)]
    else if es[0].key == key then
      assert ([Entry(key, value)] + es[1..])[1..] == es[1..];
      [Entry(key, value)] + es[1..]
    else
      var tail := Put(es[1..], key, value);
      assert ([es[0]] + tail)[1..] == tail;
      [es[0]] + tail
  }

  /** Updating the object keeps the insertion order: every existing key stays at its position. */
  lemma {:induction false} PutKeepsPositions(es: Entries, key: string, value: int)
    ensures forall i :: 0 <= i < |es| ==> Put(es, key, value)[i].key == es[i].key
  {
    if es != [] && es[0].key != key {
      var tail := Put(es[1..], key, value);
      PutKeepsPositions(es[1..], key, value);
      assert Put(es, key, value) == [es[0]] + tail;
      forall i | 1 <= i < |es| ensures Put(es, key, value)[i].key == es[i].key {
        assert Put(es, key, value)[i] == tail[i - 1];
      }
    }
  }

  /** A key the object does not have yet is appended at the end. */
  lemma {:induction false} PutAppendsNewKey(es: Entries, key: string, value: int)
    requires key !in Keys(es)
    ensures Put(es, key, value) == es + [Entry(key, value)]
  {
    PutAppendsAbsentKey(es, key, value);
  }

  lemma {:induction false} PutAppendsAbsentKey(es: Entries, key: string, value: int)
    requires forall i :: 0 <= i < |es| ==> es[i].key != key
    ensures Put(es, key, value) == es + [Entry(key, value)]
  {
    if es != [] {
      var tail := es[1..] + [Entry(key, value)];
      PutAppendsAbsentKey(es[1..], key, value);
      assert Put(es, key, value) == [es[0]] + tail;
      ConsAppend(es, Entry(key, value));
    }
  }

  lemma {:induction false} ConsAppend(es: Entries, x: Entry)
    requires es != []
    ensures es + [x] == [es[0]] + (es[1..] + [x])
  {
    assert es == [es[0]] + es[1..];
  }

  /** Updating the object never duplicates a key. */
  lemma {:induction false} PutKeepsKeysDistinct(es: Entries, key: string, value: int)
    requires DistinctKeys(es)
    ensures DistinctKeys(Put(es, key, value))
  {
    if es != [] && es[0].key != key {
      var tail := Put(es[1..], key, value);
      assert es == [es[0]] + es[1..];
      DistinctCons(es[0], es[1..]);
      PutKeepsKeysDistinct(es[1..], key, value);
      assert Keys(tail) == Keys(es[1..]) + {key};
      DistinctCons(es[0], tail);
    } else if es != [] {
      assert es == [es[0]] + es[1..];
      DistinctCons(es[0], es[1..]);
      DistinctCons(Entry(key, value), es[1..]);
    }
  }

  /** An object with a head entry has distinct keys iff its tail does and lacks the head's key. */
  lemma {:induction false} DistinctCons(e: Entry, tail: Entries)
    ensures DistinctKeys([e] + tail) <==> DistinctKeys(tail) && e.key !in Keys(tail)
  {
    if DistinctKeys(tail) && e.key !in Keys(tail) {
      DistinctConsIntro(e, tail);
    }
    if DistinctKeys([e] + tail) {
      DistinctConsElim(e, tail);
    }
  }

  lemma {:induction false} DistinctConsIntro(e: Entry, tail: Entries)
    requires DistinctKeys(tail) && e.key !in Keys(tail)
    ensures DistinctKeys([e] + tail)
  {
    var es := [e] + tail;
    forall i, j | 0 <= i < j < |es| ensures es[i].key != es[j].key {
      assert es[j] == tail[j - 1];
      if i > 0 {
        assert es[i] == tail[i - 1];
      }
    }
  }

  lemma {:induction false} DistinctConsElim(e: Entry, tail: Entries)
    requires DistinctKeys([e] + tail)
    ensures DistinctKeys(tail) && e.key !in Keys(tail)
  {
    var es := [e] + tail;
    forall i, j | 0 <= i < j < |tail| ensures tail[i].key != tail[j].key {
      assert tail[i] == es[i + 1] && tail[j] == es[j + 1];
    }
    forall i | 0 <= i < |tail| ensures tail[i].key != e.key {
      assert es[0] == e && es[i + 1] == tail[i];
    }
  }

  /** With distinct keys, the number of keys equals the number of entries. */
  lemma {:induction false} KeyCount(es: Entries)
    requires DistinctKeys(es)
    ensures |Keys(es)| == |es|
  {
    if es != [] {
      KeyCount(es[1..]);
      assert es[0].key !in Keys(es[1..]);
    }
  }

  /**
   * The state invariant of the vote form: the rated keys and the omitted ids
   * are disjoint subsets of the catalog ids, and the object has no duplicate key.
   */
  predicate Consistent(es: Entries, omitted: set<string>) {
    && DistinctKeys(es)
    && Keys(es) <= Catalog.IdSet()
    && omitted <= Catalog.IdSet()
    && Keys(es) !! omitted
  }

  /**
   * Rating a catalog category (storing the rating and clearing its omission)
   * keeps the state consistent, leaves the category rated and not omitted,
   * and changes nothing about any other category.
   */
  lemma {:induction false} RatePreservesConsistency(es: Entries, omitted: set<string>, key: string, value: int)
    requires Consistent(es, omitted)
    requires key in Catalog.IdSet()
    ensures Consistent(Put(es, key, value), omitted - {key})
    ensures Get(Put(es, key, value), key) == Some(value) && key !in omitted - {key}
    ensures forall k :: k != key ==> Get(Put(es, key, value), k) == Get(es, k) && (k in omitted - {key} <==> k in omitted)
  {
    PutKeepsKeysDistinct(es, key, value);
  }
}
