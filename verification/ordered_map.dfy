/**
 An insertion-ordered map, the semantics of a JavaScript `Map` (and of a plain
 object whose keys are not array indices): `order` lists the keys in the order
 in which they were first inserted, `items` holds the bindings. Overwriting an
 existing key keeps its position; deleting a key removes it from the order.
 */
module OrderedMap {

  datatype OMap<K(==), V> = OMap(order: seq<K>, items: map<K, V>)

  /** No key is listed twice. */
  ghost predicate Distinct<K>(s: seq<K>) {
    forall i, j | 0 <= i < j < |s| :: s[i] != s[j]
  }

  /** The order lists every key exactly once and nothing else. */
  ghost predicate Valid<K, V>(o: OMap<K, V>) {
    && Distinct(o.order)
    && (forall k | k in o.items :: k in o.order)
    && (forall k | k in o.order :: k in o.items)
  }

  function Empty<K, V>(): (r: OMap<K, V>)
    ensures Valid(r) && r.items == map[] && r.order == []
  {
    OMap([], map[])
  }

  /** `m.set(k, v)`: binds `k`, appending it to the order only when it is new. */
  function Set<K, V>(o: OMap<K, V>, k: K, v: V): (r: OMap<K, V>)
    requires Valid(o)
    ensures Valid(r)
    ensures r.items == o.items[k := v]
    ensures k in o.items ==> r.order == o.order
    ensures k !in o.items ==> r.order == o.order + [k]
  {
    if k in o.items then OMap(o.order, o.items[k := v])
    else OMap(o.order + [k], o.items[k := v])
  }

  /** `r` can be obtained from `s` by dropping elements: the elements of `r`
      occur in `s`, in the same relative order. */
  ghost predicate Subsequence<K>(r: seq<K>, s: seq<K>)
    decreases |s|
  {
    || |r| == 0
    || (&& |s| > 0
        && ((r[0] == s[0] && Subsequence(r[1..], s[1..])) || Subsequence(r, s[1..])))
  }

  /** The sequence `s` without the element `k`, other elements in their order. */
  function Without<K(==)>(s: seq<K>, k: K): (r: seq<K>)
    ensures forall x | x in r :: x in s && x != k
    ensures forall x | x in s && x != k :: x in r
    ensures Subsequence(r, s)
    ensures Distinct(s) ==> Distinct(r)
    ensures k !in s ==> r == s
  {
    if |s| == 0 then []
    else if s[0] == k then Without(s[1..], k)
    else
      var rest := Without(s[1..], k);
      DistinctCons(s, rest);
      [s[0]] + rest
  }

  /** Helper for `Without`: putting back the head of a duplicate-free
      sequence in front of elements drawn from its tail keeps it duplicate-free. */
  lemma DistinctCons<K>(s: seq<K>, rest: seq<K>)
    requires |s| > 0
    requires forall x | x in rest :: x in s[1..]
    requires Distinct(s[1..]) ==> Distinct(rest)
    ensures Distinct(s) ==> Distinct([s[0]] + rest)
  {
    if Distinct(s) {
      assert Distinct(s[1..]);
      forall j | 0 <= j < |rest|
        ensures rest[j] != s[0]
      {
        assert rest[j] in s[1..];
      }
    }
  }

  /** `m.delete(k)`: removes the binding and the key's place in the order. */
  function Delete<K, V>(o: OMap<K, V>, k: K): (r: OMap<K, V>)
    requires Valid(o)
    ensures Valid(r)
    ensures r.items == o.items - {k}
    ensures Subsequence(r.order, o.order)
    ensures k !in o.items ==> r == o
  {
    OMap(Without(o.order, k), o.items - {k})
  }

  /** `Array.from(m.entries())`: the bindings in insertion order. */
  function Entries<K, V>(o: OMap<K, V>): (r: seq<(K, V)>)
    requires Valid(o)
    ensures |r| == |o.order|
    ensures forall i | 0 <= i < |r| :: r[i].0 == o.order[i] && r[i].1 == o.items[o.order[i]]
  {
    seq(|o.order|, i requires 0 <= i < |o.order| => (o.order[i], o.items[o.order[i]]))
  }

  /** `m.values()`: the bound values in insertion order. */
  function Values<K, V>(o: OMap<K, V>): (r: seq<V>)
    requires Valid(o)
    ensures |r| == |o.order|
    ensures forall i | 0 <= i < |r| :: r[i] == o.items[o.order[i]]
  {
    seq(|o.order|, i requires 0 <= i < |o.order| => o.items[o.order[i]])
  }

  /** `new Map(entries)`: inserts the entries one after the other. */
  function FromEntries<K, V>(es: seq<(K, V)>): (r: OMap<K, V>)
    ensures Valid(r)
  {
    if |es| == 0 then Empty()
    else Set(FromEntries(es[..|es| - 1]), es[|es| - 1].0, es[|es| - 1].1)
  }

  /** Building from any entry list binds exactly the keys of the entries,
      each to the value of its last entry: later entries overwrite earlier
      ones. */
  lemma {:induction false} FromEntriesBindings<K, V>(es: seq<(K, V)>)
    ensures var r := FromEntries(es);
      && (forall i | 0 <= i < |es| :: es[i].0 in r.items)
      && (forall k | k in r.items :: exists i | 0 <= i < |es| :: es[i].0 == k)
      && (forall i | 0 <= i < |es| && LastOfKey(es, i) :: r.items[es[i].0] == es[i].1)
  {
    if |es| > 0 {
      var init, last := es[..|es| - 1], es[|es| - 1];
      FromEntriesBindings(init);
      SetLastEntry(init, last, FromEntries(init), FromEntries(es));
      SplitLast(es);
    }
  }

  /** Helper for `FromEntries`: setting one more entry on the map built from
      the others binds exactly the keys of all entries, each to the value of
      its last entry. */
  lemma SetLastEntry<K, V>(init: seq<(K, V)>, last: (K, V), prev: OMap<K, V>, r: OMap<K, V>)
    requires Valid(prev)
    requires forall i | 0 <= i < |init| :: init[i].0 in prev.items
    requires forall k | k in prev.items :: exists i | 0 <= i < |init| :: init[i].0 == k
    requires forall i | 0 <= i < |init| && LastOfKey(init, i) :: prev.items[init[i].0] == init[i].1
    requires r == Set(prev, last.0, last.1)
    ensures forall i | 0 <= i < |init + [last]| :: (init + [last])[i].0 in r.items
    ensures forall k | k in r.items :: exists i | 0 <= i < |init + [last]| :: (init + [last])[i].0 == k
    ensures forall i | 0 <= i < |init + [last]| && LastOfKey(init + [last], i) ::
      r.items[(init + [last])[i].0] == (init + [last])[i].1
  {
    var es := init + [last];
    var n := |init|;
    assert r.items == prev.items[last.0 := last.1];
    forall i | 0 <= i < |es|
      ensures es[i].0 in r.items
    {
      if i < n {
        assert es[i] == init[i];
      }
    }
    forall i | 0 <= i < |es| && LastOfKey(es, i)
      ensures r.items[es[i].0] == es[i].1
    {
      if i < n {
        assert es[i] == init[i] && es[n] == last;
        assert LastOfKey(init, i) by {
          forall j | i < j < n
            ensures init[j].0 != init[i].0
          {
            assert es[j] == init[j];
          }
        }
      }
    }
    forall k | k in r.items
      ensures exists i | 0 <= i < |es| :: es[i].0 == k
    {
      if k != last.0 {
        assert k in prev.items;
        var i :| 0 <= i < n && init[i].0 == k;
        assert es[i] == init[i];
      } else {
        assert es[n] == last;
      }
    }
  }

  /** No entry after the `i`-th one has the same key. */
  ghost predicate LastOfKey<K, V>(es: seq<(K, V)>, i: int)
    requires 0 <= i < |es|
  {
    forall j | i < j < |es| :: es[j].0 != es[i].0
  }

  /** The keys of an entry list, in order. */
  function KeysOf<K, V>(es: seq<(K, V)>): (r: seq<K>)
    ensures |r| == |es|
    ensures forall i | 0 <= i < |es| :: r[i] == es[i].0
  {
    seq(|es|, i requires 0 <= i < |es| => es[i].0)
  }

  /** Building from an entry list whose keys are pairwise distinct appends
      every key in turn and binds it to its own entry's value. */
  lemma {:induction false} FromDistinctEntries<K, V>(es: seq<(K, V)>)
    requires Distinct(KeysOf(es))
    ensures FromEntries(es).order == KeysOf(es)
    ensures forall i | 0 <= i < |es| :: FromEntries(es).items[es[i].0] == es[i].1
  {
    if |es| > 0 {
      var init := es[..|es| - 1];
      var last := es[|es| - 1];
      assert Distinct(KeysOf(init)) && last.0 !in KeysOf(init) by {
        DistinctSnoc(KeysOf(es));
        assert KeysOf(init) == KeysOf(es)[..|es| - 1];
      }
      FromDistinctEntries(init);
      AppendNewEntry(init, last);
      SplitLast(es);
    }
  }

  /** A non-empty sequence is its first elements followed by its last. */
  lemma SplitLast<T>(s: seq<T>)
    requires |s| > 0
    ensures s == s[..|s| - 1] + [s[|s| - 1]]
  {
  }

  /** The last element of a duplicate-free sequence is not among the others,
      and the others are duplicate-free. */
  lemma DistinctSnoc<K>(s: seq<K>)
    requires Distinct(s) && |s| > 0
    ensures s[|s| - 1] !in s[..|s| - 1]
    ensures Distinct(s[..|s| - 1])
  {
    assert forall j | 0 <= j < |s| - 1 :: s[..|s| - 1][j] == s[j];
  }

  /** Appending an entry whose key is new to a list whose keys were appended
      in turn, each bound to its entry's value, appends that key and binds it
      to the new value, keeping the earlier bindings. */
  lemma AppendNewEntry<K, V>(init: seq<(K, V)>, last: (K, V))
    requires last.0 !in KeysOf(init)
    requires FromEntries(init).order == KeysOf(init)
    requires forall i | 0 <= i < |init| :: FromEntries(init).items[init[i].0] == init[i].1
    ensures FromEntries(init + [last]).order == KeysOf(init + [last])
    ensures forall i | 0 <= i < |init + [last]| ::
      FromEntries(init + [last]).items[(init + [last])[i].0] == (init + [last])[i].1
  {
    var es := init + [last];
    assert es[..|es| - 1] == init;
    assert es[|es| - 1] == last;
    assert KeysOf(es) == KeysOf(init) + [last.0];
    forall i | 0 <= i < |init|
      ensures FromEntries(es).items[es[i].0] == es[i].1
    {
      assert es[i] == init[i] && KeysOf(init)[i] == init[i].0;
    }
  }

  /** Snapshot round trip: rebuilding a map from its own entry list gives back
      the same bindings in the same order. */
  lemma FromEntriesOfEntries<K, V>(o: OMap<K, V>)
    requires Valid(o)
    ensures FromEntries(Entries(o)) == o
  {
    var es := Entries(o);
    assert KeysOf(es) == o.order;
    FromDistinctEntries(es);
    var r := FromEntries(es);
    assert r.items.Keys == o.items.Keys;
  }
}
