/** A map with its keys in ascending order, the observable part of a B-tree map. */
module SortedMap {
  import opened Ordering

  datatype SortedMap<V> = SortedMap(entries: map<string, V>, keys: seq<string>) {
    ghost predicate Valid() {
      Ascending(keys) && Distinct(keys) && Elems(keys) == entries.Keys
    }

    function Put(key: string, value: V): SortedMap<V> {
      SortedMap(entries[key := value], if key in entries then keys else Sort(keys + [key]))
    }

    lemma PutValid(key: string, value: V)
      requires Valid()
      ensures Put(key, value).Valid()
      ensures Elems(Put(key, value).keys) == Elems(keys) + {key}
    {
      if key !in entries {
        assert key !in Elems(keys);
        SortElems(keys + [key]);
        assert Elems(keys + [key]) == Elems(keys) + {key};
      } else {
        assert key in Elems(keys);
      }
    }
  }
}
