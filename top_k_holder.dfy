/** TopKHolder: the key -> count map that a CountMinSketch keeps of its heavy hitters. */
module TopK {
  import opened JavaLong
  import opened Entries

  /** `items.put(k, v)`: overwrite or insert one key. */
  function Upsert(m: map<Long, int>, k: Long, v: int): (r: map<Long, int>)
    ensures k in r && r[k] == v
    ensures forall k' :: k' != k ==> (k' in r <==> k' in m)
    ensures forall k' :: k' != k && k' in m ==> r[k'] == m[k']
    ensures |r| == if k in m then |m| else |m| + 1
  {
    var r := m[k := v];
    assert k in m ==> r.Keys == m.Keys;
    assert k !in m ==> r.Keys == m.Keys + {k};
    r
  }

  class TopKHolder {
    /** value -> count */
    var items: map<Long, int>

    constructor ()
      ensures items == map[]
    {
      items := map[];
    }

    /** Add or update a value's count. */
    method AddToTopKList(value: Long, count: int)
      modifies this
      ensures items == Upsert(old(items), value, count)
    {
      items := items[value := count];
    }

    /** The tracked values with their counts. */
    function GetAll(): (all: map<Long, int>)
      reads this
      ensures all.Keys == items.Keys
      ensures forall k :: k in all ==> all[k] == items[k]
    {
      items
    }

    /**
     * Every tracked entry, sorted by non-increasing count. The `topK` argument
     * is not used: nothing is cut off.
     */
    method GetTopK(topK: int) returns (r: seq<Entry<Long>>)
      ensures Descending(r)
      ensures EntriesOf(r, items)
      ensures |r| == |items|
    {
      var sorted := SortedEntries(items);
      r := CopyToLinkedMap(sorted);
    }
  }
}
