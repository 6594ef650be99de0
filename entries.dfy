/**
 * Lists of (key, count) map entries as both TopKHolder.getTopK and
 * CMSAggregatorBolt.logTopKResults build them: copy the entry set of a map
 * into a list, sort the list by descending count, and copy it into an
 * insertion-ordered map (a `LinkedHashMap`).
 */
module Entries {

  datatype Entry<K> = Entry(key: K, count: int)

  /** Non-increasing by count: the order produced by the source's comparator. */
  ghost predicate Descending<K>(s: seq<Entry<K>>) {
    forall i, j :: 0 <= i < j < |s| ==> s[i].count >= s[j].count
  }

  /** No key occurs twice. */
  ghost predicate DistinctKeys<K>(s: seq<Entry<K>>) {
    forall i, j :: 0 <= i < j < |s| ==> s[i].key != s[j].key
  }

  /**
   * `s` lists exactly the entries of `m`: each element is an entry of `m`
   * with its count, every key of `m` occurs, and no key occurs twice.
   */
  ghost predicate EntriesOf<K>(s: seq<Entry<K>>, m: map<K, int>) {
    && (forall i :: 0 <= i < |s| ==> s[i].key in m && m[s[i].key] == s[i].count)
    && (forall k :: k in m ==> exists i :: 0 <= i < |s| && s[i].key == k)
    && DistinctKeys(s)
  }

  lemma {:induction false} EntriesOfLength<K>(s: seq<Entry<K>>, m: map<K, int>)
    requires EntriesOf(s, m)
    ensures |s| == |m|
  {
    var keys := set i | 0 <= i < |s| :: s[i].key;
    assert keys == m.Keys;
    SeqKeysCardinality(s);
  }

  lemma {:induction false} SeqKeysCardinality<K>(s: seq<Entry<K>>)
    requires DistinctKeys(s)
    ensures |set i | 0 <= i < |s| :: s[i].key| == |s|
  {
    if s != [] {
      var rest := s[..|s| - 1];
      SeqKeysCardinality(rest);
      var last := s[|s| - 1].key;
      var restKeys := set i | 0 <= i < |rest| :: rest[i].key;
      assert (set i | 0 <= i < |s| :: s[i].key) == restKeys + {last};
      assert last !in restKeys;
    }
  }

  // ---------------------------------------------------------------------
  // Permutations keep the entries of a map
  // ---------------------------------------------------------------------

  lemma {:induction false} DistinctKeysAtMostOnce<K>(s: seq<Entry<K>>, e: Entry<K>)
    requires DistinctKeys(s)
    ensures multiset(s)[e] <= 1
  {
    if s != [] {
      var rest := s[1..];
      assert s == [s[0]] + rest;
      DistinctKeysAtMostOnce(rest, e);
      if s[0] == e {
        assert e !in rest;
      }
    }
  }

  lemma RepeatedTwice<T>(s: seq<T>, i: int, j: int)
    requires 0 <= i < j < |s| && s[i] == s[j]
    ensures multiset(s)[s[i]] >= 2
  {
    assert s == s[..j] + [s[j]] + s[j + 1..];
    assert s[i] in s[..j];
  }

  /** Reordering a list of the entries of `m` gives a list of the entries of `m`. */
  lemma PermutationKeepsEntries<K>(s: seq<Entry<K>>, t: seq<Entry<K>>, m: map<K, int>)
    requires EntriesOf(s, m) && multiset(s) == multiset(t)
    ensures EntriesOf(t, m)
  {
    forall i | 0 <= i < |t|
      ensures t[i].key in m && m[t[i].key] == t[i].count
    {
      assert t[i] in multiset(s);
    }
    forall k | k in m
      ensures exists i :: 0 <= i < |t| && t[i].key == k
    {
      var j :| 0 <= j < |s| && s[j].key == k;
      assert s[j] in multiset(t);
      var i :| 0 <= i < |t| && t[i] == s[j];
    }
    forall i, j | 0 <= i < j < |t|
      ensures t[i].key != t[j].key
    {
      if t[i].key == t[j].key {
        RepeatedTwice(t, i, j);
        DistinctKeysAtMostOnce(s, t[i]);
        assert false;
      }
    }
  }

  // ---------------------------------------------------------------------
  // Collections.sort with the descending-count comparator
  // ---------------------------------------------------------------------

  /** Sorts `a` in place into non-increasing order of count (insertion sort by adjacent swaps). */
  method SortByCountDescending<K>(a: array<Entry<K>>)
    modifies a
    ensures Descending(a[..])
    ensures multiset(a[..]) == old(multiset(a[..]))
  {
    var i := 0;
    while i < a.Length
      invariant 0 <= i <= a.Length
      invariant forall p, q :: 0 <= p < q < i ==> a[p].count >= a[q].count
      invariant multiset(a[..]) == old(multiset(a[..]))
    {
      InsertIntoSortedPrefix(a, i);
      i := i + 1;
    }
  }

  /** One insertion step: `a[i]` is swapped down into the non-increasing prefix `a[..i]`. */
  method InsertIntoSortedPrefix<K>(a: array<Entry<K>>, i: int)
    requires 0 <= i < a.Length
    requires forall p, q :: 0 <= p < q < i ==> a[p].count >= a[q].count
    modifies a
    ensures forall p, q :: 0 <= p < q <= i ==> a[p].count >= a[q].count
    ensures multiset(a[..]) == old(multiset(a[..]))
  {
    var j := i;
    while j > 0 && a[j - 1].count < a[j].count
      invariant 0 <= j <= i
      invariant forall p, q :: 0 <= p < q <= i && q != j ==> a[p].count >= a[q].count
      invariant multiset(a[..]) == old(multiset(a[..]))
    {
      a[j - 1], a[j] := a[j], a[j - 1];
      j := j - 1;
    }
  }

  /**
   * `new LinkedList(m.entrySet())` followed by `Collections.sort`: the entries
   * of `m` in non-increasing order of count. The order among equal counts comes
   * from the map's iteration order and is left open.
   */
  method SortedEntries<K>(m: map<K, int>) returns (r: seq<Entry<K>>)
    ensures Descending(r)
    ensures EntriesOf(r, m)
    ensures |r| == |m|
  {
    var list := EntryList(m);
    var a := new Entry<K>[|list|](i requires 0 <= i < |list| => list[i]);
    assert a[..] == list;
    SortByCountDescending(a);
    r := a[..];
    PermutationKeepsEntries(list, r, m);
    EntriesOfLength(r, m);
  }

  /** The entries of `m`, one per key, in the map's iteration order (left open here). */
  method EntryList<K>(m: map<K, int>) returns (list: seq<Entry<K>>)
    ensures EntriesOf(list, m)
  {
    list := [];
    var rest := m;
    while rest != map[]
      invariant rest.Keys <= m.Keys
      invariant forall k :: k in rest ==> rest[k] == m[k]
      invariant forall i :: 0 <= i < |list| ==> list[i].key in m && list[i].key !in rest && m[list[i].key] == list[i].count
      invariant forall k :: k in m ==> k in rest || exists i :: 0 <= i < |list| && list[i].key == k
      invariant DistinctKeys(list)
      decreases |rest|
    {
      var k :| k in rest;
      ghost var before := list;
      ghost var restBefore := rest;
      list := list + [Entry(k, rest[k])];
      rest := rest - {k};
      assert forall i :: 0 <= i < |before| ==> list[i] == before[i];
      assert forall i :: 0 <= i < |list| ==> list[i].key in m && list[i].key !in rest && m[list[i].key] == list[i].count by {
        forall i | 0 <= i < |list|
          ensures list[i].key in m && list[i].key !in rest && m[list[i].key] == list[i].count
        {
          if i < |before| {
            assert before[i].key !in restBefore;
          }
        }
      }
      assert DistinctKeys(list) by {
        forall i, j | 0 <= i < j < |list| ensures list[i].key != list[j].key {
          if j == |before| {
            assert before[i].key !in restBefore;
          } else {
            assert before[i].key != before[j].key;
          }
        }
      }
      forall k' | k' in m && k' !in rest
        ensures exists i :: 0 <= i < |list| && list[i].key == k'
      {
        if k' == k {
          assert list[|before|].key == k';
        } else {
          var i :| 0 <= i < |before| && before[i].key == k';
          assert list[i].key == k';
        }
      }
    }
  }

  // ---------------------------------------------------------------------
  // LinkedHashMap.put: insertion-ordered map as a list of entries
  // ---------------------------------------------------------------------

  ghost predicate HasKey<K>(s: seq<Entry<K>>, k: K) {
    exists i :: 0 <= i < |s| && s[i].key == k
  }

  /**
   * `put(k, v)` on a `LinkedHashMap`: a present key keeps its position and
   * takes the new value; an absent key is appended at the end.
   */
  function LinkedPut<K(==)>(s: seq<Entry<K>>, k: K, v: int): (r: seq<Entry<K>>)
    ensures |r| == if HasKey(s, k) then |s| else |s| + 1
    ensures HasKey(r, k)
  {
    if s == [] then
      assert [Entry(k, v)][0].key == k;
      [Entry(k, v)]
    else if s[0].key == k then
      assert ([Entry(k, v)] + s[1..])[0].key == k;
      [Entry(k, v)] + s[1..]
    else
      var tail := LinkedPut(s[1..], k, v);
      assert HasKey(s, k) <==> HasKey(s[1..], k) by {
        if HasKey(s, k) {
          var i :| 0 <= i < |s| && s[i].key == k;
          assert s[1..][i - 1].key == k;
        }
        if HasKey(s[1..], k) {
          var i :| 0 <= i < |s[1..]| && s[1..][i].key == k;
          assert s[i + 1].key == k;
        }
      }
      var j :| 0 <= j < |tail| && tail[j].key == k;
      assert ([s[0]] + tail)[j + 1].key == k;
      [s[0]] + tail
  }

  /** Putting a key the map does not hold appends it. */
  lemma {:induction false} LinkedPutAbsent<K>(s: seq<Entry<K>>, k: K, v: int)
    requires !HasKey(s, k)
    ensures LinkedPut(s, k, v) == s + [Entry(k, v)]
  {
    if s != [] {
      assert s[0].key != k;
      LinkedPutAbsent(s[1..], k, v);
      assert s == [s[0]] + s[1..];
    }
  }

  /** Putting a key the map holds replaces its entry in place; the order is unchanged. */
  lemma {:induction false} LinkedPutPresent<K>(s: seq<Entry<K>>, i: int, v: int)
    requires DistinctKeys(s) && 0 <= i < |s|
    ensures LinkedPut(s, s[i].key, v) == s[i := Entry(s[i].key, v)]
  {
    if i > 0 {
      assert s[0].key != s[i].key;
      assert s[1..][i - 1] == s[i];
      LinkedPutPresent(s[1..], i - 1, v);
      assert s[1..][i - 1 := Entry(s[i].key, v)] == s[i := Entry(s[i].key, v)][1..];
    }
  }

  /**
   * The loop that copies a sorted list into a `LinkedHashMap`: since the list
   * has no repeated key, the map's iteration order is the list's order.
   */
  method CopyToLinkedMap<K(==)>(list: seq<Entry<K>>) returns (r: seq<Entry<K>>)
    requires DistinctKeys(list)
    ensures r == list
  {
    r := [];
    var idx := 0;
    while idx < |list|
      invariant 0 <= idx <= |list|
      invariant r == list[..idx]
    {
      assert !HasKey(r, list[idx].key);
      LinkedPutAbsent(r, list[idx].key, list[idx].count);
      r := LinkedPut(r, list[idx].key, list[idx].count);
      assert list[..idx + 1] == list[..idx] + [list[idx]];
      idx := idx + 1;
    }
  }
}
