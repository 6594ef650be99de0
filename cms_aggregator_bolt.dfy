/**
 * CMSAggregatorBolt: the completion barrier. It merges the top-K snapshots of
 * all counting bolts into one map and, when the last expected snapshot has
 * arrived, reports the global top K as `rank,key,count` lines.
 */
module Aggregator {
  import opened Wrappers
  import opened Entries
  import opened Streams

  /** The tuples the aggregator receives, one constructor per stream. */
  datatype AggregatorTuple =
    | CustomUserIdCount(userId: string, count: int)  // customUserIdsCountStream
    | TopKSnapshot(topK: map<string, int>)           // topKStream, already deserialised
  {
    function StreamId(): string {
      if CustomUserIdCount? then CustomUserIdsCountStream else TopKStream
    }
  }

  /** One printed line `rank,key,count`. */
  datatype Report = Report(rank: int, key: string, count: int)

  // ---------------------------------------------------------------------
  // The barrier over a run
  // ---------------------------------------------------------------------

  /** How many top-K snapshots `ts` holds. */
  function SnapshotCount(ts: seq<AggregatorTuple>): (n: nat)
    ensures n <= |ts|
  {
    if ts == [] then 0
    else SnapshotCount(ts[..|ts| - 1]) + (if ts[|ts| - 1].TopKSnapshot? then 1 else 0)
  }

  /** The report is printed while handling `ts[p]`: a snapshot that brings the count to `total`. */
  ghost predicate FiresAt(ts: seq<AggregatorTuple>, p: int, total: int) {
    0 <= p < |ts| && ts[p].TopKSnapshot? && SnapshotCount(ts[..p + 1]) == total
  }

  lemma {:induction false} SnapshotCountGrows(ts: seq<AggregatorTuple>, p: int, q: int)
    requires 0 <= p <= q <= |ts|
    ensures SnapshotCount(ts[..p]) <= SnapshotCount(ts[..q])
    ensures q < |ts| && ts[q].TopKSnapshot? ==> SnapshotCount(ts[..p]) < SnapshotCount(ts[..q + 1])
    decreases q - p
  {
    if q < |ts| {
      assert ts[..q + 1][..q] == ts[..q];
    }
    if p < q {
      SnapshotCountGrows(ts, p, q - 1);
      assert ts[..q][..q - 1] == ts[..q - 1];
    }
  }

  /** The report is printed at most once in a run. */
  lemma FiresAtMostOnce(ts: seq<AggregatorTuple>, total: int, p: int, q: int)
    requires FiresAt(ts, p, total) && FiresAt(ts, q, total)
    ensures p == q
  {
    if p < q {
      SnapshotCountGrows(ts, p + 1, q);
    } else if q < p {
      SnapshotCountGrows(ts, q + 1, p);
    }
  }

  /** Before the firing step fewer than `total` snapshots had arrived. */
  lemma NeverBeforeTotal(ts: seq<AggregatorTuple>, total: int, p: int, q: int)
    requires FiresAt(ts, p, total) && 0 <= q < p
    ensures SnapshotCount(ts[..q + 1]) < total
  {
    SnapshotCountGrows(ts, q + 1, p);
  }

  /** Once `total` (at least one) snapshots have arrived, the report has been printed. */
  lemma {:induction false} FiresOnceAllArrived(ts: seq<AggregatorTuple>, total: int)
    requires 1 <= total <= SnapshotCount(ts)
    ensures exists p :: FiresAt(ts, p, total)
  {
    var n := |ts|;
    var init := ts[..n - 1];
    assert ts[..n] == ts;
    if SnapshotCount(init) >= total {
      FiresOnceAllArrived(init, total);
      var p :| FiresAt(init, p, total);
      assert ts[..p + 1] == init[..p + 1];
      assert FiresAt(ts, p, total);
    } else {
      assert FiresAt(ts, n - 1, total);
    }
  }

  // ---------------------------------------------------------------------
  // Merging snapshots
  // ---------------------------------------------------------------------

  /** The snapshots of `ts`, in arrival order. */
  function Snapshots(ts: seq<AggregatorTuple>): (s: seq<map<string, int>>)
    ensures |s| == SnapshotCount(ts)
  {
    if ts == [] then []
    else
      var rest := Snapshots(ts[..|ts| - 1]);
      if ts[|ts| - 1].TopKSnapshot? then rest + [ts[|ts| - 1].topK] else rest
  }

  /** All snapshots put one after another into an empty map: a later count overwrites an earlier one. */
  function Merged(snaps: seq<map<string, int>>): (m: map<string, int>)
    ensures forall k :: k in m <==> exists i :: 0 <= i < |snaps| && k in snaps[i]
  {
    if snaps == [] then map[]
    else
      var init := snaps[..|snaps| - 1];
      var r := Merged(init) + snaps[|snaps| - 1];
      assert forall k :: k in r ==> exists i :: 0 <= i < |snaps| && k in snaps[i] by {
        forall k | k in r ensures exists i :: 0 <= i < |snaps| && k in snaps[i] {
          if k !in snaps[|snaps| - 1] {
            var i :| 0 <= i < |init| && k in init[i];
            assert k in snaps[i];
          }
        }
      }
      assert forall k :: (exists i :: 0 <= i < |snaps| && k in snaps[i]) ==> k in r by {
        forall k | exists i :: 0 <= i < |snaps| && k in snaps[i] ensures k in r {
          var i :| 0 <= i < |snaps| && k in snaps[i];
          if i < |snaps| - 1 {
            assert k in init[i];
          }
        }
      }
      r
  }

  /** A key takes the count of the last snapshot that reports it (overwrite, not sum). */
  lemma {:induction false} MergedTakesLast(snaps: seq<map<string, int>>, i: int, k: string)
    requires 0 <= i < |snaps| && k in snaps[i]
    requires forall j :: i < j < |snaps| ==> k !in snaps[j]
    ensures k in Merged(snaps) && Merged(snaps)[k] == snaps[i][k]
  {
    var init := snaps[..|snaps| - 1];
    if i < |snaps| - 1 {
      MergedTakesLast(init, i, k);
    }
  }

  ghost predicate PairwiseDisjoint(snaps: seq<map<string, int>>) {
    forall i, j :: 0 <= i < j < |snaps| ==> snaps[i].Keys !! snaps[j].Keys
  }

  /**
   * When no two snapshots share a key (each key is routed to one bolt), the
   * merge is their union with every count unchanged.
   */
  lemma MergedDisjointUnion(snaps: seq<map<string, int>>)
    requires PairwiseDisjoint(snaps)
    ensures forall k :: k in Merged(snaps) <==> exists i :: 0 <= i < |snaps| && k in snaps[i]
    ensures forall i, k :: 0 <= i < |snaps| && k in snaps[i] ==> Merged(snaps)[k] == snaps[i][k]
  {
    forall i, k | 0 <= i < |snaps| && k in snaps[i]
      ensures Merged(snaps)[k] == snaps[i][k]
    {
      forall j | i < j < |snaps| ensures k !in snaps[j] {
        assert snaps[i].Keys !! snaps[j].Keys;
      }
      MergedTakesLast(snaps, i, k);
    }
  }

  // ---------------------------------------------------------------------
  // The printed report
  // ---------------------------------------------------------------------

  function Min(a: int, b: int): int {
    if a < b then a else b
  }

  /**
   * `lines` is a top-`k` report of `m`: ranks 1, 2, ... in order, as many lines
   * as `k` and `m` allow, counts non-increasing, each line an entry of `m`,
   * no key twice, and no unreported entry larger than a reported one.
   */
  ghost predicate TopKReport(lines: seq<Report>, m: map<string, int>, k: int) {
    && |lines| == (if k <= 0 then 0 else Min(k, |m|))
    && (forall i :: 0 <= i < |lines| ==> lines[i].rank == i + 1)
    && (forall i :: 0 <= i < |lines| ==> lines[i].key in m && m[lines[i].key] == lines[i].count)
    && (forall i, j :: 0 <= i < j < |lines| ==> lines[i].count >= lines[j].count)
    && (forall i, j :: 0 <= i < j < |lines| ==> lines[i].key != lines[j].key)
    && (forall key, i :: key in m && 0 <= i < |lines| && (forall j :: 0 <= j < |lines| ==> lines[j].key != key) ==>
          m[key] <= lines[i].count)
  }

  /** Ranking the first lines of a sorted entry list of `m` gives a top-`k` report of `m`. */
  lemma RankedPrefixIsReport(lines: seq<Report>, g: seq<Entry<string>>, m: map<string, int>, k: int)
    requires Descending(g) && EntriesOf(g, m)
    requires |lines| == if k <= 0 then 0 else Min(k, |g|)
    requires forall i :: 0 <= i < |lines| ==> lines[i] == Report(i + 1, g[i].key, g[i].count)
    ensures TopKReport(lines, m, k)
  {
    EntriesOfLength(g, m);
    assert |lines| <= |g|;
    assert forall i :: 0 <= i < |lines| ==> lines[i].key == g[i].key && lines[i].count == g[i].count;
    assert forall i, j :: 0 <= i < j < |lines| ==> lines[i].count >= lines[j].count by {
      forall i, j | 0 <= i < j < |lines| ensures lines[i].count >= lines[j].count {
        assert g[i].count >= g[j].count;
      }
    }
    assert forall i, j :: 0 <= i < j < |lines| ==> lines[i].key != lines[j].key by {
      forall i, j | 0 <= i < j < |lines| ensures lines[i].key != lines[j].key {
        assert g[i].key != g[j].key;
      }
    }
    forall key, i | key in m && 0 <= i < |lines| && (forall j :: 0 <= j < |lines| ==> lines[j].key != key)
      ensures m[key] <= lines[i].count
    {
      var p :| 0 <= p < |g| && g[p].key == key;
      assert p >= |lines|;
      assert g[i].count >= g[p].count;
    }
  }

  /** One more tuple adds one to the snapshot count exactly when it is a snapshot. */
  lemma SnapshotCountAppend(ts: seq<AggregatorTuple>, t: AggregatorTuple)
    ensures SnapshotCount(ts + [t]) == SnapshotCount(ts) + (if t.TopKSnapshot? then 1 else 0)
  {
    assert (ts + [t])[..|ts|] == ts;
  }

  /** One more snapshot is put over the merge of the earlier ones; any other tuple leaves it. */
  lemma MergedAppend(ts: seq<AggregatorTuple>, t: AggregatorTuple)
    ensures Merged(Snapshots(ts + [t])) ==
              if t.TopKSnapshot? then Merged(Snapshots(ts)) + t.topK else Merged(Snapshots(ts))
  {
    assert (ts + [t])[..|ts|] == ts;
    if t.TopKSnapshot? {
      var snaps := Snapshots(ts) + [t.topK];
      assert snaps[..|snaps| - 1] == Snapshots(ts);
    }
  }

  /** The report is printed while handling the newest tuple exactly when it completes the count. */
  lemma FiresAtAppend(ts: seq<AggregatorTuple>, t: AggregatorTuple, total: int)
    ensures FiresAt(ts + [t], |ts|, total) <==> t.TopKSnapshot? && SnapshotCount(ts) + 1 == total
  {
    assert (ts + [t])[..|ts| + 1] == ts + [t];
    SnapshotCountAppend(ts, t);
  }

  class CMSAggregatorBolt {
    /** How many results to print. */
    const topK: int
    /** How many counting bolts send a snapshot. */
    const totalCMSBolts: int
    /** How many snapshots have arrived. */
    var totalCMSBoltsSentTopK: int
    /** The merged snapshots. */
    var allTopK: map<string, int>
    /** Every tuple handled so far. */
    ghost var received: seq<AggregatorTuple>

    ghost predicate Valid()
      reads this
    {
      && totalCMSBoltsSentTopK == SnapshotCount(received)
      && allTopK == Merged(Snapshots(received))
    }

    /** `prepare`: the configured top K and number of counting bolts. */
    constructor (topK: int, totalCMSBolts: int)
      ensures Valid()
      ensures this.topK == topK && this.totalCMSBolts == totalCMSBolts
      ensures received == [] && totalCMSBoltsSentTopK == 0 && allTopK == map[]
    {
      this.topK := topK;
      this.totalCMSBolts := totalCMSBolts;
      totalCMSBoltsSentTopK := 0;
      allTopK := map[];
      received := [];
    }

    /**
     * `execute(tuple)`: a custom-id count is only logged; a snapshot is put
     * into `allTopK`, counted, and the report is printed when the count
     * reaches `totalCMSBolts`.
     */
    method Execute(t: AggregatorTuple) returns (printed: Option<seq<Report>>)
      requires Valid()
      modifies this
      ensures Valid()
      ensures received == old(received) + [t]
      ensures t.CustomUserIdCount? ==>
                allTopK == old(allTopK) && totalCMSBoltsSentTopK == old(totalCMSBoltsSentTopK)
      ensures t.TopKSnapshot? ==>
                && allTopK == old(allTopK) + t.topK
                && totalCMSBoltsSentTopK == old(totalCMSBoltsSentTopK) + 1
      ensures printed.Some? <==> t.TopKSnapshot? && totalCMSBoltsSentTopK == totalCMSBolts
      ensures printed.Some? <==> FiresAt(received, |received| - 1, totalCMSBolts)
      ensures printed.Some? ==> TopKReport(printed.value, allTopK, topK)
    {
      printed := None;
      SnapshotCountAppend(received, t);
      MergedAppend(received, t);
      FiresAtAppend(received, t, totalCMSBolts);
      received := received + [t];

      // A custom user id count is only logged.
      if t.StreamId() == CustomUserIdsCountStream {
      }

      if t.StreamId() == TopKStream {
        PutAll(t.topK);
        totalCMSBoltsSentTopK := totalCMSBoltsSentTopK + 1;
        if totalCMSBoltsSentTopK == totalCMSBolts {
          var lines := LogTopKResults(allTopK, topK);
          printed := Some(lines);
        }
      }
    }

    /** The loop of `execute` that puts every entry of a snapshot into `allTopK`. */
    method PutAll(data: map<string, int>)
      modifies this
      ensures allTopK == old(allTopK) + data
      ensures totalCMSBoltsSentTopK == old(totalCMSBoltsSentTopK) && received == old(received)
    {
      var rest := data;
      while rest != map[]
        invariant rest.Keys <= data.Keys
        invariant forall k :: k in rest ==> rest[k] == data[k]
        invariant forall k :: k in allTopK <==> k in old(allTopK) || (k in data && k !in rest)
        invariant forall k :: k in data && k !in rest ==> allTopK[k] == data[k]
        invariant forall k :: k in old(allTopK) && (k !in data || k in rest) ==> allTopK[k] == old(allTopK)[k]
        invariant totalCMSBoltsSentTopK == old(totalCMSBoltsSentTopK) && received == old(received)
        decreases |rest|
      {
        var k :| k in rest;
        allTopK := allTopK[k := rest[k]];
        assert (rest - {k}).Keys == rest.Keys - {k};
        rest := rest - {k};
      }
    }

    /**
     * `logTopKResults(map, topKToLog)`: sort the entries by non-increasing
     * count and print the first `topKToLog` of them with ranks from 1.
     */
    static method LogTopKResults(m: map<string, int>, topKToLog: int) returns (lines: seq<Report>)
      ensures TopKReport(lines, m, topKToLog)
    {
      var index := 1;
      var list := SortedEntries(m);
      var globalTopKResults := CopyToLinkedMap(list);
      lines := [];
      for idx := 0 to |globalTopKResults|
        invariant index == idx + 1
        invariant |lines| == if topKToLog <= 0 then 0 else Min(topKToLog, idx)
        invariant forall i :: 0 <= i < |lines| ==>
                    lines[i] == Report(i + 1, globalTopKResults[i].key, globalTopKResults[i].count)
      {
        var entry := globalTopKResults[idx];
        if index <= topKToLog {
          lines := lines + [Report(index, entry.key, entry.count)];
        }
        index := index + 1;
      }
      RankedPrefixIsReport(lines, globalTopKResults, m, topKToLog);
    }
  }
}
