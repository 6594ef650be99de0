/**
 * CMSBolt: one counting worker. It owns a CountMinSketch and reacts to each
 * incoming tuple according to the stream the tuple arrived on.
 */
module Bolt {
  import opened Wrappers
  import opened JavaLong
  import opened Entries
  import opened Streams
  import opened Sketch

  /** The tuples a counting bolt receives, one constructor per stream. */
  datatype BoltTuple =
    | SystemTick                    // Storm's periodic tick (every second)
    | EndOfStream                   // tickStream: the spout has read all its input
    | CustomUserId(userId: string)  // customUserIdsStream: an id whose estimate is wanted
    | Data(userId: string)          // dataStream: one post; only its userId field is read
  {
    function SourceComponent(): string {
      if SystemTick? then SystemComponentId else "cmsFileSpout"
    }

    function StreamId(): (id: string)
      ensures id in {SystemTickStreamId, TickStream, CustomUserIdsStream, DataStream}
    {
      match this
      case SystemTick => SystemTickStreamId
      case EndOfStream => TickStream
      case CustomUserId(_) => CustomUserIdsStream
      case Data(_) => DataStream
    }

    /** `isTickTuple`: sent by Storm's system component on its tick stream. */
    predicate IsTickTuple() {
      SourceComponent() == SystemComponentId && StreamId() == SystemTickStreamId
    }
  }

  /** The number of `execute`'s branches whose condition holds for `t`. */
  function BranchesTaken(t: BoltTuple): nat {
    (if t.IsTickTuple() then 1 else 0)
    + (if t.StreamId() == TickStream then 1 else 0)
    + (if t.StreamId() == CustomUserIdsStream then 1 else 0)
    + (if t.StreamId() == DataStream then 1 else 0)
  }

  /** The stream ids are distinct, so every tuple takes exactly one branch of `execute`. */
  lemma ExactlyOneBranch(t: BoltTuple)
    ensures BranchesTaken(t) == 1
    ensures t.IsTickTuple() <==> t.SystemTick?
    ensures t.StreamId() == TickStream <==> t.EndOfStream?
    ensures t.StreamId() == CustomUserIdsStream <==> t.CustomUserId?
    ensures t.StreamId() == DataStream <==> t.Data?
  {
    assert SystemTickStreamId[0] == '_' && TickStream[0] == 't';
    assert CustomUserIdsStream[0] == 'c' && DataStream[0] == 'd';
  }

  /** What `execute` sends out. */
  datatype BoltOutput =
    | Stats(processedTuples: int, topKCount: int)  // the statistics logged on a system tick
    | TopKEmit(topK: seq<Entry<Long>>)             // on topKStream: the sorted holder entries
    | CountEmit(userId: string, count: int)        // on customUserIdsCountStream

  class CMSBolt {
    const cms: CountMinSketch
    /** Passed to `getTopK`, which does not use it. */
    const topK: int
    var processedTuples: int
    var eof: bool

    ghost predicate Valid()
      reads this, cms, cms.table, cms.topKHolder
    {
      cms.Valid() && processedTuples >= 0
    }

    /**
     * `prepare`: a fresh sketch and zeroed counters. The sketch's size and
     * multipliers are given directly.
     */
    constructor (topK: int, depth: nat, width: nat, hashA: seq<int>)
      requires depth >= 1 && width >= 1
      requires |hashA| == depth && forall i :: 0 <= i < depth ==> 0 <= hashA[i] < MaxInt
      ensures Valid()
      ensures this.topK == topK && processedTuples == 0 && !eof
      ensures cms.history == [] && cms.topKHolder.items == map[]
      ensures fresh(cms) && fresh(cms.table) && fresh(cms.topKHolder)
    {
      this.topK := topK;
      cms := new CountMinSketch(depth, width, hashA);
      processedTuples := 0;
      eof := false;
    }

    /** `execute(tuple)`: one step of the worker. */
    method Execute(t: BoltTuple) returns (out: Option<BoltOutput>)
      requires Valid()
      modifies this, cms, cms.table, cms.topKHolder
      ensures Valid()
      ensures old(eof) ==> eof
      // A system tick: statistics unless the end of the stream was seen; no state changes.
      ensures t.SystemTick? ==>
                && processedTuples == old(processedTuples) && eof == old(eof)
                && cms.history == old(cms.history) && cms.topKHolder.items == old(cms.topKHolder.items)
                && out == if old(eof) then None else Some(Stats(processedTuples, |cms.topKHolder.items|))
      // End of stream: emit every tracked entry by non-increasing count, set eof.
      ensures t.EndOfStream? ==>
                && processedTuples == old(processedTuples) && eof
                && cms.history == old(cms.history) && cms.topKHolder.items == old(cms.topKHolder.items)
                && out.Some? && out.value.TopKEmit?
                && Descending(out.value.topK) && EntriesOf(out.value.topK, cms.topKHolder.items)
      // A query: emit the estimate of a parsable id, nothing otherwise; no state changes.
      ensures t.CustomUserId? ==>
                && processedTuples == old(processedTuples) && eof == old(eof)
                && cms.history == old(cms.history) && cms.topKHolder.items == old(cms.topKHolder.items)
                && out == match ParseLong(t.userId)
                          case Some(v) => Some(CountEmit(t.userId, cms.EstimateNow(v)))
                          case None => None
      // Data: always counted; a parsable id is added to the sketch, whatever eof says.
      ensures t.Data? ==>
                && processedTuples == old(processedTuples) + 1 && eof == old(eof) && out == None
                && match ParseLong(t.userId)
                   case Some(v) =>
                     && cms.history == old(cms.history) + [v]
                     && cms.topKHolder.items == Admit(old(cms.topKHolder.items), v, cms.EstimateNow(v))
                   case None =>
                     cms.history == old(cms.history) && cms.topKHolder.items == old(cms.topKHolder.items)
    {
      ExactlyOneBranch(t);
      out := None;

      // A tick tuple only logs statistics for the bolt.
      if t.IsTickTuple() {
        if eof {
          return;
        }
        var tracked := cms.GetTopKValuesCount();
        out := Some(Stats(processedTuples, tracked));
        return;
      }

      // End of the input: send the top-K results.
      if t.StreamId() == TickStream {
        var topKValues := cms.GetTopK(topK);
        out := Some(TopKEmit(topKValues));
        eof := true;
      }

      // A custom id: emit its estimated frequency.
      if t.StreamId() == CustomUserIdsStream {
        var parsed := ParseLong(t.userId);
        if parsed.Some? {
          var estimatedCount := cms.EstimateCount(parsed.value);
          out := Some(CountEmit(t.userId, estimatedCount));
        }
      }

      // A data tuple: count it, and add its id to the sketch.
      if t.StreamId() == DataStream {
        processedTuples := processedTuples + 1;
        var parsed := ParseLong(t.userId);
        if parsed.Some? {
          cms.Add(parsed.value);
        }
      }
    }
  }
}
