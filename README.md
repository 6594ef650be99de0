# CMS-Storm core in Dafny

CMS-Storm counts how often user ids occur in a stream of posts, using a
Storm topology:

- Several **counting bolts** (`CMSBolt`) each own a **Count-Min Sketch**.
  - A sketch is a `depth x width` table of counters with one hash multiplier per row.
  - Each id read on the data stream adds one to one cell per row.
  - The estimate of an id is the smallest of its cells.
- Each sketch has a **TopKHolder**, a map from id to count. After every add,
  the id is upserted with its new estimate if that estimate is at least 1% of
  the counts already tracked.
- At the end of the input, every counting bolt sends its holder's entries,
  sorted by count, to a single **aggregator bolt** (`CMSAggregatorBolt`).
- The aggregator is a barrier:
  - it puts each snapshot into one merged map, a later count overwriting an earlier one;
  - it counts the snapshots;
  - when the count reaches the number of counting bolts, it prints the top `K` ids as `rank,key,count` lines.

## Structure

The project has one module per source file, plus two small shared modules.

| module | file | models |
|---|---|---|
| `Wrappers` | `wrappers.dfy` | `Option` |
| `JavaLong` | `java_long.dfy` | the range of a Java `long`, two's-complement wrap-around, `Long.parseLong` and `Long.toString` |
| `Entries` | `entries.dfy` | the shared idiom of `getTopK` and `logTopKResults`: copy a map's entries into a list, sort it in place by descending count, copy it into a `LinkedHashMap` |
| `TopK` | `top_k_holder.dfy` | `TopKHolder` |
| `Sketch` | `count_min_sketch.dfy` | `CountMinSketch` |
| `Streams` | `stream_config.dfy` | the stream ids of `StreamConfig` and Storm's system tick ids |
| `Bolt` | `cms_bolt.dfy` | `CMSBolt.execute` |
| `Aggregator` | `cms_aggregator_bolt.dfy` | `CMSAggregatorBolt.execute` and `logTopKResults` |

### The sketch

The sketch is split into a specification and an implementation.

- **Specification** (pure functions over the list of items added so far):
  - `TableOf` is the table that list produces.
  - `Estimate` is the minimum over an item's cells, starting from `Long.MAX_VALUE` as the source does.
  - The lemmas cover row sums, no undercount, the +1 on an item's own estimate and monotone estimates.
- **Implementation**: the class `CountMinSketch`.
  - The table is an `array2<int>`, updated in place.
  - A ghost `history` records the items added.
  - `Valid()` says every cell equals the cell of `TableOf(hashA, width, history)`, and that the holder keeps the invariant `Tracks`.
  - `Tracks`: every tracked id was added, and its stored count is between 1 and its current estimate.

### The bolts

Both bolts are classes whose `Execute` dispatches on the tuple's stream id, with the same sequence of `if`s as the source.

- The aggregator keeps a ghost list of the tuples it has received.
- Its invariant ties the snapshot counter and the merged map to that list.
- The barrier lemmas are stated over that list: the report is printed at most once, never early, and always once every snapshot has arrived.

### Hash function

The mask constant is named `PRIME_MODULUS` (`2^31 - 1`), which suggests a reduction `(a·x mod P) mod width`. The code instead does the following:

1. multiply in 64-bit arithmetic;
2. add the high 32 bits;
3. mask the low 31 bits;
4. reduce modulo the width.

Masking is not a reduction modulo `P`. The model follows the code: `RowHash` is built from `Wrap`, `ShiftRight32` and `MaskLow31`.

## Model

Source paths are relative to the repository root.

| member | source | states |
|---|---|---|
| JavaLong.Wrap | src/main/java/gr/tuc/dkap/cms/storm/utils/CountMinSketch.java:108-109 | `long` arithmetic: the result lies in the `long` range, is congruent to the exact value modulo 2^64, and equals it when that value fits |
| JavaLong.ParseLong | src/main/java/gr/tuc/dkap/cms/storm/CMSBolt.java:84 | `Long.parseLong`, both directions: a string is accepted exactly when it is an optional `+` or `-` followed by at least one digit and its value fits in a `long` (down to `Long.MIN_VALUE`); the result is the digits' value, negated after `-`; everything else (empty, lone sign, `+-5`, `1a`, out of range) is the `NumberFormatException` branch caught at CMSBolt.java:86-88 and 97-98 |
| JavaLong.DigitsValue | src/main/java/gr/tuc/dkap/cms/storm/CMSBolt.java:84 | the decimal value of the digits, most significant first; leading zeros do not change it (`007` is 7) |
| JavaLong.Decimal | src/main/java/gr/tuc/dkap/cms/storm/CMSBolt.java:84 | the decimal form of a natural number is a non-empty string of digits |
| JavaLong.LongToString | src/main/java/gr/tuc/dkap/cms/storm/CMSBolt.java:84 | the decimal form of a `long` is non-empty and starts with `-` exactly when the number is negative |
| JavaLong.DecimalValue | src/main/java/gr/tuc/dkap/cms/storm/CMSBolt.java:84 | reading the decimal digits of `n` back gives `n` |
| JavaLong.ParseLongToString | src/main/java/gr/tuc/dkap/cms/storm/CMSBolt.java:96 | every `long` id survives printing and `parseLong`: `ParseLong(LongToString(n)) == Some(n)` |
| Entries.EntriesOfLength | src/main/java/gr/tuc/dkap/cms/storm/utils/TopKHolder.java:40 | a list holding exactly the entries of a map, one per key, is as long as the map |
| Entries.SeqKeysCardinality | src/main/java/gr/tuc/dkap/cms/storm/utils/TopKHolder.java:40 | helper of `EntriesOfLength`: a list without repeated keys has as many distinct keys as elements |
| Entries.DistinctKeysAtMostOnce | src/main/java/gr/tuc/dkap/cms/storm/utils/TopKHolder.java:41-46 | helper of `PermutationKeepsEntries`: a list without repeated keys holds each entry at most once |
| Entries.RepeatedTwice | src/main/java/gr/tuc/dkap/cms/storm/utils/TopKHolder.java:41-46 | helper of `PermutationKeepsEntries`: two equal positions make an element occur at least twice |
| Entries.PermutationKeepsEntries | src/main/java/gr/tuc/dkap/cms/storm/utils/TopKHolder.java:41-46 | reordering the entry list of a map still lists exactly the entries of that map |
| Entries.SortByCountDescending | src/main/java/gr/tuc/dkap/cms/storm/utils/TopKHolder.java:41-46 | `Collections.sort` with the reversed-count comparator: afterwards the array is non-increasing by count and a permutation of its old contents |
| Entries.InsertIntoSortedPrefix | src/main/java/gr/tuc/dkap/cms/storm/utils/TopKHolder.java:41-46 | one insertion step: a non-increasing prefix of length `i` becomes one of length `i + 1`, and the array is a permutation of its old contents |
| Entries.EntryList | src/main/java/gr/tuc/dkap/cms/storm/utils/TopKHolder.java:40 | `new LinkedList(map.entrySet())`: every entry of the map with its count, every key present, no key twice |
| Entries.SortedEntries | src/main/java/gr/tuc/dkap/cms/storm/utils/TopKHolder.java:40-46 | the entry list after the sort: non-increasing by count, exactly the entries of the map, as long as the map |
| Entries.LinkedPut | src/main/java/gr/tuc/dkap/cms/storm/utils/TopKHolder.java:51 | `LinkedHashMap.put`: the key is present afterwards, and the map grows by one exactly when the key was absent |
| Entries.LinkedPutAbsent | src/main/java/gr/tuc/dkap/cms/storm/utils/TopKHolder.java:51 | putting an absent key appends it at the end of the iteration order |
| Entries.LinkedPutPresent | src/main/java/gr/tuc/dkap/cms/storm/utils/TopKHolder.java:51 | putting a present key replaces its value in place and keeps the iteration order |
| Entries.CopyToLinkedMap | src/main/java/gr/tuc/dkap/cms/storm/utils/TopKHolder.java:48-53 | copying a list without repeated keys into a `LinkedHashMap` gives a map whose iteration order is the list itself |
| TopK.Upsert | src/main/java/gr/tuc/dkap/cms/storm/utils/TopKHolder.java:19-21 | `items.put(k, v)`: `k` maps to `v`, every other key keeps its presence and count, and the size grows by one exactly when `k` was new |
| TopK.TopKHolder.constructor | src/main/java/gr/tuc/dkap/cms/storm/utils/TopKHolder.java:11 | a new holder tracks nothing |
| TopK.TopKHolder.AddToTopKList | src/main/java/gr/tuc/dkap/cms/storm/utils/TopKHolder.java:19-21 | the holder's map becomes the old map with the value upserted to the count |
| TopK.TopKHolder.GetAll | src/main/java/gr/tuc/dkap/cms/storm/utils/TopKHolder.java:27-29 | the tracked values with their counts: same keys and same counts as the holder |
| TopK.TopKHolder.GetTopK | src/main/java/gr/tuc/dkap/cms/storm/utils/TopKHolder.java:38-54 | every tracked entry, in non-increasing order of count, each key once; `topK` cuts nothing |
| Sketch.ShiftRight32 | src/main/java/gr/tuc/dkap/cms/storm/utils/CountMinSketch.java:109 | `>> 32` on a `long` rounds down: `r·2^32 <= h < (r+1)·2^32`, so `r` fits in 32 signed bits |
| Sketch.MaskLow31 | src/main/java/gr/tuc/dkap/cms/storm/utils/CountMinSketch.java:110 | `& PRIME_MODULUS` keeps the low 31 bits: the result lies in `[0, 2^31 - 1]` and is congruent to the input modulo 2^31 |
| Sketch.RowHash | src/main/java/gr/tuc/dkap/cms/storm/utils/CountMinSketch.java:107-112 | `hash(item, i)` always names a column: `0 <= r < width`, for every item including negative ones |
| Sketch.Columns | src/main/java/gr/tuc/dkap/cms/storm/utils/CountMinSketch.java:107-112 | the column an item hits in each row, one per multiplier, each within the width |
| Sketch.ZeroTable | src/main/java/gr/tuc/dkap/cms/storm/utils/CountMinSketch.java:42 | `new long[depth][width]`: the right shape, every cell zero |
| Sketch.Bump | src/main/java/gr/tuc/dkap/cms/storm/utils/CountMinSketch.java:58-60 | one pass of the increment loop: exactly the hit cell of each row goes up by one |
| Sketch.TableOf | src/main/java/gr/tuc/dkap/cms/storm/utils/CountMinSketch.java:56-60 | the table after a list of adds has the configured shape, and each cell lies between 0 and the number of adds |
| Sketch.Probe | src/main/java/gr/tuc/dkap/cms/storm/utils/CountMinSketch.java:83-85 | the cells `table[i][hash(item, i)]` read by `estimateCount`, one per row |
| Sketch.MinOf | src/main/java/gr/tuc/dkap/cms/storm/utils/CountMinSketch.java:82-86 | the minimum seeded with `Long.MAX_VALUE`: at most `MAX_VALUE` and every element, and equal to `MAX_VALUE` or to one element |
| Sketch.MinOfIsElement | src/main/java/gr/tuc/dkap/cms/storm/utils/CountMinSketch.java:82-86 | over a non-empty list of values no larger than `MAX_VALUE`, the minimum is one of them |
| Sketch.EstimateIsSmallestCell | src/main/java/gr/tuc/dkap/cms/storm/utils/CountMinSketch.java:81-87 | the estimate is at most every cell of the item and equal to one of them |
| Sketch.SumZero | src/main/java/gr/tuc/dkap/cms/storm/utils/CountMinSketch.java:56-60 | helper of `RowSumsCountAdds` (base case): a zero row sums to zero |
| Sketch.SumIncrement | src/main/java/gr/tuc/dkap/cms/storm/utils/CountMinSketch.java:56-60 | helper of `RowSumsCountAdds` (step): incrementing one cell adds one to the row sum |
| Sketch.RowSumsCountAdds | src/main/java/gr/tuc/dkap/cms/storm/utils/CountMinSketch.java:56-60 | every row of the table sums to the number of items added |
| Sketch.CellCoversOccurrences | src/main/java/gr/tuc/dkap/cms/storm/utils/CountMinSketch.java:58-60 | every cell an item hits is at least the number of times that item was added |
| Sketch.OccurrencesAtMostLength | src/main/java/gr/tuc/dkap/cms/storm/utils/CountMinSketch.java:81-87 | helper of `NoUndercount`: no item was added more often than there were adds |
| Sketch.NoUndercount | src/main/java/gr/tuc/dkap/cms/storm/utils/CountMinSketch.java:81-87 | Count-Min never underestimates: the estimate is at least the item's true number of adds |
| Sketch.MinOfMonotone | src/main/java/gr/tuc/dkap/cms/storm/utils/CountMinSketch.java:56-87 | helper of `EstimateMonotone`: the minimum of pointwise larger cells is larger |
| Sketch.MinOfIncrement | src/main/java/gr/tuc/dkap/cms/storm/utils/CountMinSketch.java:56-87 | helper of `EstimateOfAdded`: adding one to every cell below `MAX_VALUE` adds one to the minimum |
| Sketch.EstimateMonotone | src/main/java/gr/tuc/dkap/cms/storm/utils/CountMinSketch.java:56-87 | an add never lowers the estimate of any item |
| Sketch.EstimatesNeverDecrease | src/main/java/gr/tuc/dkap/cms/storm/utils/CountMinSketch.java:56-87 | the same, for all items at once |
| Sketch.EstimateMonotoneAcross | src/main/java/gr/tuc/dkap/cms/storm/utils/CountMinSketch.java:56-87 | any further sequence of adds never lowers an estimate |
| Sketch.EstimateOfAdded | src/main/java/gr/tuc/dkap/cms/storm/utils/CountMinSketch.java:56-87 | adding an item raises its own estimate by exactly one |
| Sketch.EstimateOfAddedPositive | src/main/java/gr/tuc/dkap/cms/storm/utils/CountMinSketch.java:56-87 | right after its add, an item's estimate is at least one |
| Sketch.TotalRemove | src/main/java/gr/tuc/dkap/cms/storm/utils/CountMinSketch.java:64-68 | the tracked total splits into one entry plus the rest, so the summing loop may visit the entries in any order |
| Sketch.TracksAfterAdd | src/main/java/gr/tuc/dkap/cms/storm/utils/CountMinSketch.java:56-73 | an add, admitted or not, keeps the holder invariant: tracked ids were added, with counts between 1 and their current estimate |
| Sketch.CountMinSketch.constructor | src/main/java/gr/tuc/dkap/cms/storm/utils/CountMinSketch.java:33-48 | a sketch of the given size and multipliers: all cells zero, nothing added, nothing tracked |
| Sketch.CountMinSketch.Hash | src/main/java/gr/tuc/dkap/cms/storm/utils/CountMinSketch.java:107-112 | the column of an item in row `i`, within the width, as the specification's `Columns` gives it |
| Sketch.CountMinSketch.EstimateCount | src/main/java/gr/tuc/dkap/cms/storm/utils/CountMinSketch.java:81-87 | the loop over the rows returns the specification's estimate of the item in the current state |
| Sketch.CountMinSketch.IncrementCells | src/main/java/gr/tuc/dkap/cms/storm/utils/CountMinSketch.java:58-60 | exactly the item's cell in each row goes up by one; the table now holds the counts of the history extended by the item |
| Sketch.CountMinSketch.TrackedSum | src/main/java/gr/tuc/dkap/cms/storm/utils/CountMinSketch.java:64-68 | `allSum` is the total of the counts the holder tracks |
| Sketch.CountMinSketch.AdmitItem | src/main/java/gr/tuc/dkap/cms/storm/utils/CountMinSketch.java:64-72 | the holder becomes the 1%-admission of the item with its estimate over the total read before the upsert |
| Sketch.CountMinSketch.Add | src/main/java/gr/tuc/dkap/cms/storm/utils/CountMinSketch.java:56-73 | `add(item)`: keeps the sketch invariant; one more count in the item's cell of each row; the 1%-admission; the item's own estimate goes up by one; no estimate goes down |
| Sketch.CountMinSketch.GetTopKValuesCount | src/main/java/gr/tuc/dkap/cms/storm/utils/CountMinSketch.java:92-94 | how many values the holder tracks |
| Sketch.CountMinSketch.GetTopK | src/main/java/gr/tuc/dkap/cms/storm/utils/CountMinSketch.java:102-104 | the holder's entries, in non-increasing order of count, each once |
| Bolt.BoltTuple.StreamId | src/main/java/gr/tuc/dkap/cms/storm/StreamConfig.java:9-17 | every tuple arrives on the system tick stream or on one of the spout's three streams |
| Bolt.ExactlyOneBranch | src/main/java/gr/tuc/dkap/cms/storm/CMSBolt.java:60-101 | the stream ids are distinct, so every tuple takes exactly one branch of `execute`, and `isTickTuple` holds exactly for Storm's ticks |
| Bolt.CMSBolt.constructor | src/main/java/gr/tuc/dkap/cms/storm/CMSBolt.java:48-57 | `prepare`: a fresh empty sketch, no tuples processed, end of stream not seen |
| Bolt.CMSBolt.Execute | src/main/java/gr/tuc/dkap/cms/storm/CMSBolt.java:60-101 | the effect of each stream: a tick logs statistics unless the end was seen; the end of stream emits the sorted holder entries and sets `eof`; a custom id emits its estimate when it parses; a data tuple is counted and, when it parses, added to the sketch; a parse failure changes nothing else; `eof` never resets |
| Aggregator.SnapshotCount | src/main/java/gr/tuc/dkap/cms/storm/CMSAggregatorBolt.java:51 | the number of snapshots received never exceeds the number of tuples |
| Aggregator.SnapshotCountGrows | src/main/java/gr/tuc/dkap/cms/storm/CMSAggregatorBolt.java:51-54 | the snapshot counter never decreases along a run, and strictly increases at each snapshot |
| Aggregator.FiresAtMostOnce | src/main/java/gr/tuc/dkap/cms/storm/CMSAggregatorBolt.java:51-54 | the global top K is printed at most once in a run |
| Aggregator.NeverBeforeTotal | src/main/java/gr/tuc/dkap/cms/storm/CMSAggregatorBolt.java:51-54 | before the printing step, fewer snapshots than counting bolts had arrived |
| Aggregator.FiresOnceAllArrived | src/main/java/gr/tuc/dkap/cms/storm/CMSAggregatorBolt.java:51-54 | once as many snapshots as counting bolts (at least one) have arrived, the report has been printed |
| Aggregator.Snapshots | src/main/java/gr/tuc/dkap/cms/storm/CMSAggregatorBolt.java:41-48 | the snapshots of a run, one per top-K tuple |
| Aggregator.Merged | src/main/java/gr/tuc/dkap/cms/storm/CMSAggregatorBolt.java:46-48 | a key is in the merged map exactly when some snapshot holds it |
| Aggregator.MergedTakesLast | src/main/java/gr/tuc/dkap/cms/storm/CMSAggregatorBolt.java:46-48 | a key takes the count of the last snapshot that holds it: overwrite, not sum |
| Aggregator.MergedDisjointUnion | src/main/java/gr/tuc/dkap/cms/storm/CMSAggregatorBolt.java:46-48 | when no two snapshots share a key, the merge is their union with every count kept |
| Aggregator.RankedPrefixIsReport | src/main/java/gr/tuc/dkap/cms/storm/CMSAggregatorBolt.java:65-88 | numbering the first `k` entries of a sorted entry list gives a top-`k` report: ranks 1, 2, …; `min(k, size)` lines; entries of the map; non-increasing counts; distinct keys; no unreported entry beats a reported one |
| Aggregator.SnapshotCountAppend | src/main/java/gr/tuc/dkap/cms/storm/CMSAggregatorBolt.java:51 | one more tuple raises the snapshot count by one exactly when it is a snapshot |
| Aggregator.MergedAppend | src/main/java/gr/tuc/dkap/cms/storm/CMSAggregatorBolt.java:46-48 | one more snapshot is put over the merge of the earlier ones; any other tuple leaves the merge alone |
| Aggregator.FiresAtAppend | src/main/java/gr/tuc/dkap/cms/storm/CMSAggregatorBolt.java:51-54 | the newest tuple triggers the report exactly when it is the snapshot that brings the count to the number of bolts |
| Aggregator.CMSAggregatorBolt.constructor | src/main/java/gr/tuc/dkap/cms/storm/CMSAggregatorBolt.java:27-30 | `prepare`: the configured top K and bolt count, nothing merged, no snapshot counted |
| Aggregator.CMSAggregatorBolt.Execute | src/main/java/gr/tuc/dkap/cms/storm/CMSAggregatorBolt.java:33-57 | a custom id count changes nothing; a snapshot is put over the merged map and counted; the report is printed exactly when the counter equals the number of bolts, which happens once per run; the printed lines form a top-K report of the merged map; the invariant ties the counter and the map to the tuples received |
| Aggregator.CMSAggregatorBolt.PutAll | src/main/java/gr/tuc/dkap/cms/storm/CMSAggregatorBolt.java:46-48 | the put loop leaves `allTopK` equal to the old map overridden by the snapshot |
| Aggregator.CMSAggregatorBolt.LogTopKResults | src/main/java/gr/tuc/dkap/cms/storm/CMSAggregatorBolt.java:65-88 | the printed lines are a top-`topKToLog` report of the map: nothing is printed when `topKToLog <= 0` |

## Left out

- Sizing and multipliers: the width and depth that the sketch's constructor derives from error and confidence with `double` arithmetic, and the multipliers drawn from a seeded `java.util.Random`. The constructors take depth, width and multipliers directly, requiring each multiplier to lie in `[0, Integer.MAX_VALUE)` as `nextInt` guarantees.
- The admission test `estimate >= allSum * 0.01` is evaluated in `double`. It is modelled as the exact integer test `100 * estimate >= allSum`, so floating-point rounding for very large sums is not captured.
- The probabilistic guarantee of Count-Min (overcount at most `error · N` with the stated confidence) is not stated. It depends on how the hash functions are distributed, which the model does not describe.
- Counters, `allSum` and `processedTuples` are Java `long`/`Long` values; the model uses unbounded integers. Overflow after 2^63 increments is not modelled. The lemmas that need cells below `Long.MAX_VALUE` take fewer than `Long.MAX_VALUE` adds as a hypothesis.
- Sketch.CountMinSketch.Add: the "+1 on its own estimate" clause is stated only while fewer than `Long.MAX_VALUE` items had been added, because of the overflow point above.
- Sketch.EstimateOfAdded: requires fewer than `Long.MAX_VALUE` adds, for the same reason.
- Sketch.NoUndercount: requires at most `Long.MAX_VALUE` adds, because `estimateCount` starts from `Long.MAX_VALUE`.
- Sketch.EstimateIsSmallestCell: requires at most `Long.MAX_VALUE` adds, for the same reason.
- `getAll()` returns the live `HashMap`. The model returns its value, so aliasing through the returned map is not captured; nothing in the core writes through it.
- `Long.parseLong` also accepts non-ASCII Unicode digits; `ParseLong` accepts only `0`–`9`. A `null` userId, which the source's `catch` would also swallow, is not modelled.
- Iteration order of `HashMap`, and the order among equal counts after the stable sort, are left open. Results are specified as any non-increasing arrangement of exactly the map's entries.
- JSON serialisation with Gson:
  - the counting bolt emits the sorted entry list itself;
  - the aggregator receives the snapshot as a map from string key to count.
- Logging, the processing-rate arithmetic, `System.currentTimeMillis`, the UUID bolt id, the `OutputCollector` and Storm acking are left out. Logged statistics and emitted tuples are returned as values.
- `declareOutputFields`, `getComponentConfiguration` and `cleanup` are left out: they configure Storm and compute nothing.
- Parsing the configuration map in `prepare` (`Integer.parseInt`, `Double.parseDouble`) is left out; the constructors take the parsed values.
- Tuples are modelled by the stream they arrive on, and only the system component sends on the system tick stream. A tuple from another component on `__tick` is not modelled.
- Only the `userId` field of a data tuple is read; the other fields of a post are not modelled.
- `CMSSpout` (reading the input files) and `CMSTopology` (wiring and grouping) are not part of this model. `Aggregator.MergedDisjointUnion` states what the merge gives when each key reaches only one counting bolt, without modelling the grouping that would ensure it.
