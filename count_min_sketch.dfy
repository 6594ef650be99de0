/**
 * CountMinSketch: a depth x width table of counters, one hash multiplier per
 * row, and a TopKHolder fed by a 1%-of-tracked-mass admission rule.
 *
 * The first half of this module is the specification: the row hash, the
 * table obtained from a history of additions, and the estimate of a key.
 * The class at the end is the in-place implementation, tied to that
 * specification by its invariant Valid().
 */
module Sketch {
  import opened JavaLong
  import opened Entries
  import opened TopK

  /** `(1L << 31) - 1`: named a prime modulus, but used as a 31-bit mask. */
  const PrimeModulus: int := 0x7FFF_FFFF
  /** `Integer.MAX_VALUE`: the multipliers are drawn from [0, MaxInt). */
  const MaxInt: int := 0x7FFF_FFFF

  // ---------------------------------------------------------------------
  // The row hash
  // ---------------------------------------------------------------------

  /** `h >> 32` on a `long`: arithmetic shift, i.e. division rounding down. */
  function ShiftRight32(h: Long): (r: int)
    ensures r * 0x1_0000_0000 <= h < (r + 1) * 0x1_0000_0000
    ensures -0x8000_0000 <= r < 0x8000_0000
  {
    h / 0x1_0000_0000
  }

  /** `h & PRIME_MODULUS` on a `long`: the low 31 bits of the two's-complement value. */
  function MaskLow31(h: Long): (r: int)
    ensures 0 <= r <= PrimeModulus
    ensures (h - r) % 0x8000_0000 == 0
  {
    h % 0x8000_0000
  }

  /**
   * `hash(item, i)` for a row whose multiplier is `a`: 64-bit product,
   * add the high word, keep 31 bits, reduce modulo the width.
   */
  function RowHash(a: int, item: Long, width: int): (r: int)
    requires width > 0
    ensures 0 <= r < width
  {
    var h := Wrap(a * item);
    var folded := Wrap(h + ShiftRight32(h));
    MaskLow31(folded) % width
  }

  /** The column that `x` hits in each row. */
  function Columns(hashA: seq<int>, width: int, x: Long): (cols: seq<int>)
    requires width > 0
    ensures |cols| == |hashA|
    ensures forall i :: 0 <= i < |hashA| ==> 0 <= cols[i] < width && cols[i] == RowHash(hashA[i], x, width)
  {
    seq(|hashA|, i requires 0 <= i < |hashA| => RowHash(hashA[i], x, width))
  }

  // ---------------------------------------------------------------------
  // Tables as values
  // ---------------------------------------------------------------------

  ghost predicate Shaped(t: seq<seq<int>>, depth: int, width: int) {
    |t| == depth && forall i :: 0 <= i < |t| ==> |t[i]| == width
  }

  function ZeroTable(depth: nat, width: nat): (t: seq<seq<int>>)
    ensures Shaped(t, depth, width)
    ensures forall i, j :: 0 <= i < depth && 0 <= j < width ==> t[i][j] == 0
  {
    seq(depth, _ => seq(width, _ => 0))
  }

  /** One `add`: the cell `cols[i]` of every row `i` goes up by one, nothing else changes. */
  function Bump(t: seq<seq<int>>, cols: seq<int>): (r: seq<seq<int>>)
    requires |cols| == |t|
    requires forall i :: 0 <= i < |t| ==> 0 <= cols[i] < |t[i]|
    ensures |r| == |t|
    ensures forall i :: 0 <= i < |t| ==> |r[i]| == |t[i]|
    ensures forall i, j :: 0 <= i < |t| && 0 <= j < |t[i]| ==>
              r[i][j] == t[i][j] + (if j == cols[i] then 1 else 0)
  {
    seq(|t|, i requires 0 <= i < |t| => t[i][cols[i] := t[i][cols[i]] + 1])
  }

  /** The table after adding the items of `history`, in order, to the zero table. */
  function TableOf(hashA: seq<int>, width: int, history: seq<Long>): (t: seq<seq<int>>)
    requires width > 0
    ensures Shaped(t, |hashA|, width)
    ensures forall i, j :: 0 <= i < |hashA| && 0 <= j < width ==> 0 <= t[i][j] <= |history|
  {
    if history == [] then ZeroTable(|hashA|, width)
    else
      Bump(TableOf(hashA, width, history[..|history| - 1]), Columns(hashA, width, history[|history| - 1]))
  }

  /** The cells of `t` selected by `cols`, one per row. */
  function Probe(t: seq<seq<int>>, cols: seq<int>): (s: seq<int>)
    requires |cols| == |t|
    requires forall i :: 0 <= i < |t| ==> 0 <= cols[i] < |t[i]|
    ensures |s| == |cols|
    ensures forall i :: 0 <= i < |cols| ==> s[i] == t[i][cols[i]]
  {
    seq(|cols|, i requires 0 <= i < |cols| => t[i][cols[i]])
  }

  /** `Math.min` folded over `s`, starting from `Long.MAX_VALUE`. */
  function MinOf(s: seq<int>): (r: int)
    ensures r <= MaxLong
    ensures forall i :: 0 <= i < |s| ==> r <= s[i]
    ensures r == MaxLong || exists i :: 0 <= i < |s| && r == s[i]
  {
    if s == [] then MaxLong
    else
      var m := MinOf(s[..|s| - 1]);
      if s[|s| - 1] < m then s[|s| - 1] else m
  }

  /** A minimum over cells no larger than `Long.MAX_VALUE` is one of those cells. */
  lemma MinOfIsElement(s: seq<int>)
    requires |s| >= 1
    requires forall i :: 0 <= i < |s| ==> s[i] <= MaxLong
    ensures exists i :: 0 <= i < |s| && MinOf(s) == s[i]
  {
    if MinOf(s) == MaxLong {
      assert MinOf(s) == s[0];
    }
  }

  /** `estimateCount(x)` on the table built from `history`. */
  function Estimate(hashA: seq<int>, width: int, history: seq<Long>, x: Long): int
    requires width > 0
  {
    MinOf(Probe(TableOf(hashA, width, history), Columns(hashA, width, x)))
  }

  /**
   * The estimate is no larger than any of `x`'s cells and, while no cell can
   * exceed `Long.MAX_VALUE`, it is one of them.
   */
  lemma EstimateIsSmallestCell(hashA: seq<int>, width: int, history: seq<Long>, x: Long)
    requires width > 0 && |hashA| >= 1
    requires |history| <= MaxLong
    ensures forall i :: 0 <= i < |hashA| ==>
              Estimate(hashA, width, history, x) <= TableOf(hashA, width, history)[i][Columns(hashA, width, x)[i]]
    ensures exists i :: 0 <= i < |hashA| &&
              Estimate(hashA, width, history, x) == TableOf(hashA, width, history)[i][Columns(hashA, width, x)[i]]
  {
    var probe := Probe(TableOf(hashA, width, history), Columns(hashA, width, x));
    MinOfIsElement(probe);
  }


  // ---------------------------------------------------------------------
  // Properties of the table and the estimate
  // ---------------------------------------------------------------------

  function Sum(row: seq<int>): int {
    if row == [] then 0 else Sum(row[..|row| - 1]) + row[|row| - 1]
  }

  lemma {:induction false} SumZero(n: nat)
    ensures Sum(seq(n, _ => 0)) == 0
  {
    if n > 0 {
      assert seq(n, _ => 0)[..n - 1] == seq(n - 1, _ => 0);
      SumZero(n - 1);
    }
  }

  lemma {:induction false} SumIncrement(row: seq<int>, c: int)
    requires 0 <= c < |row|
    ensures Sum(row[c := row[c] + 1]) == Sum(row) + 1
  {
    var bumped := row[c := row[c] + 1];
    if c == |row| - 1 {
      assert bumped[..|row| - 1] == row[..|row| - 1];
    } else {
      var init := row[..|row| - 1];
      assert bumped[..|row| - 1] == init[c := init[c] + 1];
      SumIncrement(init, c);
    }
  }

  /** Every row of the table sums to the number of additions. */
  lemma {:induction false} RowSumsCountAdds(hashA: seq<int>, width: int, history: seq<Long>)
    requires width > 0
    ensures forall i :: 0 <= i < |hashA| ==> Sum(TableOf(hashA, width, history)[i]) == |history|
  {
    var t := TableOf(hashA, width, history);
    if history == [] {
      forall i | 0 <= i < |hashA| ensures Sum(t[i]) == 0 {
        assert t[i] == seq(width, _ => 0);
        SumZero(width);
      }
    } else {
      var init := history[..|history| - 1];
      var prev := TableOf(hashA, width, init);
      var cols := Columns(hashA, width, history[|history| - 1]);
      RowSumsCountAdds(hashA, width, init);
      forall i | 0 <= i < |hashA| ensures Sum(t[i]) == |history| {
        assert t[i] == prev[i][cols[i] := prev[i][cols[i]] + 1];
        SumIncrement(prev[i], cols[i]);
      }
    }
  }

  /** Each cell of `x` has counted at least every addition of `x`. */
  lemma {:induction false} CellCoversOccurrences(hashA: seq<int>, width: int, history: seq<Long>, x: Long, i: int)
    requires width > 0 && 0 <= i < |hashA|
    ensures TableOf(hashA, width, history)[i][Columns(hashA, width, x)[i]] >= multiset(history)[x]
  {
    if history != [] {
      var init := history[..|history| - 1];
      assert history == init + [history[|history| - 1]];
      CellCoversOccurrences(hashA, width, init, x, i);
    }
  }

  lemma {:induction false} OccurrencesAtMostLength(history: seq<Long>, x: Long)
    ensures multiset(history)[x] <= |history|
  {
    if history != [] {
      var init := history[..|history| - 1];
      assert history == init + [history[|history| - 1]];
      OccurrencesAtMostLength(init, x);
    }
  }

  /**
   * No undercount: the estimate of `x` is at least the number of times `x`
   * was added (as long as fewer than `Long.MAX_VALUE` items were added).
   */
  lemma NoUndercount(hashA: seq<int>, width: int, history: seq<Long>, x: Long)
    requires width > 0
    requires |history| <= MaxLong
    ensures Estimate(hashA, width, history, x) >= multiset(history)[x]
  {
    OccurrencesAtMostLength(history, x);
    forall i | 0 <= i < |hashA|
      ensures TableOf(hashA, width, history)[i][Columns(hashA, width, x)[i]] >= multiset(history)[x]
    {
      CellCoversOccurrences(hashA, width, history, x, i);
    }
  }

  lemma {:induction false} MinOfMonotone(s: seq<int>, t: seq<int>)
    requires |s| == |t|
    requires forall i :: 0 <= i < |s| ==> s[i] <= t[i]
    ensures MinOf(s) <= MinOf(t)
  {
    if s != [] {
      MinOfMonotone(s[..|s| - 1], t[..|t| - 1]);
    }
  }

  lemma {:induction false} MinOfIncrement(s: seq<int>, t: seq<int>)
    requires |s| == |t| && |s| > 0
    requires forall i :: 0 <= i < |s| ==> s[i] < MaxLong && t[i] == s[i] + 1
    ensures MinOf(t) == MinOf(s) + 1
  {
    if |s| > 1 {
      MinOfIncrement(s[..|s| - 1], t[..|t| - 1]);
    }
  }

  /** An estimate never goes down when another item is added. */
  lemma EstimateMonotone(hashA: seq<int>, width: int, history: seq<Long>, y: Long, x: Long)
    requires width > 0
    ensures Estimate(hashA, width, history + [y], x) >= Estimate(hashA, width, history, x)
  {
    var after := history + [y];
    assert after[..|after| - 1] == history;
    var cols := Columns(hashA, width, x);
    MinOfMonotone(Probe(TableOf(hashA, width, history), cols), Probe(TableOf(hashA, width, after), cols));
  }

  /** One addition lowers no estimate. */
  lemma EstimatesNeverDecrease(hashA: seq<int>, width: int, history: seq<Long>, y: Long)
    requires width > 0
    ensures forall x :: Estimate(hashA, width, history + [y], x) >= Estimate(hashA, width, history, x)
  {
    forall x ensures Estimate(hashA, width, history + [y], x) >= Estimate(hashA, width, history, x) {
      EstimateMonotone(hashA, width, history, y, x);
    }
  }

  /** Estimates never go down, however many items are added afterwards. */
  lemma {:induction false} EstimateMonotoneAcross(hashA: seq<int>, width: int, history: seq<Long>, more: seq<Long>, x: Long)
    requires width > 0
    ensures Estimate(hashA, width, history + more, x) >= Estimate(hashA, width, history, x)
  {
    if more == [] {
      assert history + more == history;
    } else {
      var init := more[..|more| - 1];
      var mid := history + init;
      assert history + more == mid + [more[|more| - 1]];
      EstimateMonotoneAcross(hashA, width, history, init, x);
      EstimateMonotone(hashA, width, mid, more[|more| - 1], x);
    }
  }

  /** Adding `x` raises the estimate of `x` by exactly one. */
  lemma EstimateOfAdded(hashA: seq<int>, width: int, history: seq<Long>, x: Long)
    requires width > 0 && |hashA| >= 1
    requires |history| < MaxLong
    ensures Estimate(hashA, width, history + [x], x) == Estimate(hashA, width, history, x) + 1
  {
    var after := history + [x];
    assert after[..|after| - 1] == history;
    var cols := Columns(hashA, width, x);
    MinOfIncrement(Probe(TableOf(hashA, width, history), cols), Probe(TableOf(hashA, width, after), cols));
  }

  /** Right after `x` is added its estimate is at least one. */
  lemma EstimateOfAddedPositive(hashA: seq<int>, width: int, history: seq<Long>, x: Long)
    requires width > 0
    ensures Estimate(hashA, width, history + [x], x) >= 1
  {
    var after := history + [x];
    assert after[..|after| - 1] == history;
  }

  // ---------------------------------------------------------------------
  // The admission rule
  // ---------------------------------------------------------------------

  /** The sum of the tracked counts (the source's `allSum`). */
  ghost function Total(m: map<Long, int>): int
    decreases |m|
  {
    if m == map[] then 0
    else
      var k :| k in m;
      assert |m - {k}| < |m| by {
        assert (m - {k}).Keys == m.Keys - {k};
      }
      m[k] + Total(m - {k})
  }

  /** The sum of a map does not depend on which key is taken out first. */
  lemma TotalRemove(m: map<Long, int>, k: Long)
    requires k in m
    ensures Total(m) == m[k] + Total(m - {k})
    decreases |m|
  {
    var k' :| k' in m && Total(m) == m[k'] + Total(m - {k'});
    if k' != k {
      assert (m - {k'}).Keys == m.Keys - {k'};
      assert (m - {k}).Keys == m.Keys - {k};
      TotalRemove(m - {k'}, k);
      TotalRemove(m - {k}, k');
      assert m - {k'} - {k} == m - {k} - {k'};
    }
  }

  /**
   * After an add of `item` whose new estimate is `e`: upsert `item -> e` when
   * `e` is at least 1% of the tracked total read before the upsert
   * (`e >= 0.01 * allSum`, stated as `100 * e >= allSum`), otherwise keep the map.
   */
  ghost function Admit(tracked: map<Long, int>, item: Long, e: int): map<Long, int> {
    if 100 * e >= Total(tracked) then Upsert(tracked, item, e) else tracked
  }

  /**
   * What the holder may contain: keys that were added, each with a count of
   * at least one and at most the key's current estimate (a stored count goes
   * stale, never ahead of the sketch).
   */
  ghost predicate Tracks(items: map<Long, int>, hashA: seq<int>, width: int, history: seq<Long>)
    requires width > 0
  {
    forall k :: k in items ==> k in history && 1 <= items[k] <= Estimate(hashA, width, history, k)
  }

  /** One add, with or without the upsert of the admission rule, keeps Tracks. */
  lemma TracksAfterAdd(hashA: seq<int>, width: int, history: seq<Long>, item: Long,
                       items: map<Long, int>, items': map<Long, int>)
    requires width > 0
    requires Tracks(items, hashA, width, history)
    requires items' == items || items' == Upsert(items, item, Estimate(hashA, width, history + [item], item))
    ensures Tracks(items', hashA, width, history + [item])
  {
    var after := history + [item];
    forall k | k in items'
      ensures k in after && 1 <= items'[k] <= Estimate(hashA, width, after, k)
    {
      if k == item && items' != items {
        EstimateOfAddedPositive(hashA, width, history, item);
      } else {
        EstimateMonotone(hashA, width, history, item, k);
      }
    }
  }

  // ---------------------------------------------------------------------
  // The sketch object
  // ---------------------------------------------------------------------

  class CountMinSketch {
    const depth: nat
    const width: nat
    const hashA: seq<int>
    const table: array2<int>
    const topKHolder: TopKHolder
    /** Every item passed to Add, in order. */
    ghost var history: seq<Long>

    /** The sketch invariant: the table holds the counts of `history`, and the holder tracks. */
    ghost predicate Valid()
      reads this, table, topKHolder
    {
      TableValid() && Tracks(topKHolder.items, hashA, width, history)
    }

    /** The table has the configured shape and holds exactly the counts of `history`. */
    ghost predicate TableValid()
      reads this, table
    {
      && depth >= 1 && width >= 1
      && |hashA| == depth
      && (forall i :: 0 <= i < depth ==> 0 <= hashA[i] < MaxInt)
      && table.Length0 == depth && table.Length1 == width
      && (forall i, j :: 0 <= i < depth && 0 <= j < width ==>
            table[i, j] == TableOf(hashA, width, history)[i][j])
    }

    /** The estimate of `x` in the current state. */
    ghost function EstimateNow(x: Long): int
      reads this
      requires width > 0
    {
      Estimate(hashA, width, history, x)
    }

    /**
     * A sketch of the given size with the given row multipliers. The source
     * derives the size from error and confidence and draws the multipliers
     * from a seeded `java.util.Random`.
     */
    constructor (depth: nat, width: nat, hashA: seq<int>)
      requires depth >= 1 && width >= 1
      requires |hashA| == depth && forall i :: 0 <= i < depth ==> 0 <= hashA[i] < MaxInt
      ensures Valid()
      ensures this.depth == depth && this.width == width && this.hashA == hashA
      ensures history == [] && topKHolder.items == map[]
      ensures fresh(table) && fresh(topKHolder)
    {
      this.depth := depth;
      this.width := width;
      this.hashA := hashA;
      table := new int[depth, width]((i, j) => 0);
      topKHolder := new TopKHolder();
      history := [];
    }

    /** `hash(item, i)`: the column of `item` in row `i`. */
    function Hash(item: Long, i: nat): (r: int)
      requires i < |hashA| && width > 0
      ensures 0 <= r < width
      ensures r == Columns(hashA, width, item)[i]
    {
      RowHash(hashA[i], item, width)
    }

    /** `estimateCount(item)`: the smallest of the item's cells, one per row. */
    method EstimateCount(item: Long) returns (res: int)
      requires TableValid()
      ensures res == EstimateNow(item)
    {
      ghost var probe := Probe(TableOf(hashA, width, history), Columns(hashA, width, item));
      res := MaxLong;
      for i := 0 to depth
        invariant res == MinOf(probe[..i])
      {
        var cell := table[i, Hash(item, i)];
        assert cell == probe[i];
        assert probe[..i + 1][..i] == probe[..i];
        res := if cell < res then cell else res;
      }
      assert probe[..depth] == probe;
    }

    /** The loop of `add` that increments the item's cell in every row. */
    method IncrementCells(item: Long)
      requires TableValid()
      modifies this, table
      ensures TableValid()
      ensures history == old(history) + [item]
      ensures forall i, j :: 0 <= i < depth && 0 <= j < width ==>
                table[i, j] == old(table[i, j]) + (if j == Hash(item, i) then 1 else 0)
    {
      ghost var before := TableOf(hashA, width, history);
      for i := 0 to depth
        modifies table
        invariant forall r, c :: 0 <= r < depth && 0 <= c < width ==>
                    table[r, c] == old(table[r, c]) + (if r < i && c == Hash(item, r) then 1 else 0)
      {
        var c := Hash(item, i);
        table[i, c] := table[i, c] + 1;
      }
      ghost var oldHistory := history;
      history := history + [item];
      assert history[..|history| - 1] == oldHistory;
      ghost var after := TableOf(hashA, width, history);
      assert forall i, j :: 0 <= i < depth && 0 <= j < width ==> table[i, j] == after[i][j];
    }

    /** The loop of `add` that sums the counts currently tracked (`allSum`). */
    method TrackedSum() returns (allSum: int)
      ensures allSum == Total(topKHolder.items)
    {
      allSum := 0;
      var all := topKHolder.GetAll();
      var rest := all;
      while rest != map[]
        invariant allSum + Total(rest) == Total(all)
        decreases |rest|
      {
        var k :| k in rest;
        TotalRemove(rest, k);
        allSum := allSum + rest[k];
        assert (rest - {k}).Keys == rest.Keys - {k};
        rest := rest - {k};
      }
      assert all == topKHolder.items;
    }

    /**
     * The admission step of `add`: sum the tracked counts, then upsert the item
     * with its estimate when the estimate is at least 1% of that sum.
     */
    method AdmitItem(item: Long)
      requires TableValid()
      modifies topKHolder
      ensures topKHolder.items == Admit(old(topKHolder.items), item, EstimateNow(item))
    {
      var allSum := TrackedSum();
      var e := EstimateCount(item);
      ghost var admitted := Admit(topKHolder.items, item, e);
      if 100 * e >= allSum {
        var e2 := EstimateCount(item);
        topKHolder.AddToTopKList(item, e2);
        assert topKHolder.items == admitted;
      }
    }

    /**
     * `add(item)`: one more count in the item's cell of every row, then the
     * 1%-admission of the item into the holder.
     */
    method Add(item: Long)
      requires Valid()
      modifies this, table, topKHolder
      ensures Valid()
      ensures history == old(history) + [item]
      ensures forall i, j :: 0 <= i < depth && 0 <= j < width ==>
                table[i, j] == old(table[i, j]) + (if j == Hash(item, i) then 1 else 0)
      ensures topKHolder.items == Admit(old(topKHolder.items), item, EstimateNow(item))
      ensures |old(history)| < MaxLong ==> EstimateNow(item) == old(EstimateNow(item)) + 1
      ensures forall x :: EstimateNow(x) >= old(EstimateNow(x))
    {
      ghost var oldHistory := history;
      ghost var oldItems := topKHolder.items;
      IncrementCells(item);
      AdmitItem(item);
      EstimatesNeverDecrease(hashA, width, oldHistory, item);
      if |oldHistory| < MaxLong {
        EstimateOfAdded(hashA, width, oldHistory, item);
      }
      TracksAfterAdd(hashA, width, oldHistory, item, oldItems, topKHolder.items);
    }

    /** `getTopKValuesCount()`: how many values the holder tracks. */
    function GetTopKValuesCount(): (n: nat)
      reads topKHolder
      ensures n == |topKHolder.items|
    {
      |topKHolder.GetAll()|
    }

    /** `getTopK(k)`: the holder's entries by non-increasing count; `k` is passed on and not used. */
    method GetTopK(k: int) returns (r: seq<Entry<Long>>)
      requires Valid()
      ensures Descending(r)
      ensures EntriesOf(r, topKHolder.items)
      ensures |r| == |topKHolder.items|
    {
      r := topKHolder.GetTopK(k);
    }
  }
}
