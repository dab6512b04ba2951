/**
 * `groupby(col)[value_col].sum()`, the top-10 list built from it with
 * `sort_values(value_col, ascending=False).head(10)`, and the trend series
 * `groupby(date_col)[value_col].sum()`.
 */
module Aggregates {
  import opened Cells
  import opened Sorting
  import opened Frames
  import opened Catalogs

  /** (group key, summed measure): one row of `groupby(...).sum().reset_index()`. */
  type Entry = (Cell, int)

  /** What a cell adds to a sum: `sum()` skips NaN. */
  function Measure(c: Cell): int
  {
    if c.Num? then c.n else 0
  }

  /** The measure column v summed over the rows whose column g holds key. */
  function GroupSum(rows: seq<Row>, g: string, v: string, key: Cell): int
  {
    if rows == [] then 0
    else (if Get(rows[0], g) == key then Measure(Get(rows[0], v)) else 0) + GroupSum(rows[1..], g, v, key)
  }

  /** `df[v].sum()`: the measure summed over all rows. */
  function Total(rows: seq<Row>, v: string): int
  {
    if rows == [] then 0 else Measure(Get(rows[0], v)) + Total(rows[1..], v)
  }

  /** The measure summed over the rows whose key in g is not missing. */
  function KeyedTotal(rows: seq<Row>, g: string, v: string): int
  {
    if rows == [] then 0
    else (if Get(rows[0], g).Missing? then 0 else Measure(Get(rows[0], v))) + KeyedTotal(rows[1..], g, v)
  }

  predicate KeysDistinct(s: seq<Entry>)
  {
    forall i, j :: 0 <= i < j < |s| ==> s[i].0 != s[j].0
  }

  predicate NonIncreasing(s: seq<Entry>)
  {
    forall i, j :: 0 <= i < j < |s| ==> s[i].1 >= s[j].1
  }

  /** The group keys: the distinct non-missing values of column g (groupby drops NaN keys). */
  function GroupKeys(rows: seq<Row>, g: string): (keys: seq<Cell>)
    ensures NoDups(keys)
    ensures forall x :: x in keys <==> !x.Missing? && exists i :: 0 <= i < |rows| && Get(rows[i], g) == x
  {
    var col := Column(rows, g);
    assert forall x :: x in col <==> exists i :: 0 <= i < |rows| && Get(rows[i], g) == x by {
      forall x | x in col ensures exists i :: 0 <= i < |rows| && Get(rows[i], g) == x {
        var i :| 0 <= i < |col| && col[i] == x;
      }
    }
    Distinct(DropMissing(col))
  }

  function SumsFor(rows: seq<Row>, g: string, v: string, keys: seq<Cell>): (r: seq<Entry>)
    ensures |r| == |keys|
    ensures forall k :: 0 <= k < |r| ==> r[k] == (keys[k], GroupSum(rows, g, v, keys[k]))
  {
    seq(|keys|, k requires 0 <= k < |keys| => (keys[k], GroupSum(rows, g, v, keys[k])))
  }

  /** `groupby(g)[v].sum().reset_index()`, one entry per group (the order of the groups is not modelled). */
  function GroupTable(rows: seq<Row>, g: string, v: string): (r: seq<Entry>)
    ensures KeysDistinct(r)
    ensures forall k :: 0 <= k < |r| ==> !r[k].0.Missing? && r[k].1 == GroupSum(rows, g, v, r[k].0)
    ensures forall x: Cell :: (!x.Missing? && exists i :: 0 <= i < |rows| && Get(rows[i], g) == x) <==>
                        exists k :: 0 <= k < |r| && r[k].0 == x
  {
    var keys := GroupKeys(rows, g);
    var r := SumsFor(rows, g, v, keys);
    assert forall x :: x in keys <==> exists k :: 0 <= k < |r| && r[k].0 == x by {
      forall x | x in keys ensures exists k :: 0 <= k < |r| && r[k].0 == x {
        var k :| 0 <= k < |keys| && keys[k] == x;
        assert r[k].0 == x;
      }
    }
    r
  }

  // ---------------------------------------------------------------------
  // Sum correctness: the groups share out the keyed total.
  // ---------------------------------------------------------------------

  /** Sum of GroupSum over a list of keys. */
  function SumOverKeys(rows: seq<Row>, g: string, v: string, keys: seq<Cell>): int
  {
    if keys == [] then 0 else GroupSum(rows, g, v, keys[0]) + SumOverKeys(rows, g, v, keys[1..])
  }

  function SumEntries(s: seq<Entry>): int
  {
    if s == [] then 0 else s[0].1 + SumEntries(s[1..])
  }

  /** A row's contribution summed over distinct keys is counted once if its key is among them. */
  lemma {:induction false} SumOverKeysStep(rows: seq<Row>, g: string, v: string, keys: seq<Cell>)
    requires rows != [] && NoDups(keys)
    ensures SumOverKeys(rows, g, v, keys)
         == (if Get(rows[0], g) in keys then Measure(Get(rows[0], v)) else 0) + SumOverKeys(rows[1..], g, v, keys)
  {
    if keys != [] {
      assert NoDups(keys[1..]);
      SumOverKeysStep(rows, g, v, keys[1..]);
      assert Get(rows[0], g) in keys <==> Get(rows[0], g) == keys[0] || Get(rows[0], g) in keys[1..] by {
        assert keys == [keys[0]] + keys[1..];
      }
      assert keys[0] !in keys[1..];
    }
  }

  lemma {:induction false} SumOverKeysIsKeyedTotal(rows: seq<Row>, g: string, v: string, keys: seq<Cell>)
    requires NoDups(keys)
    requires forall x :: x in keys ==> !x.Missing?
    requires forall i :: 0 <= i < |rows| && !Get(rows[i], g).Missing? ==> Get(rows[i], g) in keys
    ensures SumOverKeys(rows, g, v, keys) == KeyedTotal(rows, g, v)
  {
    if rows == [] {
      assert SumOverKeys(rows, g, v, keys) == 0 by { SumOverKeysOfNoRows(g, v, keys); }
    } else {
      SumOverKeysStep(rows, g, v, keys);
      forall i | 0 <= i < |rows[1..]| && !Get(rows[1..][i], g).Missing? ensures Get(rows[1..][i], g) in keys {
        assert rows[1..][i] == rows[i + 1];
      }
      SumOverKeysIsKeyedTotal(rows[1..], g, v, keys);
    }
  }

  lemma {:induction false} SumOverKeysOfNoRows(g: string, v: string, keys: seq<Cell>)
    ensures SumOverKeys([], g, v, keys) == 0
  {
    if keys != [] { SumOverKeysOfNoRows(g, v, keys[1..]); }
  }

  lemma {:induction false} SumEntriesOfSums(rows: seq<Row>, g: string, v: string, keys: seq<Cell>)
    ensures SumEntries(SumsFor(rows, g, v, keys)) == SumOverKeys(rows, g, v, keys)
  {
    if keys != [] {
      assert SumsFor(rows, g, v, keys)[1..] == SumsFor(rows, g, v, keys[1..]);
      SumEntriesOfSums(rows, g, v, keys[1..]);
    }
  }

  /** The group sums add up to the measure total over the rows that have a key. */
  lemma GroupSumsAddUp(rows: seq<Row>, g: string, v: string)
    ensures SumEntries(GroupTable(rows, g, v)) == KeyedTotal(rows, g, v)
  {
    var keys := GroupKeys(rows, g);
    SumEntriesOfSums(rows, g, v, keys);
    SumOverKeysIsKeyedTotal(rows, g, v, keys);
  }

  // ---------------------------------------------------------------------
  // sort_values(ascending=False).head(n)
  // ---------------------------------------------------------------------

  function InsertDesc(e: Entry, s: seq<Entry>): (r: seq<Entry>)
    requires NonIncreasing(s)
    ensures |r| == |s| + 1
    ensures NonIncreasing(r)
    ensures multiset(r) == multiset(s) + multiset{e}
    ensures forall x :: x in r <==> x == e || x in s
  {
    if s == [] then [e]
    else if e.1 >= s[0].1 then [e] + s
    else
      var rest := InsertDesc(e, s[1..]);
      assert s == [s[0]] + s[1..];
      HeadDominates(e, s, rest);
      assert multiset([s[0]] + rest) == multiset{s[0]} + multiset(rest);
      [s[0]] + rest
  }

  /** The head of a non-increasing list is at least every entry drawn from its tail or e, when e is smaller. */
  lemma HeadDominates(e: Entry, s: seq<Entry>, rest: seq<Entry>)
    requires NonIncreasing(s) && s != [] && e.1 < s[0].1
    requires forall x :: x in rest ==> x == e || x in s[1..]
    ensures forall k :: 0 <= k < |rest| ==> s[0].1 >= rest[k].1
  {
    forall k | 0 <= k < |rest| ensures s[0].1 >= rest[k].1 {
      if rest[k] != e {
        assert rest[k] in rest;
        var j :| 0 <= j < |s[1..]| && s[1..][j] == rest[k];
        assert s[j + 1] == rest[k];
      }
    }
  }

  lemma {:induction false} InsertDescKeepsKeysDistinct(e: Entry, s: seq<Entry>)
    requires NonIncreasing(s) && KeysDistinct(s)
    requires forall k :: 0 <= k < |s| ==> s[k].0 != e.0
    ensures KeysDistinct(InsertDesc(e, s))
  {
    var r := InsertDesc(e, s);
    if s != [] && e.1 < s[0].1 {
      InsertDescKeepsKeysDistinct(e, s[1..]);
      var rest := InsertDesc(e, s[1..]);
      assert r == [s[0]] + rest;
      forall k | 0 <= k < |rest| ensures s[0].0 != rest[k].0 {
        assert rest[k] in rest;
        if rest[k] != e {
          var j :| 0 <= j < |s[1..]| && s[1..][j] == rest[k];
          assert s[j + 1] == rest[k];
        }
      }
      forall i, j | 0 <= i < j < |r| ensures r[i].0 != r[j].0 {
        assert r[j] == rest[j - 1];
        if i > 0 { assert r[i] == rest[i - 1]; }
      }
    }
  }

  /** No entry drawn from the tail of a list with distinct keys shares the key of its head. */
  lemma TailKeysDiffer(s: seq<Entry>, rest: seq<Entry>)
    requires s != [] && KeysDistinct(s)
    requires forall x :: x in rest ==> x in s[1..]
    ensures forall k :: 0 <= k < |rest| ==> rest[k].0 != s[0].0
  {
    forall k | 0 <= k < |rest| ensures rest[k].0 != s[0].0 {
      assert rest[k] in rest;
      var j :| 0 <= j < |s[1..]| && s[1..][j] == rest[k];
      assert s[j + 1] == rest[k];
    }
  }

  /** A descending sort by summed measure; which of several equal sums comes first is not promised. */
  function SortDesc(s: seq<Entry>): (r: seq<Entry>)
    ensures |r| == |s|
    ensures NonIncreasing(r)
    ensures multiset(r) == multiset(s)
    ensures forall x :: x in r <==> x in s
    ensures KeysDistinct(s) ==> KeysDistinct(r)
  {
    if s == [] then []
    else
      var rest := SortDesc(s[1..]);
      assert s == [s[0]] + s[1..];
      if KeysDistinct(s) then
        TailKeysDiffer(s, rest);
        InsertDescKeepsKeysDistinct(s[0], rest);
        InsertDesc(s[0], rest)
      else
        InsertDesc(s[0], rest)
  }

  function Min(a: nat, b: nat): nat
  {
    if a <= b then a else b
  }

  /** `sort_values(ascending=False).head(n)` */
  function TopN(entries: seq<Entry>, n: nat): seq<Entry>
  {
    SortDesc(entries)[..Min(n, |entries|)]
  }

  /**
   * r is a top-n list of entries: min(n, |entries|) of the entries with
   * distinct keys, sums non-increasing, and no entry left out has a sum
   * above any entry kept.  Nothing is said of the order among equal sums.
   */
  ghost predicate IsTopN(r: seq<Entry>, entries: seq<Entry>, n: nat)
  {
    && |r| == Min(n, |entries|)
    && KeysDistinct(r)
    && NonIncreasing(r)
    && (forall k :: 0 <= k < |r| ==> r[k] in entries)
    && (forall e, k :: e in entries && e !in r && 0 <= k < |r| ==> e.1 <= r[k].1)
  }

  /** A prefix of a sorted list with distinct keys keeps both, and outranks what it leaves behind. */
  lemma SortedPrefix(sorted: seq<Entry>, m: nat)
    requires NonIncreasing(sorted) && KeysDistinct(sorted) && m <= |sorted|
    ensures KeysDistinct(sorted[..m]) && NonIncreasing(sorted[..m])
    ensures forall e, k :: e in sorted && e !in sorted[..m] && 0 <= k < m ==> e.1 <= sorted[..m][k].1
  {
    var r := sorted[..m];
    forall e, k | e in sorted && e !in r && 0 <= k < m ensures e.1 <= r[k].1 {
      var j :| 0 <= j < |sorted| && sorted[j] == e;
      assert forall i :: 0 <= i < m ==> sorted[i] == r[i] && r[i] in r;
      assert sorted[k] == r[k];
    }
  }

  lemma TopNIsTopN(entries: seq<Entry>, n: nat)
    requires KeysDistinct(entries)
    ensures IsTopN(TopN(entries, n), entries, n)
  {
    var sorted := SortDesc(entries);
    var m := Min(n, |entries|);
    var r := sorted[..m];
    SortedPrefix(sorted, m);
    forall k | 0 <= k < |r| ensures r[k] in entries {
      assert r[k] in sorted;
    }
  }

  /** The top-10 bar (and pie) list of a dashboard. */
  function TopTen(rows: seq<Row>, g: string, v: string): seq<Entry>
  {
    TopN(GroupTable(rows, g, v), 10)
  }

  /**
   * At most 10 groups, distinct non-missing keys, non-increasing sums,
   * each sum the measure total of its group, every group left out no larger.
   */
  lemma TopTenSpec(rows: seq<Row>, g: string, v: string)
    ensures var top := TopTen(rows, g, v);
      && IsTopN(top, GroupTable(rows, g, v), 10)
      && |top| <= 10
      && (forall k :: 0 <= k < |top| ==>
            !top[k].0.Missing? && top[k].1 == GroupSum(rows, g, v, top[k].0)
            && exists i :: 0 <= i < |rows| && Get(rows[i], g) == top[k].0)
  {
    var table := GroupTable(rows, g, v);
    var top := TopTen(rows, g, v);
    TopNIsTopN(table, 10);
    forall k | 0 <= k < |top|
      ensures !top[k].0.Missing? && top[k].1 == GroupSum(rows, g, v, top[k].0)
              && exists i :: 0 <= i < |rows| && Get(rows[i], g) == top[k].0
    {
      var j :| 0 <= j < |table| && table[j] == top[k];
      assert exists m :: 0 <= m < |table| && table[m].0 == top[k].0;
    }
  }

  // ---------------------------------------------------------------------
  // The trend series over a date column.
  // ---------------------------------------------------------------------

  /** The non-missing cells of a datetime column are timestamps, which Python can sort. */
  lemma StampsOrderable(rows: seq<Row>, d: string)
    requires forall i :: 0 <= i < |rows| ==> Fits(Datetime, Get(rows[i], d))
    ensures forall x :: x in DropMissing(Column(rows, d)) ==> x.Date?
    ensures Orderable(DropMissing(Column(rows, d)))
  {
    var col := Column(rows, d);
    var stamps := DropMissing(col);
    forall x | x in stamps ensures x.Date? {
      var i :| 0 <= i < |col| && col[i] == x;
      assert Fits(Datetime, Get(rows[i], d));
    }
    forall i, j | 0 <= i < |stamps| && 0 <= j < |stamps| ensures SameClass(stamps[i], stamps[j]) {
      assert stamps[i] in stamps && stamps[j] in stamps;
    }
  }

  /** `groupby(d)[v].sum().reset_index()` over a datetime column: timestamps ascending, NaT dropped. */
  function Trend(rows: seq<Row>, d: string, v: string): (r: seq<Entry>)
    requires forall i :: 0 <= i < |rows| ==> Fits(Datetime, Get(rows[i], d))
  {
    var stamps := DropMissing(Column(rows, d));
    StampsOrderable(rows, d);
    SumsFor(rows, d, v, SortedDistinct(stamps))
  }

  /**
   * One entry per distinct timestamp of the rows, in chronological order,
   * each with the measure summed over the rows carrying that timestamp.
   */
  lemma TrendSpec(rows: seq<Row>, d: string, v: string)
    requires forall i :: 0 <= i < |rows| ==> Fits(Datetime, Get(rows[i], d))
    ensures var r := Trend(rows, d, v);
      && (forall k, m :: 0 <= k < m < |r| ==> Less(r[k].0, r[m].0))
      && (forall k :: 0 <= k < |r| ==> r[k].0.Date? && r[k].1 == GroupSum(rows, d, v, r[k].0))
      && (forall x: Cell :: x.Date? && (exists i :: 0 <= i < |rows| && Get(rows[i], d) == x) <==>
                     exists k :: 0 <= k < |r| && r[k].0 == x)
  {
    var col := Column(rows, d);
    var stamps := DropMissing(col);
    StampsOrderable(rows, d);
    var r := Trend(rows, d, v);
    var keys := SortedDistinct(stamps);
    forall x: Cell | x.Date? && (exists i :: 0 <= i < |rows| && Get(rows[i], d) == x)
      ensures exists k :: 0 <= k < |r| && r[k].0 == x
    {
      var i :| 0 <= i < |rows| && Get(rows[i], d) == x;
      assert col[i] == x && x in stamps;
      var k :| 0 <= k < |keys| && keys[k] == x;
      assert r[k].0 == x;
    }
    forall k | 0 <= k < |r| ensures r[k].0.Date? && exists i :: 0 <= i < |rows| && Get(rows[i], d) == r[k].0 {
      assert keys[k] in stamps;
      var i :| 0 <= i < |col| && col[i] == keys[k];
    }
  }
}
