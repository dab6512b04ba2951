/**
 * The drop-down of one column ("ALL" followed by the sorted distinct
 * values, optionally capped) and the conversion of the user's picks into
 * the filter selection for that column.
 */
module Catalogs {
  import opened Wrappers
  import opened Text
  import opened Calendar
  import opened Cells
  import opened Sorting

  /** `sorted` raised TypeError: the values mix strings with numbers or NaN. */
  datatype CatalogError = Unorderable

  /** `Series.dt.strftime('%Y-%m-%d')` on one cell: NaT becomes NaN. */
  function DayText(c: Cell): (r: Cell)
    ensures r.Missing? || (r.Text? && IsDayLabel(r.s))
    ensures r.Text? <==> c.Date?
    ensures c.Date? ==> ParseDayLabel(r.s) == Some(c.day)
  {
    if c.Date? then DayLabelRoundTrip(c.day); Text(DayLabel(c.day)) else Missing
  }

  /** `Series.dropna()` on a list of cells. */
  function DropMissing(cells: seq<Cell>): (r: seq<Cell>)
    ensures forall x :: x in r <==> x in cells && !x.Missing?
  {
    if cells == [] then []
    else
      assert forall x :: x in cells <==> x == cells[0] || x in cells[1..] by {
        assert cells == [cells[0]] + cells[1..];
      }
      (if cells[0].Missing? then [] else [cells[0]]) + DropMissing(cells[1..])
  }

  /** The values whose distinct set is listed: day labels for a date column, non-missing cells otherwise. */
  function OptionValues(cells: seq<Cell>, isDate: bool): seq<Cell>
  {
    if isDate then MapDayText(cells) else DropMissing(cells)
  }

  function MapDayText(cells: seq<Cell>): (r: seq<Cell>)
    ensures |r| == |cells|
    ensures forall i :: 0 <= i < |cells| ==> r[i] == DayText(cells[i])
  {
    seq(|cells|, i requires 0 <= i < |cells| => DayText(cells[i]))
  }

  /** `options[:cap]`, or the whole list when there is no cap. */
  function Truncate(s: seq<Cell>, cap: Option<nat>): (r: seq<Cell>)
    ensures cap.None? ==> r == s
    ensures cap.Some? ==> r == s[..if |s| <= cap.value then |s| else cap.value]
  {
    if cap.Some? && |s| > cap.value then s[..cap.value] else s
  }

  /**
   * `["ALL"] + sorted(values.unique())[:cap]`.  Fails exactly when `sorted`
   * would raise; otherwise "ALL" comes first, then values of the column in
   * strictly ascending order, at most `cap` of them.
   */
  function Catalog(cells: seq<Cell>, isDate: bool, cap: Option<nat>): (r: Result<seq<Cell>, CatalogError>)
    ensures r.Success? <==> Orderable(OptionValues(cells, isDate))
    ensures r.Success? ==> |r.value| >= 1 && r.value[0] == All
    ensures r.Success? ==> Ascending(r.value[1..])
    ensures r.Success? ==> forall x :: x in r.value[1..] ==> x in OptionValues(cells, isDate)
    ensures r.Success? && cap.Some? ==> |r.value| <= cap.value + 1
  {
    var values := OptionValues(cells, isDate);
    if !Orderable(values) then Failure(Unorderable)
    else
      var sorted := SortedDistinct(values);
      var kept := Truncate(sorted, cap);
      assert [All] + kept == [All] + kept && ([All] + kept)[1..] == kept;
      assert forall x :: x in kept ==> x in sorted;
      Success([All] + kept)
  }

  /**
   * Without a cap the catalog lists every distinct value once: its size is
   * the number of distinct values plus one.
   */
  lemma UncappedCatalogComplete(cells: seq<Cell>, isDate: bool)
    requires Catalog(cells, isDate, None).Success?
    ensures var r := Catalog(cells, isDate, None).value;
      && (forall x :: x in OptionValues(cells, isDate) ==> x in r[1..])
      && |r| == |set x | x in OptionValues(cells, isDate)| + 1
  {
    var values := OptionValues(cells, isDate);
    var r := Catalog(cells, isDate, None).value;
    assert r[1..] == SortedDistinct(values);
    SortedDistinctCount(values);
  }

  /**
   * With a cap the catalog keeps the smallest values: it lists
   * min(cap, distinct count) of them, and every value left out is greater
   * than every value kept.
   */
  lemma CappedCatalogKeepsSmallest(cells: seq<Cell>, isDate: bool, cap: nat)
    requires Catalog(cells, isDate, Some(cap)).Success?
    ensures var r := Catalog(cells, isDate, Some(cap)).value;
      var distinct := |set x | x in OptionValues(cells, isDate)|;
      && |r| == (if distinct <= cap then distinct else cap) + 1
      && (forall x, k :: x in OptionValues(cells, isDate) && x !in r[1..] && 1 <= k < |r| ==> Less(r[k], x))
  {
    var values := OptionValues(cells, isDate);
    var r := Catalog(cells, isDate, Some(cap)).value;
    var sorted := SortedDistinct(values);
    SortedDistinctCount(values);
    var n := if |sorted| <= cap then |sorted| else cap;
    assert r[1..] == sorted[..n];
    forall x, k | x in values && x !in r[1..] && 1 <= k < |r|
      ensures Less(r[k], x)
    {
      var j :| 0 <= j < |sorted| && sorted[j] == x;
      assert j >= n;
      assert r[k] == sorted[k - 1];
    }
  }

  /** A column of strings can always be sorted, and its catalog lists every one of them. */
  lemma TextCatalogComplete(cells: seq<Cell>)
    requires forall i :: 0 <= i < |cells| ==> cells[i].Text?
    ensures Catalog(cells, false, None).Success?
    ensures forall i :: 0 <= i < |cells| ==> cells[i] in Catalog(cells, false, None).value[1..]
  {
    var values := DropMissing(cells);
    forall a, b | 0 <= a < |values| && 0 <= b < |values| ensures SameClass(values[a], values[b]) {
      assert values[a] in values && values[b] in values;
    }
    UncappedCatalogComplete(cells, false);
    forall i | 0 <= i < |cells| ensures cells[i] in values {
      assert cells[i] in cells;
    }
  }

  /** A catalog of a column that is not a date column never lists a missing value. */
  lemma ValueCatalogHasNoMissing(cells: seq<Cell>, cap: Option<nat>)
    requires Catalog(cells, false, cap).Success?
    ensures forall k :: 1 <= k < |Catalog(cells, false, cap).value| ==> !Catalog(cells, false, cap).value[k].Missing?
  {
    var r := Catalog(cells, false, cap).value;
    forall k | 1 <= k < |r| ensures !r[k].Missing? {
      assert r[k] in r[1..];
    }
  }

  /**
   * The catalog of a date column lists the labels of days that occur in the
   * column, in chronological order; a column holding only NaT lists NaN.
   */
  lemma DateCatalogIsChronological(cells: seq<Cell>, cap: Option<nat>)
    requires Catalog(cells, true, cap).Success?
    ensures var r := Catalog(cells, true, cap).value;
      && (forall k :: 1 <= k < |r| ==>
            r[k].Missing? || (r[k].Text? && exists i :: 0 <= i < |cells| && cells[i].Date? && r[k].s == DayLabel(cells[i].day)))
      && (forall k, m :: 1 <= k < m < |r| ==>
            r[k].Text? && r[m].Text? && ParseDayLabel(r[k].s).Some? && ParseDayLabel(r[m].s).Some?
            && DayBefore(ParseDayLabel(r[k].s).value, ParseDayLabel(r[m].s).value))
  {
    DateCatalogEntriesAreDays(cells, cap);
    DateCatalogInOrder(cells, cap);
  }

  lemma DateCatalogEntriesAreDays(cells: seq<Cell>, cap: Option<nat>)
    requires Catalog(cells, true, cap).Success?
    ensures var r := Catalog(cells, true, cap).value;
      forall k :: 1 <= k < |r| ==>
        r[k].Missing? || (r[k].Text? && exists i :: 0 <= i < |cells| && cells[i].Date? && r[k].s == DayLabel(cells[i].day))
  {
    var values := OptionValues(cells, true);
    var r := Catalog(cells, true, cap).value;
    forall k | 1 <= k < |r|
      ensures r[k].Missing? || (r[k].Text? && exists i :: 0 <= i < |cells| && cells[i].Date? && r[k].s == DayLabel(cells[i].day))
    {
      assert r[k] in r[1..];
      var i :| 0 <= i < |values| && values[i] == r[k];
      assert values[i] == DayText(cells[i]);
    }
  }

  lemma DateCatalogInOrder(cells: seq<Cell>, cap: Option<nat>)
    requires Catalog(cells, true, cap).Success?
    ensures var r := Catalog(cells, true, cap).value;
      forall k, m :: 1 <= k < m < |r| ==>
        r[k].Text? && r[m].Text? && ParseDayLabel(r[k].s).Some? && ParseDayLabel(r[m].s).Some?
        && DayBefore(ParseDayLabel(r[k].s).value, ParseDayLabel(r[m].s).value)
  {
    var r := Catalog(cells, true, cap).value;
    forall k, m | 1 <= k < m < |r|
      ensures r[k].Text? && r[m].Text? && ParseDayLabel(r[k].s).Some? && ParseDayLabel(r[m].s).Some?
              && DayBefore(ParseDayLabel(r[k].s).value, ParseDayLabel(r[m].s).value)
    {
      assert r[1..][k - 1] == r[k] && r[1..][m - 1] == r[m];
      assert r[k] in r[1..] && r[m] in r[1..];
      assert Less(r[1..][k - 1], r[1..][m - 1]);
      assert r[k] in MapDayText(cells) && r[m] in MapDayText(cells);
      DayLabelsOrdered(cells, r[k], r[m]);
    }
  }

  /** Two day labels of a date column that sort one before the other name days in that order. */
  lemma DayLabelsOrdered(cells: seq<Cell>, x: Cell, y: Cell)
    requires x in MapDayText(cells) && y in MapDayText(cells) && Less(x, y)
    ensures x.Text? && y.Text? && ParseDayLabel(x.s).Some? && ParseDayLabel(y.s).Some?
    ensures DayBefore(ParseDayLabel(x.s).value, ParseDayLabel(y.s).value)
  {
    var values := MapDayText(cells);
    var i :| 0 <= i < |values| && values[i] == x;
    var j :| 0 <= j < |values| && values[j] == y;
    var a, b := cells[i].day, cells[j].day;
    DayLabelRoundTrip(a);
    DayLabelRoundTrip(b);
    DayLabelOrder(a, b);
  }

  // ---------------------------------------------------------------------
  // From picks to a filter selection.
  // ---------------------------------------------------------------------

  /** What a date column's drop-down can return: "ALL", NaN, or a day label. */
  predicate DatePick(p: Cell)
  {
    p == All || p.Missing? || (p.Text? && IsDayLabel(p.s))
  }

  /** Every entry of a date column's catalog is a DatePick. */
  lemma DateCatalogEntriesArePicks(cells: seq<Cell>, cap: Option<nat>)
    requires Catalog(cells, true, cap).Success?
    ensures forall k :: 0 <= k < |Catalog(cells, true, cap).value| ==> DatePick(Catalog(cells, true, cap).value[k])
  {
    var values := OptionValues(cells, true);
    var r := Catalog(cells, true, cap).value;
    forall k | 1 <= k < |r| ensures DatePick(r[k]) {
      assert r[k] in r[1..];
      var i :| 0 <= i < |values| && values[i] == r[k];
    }
  }

  /** `pd.to_datetime(pick)`: a day label becomes midnight of that day, NaN becomes NaT. */
  function PickStamp(p: Cell): (r: Cell)
    requires DatePick(p) && p != All
    ensures p.Missing? ==> r.Missing?
    ensures p.Text? ==> r.Date? && r.second == 0 && p.s == DayLabel(r.day)
  {
    if p.Text? then Midnight(ParseDayLabel(p.s).value) else Missing
  }

  /**
   * The selection for one column: "ALL" among the picks means no
   * constraint; otherwise the picks themselves (turned into midnight
   * timestamps for a date column), the empty list included.
   */
  function Normalize(picked: seq<Cell>, isDate: bool): (r: Option<seq<Cell>>)
    requires isDate ==> forall k :: 0 <= k < |picked| ==> DatePick(picked[k])
    ensures r.None? <==> All in picked
    ensures r.Some? && !isDate ==> r.value == picked
    ensures r.Some? && isDate ==> |r.value| == |picked|
    ensures r.Some? && isDate ==> forall k :: 0 <= k < |picked| ==> r.value[k] == PickStamp(picked[k])
  {
    if All in picked then None
    else if !isDate then Some(picked)
    else Some(seq(|picked|, k requires 0 <= k < |picked| => PickStamp(picked[k])))
  }
}
