/**
 * entod_current_month_dashboard.py: the same pipeline as app.py with
 * three differences: text columns are stripped before promotion, the
 * drop-downs are not capped, and the page adds a trend series, a pie of
 * the same top-10 groups and a table whose numeric columns are written
 * with two decimals.
 */
module EntodDashboard {
  import opened Wrappers
  import opened Text
  import opened Cells
  import opened Sorting
  import opened Frames
  import opened Catalogs
  import opened Filters
  import opened Aggregates
  import opened Pipeline

  const DateLabel: string := "Date for trend"

  // ---------------------------------------------------------------------
  // The strip loop.
  // ---------------------------------------------------------------------

  /** The frame after `df[col] = df[col].astype(str).str.strip()` on every `object` column. */
  function Stripped(f: Frame): Frame
  {
    RewriteEach(f, ColumnsOfKind(f, Object), Object, StripCell)
  }

  method StripObjectColumns(df: DataFrame)
    modifies df
    ensures df.Value() == Stripped(old(df.Value()))
  {
    var cols := ColumnsOfKind(df.Value(), Object);
    RewriteColumns(df, cols, Object, StripCell);
  }

  /** Stripping keeps the frame well formed and every dtype: the rewritten columns were `object` already. */
  lemma StrippedWellFormed(f: Frame)
    requires WellFormed(f)
    ensures WellFormed(Stripped(f))
    ensures Stripped(f).dtypes == f.dtypes
  {
    var cols := ColumnsOfKind(f, Object);
    var r := Stripped(f);
    RewriteEachWellFormed(f, cols, Object, StripCell);
    RewriteEachSpec(f, cols, Object, StripCell);
    assert r.dtypes.Keys == f.dtypes.Keys;
    forall c | c in r.dtypes ensures r.dtypes[c] == f.dtypes[c] { }
  }

  /**
   * Each `object` column of the stripped frame holds the stripped string
   * of the original cell, with no surrounding whitespace, a missing cell
   * becoming the string "nan"; every other column is unchanged.
   */
  lemma StrippedCells(f: Frame)
    requires NoDups(f.columns)
    ensures var r := Stripped(f);
      && (forall i, c :: 0 <= i < |f.rows| && c in ColumnsOfKind(f, Object) ==>
            var x := Get(r.rows[i], c);
            x.Text? && Trimmed(x.s) && x == StripCell(Get(f.rows[i], c))
            && (Get(f.rows[i], c).Missing? ==> x == Text("nan")))
      && (forall i, c :: 0 <= i < |f.rows| && c !in ColumnsOfKind(f, Object) ==> Get(r.rows[i], c) == Get(f.rows[i], c))
  {
    var cols := ColumnsOfKind(f, Object);
    var r := Stripped(f);
    RewriteEachSpec(f, cols, Object, StripCell);
    assert RewrittenFrom(r, f, cols, Object, StripCell);
    forall i, c | 0 <= i < |f.rows| && c in cols
      ensures Get(r.rows[i], c) == StripCell(Get(f.rows[i], c))
    {
    }
  }

  /** `astype(str).str.strip()` turns NaN into the string "nan". */
  lemma StripMissing()
    ensures StripCell(Missing) == Text("nan")
  {
    TrimStartOfTrimmed("nan");
    TrimEndOfTrimmed("nan");
  }

  /** One stripped `object` column: strings only, "nan" where the cell was missing. */
  lemma StrippedTextColumn(f: Frame, c: string)
    requires NoDups(f.columns) && c in ColumnsOfKind(f, Object)
    ensures forall i :: 0 <= i < |f.rows| ==> Get(Stripped(f).rows[i], c).Text?
    ensures forall i :: 0 <= i < |f.rows| && Get(f.rows[i], c).Missing? ==> Get(Stripped(f).rows[i], c) == Text("nan")
  {
    var cols := ColumnsOfKind(f, Object);
    var r := Stripped(f);
    RewriteEachSpec(f, cols, Object, StripCell);
    assert RewrittenFrom(r, f, cols, Object, StripCell);
    StripMissing();
    forall i | 0 <= i < |f.rows| ensures Get(r.rows[i], c) == StripCell(Get(f.rows[i], c)) {
      assert c in cols;
    }
  }

  /** Stripping a stripped frame changes nothing. */
  lemma StripTwiceIsStripOnce(f: Frame)
    requires WellFormed(f)
    ensures Stripped(Stripped(f)) == Stripped(f)
  {
    var cols := ColumnsOfKind(f, Object);
    StrippedWellFormed(f);
    assert ColumnsOfKind(Stripped(f), Object) == cols;
    forall x ensures StripCell(StripCell(x)) == StripCell(x) {
      StripCellIdempotent(x);
    }
    RewriteEachIdempotent(f, cols, Object, StripCell);
  }

  /**
   * After stripping, a missing cell of an `object` column is the string
   * "nan", so `dropna` keeps it and the column's drop-down lists it.
   */
  lemma StrippedMissingIsListed(f: Frame, c: string, i: nat)
    requires WellFormed(f)
    requires c in ColumnsOfKind(f, Object) && i < |f.rows| && Get(f.rows[i], c).Missing?
    ensures Options(Stripped(f), c, None).Success?
    ensures Text("nan") in Options(Stripped(f), c, None).value[1..]
  {
    var r := Stripped(f);
    StrippedWellFormed(f);
    StrippedTextColumn(f, c);
    var col := Column(r.rows, c);
    assert !IsDateColumn(r, c);
    TextCatalogComplete(col);
    assert col[i] == Text("nan");
  }

  /** A stripped column that the promotion loop does not convert reaches the page unchanged. */
  lemma UnpromotedColumnKept(f: Frame, toDt: DateParser, c: string)
    requires WellFormed(f) && c in ColumnsOfKind(f, Object)
    requires !Promotes(Stripped(f), c, toDt)
    ensures c in Prepared(f, toDt).dtypes && Prepared(f, toDt).dtypes[c] == Object
    ensures Column(Prepared(f, toDt).rows, c) == Column(Stripped(f).rows, c)
  {
    var s := Stripped(f);
    StrippedWellFormed(f);
    PromotionSpec(s, toDt);
    assert c in s.columns;
  }

  /**
   * The same on the page's own table: when the promotion loop leaves the
   * stripped column as text, a missing cell is listed as "nan" in the
   * drop-down built after promotion.
   */
  lemma PreparedMissingIsListed(f: Frame, toDt: DateParser, c: string, i: nat)
    requires WellFormed(f)
    requires c in ColumnsOfKind(f, Object) && i < |f.rows| && Get(f.rows[i], c).Missing?
    requires !Promotes(Stripped(f), c, toDt)
    ensures Options(Prepared(f, toDt), c, None).Success?
    ensures Text("nan") in Options(Prepared(f, toDt), c, None).value[1..]
  {
    var p := Prepared(f, toDt);
    UnpromotedColumnKept(f, toDt, c);
    StrippedTextColumn(f, c);
    var col := Column(Stripped(f).rows, c);
    assert !IsDateColumn(p, c);
    assert Options(p, c, None) == Catalog(col, false, None);
    TextCatalogComplete(col);
    assert col[i] == Text("nan");
  }

  // ---------------------------------------------------------------------
  // The export table.
  // ---------------------------------------------------------------------

  /** `formatted_df`: numeric columns written with `f"{x:.2f}"`, which makes them `object` columns. */
  function Formatted(f: Frame): Frame
  {
    RewriteEach(f, ColumnsOfKind(f, Number), Object, FormatNumber)
  }

  method FormatNumberColumns(df: DataFrame)
    modifies df
    ensures df.Value() == Formatted(old(df.Value()))
  {
    var cols := ColumnsOfKind(df.Value(), Number);
    RewriteColumns(df, cols, Object, FormatNumber);
  }

  /**
   * The export table has the columns and rows of the filtered table; each
   * numeric column becomes text holding its value with two decimals (read
   * back as a number of hundredths it is the original value), and every
   * other column is unchanged.
   */
  lemma ExportSpec(f: Frame)
    requires WellFormed(f)
    ensures var r := Formatted(f);
      && WellFormed(r)
      && r.columns == f.columns && |r.rows| == |f.rows|
      && (forall c :: c in f.dtypes ==> r.dtypes[c] == if f.dtypes[c] == Number then Object else f.dtypes[c])
      && (forall i, c :: 0 <= i < |f.rows| && c in ColumnsOfKind(f, Number) ==>
            var x := Get(r.rows[i], c);
            && x == FormatNumber(Get(f.rows[i], c))
            && (Get(f.rows[i], c).Num? ==> ParseHundredths(x.s) == Some(100 * Get(f.rows[i], c).n)))
      && (forall i, c :: 0 <= i < |f.rows| && c !in ColumnsOfKind(f, Number) ==> Get(r.rows[i], c) == Get(f.rows[i], c))
  {
    var cols := ColumnsOfKind(f, Number);
    RewriteEachSpec(f, cols, Object, FormatNumber);
    RewriteEachWellFormed(f, cols, Object, FormatNumber);
    forall i, c | 0 <= i < |f.rows| && c in cols && Get(f.rows[i], c).Num?
      ensures ParseHundredths(FormatNumber(Get(f.rows[i], c)).s) == Some(100 * Get(f.rows[i], c).n)
    {
      FormatNumberRoundTrip(Get(f.rows[i], c).n);
    }
  }

  // ---------------------------------------------------------------------
  // The page.
  // ---------------------------------------------------------------------

  datatype EntodView = EntodView(
    filtered: seq<Row>,             // `filtered_df`
    rowCount: nat,                  // the "Rows" figure
    sum: Option<int>,               // the "Sum" figure, shown when value_col is truthy
    bar: Option<seq<Entry>>,        // the top-10 bar chart
    trend: Option<seq<Entry>>,      // the trend line, drawn when there is a date column and value_col is truthy
    pie: Option<seq<Entry>>,        // the top-10 pie chart
    table: Frame)                   // `formatted_df`, shown and offered for download

  /** The figures, charts and export table for the filtered frame and the chosen columns. */
  function View(filtered: Frame, valueCol: Option<string>, groupCol: Option<string>, dateCol: Option<string>): EntodView
    requires DatesFit(filtered.rows, dateCol)
  {
    var rows := filtered.rows;
    var charts := Truthy(groupCol) && Truthy(valueCol);
    EntodView(
      rows,
      |rows|,
      if Truthy(valueCol) then Some(Total(rows, valueCol.value)) else None,
      if charts then Some(TopTen(rows, groupCol.value, valueCol.value)) else None,
      if dateCol.Some? && Truthy(valueCol) then Some(Trend(rows, dateCol.value, valueCol.value)) else None,
      if charts then Some(TopTen(rows, groupCol.value, valueCol.value)) else None,
      Formatted(filtered))
  }

  /** The frame a dashboard works on: the loaded table, stripped, then promoted. */
  function Prepared(source: Frame, toDt: DateParser): Frame
  {
    Promoted(Stripped(source), toDt)
  }

  /** Stripping and promotion keep a well-formed table well formed. */
  lemma PreparedWellFormed(source: Frame, toDt: DateParser)
    requires WellFormed(source)
    ensures WellFormed(Prepared(source, toDt))
  {
    StrippedWellFormed(source);
    PromotionSpec(Stripped(source), toDt);
  }

  /** The date column chosen for the trend, when the frame has any. */
  function TrendColumn(f: Frame, sb: Selectbox): (r: Option<string>)
    ensures r.None? <==> ColumnsOfKind(f, Datetime) == []
    ensures r.Some? ==> IsDateColumn(f, r.value)
  {
    ChooseColumn(sb, DateLabel, ColumnsOfKind(f, Datetime))
  }

  /** The column d, when there is one, holds a timestamp or NaT in every row. */
  predicate DatesFit(rows: seq<Row>, d: Option<string>)
  {
    d.Some? ==> forall i :: 0 <= i < |rows| ==> Fits(Datetime, Get(rows[i], d.value))
  }

  /** A date column of a well-formed frame holds timestamps or NaT, and so it does in the rows a filter selects. */
  lemma DateColumnsFit(f: Frame, ks: seq<Constraint>, d: Option<string>)
    requires WellFormed(f)
    requires d.Some? ==> IsDateColumn(f, d.value)
    ensures DatesFit(Select(f.rows, ks), d)
  {
    var rows := Select(f.rows, ks);
    SelectedRowsMatch(f.rows, ks);
    forall i | d.Some? && 0 <= i < |rows| ensures Fits(Datetime, Get(rows[i], d.value)) {
      assert rows[i] in f.rows;
      var j :| 0 <= j < |f.rows| && f.rows[j] == rows[i];
    }
  }

  /** The page for the loaded table, the date parser and the user's widget choices. */
  function EntodSpec(source: Frame, toDt: DateParser, ms: Multiselect, sb: Selectbox): Result<EntodView, CatalogError>
    requires WellFormed(source)
  {
    var f := Prepared(source, toDt);
    match Selections(f, f.columns, ms, None)
    case Failure(e) => Failure(e)
    case Success(ks) =>
      var rows := Select(f.rows, ks);
      PreparedWellFormed(source, toDt);
      DateColumnsFit(f, ks, TrendColumn(f, sb));
      Success(View(Frame(f.columns, f.dtypes, rows), ValueColumn(f, sb), GroupColumn(f, sb), TrendColumn(f, sb)))
  }

  /** The script from the loaded DataFrame on. */
  method EntodPage(df: DataFrame, toDt: DateParser, ms: Multiselect, sb: Selectbox) returns (r: Result<EntodView, CatalogError>)
    requires df.Valid()
    modifies df
    ensures df.Value() == Prepared(old(df.Value()), toDt)
    ensures r == EntodSpec(old(df.Value()), toDt, ms, sb)
  {
    ghost var source := df.Value();
    StripObjectColumns(df);
    PromoteDatetimeColumns(df, toDt);
    var filterValues := BuildFilterValues(df, ms, None);
    if filterValues.Failure? {
      return Failure(filterValues.error);
    }
    var filtered := ApplyFilters(df.rows, filterValues.value);
    var valueCol := ValueColumn(df.Value(), sb);
    var groupCol := GroupColumn(df.Value(), sb);
    var dateCol := TrendColumn(df.Value(), sb);
    PreparedWellFormed(source, toDt);
    DateColumnsFit(df.Value(), filterValues.value, dateCol);
    var formatted := new DataFrame(Frame(df.columns, df.dtypes, filtered));
    FormatNumberColumns(formatted);
    r := Success(View(Frame(df.columns, df.dtypes, filtered), valueCol, groupCol, dateCol));
    assert r.value.table == formatted.Value();
  }

  /** The page fails only when some column's values cannot be sorted; each drop-down then lists every distinct value. */
  lemma EntodDropDowns(source: Frame, toDt: DateParser, ms: Multiselect, sb: Selectbox)
    requires WellFormed(source)
    ensures var f := Prepared(source, toDt);
      EntodSpec(source, toDt, ms, sb).Success? <==> forall c :: c in f.columns ==> Options(f, c, None).Success?
    ensures var f := Prepared(source, toDt);
      forall c :: c in f.columns && Options(f, c, None).Success? ==>
        var values := OptionValues(Column(f.rows, c), IsDateColumn(f, c));
        var options := Options(f, c, None).value;
        && |options| == |set x | x in values| + 1
        && forall x :: x in values ==> x in options[1..]
  {
    var f := Prepared(source, toDt);
    SelectionsSucceed(f, ms, None);
    forall c | c in f.columns && Options(f, c, None).Success?
      ensures var values := OptionValues(Column(f.rows, c), IsDateColumn(f, c));
        var options := Options(f, c, None).value;
        && |options| == |set x | x in values| + 1
        && forall x :: x in values ==> x in options[1..]
    {
      UncappedCatalogComplete(Column(f.rows, c), IsDateColumn(f, c));
    }
  }

  /**
   * The figures and charts for a filtered frame: Rows counts its rows; Sum
   * totals the value column; the bar and pie charts show the same top ten
   * groups; the trend has one point per timestamp of the date column, in
   * time order, each the value summed over the rows at that timestamp.
   */
  lemma ViewSpec(filtered: Frame, v: Option<string>, g: Option<string>, d: Option<string>)
    requires DatesFit(filtered.rows, d)
    ensures
      var view := View(filtered, v, g, d);
      && view.filtered == filtered.rows
      && view.rowCount == |filtered.rows|
      && (view.sum.Some? <==> Truthy(v))
      && (view.sum.Some? ==> view.sum.value == Total(filtered.rows, v.value))
      && view.bar == view.pie
      && (view.bar.Some? <==> Truthy(v) && Truthy(g))
      && (view.bar.Some? ==> IsTopN(view.bar.value, GroupTable(filtered.rows, g.value, v.value), 10))
      && (view.trend.Some? <==> d.Some? && Truthy(v))
      && (view.trend.Some? ==>
            && (forall k, m :: 0 <= k < m < |view.trend.value| ==> Less(view.trend.value[k].0, view.trend.value[m].0))
            && (forall k :: 0 <= k < |view.trend.value| ==>
                  view.trend.value[k].1 == GroupSum(filtered.rows, d.value, v.value, view.trend.value[k].0))
            && (forall x: Cell :: x.Date? && (exists i :: 0 <= i < |filtered.rows| && Get(filtered.rows[i], d.value) == x) <==>
                  exists k :: 0 <= k < |view.trend.value| && view.trend.value[k].0 == x))
      && view.table == Formatted(filtered)
  {
    var view := View(filtered, v, g, d);
    if view.bar.Some? {
      TopTenSpec(filtered.rows, g.value, v.value);
    }
    if view.trend.Some? {
      TrendSpec(filtered.rows, d.value, v.value);
    }
  }

  /**
   * The page shows the prepared frame's rows that pass every selection, in
   * order, with the figures and charts of ViewSpec for the chosen columns;
   * the chosen trend column is a date column.
   */
  lemma EntodPageSpec(source: Frame, toDt: DateParser, ms: Multiselect, sb: Selectbox)
    requires WellFormed(source)
    requires EntodSpec(source, toDt, ms, sb).Success?
    ensures
      var f := Prepared(source, toDt);
      var ks := Selections(f, f.columns, ms, None).value;
      var filtered := Frame(f.columns, f.dtypes, Select(f.rows, ks));
      var d := TrendColumn(f, sb);
      && (d.Some? ==> IsDateColumn(f, d.value))
      && DatesFit(filtered.rows, d)
      && EntodSpec(source, toDt, ms, sb).value == View(filtered, ValueColumn(f, sb), GroupColumn(f, sb), d)
  {
    var f := Prepared(source, toDt);
    PreparedWellFormed(source, toDt);
    var ks := Selections(f, f.columns, ms, None).value;
    DateColumnsFit(f, ks, TrendColumn(f, sb));
  }
}
