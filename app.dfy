/**
 * app.py: the one-screen dashboard.  It promotes date columns, offers a
 * drop-down of at most MAX_UNIQUE values per column, filters, and shows
 * the Rows and Sum figures and the top-10 groups by summed value.
 */
module AppDashboard {
  import opened Wrappers
  import opened Cells
  import opened Frames
  import opened Catalogs
  import opened Filters
  import opened Aggregates
  import opened Pipeline

  /** Largest number of values a drop-down lists after "ALL". */
  const MAX_UNIQUE: nat := 100

  /** What the page shows once the filters are applied. */
  datatype AppView = AppView(
    filtered: seq<Row>,             // `filtered_df`: the table shown and offered for download
    rowCount: nat,                  // the "Rows" figure
    sum: Option<int>,               // the "Sum" figure, shown when value_col is truthy
    top: Option<seq<Entry>>)        // the bars of the top-10 chart, drawn when both columns are truthy

  /** The figures and chart of the page for the filtered rows and the chosen columns. */
  function View(filtered: seq<Row>, valueCol: Option<string>, groupCol: Option<string>): AppView
  {
    AppView(
      filtered,
      |filtered|,
      if Truthy(valueCol) then Some(Total(filtered, valueCol.value)) else None,
      if Truthy(groupCol) && Truthy(valueCol) then Some(TopTen(filtered, groupCol.value, valueCol.value)) else None)
  }

  /** The page for the table read from the file, the date parser and the user's widget choices. */
  function AppSpec(source: Frame, toDt: DateParser, ms: Multiselect, sb: Selectbox): Result<AppView, CatalogError>
  {
    var f := Promoted(source, toDt);
    match Selections(f, f.columns, ms, Some(MAX_UNIQUE))
    case Failure(e) => Failure(e)
    case Success(ks) =>
      Success(View(Select(f.rows, ks), ValueColumn(f, sb), GroupColumn(f, sb)))
  }

  /** The script from the loaded DataFrame on: promotion, drop-downs, filters, figures, chart. */
  method AppPage(df: DataFrame, toDt: DateParser, ms: Multiselect, sb: Selectbox) returns (r: Result<AppView, CatalogError>)
    modifies df
    ensures df.Value() == Promoted(old(df.Value()), toDt)
    ensures r == AppSpec(old(df.Value()), toDt, ms, sb)
  {
    PromoteDatetimeColumns(df, toDt);
    var filterValues := BuildFilterValues(df, ms, Some(MAX_UNIQUE));
    if filterValues.Failure? {
      return Failure(filterValues.error);
    }
    var filtered := ApplyFilters(df.rows, filterValues.value);
    var valueCol := ValueColumn(df.Value(), sb);
    var groupCol := GroupColumn(df.Value(), sb);
    r := Success(View(filtered, valueCol, groupCol));
  }

  /** The page fails only when the values of some column cannot be sorted for its drop-down. */
  lemma AppPageFailsOnlyOnUnsortable(source: Frame, toDt: DateParser, ms: Multiselect, sb: Selectbox)
    ensures var f := Promoted(source, toDt);
      AppSpec(source, toDt, ms, sb).Success? <==>
        forall c :: c in f.columns ==> Options(f, c, Some(MAX_UNIQUE)).Success?
  {
    var f := Promoted(source, toDt);
    SelectionsSucceed(f, ms, Some(MAX_UNIQUE));
  }

  /**
   * What the page shows: the table is the rows of the promoted frame that
   * pass every selection, in their original order; Rows counts them; Sum
   * totals the chosen numeric column over them; the chart lists at most
   * ten groups of the chosen text column (one the promotion left as text),
   * by non-increasing sum, each with its exact total, no group left out
   * having a larger sum.
   */
  lemma AppPageSpec(source: Frame, toDt: DateParser, ms: Multiselect, sb: Selectbox)
    requires WellFormed(source)
    requires AppSpec(source, toDt, ms, sb).Success?
    ensures
      var f := Promoted(source, toDt);
      var view := AppSpec(source, toDt, ms, sb).value;
      var ks := Selections(f, f.columns, ms, Some(MAX_UNIQUE)).value;
      var v, g := ValueColumn(f, sb), GroupColumn(f, sb);
      && view.filtered == Select(f.rows, ks)
      && view.rowCount == |view.filtered|
      && (view.sum.Some? <==> Truthy(v))
      && (view.sum.Some? ==> v.value in ColumnsOfKind(f, Number) && view.sum.value == Total(view.filtered, v.value))
      && (view.top.Some? <==> Truthy(v) && Truthy(g))
      && (view.top.Some? ==>
            && g.value in ColumnsOfKind(source, Object) && !Promotes(source, g.value, toDt)
            && IsTopN(view.top.value, GroupTable(view.filtered, g.value, v.value), 10)
            && forall k :: 0 <= k < |view.top.value| ==>
                 view.top.value[k].1 == GroupSum(view.filtered, g.value, v.value, view.top.value[k].0))
  {
    var f := Promoted(source, toDt);
    var view := AppSpec(source, toDt, ms, sb).value;
    var ks := Selections(f, f.columns, ms, Some(MAX_UNIQUE)).value;
    var v, g := ValueColumn(f, sb), GroupColumn(f, sb);
    assert view == View(Select(f.rows, ks), v, g);
    if view.top.Some? {
      TopTenSpec(view.filtered, g.value, v.value);
      PromotionSpec(source, toDt);
    }
  }
}
