/**
 * The part of the page script both dashboards share: promoting text
 * columns to dates, building one drop-down per column and turning the
 * user's picks into `filter_values`.
 */
module Pipeline {
  import opened Wrappers
  import opened Calendar
  import opened Cells
  import opened Sorting
  import opened Frames
  import opened Catalogs
  import opened Filters

  // ---------------------------------------------------------------------
  // Promotion of text columns to datetime64.
  // `pd.to_datetime` is a parameter: it maps one cell to a timestamp or
  // NaT, or to None when the cell cannot be read as a date (the call on
  // the whole column then raises and the column is left alone).
  // ---------------------------------------------------------------------

  type DateParser = Cell -> Option<Parsed>

  /** `pd.to_datetime(df[col])` on a whole column: every cell parses, or the call raises. */
  function ParseColumn(toDt: DateParser, cells: seq<Cell>): (r: Option<seq<Cell>>)
    ensures r.Some? <==> forall i :: 0 <= i < |cells| ==> toDt(cells[i]).Some?
    ensures r.Some? ==> |r.value| == |cells|
    ensures r.Some? ==> forall i :: 0 <= i < |cells| ==> Fits(Datetime, r.value[i]) && r.value[i] == ToDatetime(toDt)(cells[i])
  {
    if forall i :: 0 <= i < |cells| ==> toDt(cells[i]).Some?
    then Some(MapCells(cells, ToDatetime(toDt)))
    else None
  }

  /** One cell after a successful column conversion (a cell that does not parse becomes NaT). */
  function ToDatetime(toDt: DateParser): (h: Cell -> Cell)
    ensures forall x :: h(x) == DatetimeOf(toDt, x) && Fits(Datetime, h(x))
  {
    x => DatetimeOf(toDt, x)
  }

  function DatetimeOf(toDt: DateParser, x: Cell): (c: Cell)
    ensures Fits(Datetime, c)
  {
    if toDt(x).Some? then ParsedCell(toDt(x).value) else Missing
  }

  /** Column c of f is an `object` column whose every cell parses as a date. */
  predicate Promotes(f: Frame, c: string, toDt: DateParser)
  {
    && c in f.dtypes && f.dtypes[c] == Object
    && forall i :: 0 <= i < |f.rows| ==> toDt(Get(f.rows[i], c)).Some?
  }

  /** One pass of the promotion loop: the `try` succeeds on an object column or nothing changes. */
  function PromoteStep(f: Frame, c: string, toDt: DateParser): Frame
  {
    if Promotes(f, c, toDt) then Rewrite(f, c, Datetime, ToDatetime(toDt)) else f
  }

  /** The promotion loop over cols, in order. */
  function PromoteEach(f: Frame, cols: seq<string>, toDt: DateParser): (r: Frame)
    ensures r.columns == f.columns && |r.rows| == |f.rows|
  {
    if cols == [] then f
    else PromoteStep(PromoteEach(f, cols[..|cols| - 1], toDt), cols[|cols| - 1], toDt)
  }

  /** The frame after the promotion loop over all of its columns. */
  function Promoted(f: Frame, toDt: DateParser): Frame
  {
    PromoteEach(f, f.columns, toDt)
  }

  /** The columns among cols that the loop promotes, judged on the original frame. */
  function PromotedColumns(f: Frame, cols: seq<string>, toDt: DateParser): (r: seq<string>)
    ensures forall c :: c in r <==> c in cols && Promotes(f, c, toDt)
    ensures NoDups(cols) ==> NoDups(r)
  {
    if cols == [] then []
    else
      var init, last := cols[..|cols| - 1], cols[|cols| - 1];
      assert cols == init + [last];
      PromotedColumns(f, init, toDt) + (if Promotes(f, last, toDt) then [last] else [])
  }

  /**
   * Promoting one column never changes whether another column promotes,
   * so the loop rewrites exactly the columns that promote in the frame it
   * started from.
   */
  lemma {:induction false} PromoteEachRewritesPromotedColumns(f: Frame, cols: seq<string>, toDt: DateParser)
    requires NoDups(cols)
    ensures PromoteEach(f, cols, toDt) == RewriteEach(f, PromotedColumns(f, cols, toDt), Datetime, ToDatetime(toDt))
  {
    if cols != [] {
      var init, last := cols[..|cols| - 1], cols[|cols| - 1];
      assert cols == init + [last];
      assert NoDups(init);
      PromoteEachRewritesPromotedColumns(f, init, toDt);
      var pc := PromotedColumns(f, init, toDt);
      var g := RewriteEach(f, pc, Datetime, ToDatetime(toDt));
      RewriteEachSpec(f, pc, Datetime, ToDatetime(toDt));
      assert last !in pc;
      assert Promotes(g, last, toDt) == Promotes(f, last, toDt) by {
        if last in f.dtypes { assert g.dtypes[last] == f.dtypes[last]; }
        forall i | 0 <= i < |g.rows| ensures Get(g.rows[i], last) == Get(f.rows[i], last) { }
      }
      assert PromoteEach(f, cols, toDt) == PromoteStep(g, last, toDt);
      if Promotes(f, last, toDt) {
        var pcs := pc + [last];
        assert PromotedColumns(f, cols, toDt) == pcs;
        assert pcs[..|pcs| - 1] == pc;
      } else {
        assert PromotedColumns(f, cols, toDt) == pc;
      }
    }
  }

  /**
   * The promotion loop: a column becomes datetime64 exactly when it was an
   * `object` column whose every cell parses, its cells then being the
   * parsed timestamps; one failing cell leaves the column as it was, and
   * every other column keeps its dtype and cells.  The promoted columns
   * drop out of the `object` columns (the group-by candidates), and the
   * frame stays well formed.
   */
  lemma PromotionSpec(f: Frame, toDt: DateParser)
    requires WellFormed(f)
    ensures var r := Promoted(f, toDt);
      && WellFormed(r)
      && r.columns == f.columns && |r.rows| == |f.rows|
      && (forall c :: c in f.columns ==>
            if Promotes(f, c, toDt) then
              r.dtypes[c] == Datetime
              && forall i :: 0 <= i < |f.rows| ==> Get(r.rows[i], c) == ToDatetime(toDt)(Get(f.rows[i], c))
            else
              r.dtypes[c] == f.dtypes[c]
              && forall i :: 0 <= i < |f.rows| ==> Get(r.rows[i], c) == Get(f.rows[i], c))
      && (forall c :: c in ColumnsOfKind(r, Object) <==> c in ColumnsOfKind(f, Object) && !Promotes(f, c, toDt))
  {
    var pc := PromotedColumns(f, f.columns, toDt);
    var h := ToDatetime(toDt);
    PromoteEachRewritesPromotedColumns(f, f.columns, toDt);
    RewriteEachSpec(f, pc, Datetime, h);
    RewriteEachWellFormed(f, pc, Datetime, h);
  }

  /** The promotion loop run on the DataFrame itself (app.py and the entod dashboard alike). */
  method PromoteDatetimeColumns(df: DataFrame, toDt: DateParser)
    modifies df
    ensures df.Value() == Promoted(old(df.Value()), toDt)
  {
    ghost var f := df.Value();
    var cols := df.columns;
    var i := 0;
    while i < |cols|
      invariant 0 <= i <= |cols|
      invariant df.Value() == PromoteEach(f, cols[..i], toDt)
    {
      var col := cols[i];
      assert cols[..i + 1][..i] == cols[..i];
      if col in df.dtypes && df.dtypes[col] == Object {
        var cells := df.ColumnCells(col);
        var parsed := ParseColumn(toDt, cells);
        if parsed.Some? {
          assert parsed.value == MapCells(cells, ToDatetime(toDt));
          df.SetColumn(col, Datetime, parsed.value);
        }
      }
      i := i + 1;
    }
    assert cols[..i] == cols;
  }

  // ---------------------------------------------------------------------
  // Drop-downs and selections.
  // A multiselect widget is a parameter: given the column (its label) and
  // the options, it returns the positions of the options the user ticked,
  // which is how Streamlit records a multiselect's state.
  // ---------------------------------------------------------------------

  type Multiselect = (string, seq<Cell>) -> seq<nat>

  /** The options at the ticked positions, in the order ticked. */
  function Picked(options: seq<Cell>, ticked: seq<nat>): (r: seq<Cell>)
    ensures |r| <= |ticked|
    ensures forall x :: x in r ==> x in options
  {
    if ticked == [] then []
    else (if ticked[0] < |options| then [options[ticked[0]]] else []) + Picked(options, ticked[1..])
  }

  /** `pd.api.types.is_datetime64_any_dtype(df[col])` */
  predicate IsDateColumn(f: Frame, col: string)
  {
    col in f.dtypes && f.dtypes[col] == Datetime
  }

  /** The drop-down offered for one column. */
  function Options(f: Frame, col: string, cap: Option<nat>): Result<seq<Cell>, CatalogError>
  {
    Catalog(Column(f.rows, col), IsDateColumn(f, col), cap)
  }

  /** The entry `filter_values[col]`: the catalog, the picks, and their normalisation. */
  function ColumnSelection(f: Frame, col: string, ms: Multiselect, cap: Option<nat>): (r: Result<Constraint, CatalogError>)
    ensures r.Success? <==> Options(f, col, cap).Success?
    ensures r.Success? ==> r.value.column == col
  {
    var isDate := IsDateColumn(f, col);
    match Options(f, col, cap)
    case Failure(e) => Failure(e)
    case Success(options) =>
      var picked := Picked(options, ms(col, options));
      assert isDate ==> forall k :: 0 <= k < |picked| ==> DatePick(picked[k]) by {
        if isDate {
          DateCatalogEntriesArePicks(Column(f.rows, col), cap);
          forall k | 0 <= k < |picked| ensures DatePick(picked[k]) {
            assert picked[k] in picked;
          }
        }
      }
      Success(Constraint(col, Normalize(picked, isDate)))
  }

  /** The body of the catalog loop, as a function of the column. */
  function EntryOf(f: Frame, ms: Multiselect, cap: Option<nat>): string -> Result<Constraint, CatalogError>
  {
    col => ColumnSelection(f, col, ms, cap)
  }

  /**
   * The entries of `filter_values` for the columns cols, in order, or the
   * error of the first column whose entry fails (which ends the page).
   */
  function Collect(cols: seq<string>, entryOf: string -> Result<Constraint, CatalogError>): (r: Result<seq<Constraint>, CatalogError>)
    ensures r.Success? ==> |r.value| == |cols|
  {
    if cols == [] then Success([])
    else
      match Collect(cols[..|cols| - 1], entryOf)
      case Failure(e) => Failure(e)
      case Success(ks) =>
        match entryOf(cols[|cols| - 1])
        case Failure(e) => Failure(e)
        case Success(k) => Success(ks + [k])
  }

  /** `filter_values` of the frame f for the columns cols. */
  function Selections(f: Frame, cols: seq<string>, ms: Multiselect, cap: Option<nat>): Result<seq<Constraint>, CatalogError>
  {
    Collect(cols, EntryOf(f, ms, cap))
  }

  /** Collect succeeds exactly when every column's entry does, and then lists those entries in column order. */
  lemma {:induction false} CollectEntries(cols: seq<string>, entryOf: string -> Result<Constraint, CatalogError>)
    ensures Collect(cols, entryOf).Success? <==> forall k :: 0 <= k < |cols| ==> entryOf(cols[k]).Success?
    ensures Collect(cols, entryOf).Success? ==>
      forall k :: 0 <= k < |cols| ==> Collect(cols, entryOf).value[k] == entryOf(cols[k]).value
  {
    if cols != [] {
      var init, last := cols[..|cols| - 1], cols[|cols| - 1];
      CollectEntries(init, entryOf);
      assert forall k :: 0 <= k < |init| ==> init[k] == cols[k];
      var prefix := Collect(init, entryOf);
      if prefix.Success? && entryOf(last).Success? {
        var ks := prefix.value + [entryOf(last).value];
        forall k | 0 <= k < |cols| ensures ks[k] == entryOf(cols[k]).value {
          if k < |init| { assert ks[k] == prefix.value[k]; }
        }
      } else if prefix.Failure? {
        var k :| 0 <= k < |init| && !entryOf(init[k]).Success?;
        assert !entryOf(cols[k]).Success?;
      }
    }
  }

  /** Once a prefix of the columns fails, Collect fails with the same error. */
  lemma {:induction false} CollectFailsFrom(cols: seq<string>, entryOf: string -> Result<Constraint, CatalogError>, n: nat)
    requires n <= |cols| && Collect(cols[..n], entryOf).Failure?
    ensures Collect(cols, entryOf) == Collect(cols[..n], entryOf)
    decreases |cols| - n
  {
    if n < |cols| {
      assert cols[..n + 1][..n] == cols[..n];
      CollectFailsFrom(cols, entryOf, n + 1);
    } else {
      assert cols[..n] == cols;
    }
  }

  /** `for col in cols: filter_values[col] = <entry>`; an entry that raises ends the loop. */
  method CollectLoop(cols: seq<string>, entryOf: string -> Result<Constraint, CatalogError>) returns (r: Result<seq<Constraint>, CatalogError>)
    ensures r == Collect(cols, entryOf)
  {
    var filterValues: seq<Constraint> := [];
    var i := 0;
    while i < |cols|
      invariant 0 <= i <= |cols|
      invariant Collect(cols[..i], entryOf) == Success(filterValues)
    {
      assert cols[..i + 1][..i] == cols[..i];
      var entry := entryOf(cols[i]);
      if entry.Failure? {
        r := Failure(entry.error);
        CollectFailsFrom(cols, entryOf, i + 1);
        return;
      }
      filterValues := filterValues + [entry.value];
      i := i + 1;
    }
    assert cols[..i] == cols;
    r := Success(filterValues);
  }

  /** The catalog loop of a dashboard over the columns of its DataFrame. */
  method BuildFilterValues(df: DataFrame, ms: Multiselect, cap: Option<nat>) returns (r: Result<seq<Constraint>, CatalogError>)
    ensures r == Selections(df.Value(), df.columns, ms, cap)
  {
    r := CollectLoop(df.columns, EntryOf(df.Value(), ms, cap));
  }

  /** The picks a user can make in a date column's drop-down. */
  predicate DatePicks(picked: seq<Cell>)
  {
    forall k :: 0 <= k < |picked| ==> DatePick(picked[k])
  }

  /** A date column's entry is exactly the normalisation of its picks: each day label becomes its midnight. */
  lemma ColumnSelectionOfDate(f: Frame, col: string, ms: Multiselect, cap: Option<nat>)
    requires IsDateColumn(f, col) && Options(f, col, cap).Success?
    ensures var options := Options(f, col, cap).value;
      var picked := Picked(options, ms(col, options));
      && DatePicks(picked)
      && ColumnSelection(f, col, ms, cap).value.selected == Normalize(picked, true)
  {
    var options := Options(f, col, cap).value;
    var picked := Picked(options, ms(col, options));
    DateCatalogEntriesArePicks(Column(f.rows, col), cap);
    forall k | 0 <= k < |picked| ensures DatePick(picked[k]) {
      assert picked[k] in picked;
    }
  }

  /** The k-th entry of a successful catalog loop is the entry of the k-th column. */
  lemma SelectionsEntry(f: Frame, ms: Multiselect, cap: Option<nat>, k: nat)
    requires Selections(f, f.columns, ms, cap).Success? && k < |f.columns|
    ensures |Selections(f, f.columns, ms, cap).value| == |f.columns|
    ensures ColumnSelection(f, f.columns[k], ms, cap).Success?
    ensures Selections(f, f.columns, ms, cap).value[k] == ColumnSelection(f, f.columns[k], ms, cap).value
  {
    CollectEntries(f.columns, EntryOf(f, ms, cap));
    assert EntryOf(f, ms, cap)(f.columns[k]) == ColumnSelection(f, f.columns[k], ms, cap);
  }

  /**
   * On success every column has its entry: "ALL" among the picks leaves
   * it unconstrained, otherwise the picks themselves constrain it (an
   * empty pick list included), and for a date column the entry is the
   * normalisation of the picks, each one's midnight timestamp or NaT.
   */
  lemma SelectionsSpec(f: Frame, ms: Multiselect, cap: Option<nat>)
    requires Selections(f, f.columns, ms, cap).Success?
    ensures Selections(f, f.columns, ms, cap).Success? <==> forall k :: 0 <= k < |f.columns| ==> Options(f, f.columns[k], cap).Success?
    ensures var ks := Selections(f, f.columns, ms, cap).value;
      && |ks| == |f.columns|
      && forall k :: 0 <= k < |ks| ==>
           var options := Options(f, f.columns[k], cap).value;
           var picked := Picked(options, ms(f.columns[k], options));
           && ks[k].column == f.columns[k]
           && (ks[k].selected.None? <==> All in picked)
           && (ks[k].selected.Some? && !IsDateColumn(f, f.columns[k]) ==> ks[k].selected.value == picked)
           && (IsDateColumn(f, f.columns[k]) ==> DatePicks(picked) && ks[k].selected == Normalize(picked, true))
           && (ks[k].selected.Some? && IsDateColumn(f, f.columns[k]) ==>
                 forall x :: x in ks[k].selected.value ==> x.Missing? || (x.Date? && x.second == 0))
  {
    var ks := Selections(f, f.columns, ms, cap).value;
    CollectEntries(f.columns, EntryOf(f, ms, cap));
    forall k | 0 <= k < |ks| && IsDateColumn(f, f.columns[k])
      ensures var options := Options(f, f.columns[k], cap).value;
        var picked := Picked(options, ms(f.columns[k], options));
        && DatePicks(picked) && ks[k].selected == Normalize(picked, true)
        && (ks[k].selected.Some? ==> forall x :: x in ks[k].selected.value ==> x.Missing? || (x.Date? && x.second == 0))
    {
      SelectionsEntry(f, ms, cap, k);
      ColumnSelectionOfDate(f, f.columns[k], ms, cap);
      var options := Options(f, f.columns[k], cap).value;
      var picked := Picked(options, ms(f.columns[k], options));
      if ks[k].selected.Some? {
        var sel := ks[k].selected.value;
        forall x | x in sel ensures x.Missing? || (x.Date? && x.second == 0) {
          var m :| 0 <= m < |sel| && sel[m] == x;
          assert sel[m] == PickStamp(picked[m]);
        }
      }
    }
  }

  /** The page's entry for a date column is the normalisation of that column's picks. */
  lemma DateEntryIsNormalized(f: Frame, ms: Multiselect, cap: Option<nat>, k: nat)
    requires Selections(f, f.columns, ms, cap).Success? && k < |f.columns| && IsDateColumn(f, f.columns[k])
    ensures Options(f, f.columns[k], cap).Success?
    ensures var options := Options(f, f.columns[k], cap).value;
      var picked := Picked(options, ms(f.columns[k], options));
      && DatePicks(picked)
      && Selections(f, f.columns, ms, cap).value[k] == Constraint(f.columns[k], Normalize(picked, true))
  {
    SelectionsEntry(f, ms, cap, k);
    ColumnSelectionOfDate(f, f.columns[k], ms, cap);
  }

  /**
   * On the page, a row passes a date column's explicit selection exactly
   * when its timestamp is midnight of a picked day, or it is NaT and NaN
   * was picked.
   */
  lemma DateEntryMatchesMidnightOnly(f: Frame, ms: Multiselect, cap: Option<nat>, k: nat, row: Row)
    requires Selections(f, f.columns, ms, cap).Success? && k < |f.columns| && IsDateColumn(f, f.columns[k])
    ensures Options(f, f.columns[k], cap).Success?
    ensures var entry := Selections(f, f.columns, ms, cap).value[k];
      var options := Options(f, f.columns[k], cap).value;
      var picked := Picked(options, ms(f.columns[k], options));
      var v := Get(row, f.columns[k]);
      entry.selected.Some? ==>
        (Passes(row, entry) <==>
           (v.Missing? && Missing in picked) || (v.Date? && v.second == 0 && Text(DayLabel(v.day)) in picked))
  {
    DateEntryIsNormalized(f, ms, cap, k);
    var col := f.columns[k];
    var options := Options(f, col, cap).value;
    var picked := Picked(options, ms(col, options));
    var entry := Selections(f, f.columns, ms, cap).value[k];
    if entry.selected.Some? {
      assert All !in picked;
      DateSelectionMatchesMidnightOnly(row, col, picked);
      assert Passes(row, entry) == Passes(row, Constraint(col, Normalize(picked, true)));
    }
  }

  /** The catalog loop succeeds exactly when the drop-down of every column can be built. */
  lemma SelectionsSucceed(f: Frame, ms: Multiselect, cap: Option<nat>)
    ensures Selections(f, f.columns, ms, cap).Success? <==> forall c :: c in f.columns ==> Options(f, c, cap).Success?
  {
    var entryOf := EntryOf(f, ms, cap);
    CollectEntries(f.columns, entryOf);
    if forall c :: c in f.columns ==> Options(f, c, cap).Success? {
      forall k | 0 <= k < |f.columns| ensures entryOf(f.columns[k]).Success? {
        assert f.columns[k] in f.columns;
      }
    }
    if forall k :: 0 <= k < |f.columns| ==> entryOf(f.columns[k]).Success? {
      forall c | c in f.columns ensures Options(f, c, cap).Success? {
        var k :| 0 <= k < |f.columns| && f.columns[k] == c;
        assert entryOf(f.columns[k]).Success?;
      }
    }
  }

  // ---------------------------------------------------------------------
  // Column choosers.  A selectbox is a parameter: given its caption and the
  // options, it returns the position the user chose (a position past the
  // end wraps round, as no real widget returns one).
  // ---------------------------------------------------------------------

  type Selectbox = (string, seq<string>) -> nat

  /** `st.sidebar.selectbox(label, options) if options else None` */
  function ChooseColumn(sb: Selectbox, caption: string, options: seq<string>): (r: Option<string>)
    ensures r.None? <==> options == []
    ensures r.Some? ==> r.value in options
  {
    if options == [] then None else Some(options[sb(caption, options) % |options|])
  }

  /** Python truthiness of `value_col` / `group_col`: None and the empty name are false. */
  predicate Truthy(name: Option<string>)
  {
    name.Some? && name.value != ""
  }

  const ValueLabel: string := "Value (numeric)"
  const GroupLabel: string := "Group by (categorical)"

  /** `value_col`: a numeric column of the frame, or None when it has none. */
  function ValueColumn(f: Frame, sb: Selectbox): (r: Option<string>)
    ensures r.None? <==> ColumnsOfKind(f, Number) == []
    ensures r.Some? ==> r.value in ColumnsOfKind(f, Number)
  {
    ChooseColumn(sb, ValueLabel, ColumnsOfKind(f, Number))
  }

  /** `group_col`: an `object` column of the frame, or None when it has none. */
  function GroupColumn(f: Frame, sb: Selectbox): (r: Option<string>)
    ensures r.None? <==> ColumnsOfKind(f, Object) == []
    ensures r.Some? ==> r.value in ColumnsOfKind(f, Object)
  {
    ChooseColumn(sb, GroupLabel, ColumnsOfKind(f, Object))
  }
}
