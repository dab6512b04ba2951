/**
 * The filter loop: `filtered_df = df.copy()` and then, for every column
 * with a selection, `filtered_df = filtered_df[filtered_df[col].isin(selected)]`.
 */
module Filters {
  import opened Wrappers
  import opened Calendar
  import opened Cells
  import opened Frames
  import opened Catalogs

  /** One entry of `filter_values`: a column and its selection (None: no constraint). */
  datatype Constraint = Constraint(column: string, selected: Option<seq<Cell>>)

  /** `row[col] in selected`, as `isin` tests it, or no constraint at all. */
  predicate Passes(row: Row, k: Constraint)
  {
    k.selected.None? || Get(row, k.column) in k.selected.value
  }

  /** The row passes every constraint (AND across columns). */
  predicate Matches(row: Row, ks: seq<Constraint>)
  {
    forall j :: 0 <= j < |ks| ==> Passes(row, ks[j])
  }

  /** The rows that match, in their original order. */
  function Select(rows: seq<Row>, ks: seq<Constraint>): (r: seq<Row>)
    ensures |r| <= |rows|
  {
    if rows == [] then []
    else (if Matches(rows[0], ks) then [rows[0]] else []) + Select(rows[1..], ks)
  }

  /** Every selected row is one of the rows and matches every constraint. */
  lemma {:induction false} SelectedRowsMatch(rows: seq<Row>, ks: seq<Constraint>)
    ensures forall x :: x in Select(rows, ks) ==> x in rows && Matches(x, ks)
  {
    if rows != [] {
      SelectedRowsMatch(rows[1..], ks);
      assert rows == [rows[0]] + rows[1..];
    }
  }

  /** `filtered_df[filtered_df[col].isin(selected)]` */
  function Where(rows: seq<Row>, k: Constraint): seq<Row>
  {
    Select(rows, [k])
  }

  lemma MatchesConcat(x: Row, a: seq<Constraint>, b: seq<Constraint>)
    ensures Matches(x, a + b) <==> Matches(x, a) && Matches(x, b)
  {
    if Matches(x, a + b) {
      forall j | 0 <= j < |b| ensures Passes(x, b[j]) {
        assert (a + b)[|a| + j] == b[j];
      }
      forall j | 0 <= j < |a| ensures Passes(x, a[j]) {
        assert (a + b)[j] == a[j];
      }
    }
  }

  lemma {:induction false} SelectThenSelect(rows: seq<Row>, a: seq<Constraint>, b: seq<Constraint>)
    ensures Select(Select(rows, a), b) == Select(rows, a + b)
  {
    if rows != [] {
      SelectThenSelect(rows[1..], a, b);
      MatchesConcat(rows[0], a, b);
      var s := Select(rows, a);
      if Matches(rows[0], a) {
        assert s == [rows[0]] + Select(rows[1..], a);
        assert s[0] == rows[0] && s[1..] == Select(rows[1..], a);
      } else {
        assert s == Select(rows[1..], a);
      }
    }
  }

  lemma {:induction false} SelectSameMatches(rows: seq<Row>, a: seq<Constraint>, b: seq<Constraint>)
    requires forall x :: x in rows ==> (Matches(x, a) <==> Matches(x, b))
    ensures Select(rows, a) == Select(rows, b)
  {
    if rows != [] { SelectSameMatches(rows[1..], a, b); }
  }

  /** The kept positions of rows[1..], moved one place to the right. */
  lemma ShiftPositions(rows: seq<Row>, ks: seq<Constraint>, rest: seq<nat>) returns (shifted: seq<nat>)
    requires |rows| > 0
    requires |rest| == |Select(rows[1..], ks)|
    requires forall k :: 0 <= k < |rest| ==> rest[k] < |rows[1..]| && Select(rows[1..], ks)[k] == rows[1..][rest[k]]
    requires forall k, m :: 0 <= k < m < |rest| ==> rest[k] < rest[m]
    requires forall i :: 0 <= i < |rows[1..]| ==> (i in rest <==> Matches(rows[1..][i], ks))
    ensures |shifted| == |rest|
    ensures forall k :: 0 <= k < |shifted| ==> 0 < shifted[k] < |rows| && Select(rows[1..], ks)[k] == rows[shifted[k]]
    ensures forall k, m :: 0 <= k < m < |shifted| ==> shifted[k] < shifted[m]
    ensures forall i :: 0 < i < |rows| ==> (i in shifted <==> Matches(rows[i], ks))
  {
    shifted := seq(|rest|, k requires 0 <= k < |rest| => rest[k] + 1);
    forall i | 0 < i < |rows| ensures i in shifted <==> Matches(rows[i], ks) {
      assert rows[1..][i - 1] == rows[i];
      if i - 1 in rest {
        var k :| 0 <= k < |rest| && rest[k] == i - 1;
        assert shifted[k] == i;
      }
    }
  }

  /** Position 0 in front of the shifted positions, when rows[0] matches. */
  lemma PrependPosition(rows: seq<Row>, ks: seq<Constraint>, tail: seq<Row>, shifted: seq<nat>) returns (idx: seq<nat>)
    requires |rows| > 0 && Matches(rows[0], ks)
    requires |shifted| == |tail|
    requires forall k :: 0 <= k < |shifted| ==> 0 < shifted[k] < |rows| && tail[k] == rows[shifted[k]]
    requires forall k, m :: 0 <= k < m < |shifted| ==> shifted[k] < shifted[m]
    requires forall i :: 0 < i < |rows| ==> (i in shifted <==> Matches(rows[i], ks))
    ensures |idx| == |[rows[0]] + tail|
    ensures forall k :: 0 <= k < |idx| ==> idx[k] < |rows| && ([rows[0]] + tail)[k] == rows[idx[k]]
    ensures forall k, m :: 0 <= k < m < |idx| ==> idx[k] < idx[m]
    ensures forall i :: 0 <= i < |rows| ==> (i in idx <==> Matches(rows[i], ks))
  {
    idx := [0] + shifted;
    forall k | 0 < k < |idx| ensures idx[k] == shifted[k - 1] && ([rows[0]] + tail)[k] == tail[k - 1] { }
    forall i | 0 < i < |rows| ensures i in idx <==> i in shifted { }
  }

  /**
   * The filter output is exactly the matching rows, in their original
   * order and unchanged: idx lists the positions of the kept rows, strictly
   * increasing, and a position is listed exactly when its row matches.
   */
  lemma {:induction false} SelectKeepsMatchingRowsInOrder(rows: seq<Row>, ks: seq<Constraint>) returns (idx: seq<nat>)
    ensures |idx| == |Select(rows, ks)|
    ensures forall k :: 0 <= k < |idx| ==> idx[k] < |rows| && Select(rows, ks)[k] == rows[idx[k]]
    ensures forall k, m :: 0 <= k < m < |idx| ==> idx[k] < idx[m]
    ensures forall i :: 0 <= i < |rows| ==> (i in idx <==> Matches(rows[i], ks))
  {
    if rows == [] {
      idx := [];
    } else {
      var rest := SelectKeepsMatchingRowsInOrder(rows[1..], ks);
      var shifted := ShiftPositions(rows, ks, rest);
      var tail := Select(rows[1..], ks);
      if Matches(rows[0], ks) {
        assert Select(rows, ks) == [rows[0]] + tail;
        idx := PrependPosition(rows, ks, tail, shifted);
      } else {
        idx := shifted;
        assert Select(rows, ks) == tail;
      }
    }
  }

  /** Filtering the output again with the same selections changes nothing. */
  lemma SelectIdempotent(rows: seq<Row>, ks: seq<Constraint>)
    ensures Select(Select(rows, ks), ks) == Select(rows, ks)
  {
    SelectThenSelect(rows, ks, ks);
    forall x | x in rows ensures Matches(x, ks + ks) <==> Matches(x, ks) {
      MatchesConcat(x, ks, ks);
    }
    SelectSameMatches(rows, ks + ks, ks);
  }

  /** An explicit empty selection on any column leaves no rows. */
  lemma {:induction false} EmptySelectionSelectsNothing(rows: seq<Row>, ks: seq<Constraint>, j: nat)
    requires j < |ks| && ks[j].selected == Some([])
    ensures Select(rows, ks) == []
  {
    if rows != [] {
      assert !Passes(rows[0], ks[j]);
      EmptySelectionSelectsNothing(rows[1..], ks, j);
    }
  }

  /** b is a widening of a: same columns, and each selection of b is no constraint or a superset. */
  predicate Widens(a: seq<Constraint>, b: seq<Constraint>)
  {
    && |a| == |b|
    && forall j :: 0 <= j < |a| ==>
         && b[j].column == a[j].column
         && (b[j].selected.None?
             || (a[j].selected.Some? && forall x :: x in a[j].selected.value ==> x in b[j].selected.value))
  }

  lemma {:induction false} SelectCountMonotone(rows: seq<Row>, a: seq<Constraint>, b: seq<Constraint>)
    requires forall x :: x in rows && Matches(x, a) ==> Matches(x, b)
    ensures |Select(rows, a)| <= |Select(rows, b)|
  {
    if rows != [] { SelectCountMonotone(rows[1..], a, b); }
  }

  /** Widening selections never lowers the number of rows that pass. */
  lemma WideningNeverLowersRowCount(rows: seq<Row>, a: seq<Constraint>, b: seq<Constraint>)
    requires Widens(a, b)
    ensures |Select(rows, a)| <= |Select(rows, b)|
  {
    forall x | x in rows && Matches(x, a) ensures Matches(x, b) {
      forall j | 0 <= j < |b| ensures Passes(x, b[j]) {
        assert Passes(x, a[j]);
      }
    }
    SelectCountMonotone(rows, a, b);
  }

  /**
   * Date picks are compared as midnight timestamps: a row passes a date
   * column's explicit selection only if its timestamp is 00:00 of a picked
   * day (or it is NaT and NaN was picked).
   */
  lemma DateSelectionMatchesMidnightOnly(row: Row, col: string, picked: seq<Cell>)
    requires forall k :: 0 <= k < |picked| ==> DatePick(picked[k])
    requires All !in picked
    ensures var v := Get(row, col);
      Passes(row, Constraint(col, Normalize(picked, true))) <==>
        (v.Missing? && Missing in picked) || (v.Date? && v.second == 0 && Text(DayLabel(v.day)) in picked)
  {
    var v := Get(row, col);
    var sel := Normalize(picked, true).value;
    if v in sel {
      var k :| 0 <= k < |sel| && sel[k] == v;
      assert sel[k] == PickStamp(picked[k]);
    }
    if v.Missing? && Missing in picked {
      var k :| 0 <= k < |picked| && picked[k] == Missing;
      assert sel[k] == v;
    }
    if v.Date? && v.second == 0 && Text(DayLabel(v.day)) in picked {
      var k :| 0 <= k < |picked| && picked[k] == Text(DayLabel(v.day));
      DayLabelRoundTrip(v.day);
      assert sel[k] == v;
    }
  }

  /** The filter loop over `filter_values`, rebinding the working table at each constrained column. */
  method ApplyFilters(rows: seq<Row>, filterValues: seq<Constraint>) returns (filtered: seq<Row>)
    ensures filtered == Select(rows, filterValues)
  {
    filtered := rows;
    assert Select(rows, []) == rows by { SelectAll(rows); }
    var i := 0;
    while i < |filterValues|
      invariant 0 <= i <= |filterValues|
      invariant filtered == Select(rows, filterValues[..i])
    {
      var k := filterValues[i];
      FilterStep(rows, filterValues, i);
      if k.selected.Some? {
        filtered := Where(filtered, k);
      }
      i := i + 1;
    }
    assert filterValues[..i] == filterValues;
  }

  /** One more constraint narrows the selection by Where, or changes nothing when it has no selection. */
  lemma FilterStep(rows: seq<Row>, ks: seq<Constraint>, i: nat)
    requires i < |ks|
    ensures Select(rows, ks[..i + 1]) == if ks[i].selected.Some? then Where(Select(rows, ks[..i]), ks[i]) else Select(rows, ks[..i])
  {
    var k := ks[i];
    assert ks[..i + 1] == ks[..i] + [k];
    if k.selected.Some? {
      SelectThenSelect(rows, ks[..i], [k]);
    } else {
      forall x | x in rows ensures Matches(x, ks[..i] + [k]) <==> Matches(x, ks[..i]) {
        MatchesConcat(x, ks[..i], [k]);
      }
      SelectSameMatches(rows, ks[..i] + [k], ks[..i]);
    }
  }

  lemma {:induction false} SelectAll(rows: seq<Row>)
    ensures Select(rows, []) == rows
  {
    if rows != [] { SelectAll(rows[1..]); }
  }
}
