/**
 * `sorted(series.unique())`: the distinct values of a column in ascending
 * order, and the distinct values of a column with no order promised.
 */
module Sorting {
  import opened Cells

  predicate NoDups<T(==)>(s: seq<T>)
  {
    forall i, j :: 0 <= i < j < |s| ==> s[i] != s[j]
  }

  /** Strictly ascending under Python's `<`. */
  predicate Ascending(s: seq<Cell>)
  {
    forall i, j :: 0 <= i < j < |s| ==> Less(s[i], s[j])
  }

  lemma AscendingHasNoDups(s: seq<Cell>)
    requires Ascending(s)
    ensures NoDups(s)
  {
    forall i, j | 0 <= i < j < |s| ensures s[i] != s[j] {
      LessIrreflexive(s[i]);
    }
  }

  /** A sequence without duplicates has as many elements as its set. */
  lemma {:induction false} NoDupsCardinality<T>(s: seq<T>)
    requires NoDups(s)
    ensures |set x | x in s| == |s|
  {
    if s != [] {
      var t := s[1..];
      NoDupsCardinality(t);
      assert (set x | x in s) == {s[0]} + (set x | x in t);
    }
  }

  /** Inserts x into an ascending sequence unless it is already there. */
  function Insert(x: Cell, s: seq<Cell>): (r: seq<Cell>)
    requires Ascending(s)
    requires forall k :: 0 <= k < |s| ==> SameClass(x, s[k])
    ensures Ascending(r)
    ensures forall y :: y in r <==> y == x || y in s
  {
    if s == [] then [x]
    else if x == s[0] then s
    else if Less(x, s[0]) then
      assert forall k :: 0 <= k < |s| ==> Less(x, s[k]) by {
        forall k | 0 <= k < |s| ensures Less(x, s[k]) {
          if k > 0 { LessTransitive(x, s[0], s[k]); }
        }
      }
      [x] + s
    else
      LessTotal(x, s[0]);
      var rest := Insert(x, s[1..]);
      assert forall k :: 0 <= k < |rest| ==> Less(s[0], rest[k]) by {
        forall k | 0 <= k < |rest| ensures Less(s[0], rest[k]) {
          assert rest[k] in rest;
        }
      }
      [s[0]] + rest
  }

  /** The distinct values of s in ascending order. */
  function SortedDistinct(s: seq<Cell>): (r: seq<Cell>)
    requires Orderable(s)
    ensures Ascending(r)
    ensures forall y :: y in r <==> y in s
    ensures forall k :: 0 <= k < |r| ==> s != [] && SameClass(r[k], s[0])
  {
    if s == [] then []
    else
      assert Orderable(s[1..]) by {
        forall i, j | 0 <= i < |s| - 1 && 0 <= j < |s| - 1 ensures SameClass(s[1..][i], s[1..][j]) {
          assert SameClass(s[i + 1], s[j + 1]);
        }
      }
      var rest := SortedDistinct(s[1..]);
      assert forall k :: 0 <= k < |rest| ==> SameClass(s[0], rest[k]) by {
        forall k | 0 <= k < |rest| ensures SameClass(s[0], rest[k]) {
          assert rest[k] in s[1..];
          var j :| 0 <= j < |s[1..]| && s[1..][j] == rest[k];
          assert SameClass(s[0], s[j + 1]);
        }
      }
      var r := Insert(s[0], rest);
      assert forall k :: 0 <= k < |r| ==> SameClass(r[k], s[0]) by {
        forall k | 0 <= k < |r| ensures SameClass(r[k], s[0]) {
          assert r[k] in r;
          if r[k] != s[0] {
            var j :| 0 <= j < |rest| && rest[j] == r[k];
          }
        }
      }
      r
  }

  /** `len(sorted(s.unique()))` is the number of distinct values. */
  lemma SortedDistinctCount(s: seq<Cell>)
    requires Orderable(s)
    ensures |SortedDistinct(s)| == |set x | x in s|
  {
    var r := SortedDistinct(s);
    AscendingHasNoDups(r);
    NoDupsCardinality(r);
    assert (set x | x in r) == (set x | x in s);
  }

  /** Each value of s once; the contract promises no order. */
  function Distinct(s: seq<Cell>): (r: seq<Cell>)
    ensures NoDups(r)
    ensures forall y :: y in r <==> y in s
  {
    if s == [] then []
    else
      var d := Distinct(s[..|s| - 1]);
      assert forall y :: y in s <==> y in s[..|s| - 1] || y == s[|s| - 1] by {
        assert s == s[..|s| - 1] + [s[|s| - 1]];
      }
      if s[|s| - 1] in d then d else d + [s[|s| - 1]]
  }
}
