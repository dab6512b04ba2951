/**
 * Cells of a pandas table and the column dtypes the dashboards look at:
 * `object` (strings and mixed values), numbers and `datetime64`.
 * Numbers are integers; floating point is not modelled.
 */
module Cells {
  import opened Wrappers
  import opened Text
  import opened Calendar

  /** A table cell; `Missing` is pandas' NaN (a blank cell) or NaT. */
  datatype Cell = Missing | Text(s: string) | Num(n: int) | Date(day: Day, second: Second)

  /** Column dtypes: `object`, a numeric dtype, `datetime64[ns]`. */
  datatype Kind = Object | Number | Datetime

  /** The cells a column of each dtype can hold. */
  predicate Fits(k: Kind, c: Cell)
  {
    match k
    case Object => c.Missing? || c.Text? || c.Num?
    case Number => c.Missing? || c.Num?
    case Datetime => c.Missing? || c.Date?
  }

  /** The sentinel "ALL" at the head of every drop-down. */
  const All: Cell := Text("ALL")

  /** Midnight of a day: what `pd.to_datetime` makes of a `YYYY-MM-DD` pick. */
  function Midnight(d: Day): (c: Cell)
    ensures c.Date? && c.day == d && c.second == 0
  {
    Date(d, 0)
  }

  // ---------------------------------------------------------------------
  // Ordering used by Python's sorted(): strings among strings, numbers
  // among numbers, timestamps among timestamps.  Comparing a string with
  // a number (or with NaN) raises TypeError.
  // ---------------------------------------------------------------------

  /** Cells that Python can compare with `<`. */
  predicate SameClass(a: Cell, b: Cell)
  {
    (a.Text? && b.Text?) || (a.Num? && b.Num?) || (a.Date? && b.Date?) || (a.Missing? && b.Missing?)
  }

  predicate Less(a: Cell, b: Cell)
  {
    match (a, b)
    case (Text(x), Text(y)) => StrLess(x, y)
    case (Num(x), Num(y)) => x < y
    case (Date(d1, t1), Date(d2, t2)) => DayBefore(d1, d2) || (d1 == d2 && t1 < t2)
    case _ => false
  }

  /** A sequence `sorted` accepts without raising TypeError. */
  predicate Orderable(s: seq<Cell>)
  {
    forall i, j :: 0 <= i < |s| && 0 <= j < |s| ==> SameClass(s[i], s[j])
  }

  lemma LessIrreflexive(a: Cell)
    ensures !Less(a, a)
  {
    if a.Text? { StrLessIrreflexive(a.s); }
  }

  lemma LessTransitive(a: Cell, b: Cell, c: Cell)
    requires Less(a, b) && Less(b, c)
    ensures Less(a, c)
  {
    if a.Text? { StrLessTransitive(a.s, b.s, c.s); }
  }

  lemma LessAsymmetric(a: Cell, b: Cell)
    requires Less(a, b)
    ensures !Less(b, a)
  {
    if a.Text? { StrLessAsymmetric(a.s, b.s); }
  }

  /** Within one class, two different cells are ordered one way or the other. */
  lemma LessTotal(a: Cell, b: Cell)
    requires SameClass(a, b) && a != b
    ensures Less(a, b) || Less(b, a)
  {
    if a.Text? { StrLessTotal(a.s, b.s); }
    if a.Date? {
      if a.day != b.day && !DayBefore(a.day, b.day) {
        assert DayBefore(b.day, a.day);
      }
    }
  }

  // ---------------------------------------------------------------------
  // Cell conversions performed by the dashboards.
  // ---------------------------------------------------------------------

  /**
   * `astype(str)`: NaN becomes "nan", an integer its decimal digits and a
   * timestamp `YYYY-MM-DD HH:MM:SS`; only a string cell can come out with
   * whitespace at either end.
   */
  function StrOf(c: Cell): (r: string)
    ensures c.Missing? ==> r == "nan"
    ensures c.Text? ==> r == c.s
    ensures c.Num? ==> ParseInt(r) == Some(c.n)
    ensures c.Date? ==> |r| == 19 && ParseDayLabel(r[..10]) == Some(c.day)
    ensures !c.Text? ==> Trimmed(r)
  {
    match c
    case Missing => "nan"
    case Text(s) => s
    case Num(n) =>
      IntToStringRoundTrip(n);
      IntToStringTrimmed(n);
      IntToString(n)
    case Date(d, t) =>
      var r := StampLabel(d, t);
      assert r[..10] == DayLabel(d);
      DayLabelRoundTrip(d);
      assert !IsSpace(r[0]) by { assert r[0] == DayLabel(d)[0] == Pad(d.year, 4)[0]; }
      assert !IsSpace(r[18]) by { assert r[18] == Pad(t % 60, 2)[1]; }
      r
  }

  /** The digits of `str(n)` start with a digit or '-' and end with a digit. */
  lemma IntToStringTrimmed(n: int)
    ensures Trimmed(IntToString(n))
  {
    var s := IntToString(n);
    var digits := NatDigits(if n < 0 then -n else n);
    assert s[|s| - 1] == digits[|digits| - 1];
    assert IsDigit(digits[0]) && IsDigit(digits[|digits| - 1]);
  }

  /**
   * `astype(str).str.strip()` on one cell: a string cell loses its
   * surrounding whitespace, any other cell becomes its `str()` unchanged
   * (NaN becomes "nan").
   */
  function StripCell(c: Cell): (r: Cell)
    ensures r.Text? && Trimmed(r.s)
    ensures c.Text? ==> r.s == Strip(c.s)
    ensures !c.Text? ==> r.s == StrOf(c)
  {
    match c
    case Text(s) => Text(Strip(s))
    case _ =>
      var s := StrOf(c);
      StripOfTrimmed(s);
      Text(Strip(s))
  }

  /** Stripping a stripped cell changes nothing. */
  lemma StripCellIdempotent(c: Cell)
    ensures StripCell(StripCell(c)) == StripCell(c)
  {
    StripIdempotent(StrOf(c));
  }

  /** `f"{x:.2f}"` on an integer cell, or on NaN. */
  function FormatNumber(c: Cell): (r: Cell)
    ensures r.Text?
  {
    match c
    case Num(n) => Text(IntToString(n) + ".00")
    case Missing => Text("nan")
    case _ => Text(StrOf(c))
  }

  /** Reads a `[-]digits.dd` string as a number of hundredths. */
  function ParseHundredths(s: string): Option<int>
  {
    if |s| >= 4 && s[|s| - 3] == '.' && AllDigits(s[|s| - 2..]) then
      match ParseInt(s[..|s| - 3])
      case Some(w) =>
        var frac := ReadDigits(s[|s| - 2..]);
        Some(if s[0] == '-' then w * 100 - frac else w * 100 + frac)
      case None => None
    else None
  }

  /** A formatted integer reads back as the same value: `n.00` is 100 n hundredths. */
  lemma FormatNumberRoundTrip(n: int)
    ensures FormatNumber(Num(n)).s == IntToString(n) + ".00"
    ensures ParseHundredths(FormatNumber(Num(n)).s) == Some(100 * n)
  {
    var w := IntToString(n);
    var s := w + ".00";
    assert s[..|s| - 3] == w;
    assert s[|s| - 2..] == "00";
    assert ReadDigits("00") == 0 by {
      assert "00"[..1] == "0";
      assert "0"[..0] == "";
    }
    IntToStringRoundTrip(n);
    assert s[0] == '-' <==> n < 0;
  }

  /** NaN in a numeric column is written "nan" by `f"{x:.2f}"`. */
  lemma FormatNumberOfMissing()
    ensures FormatNumber(Missing) == Text("nan")
  {
  }

  /** What `pd.to_datetime` makes of one cell: a timestamp or NaT. */
  datatype Parsed = Stamp(day: Day, second: Second) | NaT

  function ParsedCell(p: Parsed): (c: Cell)
    ensures Fits(Datetime, c)
  {
    match p
    case Stamp(d, t) => Date(d, t)
    case NaT => Missing
  }
}
