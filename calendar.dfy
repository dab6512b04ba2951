/**
 * Calendar days and the `'%Y-%m-%d'` day labels the dashboards list in the
 * drop-downs of date columns, together with the inverse reading of a label
 * as midnight of that day.
 */
module Calendar {
  import opened Wrappers
  import opened Text

  datatype CivilDay = CivilDay(year: int, month: int, dom: int)

  predicate IsLeapYear(y: int)
  {
    y % 4 == 0 && (y % 100 != 0 || y % 400 == 0)
  }

  function DaysInMonth(y: int, m: int): int
  {
    if m == 2 then (if IsLeapYear(y) then 29 else 28)
    else if m == 4 || m == 6 || m == 9 || m == 11 then 30
    else 31
  }

  /**
   * A real calendar day with a four-digit year; pandas timestamps
   * (years 1677 to 2262) all lie in this range.
   */
  predicate ValidDay(d: CivilDay)
  {
    1000 <= d.year <= 9999 && 1 <= d.month <= 12 && 1 <= d.dom <= DaysInMonth(d.year, d.month)
  }

  type Day = d: CivilDay | ValidDay(d) witness CivilDay(1970, 1, 1)

  /** Seconds since midnight. */
  type Second = s: int | 0 <= s < 86400

  /** Chronological order of days. */
  predicate DayBefore(a: Day, b: Day)
  {
    a.year < b.year
    || (a.year == b.year && a.month < b.month)
    || (a.year == b.year && a.month == b.month && a.dom < b.dom)
  }

  /** `Timestamp.strftime('%Y-%m-%d')`. */
  function DayLabel(d: Day): (s: string)
    ensures |s| == 10
  {
    Pad(d.year, 4) + "-" + Pad(d.month, 2) + "-" + Pad(d.dom, 2)
  }

  /** `str(Timestamp)`: the day label, a space and the time as HH:MM:SS. */
  function StampLabel(d: Day, t: Second): string
  {
    DayLabel(d) + " " + Pad(t / 3600, 2) + ":" + Pad(t / 60 % 60, 2) + ":" + Pad(t % 60, 2)
  }

  /** Reading a `YYYY-MM-DD` string as a day (`pd.to_datetime` on such a string gives its midnight). */
  function ParseDayLabel(s: string): Option<Day>
  {
    if |s| == 10 && s[4] == '-' && s[7] == '-'
       && AllDigits(s[..4]) && AllDigits(s[5..7]) && AllDigits(s[8..])
    then
      var d := CivilDay(ReadDigits(s[..4]), ReadDigits(s[5..7]), ReadDigits(s[8..]));
      if ValidDay(d) then Some(d) else None
    else None
  }

  /** A string that is the label of some day. */
  predicate IsDayLabel(s: string)
  {
    ParseDayLabel(s).Some? && DayLabel(ParseDayLabel(s).value) == s
  }

  /** Reading back the label of a day gives that day. */
  lemma DayLabelRoundTrip(d: Day)
    ensures ParseDayLabel(DayLabel(d)) == Some(d)
    ensures IsDayLabel(DayLabel(d))
  {
    var s := DayLabel(d);
    assert s[..4] == Pad(d.year, 4);
    assert s[5..7] == Pad(d.month, 2);
    assert s[8..] == Pad(d.dom, 2);
    PadRoundTrip(d.year, 4);
    PadRoundTrip(d.month, 2);
    PadRoundTrip(d.dom, 2);
  }

  /** Two days with the same label are the same day. */
  lemma DayLabelInjective(a: Day, b: Day)
    requires DayLabel(a) == DayLabel(b)
    ensures a == b
  {
    DayLabelRoundTrip(a);
    DayLabelRoundTrip(b);
  }

  /** The string order of day labels is the chronological order of the days. */
  lemma DayLabelOrder(a: Day, b: Day)
    ensures StrLess(DayLabel(a), DayLabel(b)) <==> DayBefore(a, b)
  {
    var ya, yb := Pad(a.year, 4), Pad(b.year, 4);
    var ma, mb := Pad(a.month, 2), Pad(b.month, 2);
    var da, db := Pad(a.dom, 2), Pad(b.dom, 2);
    assert DayLabel(a) == ya + ("-" + ma + "-" + da);
    assert DayLabel(b) == yb + ("-" + mb + "-" + db);
    StrLessConcat(ya, "-" + ma + "-" + da, yb, "-" + mb + "-" + db);
    assert "-" + ma + "-" + da == "-" + (ma + ("-" + da));
    assert "-" + mb + "-" + db == "-" + (mb + ("-" + db));
    StrLessConcat("-", ma + ("-" + da), "-", mb + ("-" + db));
    StrLessIrreflexive("-");
    StrLessConcat(ma, "-" + da, mb, "-" + db);
    StrLessConcat("-", da, "-", db);
    PadOrder(a.year, b.year, 4);
    PadOrder(a.month, b.month, 2);
    PadOrder(a.dom, b.dom, 2);
    PadRoundTrip(a.year, 4);
    PadRoundTrip(b.year, 4);
    PadRoundTrip(a.month, 2);
    PadRoundTrip(b.month, 2);
  }
}
