/**
  The two text helpers of the experience timeline: the period label of an entry and the
  length of the engagement. A date is given by what the component reads from it: its month
  and full year (for the label) and its millisecond timestamp (for the length).
*/
module Experience {
  import opened Wrappers
  import opened Text

  /** A month as `Date.getMonth()` numbers it, January being 0. */
  type MonthIndex = m: nat | m < 12

  /** `toLocaleDateString('en-US', { month: 'short' })`, indexed by month. */
  const MonthNames: seq<string> := [
    "Jan", "Feb", "Mar", "Apr", "May", "Jun", "Jul", "Aug", "Sep", "Oct", "Nov", "Dec"
  ]

  /** The calendar month and year of a date. */
  datatype MonthYear = MonthYear(month: MonthIndex, year: nat)

  /** A parsed date: its calendar month and year, and its timestamp in milliseconds. */
  datatype Instant = Instant(date: MonthYear, time: int)

  /** An entry's `period`; no `end` is a current role. */
  datatype Period = Period(start: Instant, end: Option<Instant>)

  const EmDash: string := "\U{2014}"
  const Present: string := "PRESENT"

  function MonthName(m: MonthIndex): string {
    MonthNames[m]
  }

  /** `formatPeriod`, as the words of its template literal. */
  function PeriodWords(p: Period): seq<string> {
    var s := p.start.date;
    match p.end
    case None => [MonthName(s.month), NatToString(s.year), EmDash, Present]
    case Some(e) =>
      if s.year == e.date.year then [MonthName(s.month), EmDash, MonthName(e.date.month), NatToString(s.year)]
      else [MonthName(s.month), NatToString(s.year), EmDash, MonthName(e.date.month), NatToString(e.date.year)]
  }

  /** `formatPeriod`: the label shown on the timeline. */
  function FormatPeriod(p: Period): string {
    Unwords(PeriodWords(p))
  }

  /** The month whose short name is `name`, if any. */
  function MonthOf(name: string): (m: Option<MonthIndex>)
    ensures m.Some? ==> MonthName(m.value) == name
  {
    if name == "Jan" then Some(0) else if name == "Feb" then Some(1)
    else if name == "Mar" then Some(2) else if name == "Apr" then Some(3)
    else if name == "May" then Some(4) else if name == "Jun" then Some(5)
    else if name == "Jul" then Some(6) else if name == "Aug" then Some(7)
    else if name == "Sep" then Some(8) else if name == "Oct" then Some(9)
    else if name == "Nov" then Some(10) else if name == "Dec" then Some(11)
    else None
  }

  lemma MonthOfName(m: MonthIndex)
    ensures MonthOf(MonthName(m)) == Some(m)
  {
  }

  /** A year written in decimal digits. */
  function YearOf(w: string): Option<nat> {
    if w != "" && AllDigits(w) then Some(ParseNat(w)) else None
  }

  lemma YearOfString(y: nat)
    ensures YearOf(NatToString(y)) == Some(y)
  {
    ParseNatToString(y);
  }

  /**
    Reads a period label back into the start and end months it shows. Only the canonical form is
    accepted: a label naming both years must name two different ones.
  */
  function ParsePeriod(shown: string): Option<(MonthYear, Option<MonthYear>)> {
    var w := Split(shown, ' ');
    if |w| == 4 && w[2] == EmDash && w[3] == Present then
      var sm, sy := MonthOf(w[0]), YearOf(w[1]);
      if sm.Some? && sy.Some? then Some((MonthYear(sm.value, sy.value), None)) else None
    else if |w| == 4 && w[1] == EmDash then
      var sm, em, y := MonthOf(w[0]), MonthOf(w[2]), YearOf(w[3]);
      if sm.Some? && em.Some? && y.Some? then
        Some((MonthYear(sm.value, y.value), Some(MonthYear(em.value, y.value))))
      else None
    else if |w| == 5 && w[2] == EmDash then
      var sm, sy, em, ey := MonthOf(w[0]), YearOf(w[1]), MonthOf(w[3]), YearOf(w[4]);
      if sm.Some? && sy.Some? && em.Some? && ey.Some? && sy.value != ey.value then
        Some((MonthYear(sm.value, sy.value), Some(MonthYear(em.value, ey.value))))
      else None
    else None
  }

  /** A label naming the same year on both sides is not one `formatPeriod` produces, and it does not read back. */
  lemma SameYearLongFormRejected(sm: MonthIndex, em: MonthIndex, y: nat)
    ensures ParsePeriod(Unwords([MonthName(sm), NatToString(y), EmDash, MonthName(em), NatToString(y)])) == None
  {
    var ws := [MonthName(sm), NatToString(y), EmDash, MonthName(em), NatToString(y)];
    DigitsHaveNoSpace(NatToString(y));
    assert ' ' !in MonthName(sm) && ' ' !in MonthName(em);
    assert forall k :: 0 <= k < |ws| ==> ' ' !in ws[k];
    SplitUnwords(ws);
    MonthOfName(sm);
    MonthOfName(em);
    YearOfString(y);
  }

  /** The calendar months a period spans. */
  function Calendar(p: Period): (MonthYear, Option<MonthYear>) {
    (p.start.date, match p.end case None => None case Some(e) => Some(e.date))
  }

  lemma NoSpaceInWords(p: Period)
    ensures forall k :: 0 <= k < |PeriodWords(p)| ==> ' ' !in PeriodWords(p)[k]
  {
    var s := p.start.date;
    DigitsHaveNoSpace(NatToString(s.year));
    assert ' ' !in MonthName(s.month);
    if p.end.Some? {
      DigitsHaveNoSpace(NatToString(p.end.value.date.year));
      assert ' ' !in MonthName(p.end.value.date.month);
    }
  }

  /**
    The label determines the period's months and years: reading it back gives exactly the
    start and the end (or their absence). In particular a one-year label still names the year
    of both ends.
  */
  lemma ParseFormatPeriod(p: Period)
    ensures ParsePeriod(FormatPeriod(p)) == Some(Calendar(p))
  {
    var ws := PeriodWords(p);
    NoSpaceInWords(p);
    SplitUnwords(ws);
    var s := p.start.date;
    MonthOfName(s.month);
    YearOfString(s.year);
    assert ws[0] != EmDash && ws[0] != Present;
    if p.end.Some? {
      var e := p.end.value.date;
      MonthOfName(e.month);
      YearOfString(e.year);
      DigitsHaveNoSpace(NatToString(s.year));
      if s.year == e.year {
        assert ws[2] != Present;
      } else {
        assert ws[1] != EmDash by {
          assert AllDigits(ws[1]);
          assert IsDigit(ws[1][0]);
        }
      }
    }
  }

  /** The label ends in "— PRESENT" exactly when the period has no end date. */
  lemma PresentIffOngoing(p: Period)
    ensures (var w := Split(FormatPeriod(p), ' ');
             |w| >= 2 && w[|w| - 2] == EmDash && w[|w| - 1] == Present) <==> p.end.None?
  {
    NoSpaceInWords(p);
    SplitUnwords(PeriodWords(p));
    if p.end.Some? {
      var e := p.end.value.date;
      var y := NatToString(e.year);
      assert IsDigit(y[0]);
      assert y != Present;
    }
  }

  /** Milliseconds in a day, `1000 * 60 * 60 * 24`. */
  const MsPerDay: nat := 86400000

  function Abs(x: int): nat {
    if x < 0 then -x else x
  }

  /**
    `Math.ceil(Math.abs(end - start) / MsPerDay)`: the number of days, a started day counting
    as a whole one. It is the least count of whole days that covers the difference.
  */
  function DiffDays(startMs: int, endMs: int): (d: nat)
    ensures d * MsPerDay >= Abs(endMs - startMs)
    ensures d == 0 || (d - 1) * MsPerDay < Abs(endMs - startMs)
  {
    var diff := Abs(endMs - startMs);
    var q := (diff + MsPerDay - 1) / MsPerDay;
    assert diff + MsPerDay - 1 == q * MsPerDay + (diff + MsPerDay - 1) % MsPerDay;
    q
  }

  /** Which end comes first does not matter. */
  lemma DiffDaysSymmetric(a: int, b: int)
    ensures DiffDays(a, b) == DiffDays(b, a)
  {
    assert Abs(b - a) == Abs(a - b);
  }

  /** A count and its unit, singular for 0 and 1 and plural above. */
  function CountWords(n: nat, unit: string): seq<string> {
    [NatToString(n), unit + (if n > 1 then "s" else "")]
  }

  /** `getDuration` on the day count, as the words of its template literals. */
  function DurationWords(days: nat): seq<string> {
    var months := days / 30;
    var years := months / 12;
    if years > 0 then
      var remainingMonths := months % 12;
      if remainingMonths > 0 then CountWords(years, "year") + CountWords(remainingMonths, "month")
      else CountWords(years, "year")
    else if months > 0 then CountWords(months, "month")
    else CountWords(days, "day")
  }

  /** `getDuration`: how long the engagement has lasted, up to `nowMs` when it has no end. */
  function GetDuration(p: Period, nowMs: int): string {
    var endMs := match p.end case None => nowMs case Some(e) => e.time;
    Unwords(DurationWords(DiffDays(p.start.time, endMs)))
  }

  /** What a duration shows, in years, remaining months and days. */
  datatype Span = Span(years: nat, months: nat, days: nat)

  /**
    The largest units the day count fills: whole years of twelve 30-day months with the months
    left over, else whole months, else the days. Nothing smaller than the largest unit is shown
    beside it, and the shown amount is rounded down.
  */
  function Shown(days: nat): (s: Span)
    ensures s.years > 0 ==>
      (s.days == 0 && s.months < 12 && 360 * s.years + 30 * s.months <= days < 360 * s.years + 30 * (s.months + 1))
    ensures s.years == 0 && s.months > 0 ==> s.days == 0 && 30 * s.months <= days < 30 * (s.months + 1) && days < 360
    ensures s.years == 0 && s.months == 0 ==> s.days == days && days < 30
  {
    var months := days / 30;
    var years := months / 12;
    if years > 0 then Span(years, months % 12, 0)
    else if months > 0 then Span(0, months, 0)
    else Span(0, 0, days)
  }

  /** Reads "N unit" back, accepting the plural form exactly when N is above 1. */
  function ReadCount(count: string, word: string, unit: string): Option<nat> {
    match YearOf(count)
    case None => None
    case Some(n) => if word == unit + (if n > 1 then "s" else "") then Some(n) else None
  }

  /**
    Reads a duration back into the span it shows. Only the canonical form is accepted: a year or
    month count is never 0, since a unit with nothing to count is left out of the text.
  */
  function ParseDuration(text: string): Option<Span> {
    var w := Split(text, ' ');
    if |w| == 4 then
      var y, m := ReadCount(w[0], w[1], "year"), ReadCount(w[2], w[3], "month");
      if y.Some? && m.Some? && y.value > 0 && m.value > 0 then Some(Span(y.value, m.value, 0)) else None
    else if |w| == 2 then
      var y, m, d := ReadCount(w[0], w[1], "year"), ReadCount(w[0], w[1], "month"), ReadCount(w[0], w[1], "day");
      if y.Some? && y.value > 0 then Some(Span(y.value, 0, 0))
      else if m.Some? && m.value > 0 then Some(Span(0, m.value, 0))
      else if d.Some? then Some(Span(0, 0, d.value))
      else None
    else None
  }

  lemma ReadCountWords(n: nat, unit: string)
    ensures ReadCount(CountWords(n, unit)[0], CountWords(n, unit)[1], unit) == Some(n)
  {
    YearOfString(n);
  }

  /** A count written with one unit does not read as a count of a unit with another initial. */
  lemma ReadCountOtherUnit(n: nat, unit: string, other: string)
    requires unit != "" && other != "" && unit[0] != other[0]
    ensures ReadCount(CountWords(n, unit)[0], CountWords(n, unit)[1], other) == None
  {
    var w := CountWords(n, unit)[1];
    assert w[0] == unit[0];
    YearOfString(n);
    var suffix := if n > 1 then "s" else "";
    assert (other + suffix)[0] == other[0];
  }

  lemma CountWordsNoSpace(n: nat, unit: string)
    requires ' ' !in unit
    ensures forall k :: 0 <= k < 2 ==> ' ' !in CountWords(n, unit)[k]
  {
    DigitsHaveNoSpace(NatToString(n));
  }

  /** A single count and unit splits into its two words. */
  lemma SplitCount(n: nat, unit: string)
    requires ' ' !in unit
    ensures Split(Unwords(CountWords(n, unit)), ' ') == CountWords(n, unit)
  {
    CountWordsNoSpace(n, unit);
    SplitUnwords(CountWords(n, unit));
  }

  /**
    The duration text reads back as exactly the span `Shown` describes, with every unit
    pluralised exactly when its count is above 1.
  */
  lemma ParseDurationWords(days: nat)
    ensures ParseDuration(Unwords(DurationWords(days))) == Some(Shown(days))
  {
    var months := days / 30;
    var years := months / 12;
    if years > 0 {
      if months % 12 > 0 {
        ParseYearsAndMonths(years, months % 12);
      } else {
        SplitCount(years, "year");
        ReadCountWords(years, "year");
      }
    } else if months > 0 {
      SplitCount(months, "month");
      ReadCountWords(months, "month");
      ReadCountOtherUnit(months, "month", "year");
    } else {
      SplitCount(days, "day");
      ReadCountWords(days, "day");
      ReadCountOtherUnit(days, "day", "year");
      ReadCountOtherUnit(days, "day", "month");
    }
  }

  /** Years and months, as four words, split back into those words. */
  lemma SplitYearsAndMonths(years: nat, months: nat)
    ensures var ws := CountWords(years, "year") + CountWords(months, "month");
      Split(Unwords(ws), ' ') == ws
  {
    var ws := CountWords(years, "year") + CountWords(months, "month");
    CountWordsNoSpace(years, "year");
    CountWordsNoSpace(months, "month");
    assert forall k :: 0 <= k < |ws| ==> ' ' !in ws[k] by {
      forall k | 0 <= k < |ws| ensures ' ' !in ws[k] {
        if k >= 2 { assert ws[k] == CountWords(months, "month")[k - 2]; }
      }
    }
    SplitUnwords(ws);
  }

  /** The two-unit form, which the duration takes only when both counts are positive. */
  lemma ParseYearsAndMonths(years: nat, months: nat)
    requires years > 0 && months > 0
    ensures ParseDuration(Unwords(CountWords(years, "year") + CountWords(months, "month"))) == Some(Span(years, months, 0))
  {
    SplitYearsAndMonths(years, months);
    ReadCountWords(years, "year");
    ReadCountWords(months, "month");
  }

  /** A year or month count of 0 is never shown, and text showing one does not read back. */
  lemma ZeroCountsRejected(n: nat)
    ensures ParseDuration(Unwords(CountWords(n, "year") + CountWords(0, "month"))) == None
    ensures ParseDuration(Unwords(CountWords(0, "year") + CountWords(n, "month"))) == None
    ensures ParseDuration(Unwords(CountWords(0, "year"))) == None
    ensures ParseDuration(Unwords(CountWords(0, "month"))) == None
  {
    SplitYearsAndMonths(n, 0);
    SplitYearsAndMonths(0, n);
    ReadCountWords(0, "year");
    ReadCountWords(0, "month");
    SplitCount(0, "year");
    ReadCountOtherUnit(0, "year", "month");
    ReadCountOtherUnit(0, "year", "day");
    SplitCount(0, "month");
    ReadCountOtherUnit(0, "month", "year");
    ReadCountOtherUnit(0, "month", "day");
  }

  /** The duration shows the span of the period's day count, whichever end comes first. */
  lemma GetDurationShows(p: Period, nowMs: int)
    ensures var endMs := match p.end case None => nowMs case Some(e) => e.time;
      ParseDuration(GetDuration(p, nowMs)) == Some(Shown(DiffDays(p.start.time, endMs)))
  {
    var endMs := match p.end case None => nowMs case Some(e) => e.time;
    ParseDurationWords(DiffDays(p.start.time, endMs));
  }
}
