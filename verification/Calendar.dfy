/** Dates, times and starts as text (src/booking_mcp/validation.py and the datetime calls of
    src/booking_mcp/queries.py).  The date form is that of RFC 3339 section 5.6, the leap
    year rule that of its appendix C. */
module Calendar {
  import opened Schema
  import opened Text

  /** A proleptic Gregorian date; `IsDate` does not bound the year from above, `Representable` does. */
  datatype Date = Date(year: nat, month: nat, day: nat)

  predicate IsLeap(y: nat) {
    y % 4 == 0 && (y % 100 != 0 || y % 400 == 0)
  }

  function DaysInMonth(y: nat, m: nat): nat {
    if m == 2 then (if IsLeap(y) then 29 else 28)
    else if m == 4 || m == 6 || m == 9 || m == 11 then 30
    else 31
  }

  predicate IsDate(d: Date) {
    d.year >= 1 && 1 <= d.month <= 12 && 1 <= d.day <= DaysInMonth(d.year, d.month)
  }

  predicate Representable(d: Date) {
    IsDate(d) && d.year <= 9999
  }

  // ----- day numbers -------------------------------------------------------------

  function NextDay(d: Date): Date {
    if d.day < DaysInMonth(d.year, d.month) then Date(d.year, d.month, d.day + 1)
    else if d.month < 12 then Date(d.year, d.month + 1, 1)
    else Date(d.year + 1, 1, 1)
  }

  function DaysBeforeYear(y: nat): int
    requires y >= 1
  {
    365 * (y - 1) + (y - 1) / 4 - (y - 1) / 100 + (y - 1) / 400
  }

  function DaysBeforeMonth(y: nat, m: nat): nat
    requires m >= 1
  {
    if m == 1 then 0 else DaysBeforeMonth(y, m - 1) + DaysInMonth(y, m - 1)
  }

  /** The closed form: 0001-01-01 is day 1. */
  function DayNumber(d: Date): int
    requires IsDate(d)
  {
    DaysBeforeYear(d.year) + DaysBeforeMonth(d.year, d.month) + d.day
  }

  lemma MonthsBeforeDecember(y: nat)
    ensures DaysBeforeMonth(y, 12) == if IsLeap(y) then 335 else 334
  {
    var february := DaysInMonth(y, 2);
    assert DaysBeforeMonth(y, 2) == 31;
    assert DaysBeforeMonth(y, 3) == 31 + february;
    assert DaysBeforeMonth(y, 4) == 62 + february;
    assert DaysBeforeMonth(y, 5) == 92 + february;
    assert DaysBeforeMonth(y, 6) == 123 + february;
    assert DaysBeforeMonth(y, 7) == 153 + february;
    assert DaysBeforeMonth(y, 8) == 184 + february;
    assert DaysBeforeMonth(y, 9) == 215 + february;
    assert DaysBeforeMonth(y, 10) == 245 + february;
    assert DaysBeforeMonth(y, 11) == 276 + february;
  }

  lemma QuarterStep(n: nat)
    requires n >= 1
    ensures n / 4 == (n - 1) / 4 + if n % 4 == 0 then 1 else 0
  {
  }

  lemma CenturyStep(n: nat)
    requires n >= 1
    ensures n / 100 == (n - 1) / 100 + if n % 100 == 0 then 1 else 0
    ensures n % 100 == 0 ==> n % 4 == 0
  {
    if n % 100 == 0 {
      QuarterOf(n, 25 * (n / 100));
    }
  }

  lemma QuarterOf(n: nat, k: nat)
    requires n == 4 * k
    ensures n % 4 == 0
  {
  }

  lemma CenturyOf(n: nat, k: nat)
    requires n == 100 * k
    ensures n % 100 == 0
  {
  }

  lemma CycleStep(n: nat)
    requires n >= 1
    ensures n / 400 == (n - 1) / 400 + if n % 400 == 0 then 1 else 0
    ensures n % 400 == 0 ==> n % 100 == 0
  {
    if n % 400 == 0 {
      CenturyOf(n, 4 * (n / 400));
    }
  }

  lemma YearLength(y: nat)
    requires y >= 1
    ensures DaysBeforeMonth(y, 12) + 31 == if IsLeap(y) then 366 else 365
    ensures DaysBeforeYear(y + 1) == DaysBeforeYear(y) + DaysBeforeMonth(y, 12) + 31
  {
    MonthsBeforeDecember(y);
    QuarterStep(y);
    CenturyStep(y);
    CycleStep(y);
  }

  /** The closed form counts the days one by one. */
  lemma NextDayNumber(d: Date)
    requires IsDate(d)
    ensures IsDate(NextDay(d)) && DayNumber(NextDay(d)) == DayNumber(d) + 1
  {
    YearLength(d.year);
  }

  /** The days of the year on which the months begin, in full. */
  lemma MonthStarts(y: nat)
    requires y >= 1
    ensures var first, leap := DayNumber(Date(y, 1, 1)), if y % 4 == 0 && (y % 100 != 0 || y % 400 == 0) then 1 else 0;
            && DayNumber(Date(y, 2, 1)) - first == 31
            && DayNumber(Date(y, 3, 1)) - first == 59 + leap
            && DayNumber(Date(y, 4, 1)) - first == 90 + leap
            && DayNumber(Date(y, 5, 1)) - first == 120 + leap
            && DayNumber(Date(y, 6, 1)) - first == 151 + leap
            && DayNumber(Date(y, 7, 1)) - first == 181 + leap
            && DayNumber(Date(y, 8, 1)) - first == 212 + leap
            && DayNumber(Date(y, 9, 1)) - first == 243 + leap
            && DayNumber(Date(y, 10, 1)) - first == 273 + leap
            && DayNumber(Date(y, 11, 1)) - first == 304 + leap
            && DayNumber(Date(y, 12, 1)) - first == 334 + leap
            && DayNumber(Date(y + 1, 1, 1)) - first == 365 + leap
    ensures DayNumber(Date(1, 1, 1)) == 1
  {
    YearLength(y);
    DaysBefore(y);
  }

  lemma DaysBefore(y: nat)
    ensures var leap := if y % 4 == 0 && (y % 100 != 0 || y % 400 == 0) then 1 else 0;
            && DaysBeforeMonth(y, 1) == 0
            && DaysBeforeMonth(y, 2) == 31
            && DaysBeforeMonth(y, 3) == 59 + leap
            && DaysBeforeMonth(y, 4) == 90 + leap
            && DaysBeforeMonth(y, 5) == 120 + leap
            && DaysBeforeMonth(y, 6) == 151 + leap
            && DaysBeforeMonth(y, 7) == 181 + leap
            && DaysBeforeMonth(y, 8) == 212 + leap
            && DaysBeforeMonth(y, 9) == 243 + leap
            && DaysBeforeMonth(y, 10) == 273 + leap
            && DaysBeforeMonth(y, 11) == 304 + leap
            && DaysBeforeMonth(y, 12) == 334 + leap
  {
    MonthsBeforeDecember(y);
  }

  /** Which dates exist, in full. */
  lemma DatesExist(y: nat, m: nat, d: nat)
    ensures IsDate(Date(y, m, d)) <==>
              y >= 1 && d >= 1 &&
              match m
              case 1 => d <= 31
              case 2 => d <= 28 || (d == 29 && y % 4 == 0 && (y % 100 != 0 || y % 400 == 0))
              case 3 => d <= 31
              case 4 => d <= 30
              case 5 => d <= 31
              case 6 => d <= 30
              case 7 => d <= 31
              case 8 => d <= 31
              case 9 => d <= 30
              case 10 => d <= 31
              case 11 => d <= 30
              case 12 => d <= 31
              case _ => false
  {
  }

  /** The date of a day number, by counting from 0001-01-01. */
  function FromDay(n: nat): (d: Date)
    requires n >= 1
    ensures IsDate(d) && DayNumber(d) == n
  {
    if n == 1 then Date(1, 1, 1) else (NextDayNumber(FromDay(n - 1)); NextDay(FromDay(n - 1)))
  }

  predicate Earlier(a: Date, b: Date) {
    || a.year < b.year
    || (a.year == b.year && (a.month < b.month || (a.month == b.month && a.day < b.day)))
  }

  lemma {:induction false} MonthsAddUp(y: nat, m: nat, n: nat)
    requires 1 <= m < n
    ensures DaysBeforeMonth(y, m) + DaysInMonth(y, m) <= DaysBeforeMonth(y, n)
    decreases n
  {
    if m == n - 1 {
    } else {
      MonthsAddUp(y, m, n - 1);
    }
  }

  lemma {:induction false} YearsAddUp(y: nat, z: nat)
    requires 1 <= y < z
    ensures DaysBeforeYear(y + 1) <= DaysBeforeYear(z)
    decreases z
  {
    if y + 1 == z {
    } else {
      YearsAddUp(y, z - 1);
      YearLength(z - 1);
    }
  }

  lemma DayNumberOrder(a: Date, b: Date)
    requires IsDate(a) && IsDate(b)
    ensures DayNumber(a) < DayNumber(b) <==> Earlier(a, b)
    ensures DayNumber(a) == DayNumber(b) <==> a == b
  {
    EarlierDay(a, b);
    EarlierDay(b, a);
  }

  lemma EarlierDay(a: Date, b: Date)
    requires IsDate(a) && IsDate(b)
    ensures Earlier(a, b) ==> DayNumber(a) < DayNumber(b)
  {
    if a.year < b.year {
      YearsAddUp(a.year, b.year);
      YearLength(a.year);
      if a.month < 12 {
        MonthsAddUp(a.year, a.month, 12);
      }
    } else if a.year == b.year && a.month < b.month {
      MonthsAddUp(a.year, a.month, b.month);
    }
  }

  /** The two directions are inverse. */
  lemma FromDayOfNumber(d: Date)
    requires IsDate(d)
    ensures DayNumber(d) >= 1 && FromDay(DayNumber(d)) == d
  {
    DayNumberOrder(Date(1, 1, 1), d);
    DayNumberOrder(FromDay(DayNumber(d)), d);
  }

  const MAX_DAY: nat := 3652059

  /** The last representable day is 9999-12-31. */
  lemma LastDay(d: Date)
    requires IsDate(d)
    ensures Representable(d) <==> DayNumber(d) <= MAX_DAY
  {
    DayNumberOrder(Date(9999, 12, 31), d);
    YearLength(9999);
    assert DayNumber(Date(9999, 12, 31)) == MAX_DAY;
  }

  /** date + timedelta(days): None stands for the OverflowError past 9999-12-31. */
  function AddDays(d: Date, days: nat): (r: Option<Date>)
    requires IsDate(d)
    ensures r.Some? <==> DayNumber(d) + days <= MAX_DAY
    ensures r.Some? ==> Representable(r.value) && DayNumber(r.value) == DayNumber(d) + days
  {
    FromDayOfNumber(d);
    var n := DayNumber(d) + days;
    if n <= MAX_DAY then (LastDay(FromDay(n)); Some(FromDay(n))) else None
  }

  // ----- dates as text -----------------------------------------------------------

  function FormatDate(d: Date): (s: string)
    ensures |s| == 10
  {
    Triple(d.year, d.month, d.day, 4, '-')
  }

  /** date.fromisoformat on the form YYYY-MM-DD. */
  function ParseDate(s: string): (r: Option<Date>)
    ensures r.Some? ==> Representable(r.value)
  {
    if !TripleShaped(s, 4, '-') then None
    else
      var d := Date(Value(s[..4]), Value(s[5..7]), Value(s[8..]));
      if Representable(d) then Some(d) else None
  }

  /** Printing a date and reading it back. */
  lemma ParseOfFormat(d: Date)
    requires Representable(d)
    ensures ParseDate(FormatDate(d)) == Some(d)
  {
    assert Pow10(4) == 10000;
    TripleParts(d.year, d.month, d.day, 4, '-');
  }

  /** A date that reads is the printed form of what was read. */
  lemma FormatOfParse(s: string)
    requires ParseDate(s).Some?
    ensures FormatDate(ParseDate(s).value) == s
  {
    TripleOfParts(s, 4, '-');
  }

  /** A text reads as a date exactly when it is its year in four digits, its month in two and its
      day in two, with hyphens between them. */
  lemma DateReads(s: string, d: Date)
    ensures ParseDate(s) == Some(d) <==>
              Representable(d) && s == Pad(d.year, 4) + "-" + Pad(d.month, 2) + "-" + Pad(d.day, 2)
  {
    assert FormatDate(d) == Pad(d.year, 4) + "-" + Pad(d.month, 2) + "-" + Pad(d.day, 2);
    if ParseDate(s) == Some(d) {
      FormatOfParse(s);
    }
    if Representable(d) {
      ParseOfFormat(d);
    }
  }

  /** Printed dates sort as the dates do. */
  lemma DateOrder(d: Date, e: Date)
    requires Representable(d) && Representable(e)
    ensures Before(FormatDate(d), FormatDate(e)) <==> Earlier(d, e)
    ensures FormatDate(d) == FormatDate(e) <==> d == e
  {
    assert Pow10(4) == 10000;
    TripleOrder(d.year, d.month, d.day, e.year, e.month, e.day, 4, '-');
    ParseOfFormat(d);
    ParseOfFormat(e);
  }

  /** A pattern ending in `$` also matches before one final newline. */
  function ChopNewline(v: string): string {
    if v != "" && v[|v| - 1] == '\n' then v[..|v| - 1] else v
  }

  /** _valid_date accepts `v`: the pattern matches and date.fromisoformat reads it. */
  predicate ValidDate(v: string) {
    TripleShaped(ChopNewline(v), 4, '-') && ParseDate(v).Some?
  }

  predicate TimeShaped(s: string) {
    |s| == 5 && AllDigits(s[..2]) && s[2] == ':' && AllDigits(s[3..])
  }

  /** _valid_time accepts `v`: the pattern matches, and so do the ranges of the two numbers;
      int() ignores a final newline. */
  predicate ValidTime(v: string) {
    var s := ChopNewline(v);
    TimeShaped(s) && Value(s[..2]) <= 23 && Value(s[3..]) <= 59
  }

  /** _valid_date accepts exactly the dates of the years 1 to 9999 in that form. */
  lemma ValidDateMeans(v: string)
    ensures ValidDate(v) <==>
              exists d: Date :: Representable(d) && v == Pad(d.year, 4) + "-" + Pad(d.month, 2) + "-" + Pad(d.day, 2)
  {
    if ValidDate(v) {
      DateReads(v, ParseDate(v).value);
    }
    forall d: Date | Representable(d) && v == Pad(d.year, 4) + "-" + Pad(d.month, 2) + "-" + Pad(d.day, 2)
      ensures ValidDate(v)
    {
      DateReads(v, d);
      assert IsDigit(v[9]);
    }
  }

  /** _valid_time accepts exactly the minutes of the day in that form, with or without a newline
      behind. */
  lemma ValidTimeMeans(v: string)
    ensures ValidTime(v) <==> exists h: nat, m: nat | h < 24 && m < 60 ::
                                v == Pad(h, 2) + ":" + Pad(m, 2) || v == Pad(h, 2) + ":" + Pad(m, 2) + "\n"
  {
    if ValidTime(v) {
      TimeOfText(v);
    }
    forall h: nat, m: nat | h < 24 && m < 60 &&
        (v == Pad(h, 2) + ":" + Pad(m, 2) || v == Pad(h, 2) + ":" + Pad(m, 2) + "\n")
      ensures ValidTime(v)
    {
      TextOfTime(v, h, m);
    }
  }

  lemma TimeOfText(v: string)
    requires ValidTime(v)
    ensures var s := ChopNewline(v); var h, m := Value(s[..2]), Value(s[3..]);
            && h < 24 && m < 60 && s == Pad(h, 2) + ":" + Pad(m, 2) && (v == s || v == s + "\n")
  {
    var s := ChopNewline(v);
    PadOfValue(s[..2]);
    PadOfValue(s[3..]);
    assert s == s[..2] + ":" + s[3..];
  }

  lemma TextOfTime(v: string, h: nat, m: nat)
    requires h < 24 && m < 60 && (v == Pad(h, 2) + ":" + Pad(m, 2) || v == Pad(h, 2) + ":" + Pad(m, 2) + "\n")
    ensures ValidTime(v) && Value(ChopNewline(v)[..2]) == h && Value(ChopNewline(v)[3..]) == m
  {
    var s := Pad(h, 2) + ":" + Pad(m, 2);
    assert IsDigit(s[4]);
    assert ChopNewline(v) == s;
    assert Pow10(2) == 100;
    ValueOfPad(h, 2);
    ValueOfPad(m, 2);
    assert s[..2] == Pad(h, 2) && s[3..] == Pad(m, 2);
  }

  // ----- times of day --------------------------------------------------------------

  const DAY: nat := 86400

  function Seconds(h: nat, m: nat, sec: nat): nat {
    h * 3600 + m * 60 + sec
  }

  /** The time of day of HH:MM:SS, in seconds. */
  function ParseClock(s: string): (r: Option<nat>)
    ensures r.Some? ==> r.value < DAY
  {
    if !TripleShaped(s, 2, ':') then None
    else
      var h, m, sec := Value(s[..2]), Value(s[3..5]), Value(s[6..]);
      if h < 24 && m < 60 && sec < 60 then Some(Seconds(h, m, sec)) else None
  }

  function FormatClock(t: nat): (s: string)
    ensures |s| == 8
  {
    Triple(t / 3600, t / 60 % 60, t % 60, 2, ':')
  }

  lemma ClockFields(h: nat, m: nat, sec: nat)
    requires m < 60 && sec < 60
    ensures var t := Seconds(h, m, sec); t / 3600 == h && t / 60 % 60 == m && t % 60 == sec
  {
    var t := Seconds(h, m, sec);
    assert t / 60 == h * 60 + m;
  }

  lemma FieldsOfClock(t: nat)
    requires t < DAY
    ensures t / 3600 < 24 && Seconds(t / 3600, t / 60 % 60, t % 60) == t
  {
    assert t / 3600 == t / 60 / 60;
  }

  lemma ParseOfClock(t: nat)
    requires t < DAY
    ensures ParseClock(FormatClock(t)) == Some(t)
  {
    assert Pow10(2) == 100;
    FieldsOfClock(t);
    TripleParts(t / 3600, t / 60 % 60, t % 60, 2, ':');
  }

  lemma FormatOfClock(s: string)
    requires ParseClock(s).Some?
    ensures FormatClock(ParseClock(s).value) == s
  {
    TripleOfParts(s, 2, ':');
    ClockFields(Value(s[..2]), Value(s[3..5]), Value(s[6..]));
  }

  lemma SecondsOrder(h: nat, m: nat, sec: nat, h': nat, m': nat, sec': nat)
    requires m < 60 && sec < 60 && m' < 60 && sec' < 60
    ensures Seconds(h, m, sec) < Seconds(h', m', sec') <==> h < h' || (h == h' && (m < m' || (m == m' && sec < sec')))
  {
  }

  lemma ClockOrder(s: nat, t: nat)
    requires s < DAY && t < DAY
    ensures Before(FormatClock(s), FormatClock(t)) <==> s < t
  {
    assert Pow10(2) == 100;
    FieldsOfClock(s);
    FieldsOfClock(t);
    TripleOrder(s / 3600, s / 60 % 60, s % 60, t / 3600, t / 60 % 60, t % 60, 2, ':');
    SecondsOrder(s / 3600, s / 60 % 60, s % 60, t / 3600, t / 60 % 60, t % 60);
  }

  // ----- starts ------------------------------------------------------------------

  /** The instant `c` seconds into day `n`. */
  function InstantAt(n: nat, c: nat): (i: Instant)
    requires 1 <= n <= MAX_DAY && c < DAY
    ensures InRange(i)
  {
    (n - 1) * DAY + c
  }

  /** The instants that a datetime can represent. */
  predicate InRange(i: Instant) {
    0 <= i < MAX_DAY * DAY
  }

  function DayOf(i: Instant): (n: nat)
    requires InRange(i)
    ensures 1 <= n <= MAX_DAY
  {
    i / DAY + 1
  }

  function DateOf(i: Instant): (d: Date)
    requires InRange(i)
    ensures Representable(d) && DayNumber(d) == DayOf(i)
  {
    LastDay(FromDay(DayOf(i)));
    FromDay(DayOf(i))
  }

  lemma InstantParts(n: nat, c: nat)
    requires 1 <= n <= MAX_DAY && c < DAY
    ensures DayOf(InstantAt(n, c)) == n && InstantAt(n, c) % DAY == c
  {
  }

  lemma PartsOfInstant(i: Instant)
    requires InRange(i)
    ensures InstantAt(DayOf(i), i % DAY) == i
  {
  }

  /** datetime.fromisoformat on the form YYYY-MM-DD?HH:MM:SS, with any separator. */
  function ParseDateTime(s: string): (r: Option<Instant>)
    ensures r.Some? ==> InRange(r.value)
  {
    if |s| != 19 then None
    else
      var d, c := ParseDate(s[..10]), ParseClock(s[11..]);
      if d.None? || c.None? then None
      else
        (FromDayOfNumber(d.value); LastDay(d.value);
         Some(InstantAt(DayNumber(d.value), c.value)))
  }

  /** The start of the slot that the callers name by date and time. */
  function StartOf(date: string, time: string): (r: Option<Instant>)
    ensures r.Some? ==> InRange(r.value)
  {
    ParseDateTime(date + " " + time + ":00")
  }

  /** The start of a slot, in seconds: its date's days, its hours and its minutes. */
  lemma StartIsInstant(d: Date, h: nat, m: nat, date: string, time: string)
    requires ParseDate(date) == Some(d) && h < 24 && m < 60 && time == Pad(h, 2) + ":" + Pad(m, 2)
    ensures StartOf(date, time) == Some((DayNumber(d) - 1) * 86400 + h * 3600 + m * 60)
  {
    DayInRange(d);
    TimeReadsAs(time, h, m);
    StartOfParts(date, time, d, h * 3600 + m * 60);
  }

  lemma DayInRange(d: Date)
    requires Representable(d)
    ensures 1 <= DayNumber(d) <= MAX_DAY
  {
    FromDayOfNumber(d);
    LastDay(d);
  }

  lemma StartOfParts(date: string, time: string, d: Date, c: nat)
    requires ParseDate(date) == Some(d) && |time| == 5 && ParseClock(time + ":00") == Some(c)
    requires 1 <= DayNumber(d) <= MAX_DAY
    ensures StartOf(date, time) == Some((DayNumber(d) - 1) * 86400 + c)
  {
    var s := date + " " + time + ":00";
    assert s[..10] == date && s[11..] == time + ":00";
    ParsedParts(s, ParseDate(date), ParseClock(time + ":00"), d, c);
    InstantIs(DayNumber(d), c);
  }

  lemma ParsedParts(s: string, date: Option<Date>, clock: Option<nat>, d: Date, c: nat)
    requires |s| == 19 && date == ParseDate(s[..10]) && clock == ParseClock(s[11..])
    requires date == Some(d) && clock == Some(c) && 1 <= DayNumber(d) <= MAX_DAY
    ensures ParseDateTime(s) == Some(InstantAt(DayNumber(d), c))
  {
  }

  lemma InstantIs(n: nat, c: nat)
    requires 1 <= n <= MAX_DAY && c < DAY
    ensures InstantAt(n, c) == (n - 1) * 86400 + c
  {
  }

  lemma TimeReadsAs(time: string, h: nat, m: nat)
    requires h < 24 && m < 60 && time == Pad(h, 2) + ":" + Pad(m, 2)
    ensures |time| == 5 && ParseClock(time + ":00") == Some(h * 3600 + m * 60)
  {
    ClockText(h, m);
    TripleReads(time + ":00", h, m);
  }

  lemma TripleReads(t: string, h: nat, m: nat)
    requires h < 24 && m < 60 && t == Triple(h, m, 0, 2, ':')
    ensures ParseClock(t) == Some(h * 3600 + m * 60)
  {
    ClockFields(h, m, 0);
    ParseOfClock(h * 3600 + m * 60);
  }

  lemma ClockText(h: nat, m: nat)
    ensures Pad(h, 2) + ":" + Pad(m, 2) + ":00" == Triple(h, m, 0, 2, ':')
  {
    assert Pad(0, 1) == "0" && Pad(0, 2) == "00";
    Regroup(Pad(h, 2), Pad(m, 2), "00");
  }

  lemma Regroup(p: string, q: string, r: string)
    ensures p + ":" + q + (":" + r) == p + ([':'] + (q + ([':'] + r)))
  {
  }

  /** The date as strftime prints it: whether a short year is padded depends on the platform. */
  function DateText(d: Date, pads: bool): string
    requires Representable(d)
  {
    Triple(d.year, d.month, d.day,
           if pads || d.year >= 1000 then 4 else if d.year >= 100 then 3 else if d.year >= 10 then 2 else 1, '-')
  }

  lemma {:induction false} FirstDigit(n: nat, w: nat)
    requires w >= 1 && Pow10(w - 1) <= n < Pow10(w)
    ensures Pad(n, w)[0] != '0'
    decreases w
  {
    if w == 1 {
      assert Pad(n, 1) == [Digit(n)];
    } else {
      FirstDigit(n / 10, w - 1);
    }
  }

  /** Without padding, the year is printed in decimal without leading zeros. */
  lemma YearText(d: Date)
    requires Representable(d)
    ensures var s := DateText(d, false); var w := |s| - 6;
            && 1 <= w <= 4 && AllDigits(s[..w]) && Value(s[..w]) == d.year && s[0] != '0'
            && s[w..] == "-" + Pad(d.month, 2) + "-" + Pad(d.day, 2)
  {
    var w := |DateText(d, false)| - 6;
    assert Pow10(0) == 1 && Pow10(1) == 10 && Pow10(2) == 100 && Pow10(3) == 1000 && Pow10(4) == 10000;
    FirstDigit(d.year, w);
    ValueOfPad(d.year, w);
    assert DateText(d, false)[..w] == Pad(d.year, w);
  }

  /** strftime("%Y-%m-%d %H:%M:%S"). */
  function FormatStart(i: Instant, pads: bool): string
    requires InRange(i)
  {
    DateText(DateOf(i), pads) + (" " + FormatClock(i % DAY))
  }

  lemma StartParts(s: string)
    requires ParseDateTime(s).Some?
    ensures var i := ParseDateTime(s).value;
            && ParseDate(s[..10]) == Some(DateOf(i)) && FormatDate(DateOf(i)) == s[..10]
            && FormatClock(i % DAY) == s[11..]
  {
    var d, c := ParseDate(s[..10]).value, ParseClock(s[11..]).value;
    FromDayOfNumber(d);
    LastDay(d);
    InstantParts(DayNumber(d), c);
    FormatOfParse(s[..10]);
    FormatOfClock(s[11..]);
  }

  lemma DateTextWidth(d: Date, pads: bool)
    requires Representable(d)
    ensures if pads || d.year >= 1000 then DateText(d, pads) == FormatDate(d) else |DateText(d, pads)| < 10
  {
  }

  /** Reading a start and printing it gives the text back, with a space as separator,
      exactly when the year is printed with four digits. */
  lemma StartRoundTrip(s: string, pads: bool)
    requires ParseDateTime(s).Some?
    ensures var i := ParseDateTime(s).value;
            FormatStart(i, pads) == s[..10] + (" " + s[11..]) <==> pads || DateOf(i).year >= 1000
  {
    StartParts(s);
    var i := ParseDateTime(s).value;
    DateTextWidth(DateOf(i), pads);
    LongerText(DateText(DateOf(i), pads), s[..10], " " + FormatClock(i % DAY), " " + s[11..]);
  }

  lemma LongerText(a: string, b: string, c: string, d: string)
    requires |c| == |d|
    ensures |a| < |b| ==> a + c != b + d
  {
    assert |a + c| == |a| + |c| && |b + d| == |b| + |d|;
  }

  /** Printing a start with a four-digit year and reading it back. */
  lemma ParseOfStart(i: Instant, pads: bool)
    requires InRange(i) && (pads || DateOf(i).year >= 1000)
    ensures ParseDateTime(FormatStart(i, pads)) == Some(i)
  {
    DateTextWidth(DateOf(i), pads);
    ParseOfFormat(DateOf(i));
    ParseOfClock(i % DAY);
    PartsOfInstant(i);
    ParseOfParts(DateOf(i), i % DAY);
  }

  lemma ParseOfParts(d: Date, c: nat)
    requires Representable(d) && c < DAY && ParseDate(FormatDate(d)) == Some(d) && ParseClock(FormatClock(c)) == Some(c)
    ensures 1 <= DayNumber(d) <= MAX_DAY
    ensures ParseDateTime(FormatDate(d) + (" " + FormatClock(c))) == Some(InstantAt(DayNumber(d), c))
  {
    var a, b := FormatDate(d), FormatClock(c);
    var s := a + (" " + b);
    assert s[..10] == a && s[11..] == b;
    FromDayOfNumber(d);
    LastDay(d);
  }

  lemma ReadableTime(time: string)
    requires TimeShaped(time) && Value(time[..2]) <= 23 && Value(time[3..]) <= 59
    ensures ParseClock(time + ":00").Some?
  {
    var s := time + ":00";
    assert s[..2] == time[..2] && s[3..5] == time[3..] && s[6..] == "00";
    assert "00"[..1] == "0" && "0"[..0] == "";
    assert Value("0") == 0;
  }

  /** What the validators accept is a start, unless the time ends in a newline; then the
      write fails after validation.  The start prints as the date, the time and zero seconds
      exactly when its year is printed with four digits. */
  lemma ValidatedStart(date: string, time: string, pads: bool)
    requires ValidDate(date) && ValidTime(time)
    ensures StartOf(date, time).Some? <==> ChopNewline(time) == time
    ensures StartOf(date, time).Some? ==>
              var i := StartOf(date, time).value;
              && ParseDate(date) == Some(DateOf(i)) && FormatDate(DateOf(i)) == date
              && (FormatStart(i, pads) == date + " " + time + ":00" <==> pads || DateOf(i).year >= 1000)
  {
    var s := date + " " + time + ":00";
    if ChopNewline(time) == time {
      assert s[..10] == date && s[11..] == time + ":00";
      assert s == date + (" " + (time + ":00"));
      ReadableTime(time);
      StartParts(s);
      StartRoundTrip(s, pads);
    }
  }

  /** Such a time is accepted: with any accepted time, the same with a newline behind it, after
      which no date makes a start. */
  lemma NewlineTimeFails(date: string, time: string)
    requires ValidDate(date) && ValidTime(time) && ChopNewline(time) == time
    ensures ValidTime(time + "\n") && StartOf(date, time + "\n").None?
  {
    var late := time + "\n";
    assert ChopNewline(late) == time && late != time;
    ValidatedStart(date, late, true);
  }

  lemma NineIsValid()
    ensures ValidTime("09:00") && ChopNewline("09:00") == "09:00"
  {
    var time := "09:00";
    assert time[..2] == "09" && time[3..] == "00";
    assert "09"[..1] == "0" && "00"[..1] == "0" && "0"[..0] == "";
    assert Value("0") == 0;
  }

  /** For example: 09:00 and a newline. */
  lemma NewlineAfterNine(date: string)
    requires ValidDate(date)
    ensures ValidTime("09:00\n") && StartOf(date, "09:00\n").None?
  {
    NineIsValid();
    NewlineTimeFails(date, "09:00");
    assert "09:00" + "\n" == "09:00\n";
  }

  /** Different validated slots have different starts. */
  lemma StartsAreDistinct(date: string, time: string, date': string, time': string)
    requires ValidDate(date) && ValidTime(time) && ValidDate(date') && ValidTime(time')
    requires StartOf(date, time).Some? && StartOf(date, time) == StartOf(date', time')
    ensures date == date' && time == time'
  {
    ValidatedStart(date, time, true);
    ValidatedStart(date', time', true);
    assert (date + " " + time + ":00")[11..16] == time && (date' + " " + time' + ":00")[11..16] == time';
  }

  /** Printed starts with four-digit years sort as the starts do. */
  lemma StartOrder(i: Instant, j: Instant, pads: bool)
    requires InRange(i) && InRange(j)
    requires pads || (DateOf(i).year >= 1000 && DateOf(j).year >= 1000)
    ensures Before(FormatStart(i, pads), FormatStart(j, pads)) <==> i < j
  {
    var d, e := DateOf(i), DateOf(j);
    BeforeConcat(FormatDate(d), FormatDate(e), " " + FormatClock(i % DAY), " " + FormatClock(j % DAY));
    SameHeadOrder(' ', FormatClock(i % DAY), FormatClock(j % DAY));
    DateOrder(d, e);
    DayNumberOrder(d, e);
    ClockOrder(i % DAY, j % DAY);
    DayThenClock(i, j);
  }

  lemma DayThenClock(i: Instant, j: Instant)
    requires InRange(i) && InRange(j)
    ensures i < j <==> DayOf(i) < DayOf(j) || (DayOf(i) == DayOf(j) && i % DAY < j % DAY)
  {
  }
}
