/** The daily schedule: appointments_with_service (src/booking_mcp/queries.py), printed as
    AppointmentDTO.from_row does (src/booking_mcp/schemas.py). */
module Schedule {
  import opened Schema
  import opened Serial
  import opened Calendar
  import Text

  /** The half-open window [day, day + 1) of a date; None when the date does not parse or
      the next midnight cannot be represented. */
  function Window(date: string): (r: Option<(Instant, Instant)>)
  {
    var d := ParseDate(date);
    if d.None? || DayNumber(d.value) >= MAX_DAY then None
    else
      (FromDayOfNumber(d.value);
       var first := InstantAt(DayNumber(d.value), 0);
       Some((first, first + DAY)))
  }

  /** The service of the appointment's job, by outer join: one row, with a null service when
      the job is missing. */
  function ServiceOf(t: Tables, a: Appointment): Option<string> {
    if a.jobId in t.jobs then t.jobs[a.jobId].service else None
  }

  /** The appointments in the window, each with its service. */
  function DaySchedule(t: Tables, window: (Instant, Instant)): map<Id, Option<string>> {
    map a | a in t.appointments && window.0 <= t.appointments[a].start < window.1 :: ServiceOf(t, t.appointments[a])
  }

  /** The appointment is listed on the schedule of the date. */
  predicate Listed(t: Tables, date: string, a: Id) {
    Window(date).Some? && a in DaySchedule(t, Window(date).value)
  }

  lemma WindowHolds(d: Date, i: Instant)
    requires Representable(d) && DayNumber(d) < MAX_DAY && InRange(i)
    ensures DayNumber(d) >= 1
    ensures InstantAt(DayNumber(d), 0) <= i < InstantAt(DayNumber(d), 0) + DAY <==> DayOf(i) == DayNumber(d)
  {
    FromDayOfNumber(d);
  }

  /** The date of a start is the one that reads as its day. */
  lemma OwnDate(date: string, i: Instant)
    requires InRange(i)
    ensures date == FormatDate(DateOf(i)) <==> ParseDate(date).Some? && DayNumber(ParseDate(date).value) == DayOf(i)
  {
    ParseOfFormat(DateOf(i));
    if ParseDate(date).Some? {
      FormatOfParse(date);
      DayNumberOrder(ParseDate(date).value, DateOf(i));
    }
  }

  predicate InWindow(date: string, i: Instant) {
    Window(date).Some? && Window(date).value.0 <= i < Window(date).value.1
  }

  lemma WindowIsDay(date: string, i: Instant)
    requires InRange(i)
    ensures InWindow(date, i)
            <==> ParseDate(date).Some? && DayNumber(ParseDate(date).value) == DayOf(i) && DayOf(i) < MAX_DAY
  {
    if ParseDate(date).Some? && DayNumber(ParseDate(date).value) < MAX_DAY {
      WindowHolds(ParseDate(date).value, i);
    }
  }

  /** A representable start falls in the window of its own date and of no other; on the last
      day there is no window. */
  lemma StartInWindow(date: string, i: Instant)
    requires InRange(i)
    ensures InWindow(date, i) <==> date == FormatDate(DateOf(i)) && DayOf(i) < MAX_DAY
  {
    WindowIsDay(date, i);
    OwnDate(date, i);
  }

  lemma ListedInWindow(t: Tables, date: string, a: Id)
    ensures Listed(t, date, a) <==> a in t.appointments && InWindow(date, t.appointments[a].start)
  {
  }

  /** The first ten characters of a printed start are its date exactly when its year is printed
      with four digits. */
  lemma DatePrefix(i: Instant, pads: bool)
    requires InRange(i)
    ensures |FormatStart(i, pads)| >= 10
    ensures FormatStart(i, pads)[..10] == FormatDate(DateOf(i)) <==> pads || DateOf(i).year >= 1000
  {
    var d := DateOf(i);
    DateTextWidth(d, pads);
    var full, short := FormatDate(d), DateText(d, pads);
    if |short| == 10 {
      assert FormatStart(i, pads)[..10] == short;
    } else {
      var w: nat := |short| - 6;
      assert short[w] == '-' && FormatStart(i, pads)[..10][w] == '-';
      assert Text.Pad(d.year, 4)[w] == full[w] && Text.IsDigit(full[w]);
    }
  }

  /** Every appointment is listed on exactly one date, its own, together with the service of its
      job, unless it is on the last day, for which there is no schedule; that date is what its
      printed start begins with exactly when the year is printed with four digits. */
  lemma ListedOnce(t: Tables, a: Id, date: string, pads: bool)
    requires Valid(t) && a in t.appointments && InRange(t.appointments[a].start)
    ensures var row := t.appointments[a]; var own := FormatDate(DateOf(row.start));
            && (Listed(t, date, a) <==> date == own && DayOf(row.start) < MAX_DAY)
            && row.jobId in t.jobs
            && (Listed(t, date, a) ==> DaySchedule(t, Window(date).value)[a] == t.jobs[row.jobId].service)
            && |FormatStart(row.start, pads)| >= 10
            && (FormatStart(row.start, pads)[..10] == own <==> pads || DateOf(row.start).year >= 1000)
  {
    var i := t.appointments[a].start;
    ListedInWindow(t, date, a);
    StartInWindow(date, i);
    DatePrefix(i, pads);
  }

  lemma MoveListed(t: Tables, id: Id, to: Instant, date: string, a: Id)
    requires RescheduleAppointment(t, id, Some(to)).1.Moved?
    ensures Listed(RescheduleAppointment(t, id, Some(to)).0, date, a)
            <==> if a == id then InWindow(date, to) else Listed(t, date, a)
  {
    ListedInWindow(t, date, a);
    ListedInWindow(RescheduleAppointment(t, id, Some(to)).0, date, a);
  }

  /** A move takes the appointment from the schedule of its old date to that of the new one, if
      that has one, and leaves the other appointments where they were. */
  lemma MoveChangesDate(t: Tables, id: Id, to: Instant, date: string, a: Id)
    requires Valid(t) && RescheduleAppointment(t, id, Some(to)).1.Moved? && InRange(to)
    ensures var t' := RescheduleAppointment(t, id, Some(to)).0;
            Listed(t', date, a) <==>
              if a == id then date == FormatDate(DateOf(to)) && DayOf(to) < MAX_DAY else Listed(t, date, a)
  {
    MoveListed(t, id, to, date, a);
    StartInWindow(date, to);
  }
}
