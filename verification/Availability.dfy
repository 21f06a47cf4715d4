/** Who is free when, and the search for the first free day (the reads of
    src/booking_mcp/queries.py). */
module Availability {
  import opened Schema
  import opened Text
  import opened Calendar
  import Geo

  /** What the caller asks for; the place counts only when both coordinates are given, and
      `cosine` is the cosine of the latitude. */
  datatype Query = Query(skill: string, lat: Option<real>, lng: Option<real>, radius: real, cosine: real)

  predicate InReach(s: Staff, q: Query) {
    q.lat.Some? && q.lng.Some? ==>
      && s.latitude.Some? && s.longitude.Some?
      && Geo.Inside(Geo.SearchBox(q.lat.value, q.lng.value, q.radius, q.cosine), s.latitude.value, s.longitude.value)
  }

  predicate Qualified(t: Tables, q: Query, s: Id) {
    s in t.staff && t.staff[s].active && (s, q.skill) in t.skills && InReach(t.staff[s], q)
  }

  predicate Busy(t: Tables, s: Id, start: Instant) {
    exists a | a in t.appointments :: t.appointments[a].staffId == Some(s) && t.appointments[a].start == start
  }

  predicate Eligible(t: Tables, q: Query, start: Instant, s: Id) {
    Qualified(t, q, s) && !Busy(t, s, start)
  }

  function EligibleSet(t: Tables, q: Query, start: Instant): set<Id> {
    set s | s in t.staff && Eligible(t, q, start, s)
  }

  /** Who is eligible, on the rows themselves: an active member of staff with the skill and
      without an appointment at the start, who, when a place is given, is no more than the
      radius away from it in latitude and in longitude. */
  lemma EligibleMeans(t: Tables, q: Query, start: Instant, s: Id)
    ensures s in EligibleSet(t, q, start) <==>
              && s in t.staff && t.staff[s].active == true && (s, q.skill) in t.skills
              && (forall a | a in t.appointments ::
                    t.appointments[a].staffId != Some(s) || t.appointments[a].start != start)
              && (q.lat.Some? && q.lng.Some? ==>
                    && t.staff[s].latitude.Some? && t.staff[s].longitude.Some?
                    && Near(t.staff[s].latitude.value, q.lat.value, q.radius / 111.0)
                    && Near(t.staff[s].longitude.value, q.lng.value,
                            q.radius / (111.0 * if q.cosine > 0.01 then q.cosine else 0.01)))
  {
  }

  predicate Near(x: real, y: real, reach: real) {
    y - reach <= x <= y + reach
  }

  /** No member of `among` has a name before that of `s`. */
  predicate LeastNamed(t: Tables, among: set<Id>, s: Id)
    requires among <= t.staff.Keys
  {
    s in among && forall x | x in among :: !Before(t.staff[x].name, t.staff[s].name)
  }

  /** `rows` is a result of the query on `among` with ORDER BY name LIMIT limit: staff with
      equal names may come in any order. */
  ghost predicate Listing(t: Tables, among: set<Id>, limit: nat, rows: seq<Id>)
    requires among <= t.staff.Keys
    decreases |rows|
  {
    if limit == 0 || among == {} then rows == []
    else rows != [] && LeastNamed(t, among, rows[0]) && Listing(t, among - {rows[0]}, limit - 1, rows[1..])
  }

  lemma {:induction false} SomeoneIsLeast(t: Tables, among: set<Id>) returns (s: Id)
    requires among <= t.staff.Keys && among != {}
    ensures LeastNamed(t, among, s)
    decreases among
  {
    var x :| x in among;
    s := x;
    if among != {x} {
      var y := SomeoneIsLeast(t, among - {x});
      if Before(t.staff[y].name, t.staff[x].name) {
        BeforeIsTransitiveOn(t, among, y, x);
        s := y;
      } else {
        ByNotBefore(t, among, y, x);
      }
    } else {
      BeforeIsStrict(t.staff[x].name);
    }
  }

  lemma BeforeIsTransitiveOn(t: Tables, among: set<Id>, y: Id, x: Id)
    requires among <= t.staff.Keys && x in among && LeastNamed(t, among - {x}, y)
    requires Before(t.staff[y].name, t.staff[x].name)
    ensures LeastNamed(t, among, y)
  {
    if Before(t.staff[x].name, t.staff[y].name) {
      BeforeIsTransitive(t.staff[x].name, t.staff[y].name, t.staff[x].name);
      BeforeIsStrict(t.staff[x].name);
    }
  }

  lemma ByNotBefore(t: Tables, among: set<Id>, y: Id, x: Id)
    requires among <= t.staff.Keys && x in among && LeastNamed(t, among - {x}, y)
    requires !Before(t.staff[y].name, t.staff[x].name)
    ensures LeastNamed(t, among, x)
  {
    BeforeIsStrict(t.staff[x].name);
    forall z | z in among - {x}
      ensures !Before(t.staff[z].name, t.staff[x].name)
    {
      if Before(t.staff[z].name, t.staff[x].name) {
        BeforeIsTotal(t.staff[x].name, t.staff[y].name);
        if t.staff[x].name != t.staff[y].name {
          BeforeIsTransitive(t.staff[z].name, t.staff[x].name, t.staff[y].name);
        }
      }
    }
  }

  /** What a listing lists: distinct members, sorted by name, as many as the limit allows,
      and nobody left out whose name is before one that is listed. */
  lemma {:induction false} ListingMeans(t: Tables, among: set<Id>, limit: nat, rows: seq<Id>)
    requires among <= t.staff.Keys && Listing(t, among, limit, rows)
    ensures forall i | 0 <= i < |rows| :: rows[i] in among
    ensures forall i, j | 0 <= i < j < |rows| ::
              rows[i] != rows[j] && !Before(t.staff[rows[j]].name, t.staff[rows[i]].name)
    ensures |rows| == if limit < |among| then limit else |among|
    ensures forall x, i | x in among && x !in rows && 0 <= i < |rows| :: !Before(t.staff[x].name, t.staff[rows[i]].name)
    decreases |rows|
  {
    if rows == [] {
    } else {
      ListingMeans(t, among - {rows[0]}, limit - 1, rows[1..]);
      assert rows == [rows[0]] + rows[1..];
    }
  }

  /** eligible_staff, with the database's ORDER BY and LIMIT as a selection. */
  method EligibleStaff(t: Tables, q: Query, start: Instant, limit: nat) returns (rows: seq<Id>)
    ensures Listing(t, EligibleSet(t, q, start), limit, rows)
    ensures forall s | s in rows ::
              && s in t.staff && t.staff[s].active == true && (s, q.skill) in t.skills
              && forall a | a in t.appointments ::
                   t.appointments[a].staffId != Some(s) || t.appointments[a].start != start
    ensures q.lat.Some? && q.lng.Some? ==> forall s | s in rows ::
              && t.staff[s].latitude.Some? && t.staff[s].longitude.Some?
              && Near(t.staff[s].latitude.value, q.lat.value, q.radius / 111.0)
              && Near(t.staff[s].longitude.value, q.lng.value,
                      q.radius / (111.0 * if q.cosine > 0.01 then q.cosine else 0.01))
    ensures |rows| < limit ==> forall s |
              && s in t.staff && t.staff[s].active == true && (s, q.skill) in t.skills
              && (forall a | a in t.appointments ::
                    t.appointments[a].staffId != Some(s) || t.appointments[a].start != start)
              && (q.lat.Some? && q.lng.Some? ==>
                    && t.staff[s].latitude.Some? && t.staff[s].longitude.Some?
                    && Near(t.staff[s].latitude.value, q.lat.value, q.radius / 111.0)
                    && Near(t.staff[s].longitude.value, q.lng.value,
                            q.radius / (111.0 * if q.cosine > 0.01 then q.cosine else 0.01))) ::
              s in rows
  {
    rows := [];
    var left := EligibleSet(t, q, start);
    ghost var all := left;
    assert forall rest :: Listing(t, left, limit, rest) ==> [] + rest == rest;
    while |rows| < limit && left != {}
      invariant left <= t.staff.Keys && |rows| <= limit
      invariant forall rest :: Listing(t, left, limit - |rows|, rest) ==> Listing(t, all, limit, rows + rest)
      decreases left
    {
      var _ := SomeoneIsLeast(t, left);
      var s :| s in left && LeastNamed(t, left, s);
      forall rest | Listing(t, left - {s}, limit - |rows| - 1, rest)
        ensures Listing(t, all, limit, rows + [s] + rest)
      {
        assert ([s] + rest)[1..] == rest;
        assert rows + [s] + rest == rows + ([s] + rest);
      }
      rows, left := rows + [s], left - {s};
    }
    assert rows + [] == rows;
    ListingMeans(t, all, limit, rows);
    ListsAll(t, all, limit, rows);
    forall s {
      EligibleMeans(t, q, start, s);
    }
  }

  /** A listing shorter than its limit is complete. */
  lemma {:induction false} ListsAll(t: Tables, among: set<Id>, limit: nat, rows: seq<Id>)
    requires among <= t.staff.Keys && Listing(t, among, limit, rows)
    ensures |rows| < limit ==> forall s | s in among :: s in rows
    decreases |rows|
  {
    if rows == [] {
    } else {
      ListsAll(t, among - {rows[0]}, limit - 1, rows[1..]);
      assert rows == [rows[0]] + rows[1..];
    }
  }

  // ----- the first free day --------------------------------------------------------

  datatype Search =
    | Found(date: string, time: string, staffId: Id, staffName: string)
    | NothingFree
    | BadSlot      // ValueError: the date or the time does not parse
    | Overflow     // OverflowError: the window runs past 9999-12-31

  /** The start tried at an offset from the base date, if it exists. */
  function StartOn(base: Date, offset: nat, time: string): Option<Instant>
    requires IsDate(base)
  {
    var d := AddDays(base, offset);
    if d.Some? then StartOf(FormatDate(d.value), time) else None
  }

  predicate SomeoneFree(t: Tables, q: Query, base: Date, offset: nat, time: string)
    requires IsDate(base)
  {
    StartOn(base, offset, time).Some? && EligibleSet(t, q, StartOn(base, offset, time).value) != {}
  }

  /** Every day of the window up to `offset` exists, and nobody is free on it. */
  predicate NobodyBefore(t: Tables, q: Query, base: Date, offset: nat, time: string)
    requires IsDate(base)
  {
    forall k: nat | k < offset :: StartOn(base, k, time).Some? && !SomeoneFree(t, q, base, k, time)
  }

  /** `s` on the day at `offset` is an answer: a least-named free person on the first day
      on which anybody is free. */
  predicate Answer(t: Tables, q: Query, base: Date, offset: nat, time: string, s: Id)
    requires IsDate(base)
  {
    && NobodyBefore(t, q, base, offset, time)
    && StartOn(base, offset, time).Some?
    && LeastNamed(t, EligibleSet(t, q, StartOn(base, offset, time).value), s)
  }

  /** The time reads as a time of day when seconds are appended. */
  predicate TimeReads(time: string) {
    |time| == 5 && ParseClock(time + ":00").Some?
  }

  lemma StartReads(d: Date, time: string)
    requires Representable(d)
    ensures StartOf(FormatDate(d), time).Some? <==> TimeReads(time)
  {
    var s := FormatDate(d) + " " + time + ":00";
    ParseOfFormat(d);
    assert |time| == 5 ==> s[..10] == FormatDate(d) && s[11..] == time + ":00";
  }

  /** What find_next_available answers from `base`, over `days` days. */
  ghost predicate SearchMeans(t: Tables, q: Query, base: Date, time: string, days: int, r: Search)
    requires IsDate(base)
  {
    match r
    case Found(date, clock, s, name) =>
      && clock == time && s in t.staff && name == t.staff[s].name
      && exists k: nat | k < days ::
           Answer(t, q, base, k, time, s) && AddDays(base, k).Some? && date == FormatDate(AddDays(base, k).value)
    case NothingFree => NobodyBefore(t, q, base, if days > 0 then days else 0, time)
    case BadSlot => days > 0 && !TimeReads(time)
    case Overflow => exists k: nat | k < days :: AddDays(base, k).None? && NobodyBefore(t, q, base, k, time)
  }

  /** Everybody who qualifies has an appointment at the time on the day at the offset. */
  predicate DayIsFull(t: Tables, q: Query, base: Date, k: nat, time: string)
    requires IsDate(base)
  {
    && AddDays(base, k).Some? && StartOf(FormatDate(AddDays(base, k).value), time).Some?
    && forall s | s in t.staff && Qualified(t, q, s) ::
         exists a | a in t.appointments ::
           && t.appointments[a].staffId == Some(s)
           && t.appointments[a].start == StartOf(FormatDate(AddDays(base, k).value), time).value
  }

  /** find_next_available: the first day of the window with somebody free, and a least-named
      person free on it, at the very date and time of the answer. */
  method FindNextAvailable(t: Tables, q: Query, date: string, time: string, days: int) returns (r: Search)
    ensures ParseDate(date).None? ==> r.BadSlot?
    ensures ParseDate(date).Some? ==> SearchMeans(t, q, ParseDate(date).value, time, days, r)
    ensures r.Found? ==>
              && r.time == time && StartOf(r.date, time).Some?
              && r.staffId in t.staff && r.staffName == t.staff[r.staffId].name
              && t.staff[r.staffId].active == true && (r.staffId, q.skill) in t.skills
              && (forall a | a in t.appointments ::
                    || t.appointments[a].staffId != Some(r.staffId)
                    || t.appointments[a].start != StartOf(r.date, time).value)
              && (q.lat.Some? && q.lng.Some? ==>
                    && t.staff[r.staffId].latitude.Some? && t.staff[r.staffId].longitude.Some?
                    && Near(t.staff[r.staffId].latitude.value, q.lat.value, q.radius / 111.0)
                    && Near(t.staff[r.staffId].longitude.value, q.lng.value,
                            q.radius / (111.0 * if q.cosine > 0.01 then q.cosine else 0.01)))
    ensures r.Found? ==>
              && ParseDate(date).Some?
              && (forall x | x in EligibleSet(t, q, StartOf(r.date, time).value) ::
                    !Before(t.staff[x].name, r.staffName))
              && exists k: nat | k < days ::
                   && AddDays(ParseDate(date).value, k).Some?
                   && r.date == FormatDate(AddDays(ParseDate(date).value, k).value)
                   && forall j: nat | j < k :: DayIsFull(t, q, ParseDate(date).value, j, time)
    ensures r.NothingFree? ==>
              && ParseDate(date).Some?
              && forall j: nat | j < days :: DayIsFull(t, q, ParseDate(date).value, j, time)
    ensures r.BadSlot? <==> ParseDate(date).None? || (days > 0 && StartOf(date, time).None?)
    ensures r.Overflow? ==>
              && ParseDate(date).Some?
              && exists k: nat | k < days ::
                   && AddDays(ParseDate(date).value, k).None?
                   && forall j: nat | j < k :: DayIsFull(t, q, ParseDate(date).value, j, time)
  {
    if ParseDate(date).None? {
      return BadSlot;
    }
    r := SearchFrom(t, q, ParseDate(date).value, time, days);
    FirstStart(date, time);
    if r.Found? {
      FoundIsFree(t, q, ParseDate(date).value, time, days, r);
      EligibleMeans(t, q, StartOf(r.date, time).value, r.staffId);
    } else if r.NothingFree? {
      EarlierDaysAreFull(t, q, ParseDate(date).value, if days > 0 then days else 0, time);
    } else if r.Overflow? {
      OverflowsAfter(t, q, ParseDate(date).value, time, days);
    }
  }

  lemma FirstStart(date: string, time: string)
    requires ParseDate(date).Some?
    ensures AddDays(ParseDate(date).value, 0).Some? && StartOn(ParseDate(date).value, 0, time) == StartOf(date, time)
    ensures StartOf(date, time).Some? <==> TimeReads(time)
  {
    FormatOfParse(date);
    StartReads(ParseDate(date).value, time);
    FirstDayExists(ParseDate(date).value);
  }

  lemma OverflowsAfter(t: Tables, q: Query, base: Date, time: string, days: int)
    requires IsDate(base) && SearchMeans(t, q, base, time, days, Overflow)
    ensures exists k: nat | k < days ::
              AddDays(base, k).None? && forall j: nat | j < k :: DayIsFull(t, q, base, j, time)
  {
    var k: nat :| k < days && AddDays(base, k).None? && NobodyBefore(t, q, base, k, time);
    EarlierDaysAreFull(t, q, base, k, time);
  }

  lemma EarlierDaysAreFull(t: Tables, q: Query, base: Date, n: nat, time: string)
    requires IsDate(base) && NobodyBefore(t, q, base, n, time)
    ensures forall k: nat | k < n :: DayIsFull(t, q, base, k, time)
  {
    forall k: nat | k < n
      ensures DayIsFull(t, q, base, k, time)
    {
      var start := StartOn(base, k, time).value;
      assert !SomeoneFree(t, q, base, k, time);
      forall s | s in t.staff && Qualified(t, q, s)
        ensures Busy(t, s, start)
      {
        assert s !in EligibleSet(t, q, start);
      }
    }
  }

  lemma FoundIsFree(t: Tables, q: Query, base: Date, time: string, days: int, r: Search)
    requires IsDate(base) && r.Found? && SearchMeans(t, q, base, time, days, r)
    ensures StartOf(r.date, time).Some? && r.staffId in EligibleSet(t, q, StartOf(r.date, time).value)
    ensures r.time == time && r.staffId in t.staff && r.staffName == t.staff[r.staffId].name
    ensures forall x | x in EligibleSet(t, q, StartOf(r.date, time).value) :: !Before(t.staff[x].name, r.staffName)
    ensures exists k: nat | k < days ::
              && AddDays(base, k).Some? && r.date == FormatDate(AddDays(base, k).value)
              && forall j: nat | j < k :: DayIsFull(t, q, base, j, time)
  {
    var k: nat :| k < days && Answer(t, q, base, k, time, r.staffId)
                  && AddDays(base, k).Some? && r.date == FormatDate(AddDays(base, k).value);
    assert StartOn(base, k, time) == StartOf(r.date, time);
    EarlierDaysAreFull(t, q, base, k, time);
  }

  method SearchFrom(t: Tables, q: Query, base: Date, time: string, days: int) returns (r: Search)
    requires Representable(base)
    ensures SearchMeans(t, q, base, time, days, r)
    ensures r.BadSlot? <==> days > 0 && !TimeReads(time)
  {
    FirstDayExists(base);
    var offset: nat := 0;
    while offset < days
      invariant offset > 0 ==> offset <= days
      invariant NobodyBefore(t, q, base, offset, time) && (offset > 0 ==> TimeReads(time))
    {
      var day := AddDays(base, offset);
      if day.None? {
        return Overflow;
      }
      var start := StartOf(FormatDate(day.value), time);
      StartReads(day.value, time);
      if start.None? {
        return BadSlot;
      }
      var rows := EligibleStaff(t, q, start.value, 1);
      if rows != [] {
        FirstIsAnswer(t, q, base, offset, time, days, rows);
        return Found(FormatDate(day.value), time, rows[0], t.staff[rows[0]].name);
      }
      NobodyHereEither(t, q, base, offset, time, rows);
      offset := offset + 1;
    }
    r := NothingFree;
  }

  lemma FirstIsAnswer(t: Tables, q: Query, base: Date, k: nat, time: string, days: int, rows: seq<Id>)
    requires IsDate(base) && NobodyBefore(t, q, base, k, time) && k < days && StartOn(base, k, time).Some?
    requires Listing(t, EligibleSet(t, q, StartOn(base, k, time).value), 1, rows) && rows != []
    ensures rows[0] in t.staff
    ensures SearchMeans(t, q, base, time, days,
                        Found(FormatDate(AddDays(base, k).value), time, rows[0], t.staff[rows[0]].name))
  {
    assert Answer(t, q, base, k, time, rows[0]);
  }

  lemma NobodyHereEither(t: Tables, q: Query, base: Date, k: nat, time: string, rows: seq<Id>)
    requires IsDate(base) && NobodyBefore(t, q, base, k, time) && StartOn(base, k, time).Some?
    requires Listing(t, EligibleSet(t, q, StartOn(base, k, time).value), 1, rows) && rows == []
    ensures NobodyBefore(t, q, base, k + 1, time)
  {
  }

  lemma FirstDayExists(base: Date)
    requires Representable(base)
    ensures AddDays(base, 0) == Some(base)
  {
    FromDayOfNumber(base);
    LastDay(base);
  }

  /** The dates tried are consecutive calendar dates. */
  lemma DatesAreConsecutive(base: Date, k: nat)
    requires Representable(base) && AddDays(base, k + 1).Some?
    ensures AddDays(base, 0) == Some(base)
    ensures AddDays(base, k).Some? && AddDays(base, k + 1).value == NextDay(AddDays(base, k).value)
  {
    FirstDayExists(base);
    FromDayOfNumber(base);
  }

  /** The answer does not depend on the limit: any listing of at least one row begins with a
      least-named person, and is empty only when nobody is eligible. */
  lemma LimitOneIsEnough(t: Tables, among: set<Id>, limit: nat, rows: seq<Id>)
    requires among <= t.staff.Keys && limit >= 1 && Listing(t, among, limit, rows)
    ensures rows == [] <==> among == {}
    ensures rows != [] ==> LeastNamed(t, among, rows[0]) && Listing(t, among, 1, rows[..1])
  {
    if rows != [] {
      assert rows[..1][1..] == [];
    }
  }
}
