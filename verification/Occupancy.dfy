/** How the writes change who is free, and how a window of days is booked out. */
module Occupancy {
  import opened Schema
  import opened Serial
  import opened SerialLaws
  import opened Calendar
  import opened Availability

  // ----- what one write changes ----------------------------------------------------

  /** A new booking takes its staff member away at its start, and changes nothing else. */
  lemma BookingTakesSlot(t: Tables, req: Request, ids: Ids, q: Query, start: Instant, s: Id)
    requires UnusedIds(t, Create(req, ids))
    requires CreateBooking(t, req, ids).1.Booked? && !CreateBooking(t, req, ids).1.idempotent
    ensures var t' := CreateBooking(t, req, ids).0;
            Eligible(t', q, start, s) <==>
              Eligible(t, q, start, s) && !(req.staffId == Some(s) && req.start == Some(start))
  {
    var t' := CreateBooking(t, req, ids).0;
    assert t'.appointments[ids.appointment].staffId == req.staffId;
    if Busy(t, s, start) {
      var a :| a in t.appointments && t.appointments[a].staffId == Some(s) && t.appointments[a].start == start;
      assert t'.appointments[a] == t.appointments[a];
    }
  }

  /** A cancellation gives the slot of the appointment back, and changes nothing else. */
  lemma CancelFreesSlot(t: Tables, id: Id, q: Query, start: Instant, s: Id)
    requires Valid(t) && id in t.appointments
    ensures var t', row := CancelAppointment(t, id).0, t.appointments[id];
            Eligible(t', q, start, s) <==>
              Eligible(t, q, start, s) || (Qualified(t, q, s) && row.staffId == Some(s) && row.start == start)
  {
    var t', row := CancelAppointment(t, id).0, t.appointments[id];
    forall a | a in t.appointments && a != id
               && t.appointments[a].staffId == Some(s) && t.appointments[a].start == start
      ensures Busy(t', s, start) && !(row.staffId == Some(s) && row.start == start)
    {
      assert a in t'.appointments;
      assert SameSlot(row, t.appointments[a]) ==> a == id;
    }
  }

  /** A move frees the old slot and takes the new one, and changes nothing else. */
  lemma MoveShiftsSlot(t: Tables, id: Id, to: Instant, q: Query, start: Instant, s: Id)
    requires Valid(t) && RescheduleAppointment(t, id, Some(to)).1.Moved?
    ensures var t', row := RescheduleAppointment(t, id, Some(to)).0, t.appointments[id];
            Eligible(t', q, start, s) <==>
              if row.staffId == Some(s) && start == to then false
              else if row.staffId == Some(s) && start == row.start then Qualified(t, q, s)
              else Eligible(t, q, start, s)
  {
    var t', row := RescheduleAppointment(t, id, Some(to)).0, t.appointments[id];
    assert t'.appointments[id].staffId == row.staffId && t'.appointments[id].start == to;
    forall a | a in t.appointments && a != id
               && t.appointments[a].staffId == Some(s) && t.appointments[a].start == start
      ensures Busy(t', s, start) && !(row.staffId == Some(s) && row.start == start)
    {
      assert t'.appointments[a] == t.appointments[a];
      assert SameSlot(row, t.appointments[a]) ==> a == id;
    }
  }

  /** Booking and then cancelling leaves everybody as free as before. */
  lemma BookCancelRestores(t: Tables, req: Request, ids: Ids, q: Query, start: Instant, s: Id)
    requires Valid(t) && UnusedIds(t, Create(req, ids))
    requires CreateBooking(t, req, ids).1.Booked? && !CreateBooking(t, req, ids).1.idempotent
    ensures var t'' := CancelAppointment(CreateBooking(t, req, ids).0, ids.appointment).0;
            Eligible(t'', q, start, s) <==> Eligible(t, q, start, s)
  {
    BookThenCancel(t, req, ids);
  }

  // ----- booking out a window --------------------------------------------------------

  /** A request for the person, on the date and at the time that the search answered. */
  predicate AsksFor(req: Request, base: Date, time: string, s: Id, k: nat)
    requires IsDate(base)
  {
    && req.staffId == Some(s) && AddDays(base, k).Some?
    && req.start == StartOf(FormatDate(AddDays(base, k).value), time) && req.start.Some?
  }

  lemma SlotMeansBusy(t: Tables, s: Id, start: Instant)
    ensures SlotTakenBy(t, Some(s), start, None) <==> Busy(t, s, start)
  {
    assert forall a | a in t.appointments :: Some(a) != None;
  }

  lemma AnswerIsEligible(t: Tables, q: Query, base: Date, k: nat, time: string, s: Id)
    requires IsDate(base) && Answer(t, q, base, k, time, s)
    ensures s in t.staff && StartOn(base, k, time).Some? && Eligible(t, q, StartOn(base, k, time).value, s)
  {
  }

  /** Booking the answer of the search succeeds, unless its key is in the ledger already. */
  lemma AnswerCanBeBooked(t: Tables, q: Query, base: Date, k: nat, time: string, s: Id, req: Request, ids: Ids)
    requires IsDate(base) && Answer(t, q, base, k, time, s) && AsksFor(req, base, time, s, k)
    requires req.key !in t.ledger
    ensures CreateBooking(t, req, ids).1.Booked? && !CreateBooking(t, req, ids).1.idempotent
  {
    AnswerIsEligible(t, q, base, k, time, s);
    SlotMeansBusy(t, s, req.start.value);
  }

  /** The whole window can be represented. */
  predicate WindowExists(base: Date, days: nat, time: string)
    requires IsDate(base)
  {
    forall k: nat | k < days :: StartOn(base, k, time).Some?
  }

  /** The starts tried, day by day. */
  function WindowStarts(base: Date, days: nat, time: string): (starts: seq<Instant>)
    requires IsDate(base) && WindowExists(base, days, time)
    ensures |starts| == days && forall k | 0 <= k < days :: StartOn(base, k, time) == Some(starts[k])
  {
    if days == 0 then [] else WindowStarts(base, days - 1, time) + [StartOn(base, days - 1, time).value]
  }

  /** Who is free on which day of the window. */
  function FreePairs(t: Tables, q: Query, starts: seq<Instant>): set<(Id, nat)> {
    set s, k: nat | s in t.staff && 0 <= k < |starts| && Eligible(t, q, starts[k], s) :: (s, k)
  }

  /** Searching and booking the answer, over and over, under keys not yet in the ledger. */
  ghost predicate FindsAndBooks(t: Tables, q: Query, base: Date, days: nat, time: string,
                                picks: seq<(Id, nat)>, bookings: seq<(Request, Ids)>)
    requires IsDate(base)
    decreases |picks|
  {
    |picks| == |bookings| &&
    (picks == [] ||
     (var ((s, k), (req, ids)) := (picks[0], bookings[0]);
      && k < days && Answer(t, q, base, k, time, s) && AsksFor(req, base, time, s, k)
      && req.key !in t.ledger && UnusedIds(t, Create(req, ids))
      && FindsAndBooks(CreateBooking(t, req, ids).0, q, base, days, time, picks[1..], bookings[1..])))
  }

  /** The tables after the bookings. */
  ghost function AfterBookings(t: Tables, bookings: seq<(Request, Ids)>): Tables
    decreases |bookings|
  {
    if bookings == [] then t else AfterBookings(CreateBooking(t, bookings[0].0, bookings[0].1).0, bookings[1..])
  }

  lemma DaysDiffer(base: Date, j: nat, k: nat, time: string)
    requires IsDate(base) && StartOn(base, j, time).Some? && StartOn(base, k, time).Some?
    ensures StartOn(base, j, time) == StartOn(base, k, time) ==> j == k
  {
    var d, e := AddDays(base, j).value, AddDays(base, k).value;
    StartReads(d, time);
    DateInStart(d, time);
    DateInStart(e, time);
  }

  lemma DateInStart(d: Date, time: string)
    requires Representable(d) && StartOf(FormatDate(d), time).Some? && |time| == 5
    ensures DateOf(StartOf(FormatDate(d), time).value) == d
  {
    var s := FormatDate(d) + " " + time + ":00";
    assert s[..10] == FormatDate(d);
    ParseOfFormat(d);
    StartParts(s);
  }

  lemma StartsDiffer(base: Date, days: nat, time: string)
    requires IsDate(base) && WindowExists(base, days, time)
    ensures var starts := WindowStarts(base, days, time); forall j, k | 0 <= j < k < days :: starts[j] != starts[k]
  {
    var starts := WindowStarts(base, days, time);
    forall j, k | 0 <= j < k < days
      ensures starts[j] != starts[k]
    {
      DaysDiffer(base, j, k, time);
    }
  }

  /** One booking removes exactly its pair. */
  lemma PairIsTaken(t: Tables, q: Query, starts: seq<Instant>, s: Id, k: nat, req: Request, ids: Ids)
    requires k < |starts| && forall i, j | 0 <= i < j < |starts| :: starts[i] != starts[j]
    requires s in t.staff && Eligible(t, q, starts[k], s) && req.staffId == Some(s) && req.start == Some(starts[k])
    requires UnusedIds(t, Create(req, ids))
    requires CreateBooking(t, req, ids).1.Booked? && !CreateBooking(t, req, ids).1.idempotent
    ensures (s, k) in FreePairs(t, q, starts)
    ensures FreePairs(CreateBooking(t, req, ids).0, q, starts) == FreePairs(t, q, starts) - {(s, k)}
  {
    var t' := CreateBooking(t, req, ids).0;
    assert t'.staff == t.staff;
    forall x, j: nat | j < |starts|
      ensures Eligible(t', q, starts[j], x) <==> Eligible(t, q, starts[j], x) && !(x == s && j == k)
    {
      BookingTakesSlot(t, req, ids, q, starts[j], x);
    }
  }

  /** The search finds nobody in the window exactly when no free pair is left. */
  lemma NobodyMeansNoPairs(t: Tables, q: Query, base: Date, days: nat, time: string)
    requires IsDate(base) && WindowExists(base, days, time)
    ensures NobodyBefore(t, q, base, days, time) <==> FreePairs(t, q, WindowStarts(base, days, time)) == {}
  {
    var starts := WindowStarts(base, days, time);
    forall k: nat | k < days
      ensures SomeoneFree(t, q, base, k, time) <==>
              exists s :: s in t.staff && Eligible(t, q, starts[k], s) && (s, k) in FreePairs(t, q, starts)
    {
      assert forall s | s in t.staff && Eligible(t, q, starts[k], s) ::
          s in EligibleSet(t, q, starts[k]) && (s, k) in FreePairs(t, q, starts);
    }
    if FreePairs(t, q, starts) != {} {
      var pair :| pair in FreePairs(t, q, starts);
      assert SomeoneFree(t, q, base, pair.1, time);
    }
  }

  lemma AnswerIsPair(t: Tables, q: Query, base: Date, days: nat, time: string, s: Id, k: nat, req: Request, ids: Ids)
    requires IsDate(base) && WindowExists(base, days, time) && k < days
    requires Answer(t, q, base, k, time, s) && AsksFor(req, base, time, s, k)
    requires req.key !in t.ledger && UnusedIds(t, Create(req, ids))
    ensures var starts := WindowStarts(base, days, time);
            && (s, k) in FreePairs(t, q, starts)
            && FreePairs(CreateBooking(t, req, ids).0, q, starts) == FreePairs(t, q, starts) - {(s, k)}
  {
    StartsDiffer(base, days, time);
    AnswerCanBeBooked(t, q, base, k, time, s, req, ids);
    AnswerIsEligible(t, q, base, k, time, s);
    assert StartOn(base, k, time) == Some(WindowStarts(base, days, time)[k]);
    PairIsTaken(t, q, WindowStarts(base, days, time), s, k, req, ids);
  }

  /** Finding and booking, for as long as one likes: every booking is of a free pair of the
      window, no pair is booked twice, no more bookings can be made than there are pairs, and
      the search finds nobody exactly when all of them have been booked. */
  lemma {:induction false} WindowIsBookedOut(t: Tables, q: Query, base: Date, days: nat, time: string,
                                             picks: seq<(Id, nat)>, bookings: seq<(Request, Ids)>)
    requires IsDate(base) && WindowExists(base, days, time)
    requires FindsAndBooks(t, q, base, days, time, picks, bookings)
    ensures var pairs := FreePairs(t, q, WindowStarts(base, days, time));
            && |picks| <= |pairs|
            && (forall i, j | 0 <= i < j < |picks| :: picks[i] != picks[j])
            && (forall p | p in picks :: p in pairs)
            && (NobodyBefore(AfterBookings(t, bookings), q, base, days, time) <==> |picks| == |pairs|)
    decreases |picks|
  {
    if picks == [] {
      NobodyMeansNoPairs(t, q, base, days, time);
    } else {
      var ((s, k), (req, ids)) := (picks[0], bookings[0]);
      var t', starts := CreateBooking(t, req, ids).0, WindowStarts(base, days, time);
      AnswerIsPair(t, q, base, days, time, s, k, req, ids);
      WindowIsBookedOut(t', q, base, days, time, picks[1..], bookings[1..]);
      OnePickMore(picks, FreePairs(t, q, starts), FreePairs(t', q, starts));
    }
  }

  lemma OnePickMore(picks: seq<(Id, nat)>, pairs: set<(Id, nat)>, rest: set<(Id, nat)>)
    requires picks != [] && picks[0] in pairs && rest == pairs - {picks[0]}
    requires forall i, j | 0 <= i < j < |picks[1..]| :: picks[1..][i] != picks[1..][j]
    requires forall p | p in picks[1..] :: p in rest
    ensures |rest| == |pairs| - 1 && forall i, j | 0 <= i < j < |picks| :: picks[i] != picks[j]
    ensures forall p | p in picks :: p in pairs
  {
    assert picks == [picks[0]] + picks[1..];
    assert forall i | 0 <= i < |picks[1..]| :: picks[1..][i] in picks[1..];
  }
}
