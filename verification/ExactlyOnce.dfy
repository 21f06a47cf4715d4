/** What whole runs conserve: which rows exist, and which call put them there. */
module ExactlyOnce {
  import opened Schema
  import opened Serial
  import opened Protocol
  import opened Invariant
  import opened Refinement

  /** The call made a new booking. */
  predicate Booker(calls: seq<Call>, s: State, p: nat)
    requires |calls| == |s.pcs|
  {
    p < |calls| && calls[p].Create? && BookedNow(s.pcs[p])
  }

  /** The call answered that it removed the appointment. */
  predicate Canceller(calls: seq<Call>, s: State, p: nat)
    requires |calls| == |s.pcs|
  {
    p < |calls| && calls[p].Cancel? && CancelledNow(s.pcs[p])
  }

  /** The call answered that it created the preference row. */
  predicate Creator(calls: seq<Call>, s: State, p: nat)
    requires |calls| == |s.pcs|
  {
    p < |calls| && calls[p].Upsert? && CreatedNow(s.pcs[p])
  }

  /** Clients are kept for ever, and each new one came with a booking. */
  ghost predicate ClientHistory(calls: seq<Call>, t0: Tables, s: State)
    requires |calls| == |s.pcs|
  {
    && (forall c | c in t0.clients :: c in s.tables.clients && s.tables.clients[c] == t0.clients[c])
    && (forall c | c in s.tables.clients && c !in t0.clients ::
          exists p: nat :: Booker(calls, s, p) && calls[p].ids.client == c && s.pcs[p].outcome.booking.clientId == c)
  }

  /** The jobs are the initial ones and those of the new bookings. */
  ghost predicate JobHistory(calls: seq<Call>, t0: Tables, s: State)
    requires |calls| == |s.pcs|
  {
    && (forall j | j in t0.jobs :: j in s.tables.jobs && s.tables.jobs[j] == t0.jobs[j])
    && (forall j :: j in s.tables.jobs <==>
                      j in t0.jobs || exists p: nat :: Booker(calls, s, p) && calls[p].ids.job == j)
  }

  /** The appointments are the initial ones and those of the new bookings, without those
      that some call reported cancelled. */
  ghost predicate AppointmentHistory(calls: seq<Call>, t0: Tables, s: State)
    requires |calls| == |s.pcs|
  {
    forall a :: a in s.tables.appointments <==>
                  && (a in t0.appointments || exists p: nat :: Booker(calls, s, p) && calls[p].ids.appointment == a)
                  && !exists p: nat :: Canceller(calls, s, p) && calls[p].id == a
  }

  /** Ledger rows are kept for ever, and each new one is the answer of the one call that
      booked under its key. */
  ghost predicate LedgerHistory(calls: seq<Call>, t0: Tables, s: State)
    requires |calls| == |s.pcs|
  {
    && (forall k | k in t0.ledger :: k in s.tables.ledger && s.tables.ledger[k] == t0.ledger[k])
    && (forall k | k in s.tables.ledger && k !in t0.ledger ::
          exists p: nat :: Booker(calls, s, p) && calls[p].req.key == k
                           && s.pcs[p] == Done(Booked(s.tables.ledger[k], false)))
    && (forall p: nat | Booker(calls, s, p) :: calls[p].req.key !in t0.ledger)
  }

  /** Memory rows are kept for ever and change in their note only; each new one is the
      preference that the one call reporting `created` wrote. */
  ghost predicate MemoryHistory(calls: seq<Call>, t0: Tables, s: State)
    requires |calls| == |s.pcs|
  {
    && (forall m | m in t0.memories ::
          && m in s.tables.memories
          && s.tables.memories[m].customerKey == t0.memories[m].customerKey
          && s.tables.memories[m].memoryType == t0.memories[m].memoryType
          && SameButNote(s.tables.memories[m].content, t0.memories[m].content))
    && (forall m :: m in s.tables.memories <==>
                      m in t0.memories || exists p: nat :: Creator(calls, s, p) && calls[p].memId == m)
  }

  ghost predicate History(calls: seq<Call>, t0: Tables, s: State)
    requires |calls| == |s.pcs|
  {
    && ClientHistory(calls, t0, s) && JobHistory(calls, t0, s) && AppointmentHistory(calls, t0, s)
    && LedgerHistory(calls, t0, s) && MemoryHistory(calls, t0, s)
    && s.tables.staff == t0.staff && s.tables.skills == t0.skills && s.tables.contacts == t0.contacts
  }

  /** Only a COMMIT makes a call a booker or a creator. */
  lemma RolesOfStatement(t: Tables, c: Call, pc: Pc)
    requires Valid(t) && Local(t, c, pc) && !pc.Done?
    ensures c.Create? ==> (BookedNow(Advance(t, c, pc).1) <==> pc.LedgerIn?)
    ensures c.Upsert? ==> (CreatedNow(Advance(t, c, pc).1) <==> pc.MemoryIn?)
    ensures c.Cancel? && CancelledNow(Advance(t, c, pc).1) ==> c.id !in Advance(t, c, pc).0.appointments
  {
  }

  /** The roles of the other calls stay, and a call that ended keeps its own. */
  lemma RolesStay(calls: seq<Call>, s: State, e: Event, q: nat)
    requires Inv(calls, s) && Enabled(calls, s, e) && q < |calls|
    ensures var s' := Apply(calls, s, e);
            && (q != e.call || s.pcs[q].Done? ==> s'.pcs[q] == s.pcs[q])
            && (Booker(calls, s, q) ==> Booker(calls, s', q))
            && (Canceller(calls, s, q) ==> Canceller(calls, s', q))
            && (Creator(calls, s, q) ==> Creator(calls, s', q))
  {
  }

  /** The roles in `s'` are those in `s`, but that call `p` may have gained one. */
  ghost predicate RolesBut(calls: seq<Call>, s: State, s': State, p: nat)
    requires |calls| == |s.pcs| == |s'.pcs|
  {
    forall q: nat | q < |calls| && q != p ::
      && (Booker(calls, s', q) <==> Booker(calls, s, q)) && (Booker(calls, s, q) ==> s'.pcs[q] == s.pcs[q])
      && (Creator(calls, s', q) <==> Creator(calls, s, q))
      && (Canceller(calls, s', q) <==> Canceller(calls, s, q))
  }

  lemma EventRoles(calls: seq<Call>, s: State, e: Event)
    requires Inv(calls, s) && Enabled(calls, s, e)
    ensures RolesBut(calls, s, Apply(calls, s, e), e.call)
    ensures !Booker(calls, s, e.call) && !Creator(calls, s, e.call) && !Canceller(calls, s, e.call)
  {
    forall q: nat | q < |calls| && q != e.call
      ensures Apply(calls, s, e).pcs[q] == s.pcs[q]
    {
      RolesStay(calls, s, e, q);
    }
  }

  /** An event that commits nothing leaves the tables and makes nobody a booker or creator;
      a call may learn that its appointment is gone. */
  lemma QuietStep(calls: seq<Call>, s: State, e: Event)
    requires Inv(calls, s) && Enabled(calls, s, e) && (e.Fail? || !Commits(s.pcs[e.call]))
    ensures var s' := Apply(calls, s, e);
            && s'.tables == s.tables && !Booker(calls, s', e.call) && !Creator(calls, s', e.call)
            && (Canceller(calls, s', e.call) ==> calls[e.call].id !in s.tables.appointments)
  {
    var p := e.call;
    assert Local(s.tables, calls[p], s.pcs[p]);
    if e.Go? {
      QuietStatement(s.tables, calls[p], s.pcs[p]);
      RolesOfStatement(s.tables, calls[p], s.pcs[p]);
    }
  }

  lemma QuietHistory(calls: seq<Call>, t0: Tables, s: State, s': State, e: Event)
    requires Inv(calls, s) && Enabled(calls, s, e) && (e.Fail? || !Commits(s.pcs[e.call]))
    requires s' == Apply(calls, s, e) && History(calls, t0, s)
    ensures History(calls, t0, s')
  {
    EventRoles(calls, s, e);
    QuietStep(calls, s, e);
    QuietRows(calls, t0, s, s', e.call);
  }

  lemma QuietRows(calls: seq<Call>, t0: Tables, s: State, s': State, p: nat)
    requires |calls| == |s.pcs| == |s'.pcs| && RolesBut(calls, s, s', p) && History(calls, t0, s)
    requires !Booker(calls, s, p) && !Creator(calls, s, p) && !Canceller(calls, s, p)
    requires s'.tables == s.tables && !Booker(calls, s', p) && !Creator(calls, s', p)
    requires Canceller(calls, s', p) ==> calls[p].id !in s.tables.appointments
    ensures History(calls, t0, s')
  {
    SameBookings(calls, t0, s, s', p);
    SameMemories(calls, t0, s, s', p);
    QuietAppointments(calls, t0, s, s', p);
  }

  lemma QuietAppointments(calls: seq<Call>, t0: Tables, s: State, s': State, p: nat)
    requires |calls| == |s.pcs| == |s'.pcs| && RolesBut(calls, s, s', p) && AppointmentHistory(calls, t0, s)
    requires !Booker(calls, s, p) && !Canceller(calls, s, p)
    requires s'.tables == s.tables && !Booker(calls, s', p)
    requires Canceller(calls, s', p) ==> calls[p].id !in s.tables.appointments
    ensures AppointmentHistory(calls, t0, s')
  {
    assert forall q: nat :: Booker(calls, s', q) <==> Booker(calls, s, q);
    assert forall q: nat :: Canceller(calls, s', q) <==> Canceller(calls, s, q) || (q == p && Canceller(calls, s', p));
  }

  lemma BookingHistory(calls: seq<Call>, t0: Tables, s: State, p: nat)
    requires Inv(calls, s) && CanGo(calls, s, p) && History(calls, t0, s)
    requires calls[p].Create? && s.pcs[p].LedgerIn?
    ensures History(calls, t0, Apply(calls, s, Go(p)))
  {
    var s', c := Apply(calls, s, Go(p)), calls[p];
    assert Local(s.tables, c, s.pcs[p]);
    EventRoles(calls, s, Go(p));
    forall q: nat | Canceller(calls, s, q)
      ensures calls[q].id != c.ids.appointment
    {
      assert Apart(c, s.pcs[p], calls[q], s.pcs[q]);
    }
    BookingRows(calls, t0, s, s', p);
  }

  /** What the COMMIT of booking `p` does, without the rest of the state. */
  ghost predicate BookingStep(calls: seq<Call>, s: State, s': State, p: nat)
    requires |calls| == |s.pcs| == |s'.pcs|
  {
    && p < |calls| && calls[p].Create? && s.pcs[p].LedgerIn? && calls[p].req.start.Some?
    && calls[p].req.key !in s.tables.ledger && calls[p].ids.appointment !in s.tables.appointments
    && calls[p].ids.client !in s.tables.clients && calls[p].ids.job !in s.tables.jobs
    && (s.pcs[p].own ==> s.pcs[p].client == calls[p].ids.client)
    && RolesBut(calls, s, s', p)
    && s'.tables == WithBooking(s.tables, calls[p].req, calls[p].ids, s.pcs[p].client, s.pcs[p].own)
    && s'.pcs[p] == Done(Booked(NewBooking(calls[p].req, calls[p].ids, s.pcs[p].client), false))
  }

  lemma BookingRows(calls: seq<Call>, t0: Tables, s: State, s': State, p: nat)
    requires |calls| == |s.pcs| == |s'.pcs| && BookingStep(calls, s, s', p)
    requires forall q: nat | Canceller(calls, s, q) :: calls[q].id != calls[p].ids.appointment
    requires History(calls, t0, s)
    ensures History(calls, t0, s')
  {
    BookingClients(calls, t0, s, s', p);
    BookingJobs(calls, t0, s, s', p);
    BookingAppointments(calls, t0, s, s', p);
    BookingLedger(calls, t0, s, s', p);
    SameMemories(calls, t0, s, s', p);
  }

  lemma BookingClients(calls: seq<Call>, t0: Tables, s: State, s': State, p: nat)
    requires |calls| == |s.pcs| == |s'.pcs| && BookingStep(calls, s, s', p) && ClientHistory(calls, t0, s)
    ensures ClientHistory(calls, t0, s')
  {
    assert Booker(calls, s', p);
  }

  lemma BookingJobs(calls: seq<Call>, t0: Tables, s: State, s': State, p: nat)
    requires |calls| == |s.pcs| == |s'.pcs| && BookingStep(calls, s, s', p) && JobHistory(calls, t0, s)
    ensures JobHistory(calls, t0, s')
  {
    assert Booker(calls, s', p);
  }

  lemma BookingAppointments(calls: seq<Call>, t0: Tables, s: State, s': State, p: nat)
    requires |calls| == |s.pcs| == |s'.pcs| && BookingStep(calls, s, s', p) && AppointmentHistory(calls, t0, s)
    requires forall q: nat | Canceller(calls, s, q) :: calls[q].id != calls[p].ids.appointment
    ensures AppointmentHistory(calls, t0, s')
  {
    assert Booker(calls, s', p) && !Canceller(calls, s', p);
  }

  lemma BookingLedger(calls: seq<Call>, t0: Tables, s: State, s': State, p: nat)
    requires |calls| == |s.pcs| == |s'.pcs| && BookingStep(calls, s, s', p) && LedgerHistory(calls, t0, s)
    ensures LedgerHistory(calls, t0, s')
  {
    assert Booker(calls, s', p);
  }

  lemma SameMemories(calls: seq<Call>, t0: Tables, s: State, s': State, p: nat)
    requires |calls| == |s.pcs| == |s'.pcs| && RolesBut(calls, s, s', p) && MemoryHistory(calls, t0, s)
    requires s'.tables.memories == s.tables.memories && !Creator(calls, s, p) && !Creator(calls, s', p)
    ensures MemoryHistory(calls, t0, s')
  {
    assert forall q: nat :: Creator(calls, s', q) <==> Creator(calls, s, q);
  }

  lemma SameBookings(calls: seq<Call>, t0: Tables, s: State, s': State, p: nat)
    requires |calls| == |s.pcs| == |s'.pcs| && RolesBut(calls, s, s', p)
    requires !Booker(calls, s, p) && !Booker(calls, s', p)
    requires s'.tables.clients == s.tables.clients && s'.tables.jobs == s.tables.jobs
    requires s'.tables.ledger == s.tables.ledger
    requires ClientHistory(calls, t0, s) && JobHistory(calls, t0, s) && LedgerHistory(calls, t0, s)
    ensures ClientHistory(calls, t0, s') && JobHistory(calls, t0, s') && LedgerHistory(calls, t0, s')
  {
    assert forall q: nat :: Booker(calls, s', q) <==> Booker(calls, s, q);
    assert forall q: nat | Booker(calls, s, q) :: s'.pcs[q] == s.pcs[q];
  }

  lemma ChangeStep(calls: seq<Call>, s: State, p: nat)
    requires Inv(calls, s) && CanGo(calls, s, p)
    requires (calls[p].Cancel? || calls[p].Reschedule?) && Commits(s.pcs[p])
    ensures var s' := Apply(calls, s, Go(p));
            && s'.tables == s.tables.(appointments := s'.tables.appointments)
            && s'.tables.appointments.Keys ==
               s.tables.appointments.Keys - if Canceller(calls, s', p) then {calls[p].id} else {}
  {
    assert Local(s.tables, calls[p], s.pcs[p]);
  }

  lemma ChangeHistory(calls: seq<Call>, t0: Tables, s: State, s': State, p: nat)
    requires Inv(calls, s) && CanGo(calls, s, p) && s' == Apply(calls, s, Go(p))
    requires (calls[p].Cancel? || calls[p].Reschedule?) && Commits(s.pcs[p])
    requires History(calls, t0, s)
    ensures History(calls, t0, s')
  {
    EventRoles(calls, s, Go(p));
    ChangeStep(calls, s, p);
    ChangeRows(calls, t0, s, s', p);
  }

  lemma ChangeRows(calls: seq<Call>, t0: Tables, s: State, s': State, p: nat)
    requires |calls| == |s.pcs| == |s'.pcs| && p < |calls| && (calls[p].Cancel? || calls[p].Reschedule?)
    requires History(calls, t0, s) && RolesBut(calls, s, s', p) && !Canceller(calls, s, p)
    requires s'.tables == s.tables.(appointments := s'.tables.appointments)
    requires s'.tables.appointments.Keys ==
             s.tables.appointments.Keys - if Canceller(calls, s', p) then {calls[p].id} else {}
    ensures History(calls, t0, s')
  {
    SameBookings(calls, t0, s, s', p);
    SameMemories(calls, t0, s, s', p);
    ChangeAppointments(calls, t0, s, s', p);
  }

  lemma ChangeAppointments(calls: seq<Call>, t0: Tables, s: State, s': State, p: nat)
    requires |calls| == |s.pcs| == |s'.pcs| && p < |calls| && (calls[p].Cancel? || calls[p].Reschedule?)
    requires AppointmentHistory(calls, t0, s) && RolesBut(calls, s, s', p) && !Canceller(calls, s, p)
    requires s'.tables.appointments.Keys ==
             s.tables.appointments.Keys - if Canceller(calls, s', p) then {calls[p].id} else {}
    ensures AppointmentHistory(calls, t0, s')
  {
    assert forall q: nat :: Booker(calls, s', q) <==> Booker(calls, s, q);
    assert forall q: nat :: Canceller(calls, s', q) <==> Canceller(calls, s, q) || (q == p && Canceller(calls, s', p));
    assert forall a :: a in s'.tables.appointments <==> a in s'.tables.appointments.Keys;
    assert forall a :: a in s.tables.appointments <==> a in s.tables.appointments.Keys;
  }

  lemma PreferenceStep(calls: seq<Call>, s: State, p: nat)
    requires Inv(calls, s) && CanGo(calls, s, p) && calls[p].Upsert? && Commits(s.pcs[p])
    ensures var s' := Apply(calls, s, Go(p));
            && s'.tables == s.tables.(memories := s'.tables.memories)
            && KeepsMemories(s.tables, s'.tables)
            && s'.tables.memories.Keys ==
               s.tables.memories.Keys + if Creator(calls, s', p) then {calls[p].memId} else {}
  {
    assert Local(s.tables, calls[p], s.pcs[p]);
  }

  lemma PreferenceHistory(calls: seq<Call>, t0: Tables, s: State, s': State, p: nat)
    requires Inv(calls, s) && CanGo(calls, s, p) && s' == Apply(calls, s, Go(p))
    requires calls[p].Upsert? && Commits(s.pcs[p])
    requires History(calls, t0, s)
    ensures History(calls, t0, s')
  {
    EventRoles(calls, s, Go(p));
    PreferenceStep(calls, s, p);
    PreferenceRows(calls, t0, s, s', p);
  }

  lemma PreferenceRows(calls: seq<Call>, t0: Tables, s: State, s': State, p: nat)
    requires |calls| == |s.pcs| == |s'.pcs| && p < |calls| && calls[p].Upsert? && !Creator(calls, s, p)
    requires History(calls, t0, s) && RolesBut(calls, s, s', p)
    requires s'.tables == s.tables.(memories := s'.tables.memories)
    requires KeepsMemories(s.tables, s'.tables)
    requires s'.tables.memories.Keys ==
             s.tables.memories.Keys + if Creator(calls, s', p) then {calls[p].memId} else {}
    ensures History(calls, t0, s')
  {
    SameBookings(calls, t0, s, s', p);
    assert AppointmentHistory(calls, t0, s') by {
      assert forall q: nat :: Booker(calls, s', q) <==> Booker(calls, s, q);
      assert forall q: nat :: Canceller(calls, s', q) <==> Canceller(calls, s, q);
    }
    PreferenceMemories(calls, t0, s, s', p);
  }

  lemma PreferenceMemories(calls: seq<Call>, t0: Tables, s: State, s': State, p: nat)
    requires |calls| == |s.pcs| == |s'.pcs| && p < |calls| && calls[p].Upsert? && !Creator(calls, s, p)
    requires MemoryHistory(calls, t0, s) && RolesBut(calls, s, s', p) && KeepsMemories(s.tables, s'.tables)
    requires s'.tables.memories.Keys ==
             s.tables.memories.Keys + if Creator(calls, s', p) then {calls[p].memId} else {}
    ensures MemoryHistory(calls, t0, s')
  {
    assert forall q: nat :: Creator(calls, s', q) <==> Creator(calls, s, q) || (q == p && Creator(calls, s', p));
    assert forall m :: m in s'.tables.memories <==> m in s'.tables.memories.Keys;
    assert forall m :: m in s.tables.memories <==> m in s.tables.memories.Keys;
  }

  lemma EventHistory(calls: seq<Call>, t0: Tables, s: State, e: Event)
    requires Inv(calls, s) && Enabled(calls, s, e) && History(calls, t0, s)
    ensures History(calls, t0, Apply(calls, s, e))
  {
    var p := e.call;
    assert Local(s.tables, calls[p], s.pcs[p]);
    if e.Fail? || !Commits(s.pcs[p]) {
      QuietHistory(calls, t0, s, Apply(calls, s, e), e);
    } else if calls[p].Create? {
      BookingHistory(calls, t0, s, p);
    } else if calls[p].Upsert? {
      PreferenceHistory(calls, t0, s, Apply(calls, s, e), p);
    } else {
      ChangeHistory(calls, t0, s, Apply(calls, s, e), p);
    }
  }

  lemma {:induction false} HistoryGoesOn(calls: seq<Call>, t0: Tables, s: State, es: seq<Event>)
    requires Inv(calls, s) && Runs(calls, s, es) && History(calls, t0, s)
    ensures History(calls, t0, Final(calls, s, es))
    decreases |es|
  {
    if es == [] {
    } else {
      EventHistory(calls, t0, s, es[0]);
      ApplyInv(calls, s, es[0]);
      HistoryGoesOn(calls, t0, Apply(calls, s, es[0]), es[1..]);
    }
  }

  // ----- what becomes of an appointment ------------------------------------------------

  predicate Moves(c: Call, a: Id) {
    c.Reschedule? && c.id == a && c.to.Some?
  }

  /** Where the last call in `order` that moves the appointment puts it. */
  function LastMove(calls: seq<Call>, order: seq<nat>, a: Id): Option<Instant> {
    if order == [] then None
    else
      var later := LastMove(calls, order[1..], a);
      if later.Some? then later
      else if order[0] < |calls| && Moves(calls[order[0]], a) then calls[order[0]].to else None
  }

  function MovedRow(row: Appointment, to: Option<Instant>): Appointment {
    if to.Some? then row.(start := to.value) else row
  }

  /** The row a booking inserts. */
  function NewRow(c: Call): Appointment
    requires c.Create? && c.req.start.Some?
  {
    Appointment(c.ids.job, c.req.staffId, c.req.staffName, c.req.start.value)
  }

  /** The appointment in `end` is as it was in `s`, or as a booking made since has inserted it,
      but for the start that the last committed move gave it: its job and its staff member
      are the same. */
  ghost predicate RowFrom(calls: seq<Call>, s: State, end: State, order: seq<nat>, a: Id)
    requires |calls| == |s.pcs| == |end.pcs| && a in end.tables.appointments
  {
    var row, to := end.tables.appointments[a], LastMove(calls, order, a);
    if a in s.tables.appointments then
      row == MovedRow(s.tables.appointments[a], to)
    else
      exists p: nat ::
        && Booker(calls, end, p) && !Booker(calls, s, p) && calls[p].ids.appointment == a
        && calls[p].req.start.Some? && row == MovedRow(NewRow(calls[p]), to)
  }

  /** What one statement does to an appointment. */
  lemma StatementRow(t: Tables, c: Call, pc: Pc, a: Id)
    requires Valid(t) && Local(t, c, pc) && !pc.Done? && a in Advance(t, c, pc).0.appointments
    ensures var row := Advance(t, c, pc).0.appointments[a];
            if a in t.appointments then
              row == MovedRow(t.appointments[a], if Commits(pc) && Moves(c, a) then c.to else None)
            else
              c.Create? && pc.LedgerIn? && c.ids.appointment == a && c.req.start.Some? && row == NewRow(c)
  {
  }

  lemma MoverHasRow(t: Tables, c: Call, pc: Pc)
    requires Local(t, c, pc) && c.Reschedule? && Commits(pc)
    ensures c.id in t.appointments
  {
  }

  lemma PendingIsAbsent(t: Tables, c: Call, pc: Pc)
    requires Local(t, c, pc) && c.Create? && !BookedNow(pc)
    ensures c.ids.appointment !in t.appointments
  {
  }

  /** How the last move of a run goes on from that of the rest of the run. */
  lemma LastMoveOfRun(calls: seq<Call>, s: State, es: seq<Event>, a: Id)
    requires |calls| == |s.pcs| && Runs(calls, s, es) && es != []
    ensures var rest := LastMove(calls, CommitOrder(calls, Apply(calls, s, es[0]), es[1..]), a);
            LastMove(calls, CommitOrder(calls, s, es), a) ==
            if rest.None? && es[0].Go? && Commits(s.pcs[es[0].call]) && Moves(calls[es[0].call], a)
            then calls[es[0].call].to else rest
  {
    var p, rest := es[0].call, CommitOrder(calls, Apply(calls, s, es[0]), es[1..]);
    if es[0].Go? && Commits(s.pcs[p]) {
      assert ([p] + rest)[1..] == rest;
    } else {
      assert [] + rest == rest;
    }
  }

  /** An appointment that is there after the first event. */
  lemma KeptRow(calls: seq<Call>, s: State, es: seq<Event>, a: Id)
    requires Inv(calls, s) && Runs(calls, s, es) && es != []
    requires var s' := Apply(calls, s, es[0]);
             && a in s'.tables.appointments && a in Final(calls, s, es).tables.appointments
             && RowFrom(calls, s', Final(calls, s, es), CommitOrder(calls, s', es[1..]), a)
    ensures RowFrom(calls, s, Final(calls, s, es), CommitOrder(calls, s, es), a)
  {
    var e, s' := es[0], Apply(calls, s, es[0]);
    var p := e.call;
    LastMoveOfRun(calls, s, es, a);
    if e.Go? {
      assert Local(s.tables, calls[p], s.pcs[p]);
      StatementRow(s.tables, calls[p], s.pcs[p], a);
      if a !in s.tables.appointments {
        BookerStays(calls, s, es, p);
      }
    }
  }

  /** The call whose COMMIT is the first event is a booker from then on. */
  lemma BookerStays(calls: seq<Call>, s: State, es: seq<Event>, p: nat)
    requires Inv(calls, s) && Runs(calls, s, es) && es != [] && es[0] == Go(p)
    requires calls[p].Create? && s.pcs[p].LedgerIn? && calls[p].req.start.Some?
    ensures Booker(calls, Final(calls, s, es), p) && !Booker(calls, s, p)
  {
    DoneStays(calls, Apply(calls, s, es[0]), es[1..], p);
  }

  /** An appointment that comes later. */
  lemma LaterRow(calls: seq<Call>, s: State, es: seq<Event>, a: Id)
    requires Inv(calls, s) && Runs(calls, s, es) && es != []
    requires var s' := Apply(calls, s, es[0]);
             && a !in s'.tables.appointments && a in Final(calls, s, es).tables.appointments
             && RowFrom(calls, s', Final(calls, s, es), CommitOrder(calls, s', es[1..]), a)
    ensures RowFrom(calls, s, Final(calls, s, es), CommitOrder(calls, s, es), a)
  {
    var e, s' := es[0], Apply(calls, s, es[0]);
    var end := Final(calls, s, es);
    LastMoveOfRun(calls, s, es, a);
    var p: nat :| Booker(calls, end, p) && !Booker(calls, s', p) && calls[p].ids.appointment == a
                  && calls[p].req.start.Some?
                  && end.tables.appointments[a]
                     == MovedRow(NewRow(calls[p]), LastMove(calls, CommitOrder(calls, s', es[1..]), a));
    RolesStay(calls, s, e, p);
    assert Local(s.tables, calls[p], s.pcs[p]);
    PendingIsAbsent(s.tables, calls[p], s.pcs[p]);
    if e.Go? && Commits(s.pcs[e.call]) && Moves(calls[e.call], a) {
      assert Local(s.tables, calls[e.call], s.pcs[e.call]);
      MoverHasRow(s.tables, calls[e.call], s.pcs[e.call]);
    }
  }

  lemma {:induction false} RowHistory(calls: seq<Call>, s: State, es: seq<Event>, a: Id)
    requires Inv(calls, s) && Runs(calls, s, es) && a in Final(calls, s, es).tables.appointments
    ensures RowFrom(calls, s, Final(calls, s, es), CommitOrder(calls, s, es), a)
    decreases |es|
  {
    if es == [] {
    } else {
      var s' := Apply(calls, s, es[0]);
      ApplyInv(calls, s, es[0]);
      RowHistory(calls, s', es[1..], a);
      if a in s'.tables.appointments {
        KeptRow(calls, s, es, a);
      } else {
        LaterRow(calls, s, es, a);
      }
    }
  }

  /** The state is reached from the initial tables by some schedule. */
  ghost predicate Reached(calls: seq<Call>, t0: Tables, es: seq<Event>) {
    Valid(t0) && FreshIds(calls, t0) && Runs(calls, Init(calls, t0), es)
  }

  ghost function After(calls: seq<Call>, t0: Tables, es: seq<Event>): (s: State)
    requires Reached(calls, t0, es)
    ensures |s.pcs| == |calls|
  {
    Final(calls, Init(calls, t0), es)
  }

  /** Every appointment is an initial one, or that of a new booking, at the start that the last
      committed move gave it. */
  ghost predicate AppointmentRows(calls: seq<Call>, t0: Tables, es: seq<Event>)
    requires Reached(calls, t0, es)
  {
    forall a | a in After(calls, t0, es).tables.appointments ::
      RowFrom(calls, Init(calls, t0), After(calls, t0, es), CommitOrder(calls, Init(calls, t0), es), a)
  }

  lemma InvariantAndHistory(calls: seq<Call>, t0: Tables, es: seq<Event>)
    requires Reached(calls, t0, es)
    ensures Inv(calls, After(calls, t0, es)) && History(calls, t0, After(calls, t0, es))
  {
    InitInv(calls, t0);
    RunInv(calls, Init(calls, t0), es);
    assert History(calls, t0, Init(calls, t0));
    HistoryGoesOn(calls, t0, Init(calls, t0), es);
  }

  /** Conservation: in every state of every run the tables satisfy all constraints, the rows are
      accounted for by the answers the calls gave, and every appointment has the job and the
      staff member it began with and the start of its last committed move. */
  lemma Conservation(calls: seq<Call>, t0: Tables, es: seq<Event>)
    requires Reached(calls, t0, es)
    ensures Valid(After(calls, t0, es).tables) && History(calls, t0, After(calls, t0, es))
    ensures AppointmentRows(calls, t0, es)
  {
    InvariantAndHistory(calls, t0, es);
    InitInv(calls, t0);
    forall a | a in After(calls, t0, es).tables.appointments
      ensures RowFrom(calls, Init(calls, t0), After(calls, t0, es), CommitOrder(calls, Init(calls, t0), es), a)
    {
      RowHistory(calls, Init(calls, t0), es, a);
    }
  }

  lemma LocalAfter(calls: seq<Call>, t0: Tables, es: seq<Event>, p: nat)
    requires Reached(calls, t0, es) && p < |calls|
    ensures Local(After(calls, t0, es).tables, calls[p], After(calls, t0, es).pcs[p])
  {
    InvariantAndHistory(calls, t0, es);
  }

  lemma LedgerAfter(calls: seq<Call>, t0: Tables, es: seq<Event>)
    requires Reached(calls, t0, es)
    ensures LedgerHistory(calls, t0, After(calls, t0, es))
  {
    InvariantAndHistory(calls, t0, es);
  }

  lemma IdsDiffer(calls: seq<Call>, t0: Tables, p: nat, q: nat)
    requires FreshIds(calls, t0) && p < |calls| && q < |calls| && p != q
    ensures DifferentIds(calls[p], calls[q])
  {
  }

  /** No double booking in any state of any run, although no call checks under a lock. */
  lemma NoDoubleBooking(calls: seq<Call>, t0: Tables, es: seq<Event>, a: Id, b: Id)
    requires Reached(calls, t0, es)
    requires a in After(calls, t0, es).tables.appointments && b in After(calls, t0, es).tables.appointments
    requires a != b
    ensures var rows := After(calls, t0, es).tables.appointments;
            rows[a].staffId.None? || rows[a].staffId != rows[b].staffId || rows[a].start != rows[b].start
  {
    InvariantAndHistory(calls, t0, es);
  }

  /** Get-or-create under races: in every state of every run an address has at most one
      client. */
  lemma OneClientPerAddress(calls: seq<Call>, t0: Tables, es: seq<Event>, a: Id, b: Id)
    requires Reached(calls, t0, es)
    requires a in After(calls, t0, es).tables.clients && b in After(calls, t0, es).tables.clients && a != b
    ensures var clients := After(calls, t0, es).tables.clients;
            clients[a].email.None? || clients[a].email != clients[b].email
  {
    InvariantAndHistory(calls, t0, es);
  }

  /** In every state of every run every job has its client, and every appointment its job. */
  lemma NothingDangles(calls: seq<Call>, t0: Tables, es: seq<Event>)
    requires Reached(calls, t0, es)
    ensures var t := After(calls, t0, es).tables;
            && (forall j | j in t.jobs :: t.jobs[j].clientId in t.clients)
            && (forall a | a in t.appointments :: t.appointments[a].jobId in t.jobs)
  {
    InvariantAndHistory(calls, t0, es);
  }

  /** Two bookings made under one key are one booking: every call that was answered with a
      booking under the key got the same one, and of those calls at most one was told that
      it made it.  If the key was not in the ledger to begin with, exactly one was. */
  lemma ExactlyOnceBooking(calls: seq<Call>, t0: Tables, es: seq<Event>, p: nat) returns (first: nat)
    requires Reached(calls, t0, es) && p < |calls| && calls[p].Create?
    requires After(calls, t0, es).pcs[p].Done? && After(calls, t0, es).pcs[p].outcome.Booked?
    requires calls[p].req.key !in t0.ledger
    ensures var s, key := After(calls, t0, es), calls[p].req.key;
            && Booker(calls, s, first) && calls[first].req.key == key
            && s.pcs[first].outcome.booking == s.pcs[p].outcome.booking
            && key in s.tables.ledger && s.tables.ledger[key] == s.pcs[p].outcome.booking
            && forall q: nat | Booker(calls, s, q) && calls[q].req.key == key :: q == first
  {
    AnswerIsRecorded(calls, t0, es, p);
    LedgerAfter(calls, t0, es);
    first := RecordedBy(calls, t0, After(calls, t0, es), calls[p].req.key);
    forall q: nat | Booker(calls, After(calls, t0, es), q) && calls[q].req.key == calls[p].req.key
      ensures q == first
    {
      OneBooker(calls, t0, es, q, first);
    }
  }

  /** The booking that a call was answered with is the one in the ledger. */
  lemma AnswerIsRecorded(calls: seq<Call>, t0: Tables, es: seq<Event>, p: nat)
    requires Reached(calls, t0, es) && p < |calls| && calls[p].Create?
    requires After(calls, t0, es).pcs[p].Done? && After(calls, t0, es).pcs[p].outcome.Booked?
    ensures var s, key := After(calls, t0, es), calls[p].req.key;
            key in s.tables.ledger && s.tables.ledger[key] == s.pcs[p].outcome.booking
  {
    LocalAfter(calls, t0, es, p);
  }

  /** No two calls make a booking under one key. */
  lemma OneBooker(calls: seq<Call>, t0: Tables, es: seq<Event>, p: nat, q: nat)
    requires Reached(calls, t0, es)
    requires Booker(calls, After(calls, t0, es), p) && Booker(calls, After(calls, t0, es), q)
    requires calls[p].req.key == calls[q].req.key
    ensures p == q
  {
    BookerOwns(calls, t0, es, p);
    BookerOwns(calls, t0, es, q);
    if p != q {
      IdsDiffer(calls, t0, p, q);
    }
  }

  /** A new booking is recorded in the ledger and owns the rows drawn for its call. */
  lemma BookerOwns(calls: seq<Call>, t0: Tables, es: seq<Event>, p: nat)
    requires Reached(calls, t0, es) && Booker(calls, After(calls, t0, es), p)
    ensures var s := After(calls, t0, es); var booking := s.pcs[p].outcome.booking;
            && calls[p].req.key in s.tables.ledger && s.tables.ledger[calls[p].req.key] == booking
            && calls[p].req.start.Some? && booking == NewBooking(calls[p].req, calls[p].ids, booking.clientId)
            && booking.jobId in s.tables.jobs
            && s.tables.jobs[booking.jobId] == Job(booking.clientId, calls[p].req.service, calls[p].req.address)
  {
    LocalAfter(calls, t0, es, p);
  }

  /** The call that made the booking recorded under a new key. */
  lemma LedgerOwner(calls: seq<Call>, t0: Tables, es: seq<Event>, k: string) returns (p: nat)
    requires Reached(calls, t0, es) && k in After(calls, t0, es).tables.ledger && k !in t0.ledger
    ensures var s := After(calls, t0, es);
            && Booker(calls, s, p) && calls[p].req.key == k
            && s.tables.ledger[k].jobId == calls[p].ids.job
            && s.tables.ledger[k].appointmentId == calls[p].ids.appointment
  {
    LedgerAfter(calls, t0, es);
    p := RecordedBy(calls, t0, After(calls, t0, es), k);
    BookerOwns(calls, t0, es, p);
  }

  lemma RecordedBy(calls: seq<Call>, t0: Tables, s: State, k: string) returns (p: nat)
    requires |calls| == |s.pcs| && LedgerHistory(calls, t0, s) && k in s.tables.ledger && k !in t0.ledger
    ensures Booker(calls, s, p) && calls[p].req.key == k && s.pcs[p] == Done(Booked(s.tables.ledger[k], false))
  {
    p :| Booker(calls, s, p) && calls[p].req.key == k && s.pcs[p] == Done(Booked(s.tables.ledger[k], false));
  }

  /** Different keys recorded in one run own different jobs and appointments. */
  lemma BookingsAreDisjoint(calls: seq<Call>, t0: Tables, es: seq<Event>, k: string, l: string)
    requires Reached(calls, t0, es) && k != l
    requires var ledger := After(calls, t0, es).tables.ledger;
             k in ledger && l in ledger && k !in t0.ledger && l !in t0.ledger
    ensures var ledger := After(calls, t0, es).tables.ledger;
            ledger[k].jobId != ledger[l].jobId && ledger[k].appointmentId != ledger[l].appointmentId
  {
    var p := LedgerOwner(calls, t0, es, k);
    var q := LedgerOwner(calls, t0, es, l);
    IdsDiffer(calls, t0, p, q);
  }

  /** A create_booking that has not answered with a new booking, whether it is under way,
      was answered with an older booking, was refused or failed, has left no client, job or
      appointment behind. */
  lemma NothingLeftBehind(calls: seq<Call>, t0: Tables, es: seq<Event>, p: nat)
    requires Reached(calls, t0, es) && p < |calls| && calls[p].Create?
    requires !Booker(calls, After(calls, t0, es), p)
    ensures var t := After(calls, t0, es).tables;
            && calls[p].ids.client !in t.clients && calls[p].ids.job !in t.jobs
            && calls[p].ids.appointment !in t.appointments
  {
    LocalAfter(calls, t0, es, p);
  }

  /** How a call can end.  The defensive re-raises are unreachable, and an unassigned
      booking with a start that parses is refused only by a database failure. */
  lemma HowCallsEnd(calls: seq<Call>, t0: Tables, es: seq<Event>, p: nat)
    requires Reached(calls, t0, es) && p < |calls| && After(calls, t0, es).pcs[p].Done?
    ensures var outcome := After(calls, t0, es).pcs[p].outcome;
            && !outcome.Reraised?
            && (calls[p].Create? && calls[p].req.staffId.None? && calls[p].req.start.Some? ==>
                  outcome.Booked? || outcome.DbError?)
  {
    LocalAfter(calls, t0, es, p);
  }

  /** The call has deleted the appointment, or is at its UPDATE, and has not ended. */
  predicate IsChanging(c: Call, pc: Pc, a: Id) {
    (c.Cancel? && c.id == a && pc.Deleted?) || (c.Reschedule? && c.id == a && (pc.RowLocked? || pc.MovedIn?))
  }

  /** A booking is refused for its slot only for an appointment that no open transaction has
      deleted or is moving: it waits for such a transaction instead. */
  lemma RefusedForGood(calls: seq<Call>, s: State, p: nat, q: nat, a: Id)
    requires Inv(calls, s) && CanGo(calls, s, p) && q < |calls|
    requires calls[p].Create? && s.pcs[p].JobIn? && Apply(calls, s, Go(p)).pcs[p] == Done(SlotTaken)
    requires a in s.tables.appointments && s.tables.appointments[a].staffId == calls[p].req.staffId
    requires Some(s.tables.appointments[a].start) == calls[p].req.start
    ensures !IsChanging(calls[q], s.pcs[q], a)
  {
    assert Local(s.tables, calls[p], s.pcs[p]) && Local(s.tables, calls[q], s.pcs[q]);
    if IsChanging(calls[q], s.pcs[q], a) {
      assert WaitsFor(calls, s, p, q);
    }
  }

  /** Likewise an UPDATE fails on the slot index only for such an appointment. */
  lemma MoveFailsForGood(calls: seq<Call>, s: State, p: nat, q: nat, a: Id)
    requires Inv(calls, s) && CanGo(calls, s, p) && q < |calls| && q != p
    requires calls[p].Reschedule? && s.pcs[p].RowLocked? && Apply(calls, s, Go(p)).pcs[p] == Done(DbError)
    requires a in s.tables.appointments && s.tables.appointments[a].staffId == s.pcs[p].row.staffId
    requires Some(s.tables.appointments[a].start) == calls[p].to
    ensures !IsChanging(calls[q], s.pcs[q], a)
  {
    assert Local(s.tables, calls[p], s.pcs[p]) && Local(s.tables, calls[q], s.pcs[q]);
    if IsChanging(calls[q], s.pcs[q], a) {
      assert WaitsFor(calls, s, p, q);
    }
  }

  /** The call can be refused by the database only if it fails: it is no reschedule, and its
      staff member, if any, exists. */
  predicate Sound(c: Call, staff: map<Id, Staff>) {
    && !c.Reschedule?
    && (c.Create? && c.req.staffId.Some? ==> c.req.staffId.value in staff)
  }

  lemma SoundStatement(t: Tables, c: Call, pc: Pc)
    requires Local(t, c, pc) && Sound(c, t.staff) && !pc.Done?
    ensures Advance(t, c, pc).1 != Done(DbError)
  {
    match c
    case Create(_, _) =>
    case _ =>
  }

  /** Races alone never raise a database error: a booking, a cancellation or a preference
      update that the schedule does not fail never answers with one. */
  lemma {:induction false} RacesRaiseNothing(calls: seq<Call>, s: State, es: seq<Event>, p: nat)
    requires Inv(calls, s) && Runs(calls, s, es) && p < |calls| && Sound(calls[p], s.tables.staff)
    requires Fail(p) !in es && s.pcs[p] != Done(DbError)
    ensures Final(calls, s, es).pcs[p] != Done(DbError)
    decreases |es|
  {
    if es == [] {
    } else {
      var e := es[0];
      assert Local(s.tables, calls[p], s.pcs[p]);
      if e == Go(p) {
        SoundStatement(s.tables, calls[p], s.pcs[p]);
      }
      if e.Go? {
        StaffStays(s.tables, calls[e.call], s.pcs[e.call]);
      }
      ApplyInv(calls, s, e);
      RacesRaiseNothing(calls, Apply(calls, s, e), es[1..], p);
    }
  }

  /** At most one call for an address ever reports that it created the preference. */
  lemma CreatedOnce(calls: seq<Call>, t0: Tables, es: seq<Event>, p: nat, q: nat)
    requires Reached(calls, t0, es)
    requires Creator(calls, After(calls, t0, es), p) && Creator(calls, After(calls, t0, es), q)
    requires calls[p].email == calls[q].email
    ensures p == q
    ensures !HasPreference(t0, calls[p].email)
  {
    InvariantAndHistory(calls, t0, es);
    LocalAfter(calls, t0, es, p);
    LocalAfter(calls, t0, es, q);
    if p != q {
      IdsDiffer(calls, t0, p, q);
    }
    forall m | m in t0.memories && IsPreference(t0.memories[m], calls[p].email)
      ensures m == calls[p].memId
    {
      assert IsPreference(After(calls, t0, es).tables.memories[m], calls[p].email);
    }
    assert UnusedIds(t0, calls[p]);
  }

  // ----- replays ----------------------------------------------------------------

  lemma {:induction false} LedgerStays(calls: seq<Call>, s: State, es: seq<Event>, k: string)
    requires Inv(calls, s) && Runs(calls, s, es) && k in s.tables.ledger
    ensures k in Final(calls, s, es).tables.ledger && Final(calls, s, es).tables.ledger[k] == s.tables.ledger[k]
    decreases |es|
  {
    if es == [] {
    } else {
      ApplyInv(calls, s, es[0]);
      KeepsLedger(calls, s, es[0], k);
      LedgerStays(calls, Apply(calls, s, es[0]), es[1..], k);
    }
  }

  lemma KeepsLedger(calls: seq<Call>, s: State, e: Event, k: string)
    requires Inv(calls, s) && Enabled(calls, s, e) && k in s.tables.ledger
    ensures k in Apply(calls, s, e).tables.ledger && Apply(calls, s, e).tables.ledger[k] == s.tables.ledger[k]
  {
    assert Local(s.tables, calls[e.call], s.pcs[e.call]);
  }

  /** Once a booking is recorded under a key, and whatever bookings, cancellations and moves
      follow, a call with that key that has not made it never makes another: if it is
      answered with a booking, it is the recorded one, marked as a repeat. */
  lemma {:induction false} ReplayStability(calls: seq<Call>, s: State, es: seq<Event>, p: nat)
    requires Inv(calls, s) && Runs(calls, s, es) && p < |calls| && calls[p].Create?
    requires calls[p].req.key in s.tables.ledger && !Booker(calls, s, p)
    ensures var s', recorded := Final(calls, s, es), s.tables.ledger[calls[p].req.key];
            && !Booker(calls, s', p)
            && (s'.pcs[p].Done? && s'.pcs[p].outcome.Booked? ==> s'.pcs[p].outcome == Booked(recorded, true))
    decreases |es|
  {
    assert Local(s.tables, calls[p], s.pcs[p]);
    if es == [] {
    } else {
      var s' := Apply(calls, s, es[0]);
      if es[0] == Go(p) {
        RolesOfStatement(s.tables, calls[p], s.pcs[p]);
      }
      ApplyInv(calls, s, es[0]);
      KeepsLedger(calls, s, es[0], calls[p].req.key);
      ReplayStability(calls, s', es[1..], p);
    }
  }

  // ----- the note that stays ------------------------------------------------------

  /** The note of an address, if it has a preference row that carries one. */
  ghost function NoteOf(t: Tables, email: string): Option<string> {
    var m := PreferenceOf(t, email);
    if m.Some? && NOTE in t.memories[m.value].content then Some(t.memories[m.value].content[NOTE]) else None
  }

  predicate Writes(c: Call, email: string) {
    c.Upsert? && c.email == email
  }

  /** The note of the last call in `order` that writes to the address. */
  function LastNote(calls: seq<Call>, order: seq<nat>, email: string): Option<string> {
    if order == [] then None
    else
      var later := LastNote(calls, order[1..], email);
      if later.Some? then later
      else if order[0] < |calls| && Writes(calls[order[0]], email) then Some(calls[order[0]].note) else None
  }

  lemma NoteOfEvent(calls: seq<Call>, s: State, e: Event, email: string)
    requires Inv(calls, s) && Enabled(calls, s, e)
    ensures var t', c := Apply(calls, s, e).tables, calls[e.call];
            NoteOf(t', email) == if e.Go? && Commits(s.pcs[e.call]) && Writes(c, email) then Some(c.note)
                                 else NoteOf(s.tables, email)
  {
    var t', c, pc := Apply(calls, s, e).tables, calls[e.call], s.pcs[e.call];
    assert Local(s.tables, c, pc);
    if e.Go? && Commits(pc) && c.Upsert? {
      NoteOfCommit(s.tables, c, pc, email);
    } else {
      assert t'.memories == s.tables.memories;
      assert HasPreference(t', email) <==> HasPreference(s.tables, email);
    }
  }

  lemma NoteOfCommit(t: Tables, c: Call, pc: Pc, email: string)
    requires Valid(t) && Local(t, c, pc) && c.Upsert? && Commits(pc)
    ensures NoteOf(Advance(t, c, pc).0, email) == if Writes(c, email) then Some(c.note) else NoteOf(t, email)
  {
    var t' := Advance(t, c, pc).0;
    UpsertKeepsValid(t, c, pc);
    if Writes(c, email) {
      assert OwnsPreference(t', if pc.MemoryIn? then c.memId else pc.mem, email);
    } else if HasPreference(t, email) {
      assert OwnsPreference(t', PreferenceOf(t, email).value, email);
    }
  }

  /** The note stored for an address is that of the last call for it to commit a write. */
  lemma {:induction false} LastWriterWins(calls: seq<Call>, s: State, es: seq<Event>, email: string)
    requires Inv(calls, s) && Runs(calls, s, es)
    ensures var last := LastNote(calls, CommitOrder(calls, s, es), email);
            NoteOf(Final(calls, s, es).tables, email) == if last.Some? then last else NoteOf(s.tables, email)
    decreases |es|
  {
    if es == [] {
    } else {
      var s' := Apply(calls, s, es[0]);
      ApplyInv(calls, s, es[0]);
      NoteOfEvent(calls, s, es[0], email);
      LastWriterWins(calls, s', es[1..], email);
      var rest := CommitOrder(calls, s', es[1..]);
      if es[0].Go? && Commits(s.pcs[es[0].call]) {
        assert ([es[0].call] + rest)[1..] == rest;
      } else {
        assert [] + rest == rest;
      }
    }
  }
}
