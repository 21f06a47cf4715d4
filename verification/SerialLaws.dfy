/** Laws of the atomic writes that relate several calls. */
module SerialLaws {
  import opened Schema
  import opened Serial

  /** Every atomic write keeps every constraint of the tables. */
  lemma ExecKeepsValid(t: Tables, c: Call)
    requires Valid(t) && UnusedIds(t, c)
    ensures Valid(Exec(t, c).0)
  {
    if c.Create? {
      CreateKeepsValid(t, c.req, c.ids);
    } else if c.Upsert? {
      UpsertKeepsValid(t, c);
    } else {
      MoveKeepsValid(t, c);
    }
  }

  lemma CreateKeepsValid(t: Tables, req: Request, ids: Ids)
    requires Valid(t) && UnusedIds(t, Create(req, ids))
    ensures Valid(CreateBooking(t, req, ids).0)
  {
    if CreateBooking(t, req, ids).0 != t {
      var found := ClientFor(t, req);
      BookingKeepsValid(t, req, ids, if found.Some? then found.value else ids.client, found.None?);
    }
  }

  lemma BookingKeepsValid(t: Tables, req: Request, ids: Ids, client: Id, isNew: bool)
    requires Valid(t) && UnusedIds(t, Create(req, ids)) && req.start.Some?
    requires if isNew then client == ids.client && (req.email.Some? ==> !HasEmail(t, req.email.value))
             else client in t.clients
    requires !SlotTakenBy(t, req.staffId, req.start.value, None)
    requires req.staffId.Some? ==> req.staffId.value in t.staff
    ensures Valid(WithBooking(t, req, ids, client, isNew))
  {
    var t' := WithBooking(t, req, ids, client, isNew);
    assert UniqueEmails(t'.clients);
    assert UniqueSlots(t'.appointments);
    assert ForeignKeys(t');
  }

  lemma MoveKeepsValid(t: Tables, c: Call)
    requires Valid(t) && (c.Cancel? || c.Reschedule?)
    ensures Valid(Exec(t, c).0)
  {
    assert UniqueSlots(Exec(t, c).0.appointments);
  }

  lemma UpsertKeepsValid(t: Tables, c: Call)
    requires Valid(t) && c.Upsert? && UnusedIds(t, c)
    ensures Valid(Exec(t, c).0)
  {
    var row := PreferenceOf(t, c.email);
    if row.Some? {
      assert UniqueMemories(WithNote(t, row.value, c.note).memories);
    } else {
      PreferenceKeepsValid(t, c.memId, c.email, c.note);
    }
  }

  lemma PreferenceKeepsValid(t: Tables, m: int, email: string, note: string)
    requires Valid(t) && m !in t.memories && !HasPreference(t, email)
    ensures Valid(WithPreference(t, m, email, note))
  {
    assert forall k | k in t.memories :: !IsPreference(t.memories[k], email);
    assert UniqueMemories(WithPreference(t, m, email, note).memories);
  }

  /** How a booking is answered, on the rows themselves; a refusal changes nothing. */
  lemma BookingAnswers(t: Tables, req: Request, ids: Ids)
    ensures var (t', out) := CreateBooking(t, req, ids);
            var taken := req.start.Some? && req.staffId.Some? && exists a | a in t.appointments ::
                           t.appointments[a].staffId == req.staffId && t.appointments[a].start == req.start.value;
            var unknown := req.staffId.Some? && req.staffId.value !in t.staff;
            && (req.key in t.ledger ==> (t', out) == (t, Booked(t.ledger[req.key], true)))
            && (req.key !in t.ledger && req.start.None? ==> (t', out) == (t, BadStart))
            && (req.key !in t.ledger && req.start.Some? && taken ==> (t', out) == (t, SlotTaken))
            && (req.key !in t.ledger && req.start.Some? && !taken && unknown ==> (t', out) == (t, DbError))
            && (req.key !in t.ledger && req.start.Some? && !taken && !unknown ==> out.Booked? && !out.idempotent)
  {
    assert forall a | a in t.appointments :: Some(a) != None;
  }

  /** How a cancellation is answered. */
  lemma CancelAnswers(t: Tables, id: Id)
    ensures var (t', out) := CancelAppointment(t, id);
            && out == Cancelled(id in t.appointments)
            && t' == t.(appointments := t'.appointments) && id !in t'.appointments
            && (forall a | a in t.appointments && a != id ::
                  a in t'.appointments && t'.appointments[a] == t.appointments[a])
            && (forall a | a in t'.appointments :: a in t.appointments)
  {
  }

  /** How a move is answered, on the rows themselves: there is no appointment, or the new start
      does not parse, or another appointment of its staff member stands there; otherwise its
      start changes, and nothing else. */
  lemma MoveAnswers(t: Tables, id: Id, to: Option<Instant>)
    ensures var (t', out) := RescheduleAppointment(t, id, to);
            && (out == NoAppointment <==> id !in t.appointments)
            && (out == BadStart <==> id in t.appointments && to.None?)
            && (out == SlotClash <==>
                  && id in t.appointments && to.Some? && t.appointments[id].staffId.Some?
                  && exists a | a in t.appointments && a != id ::
                       t.appointments[a].staffId == t.appointments[id].staffId && t.appointments[a].start == to.value)
            && (!out.Moved? ==> t' == t && (out == NoAppointment || out == BadStart || out == SlotClash))
            && (out.Moved? ==>
                  && id in t.appointments && to.Some? && out == Moved(id, to.value, t.appointments[id].staffId)
                  && t' == t.(appointments := t.appointments[id := t.appointments[id].(start := to.value)]))
  {
    assert forall a | a in t.appointments :: Some(a) != Some(id) <==> a != id;
  }

  /** The tables after any sequence of calls. */
  ghost function ExecAll(t: Tables, cs: seq<Call>): Tables
    decreases |cs|
  {
    if cs == [] then t else ExecAll(Exec(t, cs[0]).0, cs[1..])
  }

  lemma {:induction false} LedgerGrows(t: Tables, cs: seq<Call>, k: string)
    requires k in t.ledger
    ensures k in ExecAll(t, cs).ledger && ExecAll(t, cs).ledger[k] == t.ledger[k]
    decreases |cs|
  {
    if cs == [] {
    } else {
      LedgerGrows(Exec(t, cs[0]).0, cs[1..], k);
    }
  }

  /** A booking answered once is answered for ever: after any calls whatever, including the
      cancellation or the move of its appointment, the same key gives the recorded booking,
      marked as a repeat, and changes nothing. */
  lemma ReplayAfterAnything(t: Tables, req: Request, ids: Ids, cs: seq<Call>, again: Request, ids': Ids)
    requires CreateBooking(t, req, ids).1.Booked? && again.key == req.key
    ensures var t', booking := ExecAll(CreateBooking(t, req, ids).0, cs), CreateBooking(t, req, ids).1.booking;
            CreateBooking(t', again, ids') == (t', Booked(booking, true))
  {
    LedgerGrows(CreateBooking(t, req, ids).0, cs, req.key);
  }

  lemma {:induction false} StaysCancelled(t: Tables, cs: seq<Call>, id: Id)
    requires id !in t.appointments
    requires forall i | 0 <= i < |cs| && cs[i].Create? :: cs[i].ids.appointment != id
    ensures id !in ExecAll(t, cs).appointments
    decreases |cs|
  {
    if cs == [] {
    } else {
      assert cs[0] == cs[0];
      StaysCancelled(Exec(t, cs[0]).0, cs[1..], id);
    }
  }

  /** One call at a time, an appointment is cancelled at most once. */
  lemma CancelledOnce(t: Tables, id: Id, cs: seq<Call>)
    requires CancelAppointment(t, id).1 == Cancelled(true)
    requires forall i | 0 <= i < |cs| && cs[i].Create? :: cs[i].ids.appointment != id
    ensures var t' := ExecAll(CancelAppointment(t, id).0, cs);
            CancelAppointment(t', id) == (t', Cancelled(false))
  {
    StaysCancelled(CancelAppointment(t, id).0, cs, id);
  }

  /** A move can be undone: moving the appointment back succeeds and restores the tables. */
  lemma MoveBack(t: Tables, id: Id, to: Instant)
    requires Valid(t) && RescheduleAppointment(t, id, Some(to)).1.Moved?
    ensures var t' := RescheduleAppointment(t, id, Some(to)).0; var start := t.appointments[id].start;
            && id in t.appointments
            && RescheduleAppointment(t', id, Some(start)) == (t, Moved(id, start, t.appointments[id].staffId))
  {
    var t', row := WithMove(t, id, to), t.appointments[id];
    assert forall a | a in t.appointments && a != id :: !SameSlot(t.appointments[a], row);
    assert !SlotTakenBy(t', row.staffId, row.start, Some(id));
    assert row.(start := to).(start := row.start) == row;
    assert WithMove(t', id, row.start).appointments == t.appointments;
  }

  /** Cancelling a new booking restores every appointment, but not the client, the job or
      the ledger row that came with it. */
  lemma BookThenCancel(t: Tables, req: Request, ids: Ids)
    requires Valid(t) && UnusedIds(t, Create(req, ids))
    requires CreateBooking(t, req, ids).1.Booked? && !CreateBooking(t, req, ids).1.idempotent
    ensures var t' := CreateBooking(t, req, ids).0; var t'' := CancelAppointment(t', ids.appointment).0;
            && t''.appointments == t.appointments
            && t''.jobs
               == t.jobs[ids.job := Job(CreateBooking(t, req, ids).1.booking.clientId, req.service, req.address)]
            && t''.ledger == t.ledger[req.key := CreateBooking(t, req, ids).1.booking]
            && t''.clients == t'.clients
  {
    var t' := CreateBooking(t, req, ids).0;
    assert t'.appointments - {ids.appointment} == t.appointments;
  }

  /** A new booking is a chain of rows: the ledger row names the appointment, the appointment
      its job, the job its client, and the client has the address of the request.  The client
      row is new, with the caller's details, exactly when the address was unknown; nothing
      else in the tables changes. */
  lemma BookingChain(t: Tables, req: Request, ids: Ids)
    requires Valid(t) && UnusedIds(t, Create(req, ids))
    requires CreateBooking(t, req, ids).1.Booked? && !CreateBooking(t, req, ids).1.idempotent
    ensures var (t', out) := CreateBooking(t, req, ids);
            var b := out.booking;
            && req.key !in t.ledger && t'.ledger == t.ledger[req.key := b]
            && t'.appointments.Keys == t.appointments.Keys + {b.appointmentId} && b.appointmentId !in t.appointments
            && t'.appointments[b.appointmentId] == Appointment(b.jobId, req.staffId, req.staffName, b.start)
            && Some(b.start) == req.start && b.staffId == req.staffId
            && t'.jobs.Keys == t.jobs.Keys + {b.jobId} && b.jobId !in t.jobs
            && t'.jobs[b.jobId] == Job(b.clientId, req.service, req.address)
            && b.clientId in t'.clients && t'.clients[b.clientId].email == req.email
            && (b.clientId !in t.clients <==> !(req.email.Some? && HasEmail(t, req.email.value)))
            && (b.clientId !in t.clients ==>
                  t'.clients[b.clientId] == Client(req.name, req.email, req.phone, req.address))
            && (forall c | c in t.clients :: c in t'.clients && t'.clients[c] == t.clients[c])
            && (forall a | a in t.appointments :: t'.appointments[a] == t.appointments[a])
            && (forall j | j in t.jobs :: t'.jobs[j] == t.jobs[j])
            && t'.staff == t.staff && t'.skills == t.skills && t'.contacts == t.contacts && t'.memories == t.memories
  {
  }

  /** Saving a preference writes the note and keeps every other entry of the row and every
      other row; it reports `created` exactly when the customer had no preference row. */
  lemma PreferenceSaved(t: Tables, email: string, note: string, memId: int)
    requires Valid(t) && memId !in t.memories
    ensures var (t', out) := UpsertPreference(t, email, note, memId);
            && out == Saved(email, note, !HasPreference(t, email))
            && PreferenceOf(t', email) == (if HasPreference(t, email) then PreferenceOf(t, email) else Some(memId))
            && NoteWritten(t, t', PreferenceOf(t', email).value, note)
            && (!HasPreference(t, email) ==> t'.memories[memId] == Memory(email, Preference, map["note" := note]))
            && t' == t.(memories := t'.memories)
  {
    if HasPreference(t, email) {
      NoteOverOld(t, email, note);
    } else {
      NoteOnNew(t, email, note, memId);
    }
  }

  /** Row `m` carries the note, and nothing else has changed in it or in another row. */
  ghost predicate NoteWritten(t: Tables, t': Tables, m: int, note: string) {
    && m in t'.memories && "note" in t'.memories[m].content && t'.memories[m].content["note"] == note
    && (m in t.memories ==> t'.memories[m].content - {"note"} == t.memories[m].content - {"note"})
    && (forall k | k in t.memories && k != m :: k in t'.memories && t'.memories[k] == t.memories[k])
    && (forall k | k in t'.memories && k != m :: k in t.memories)
  }

  lemma NoteOverOld(t: Tables, email: string, note: string)
    requires Valid(t) && HasPreference(t, email)
    ensures var m := PreferenceOf(t, email).value; var t' := WithNote(t, m, note);
            PreferenceOf(t', email) == Some(m) && NoteWritten(t, t', m, note)
  {
    var m := PreferenceOf(t, email).value;
    var t' := WithNote(t, m, note);
    assert IsPreference(t'.memories[m], email);
    assert forall k | k in t'.memories && IsPreference(t'.memories[k], email) :: IsPreference(t.memories[k], email);
  }

  lemma NoteOnNew(t: Tables, email: string, note: string, memId: int)
    requires Valid(t) && !HasPreference(t, email) && memId !in t.memories
    ensures var t' := WithPreference(t, memId, email, note);
            PreferenceOf(t', email) == Some(memId) && NoteWritten(t, t', memId, note)
  {
    var t' := WithPreference(t, memId, email, note);
    assert IsPreference(t'.memories[memId], email);
    assert forall k | k in t.memories :: !IsPreference(t.memories[k], email);
  }
}
