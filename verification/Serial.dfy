/** What each write of src/booking_mcp/queries.py does when it runs alone: one atomic
    step on the tables.  The class `Store` implements these functions statement by
    statement and the module `Protocol` refines them under interleaving.
 */
module Serial {
  import opened Schema

  /** Identifiers drawn for the rows a booking may insert. */
  datatype Ids = Ids(client: Id, job: Id, appointment: Id)

  /** The arguments of create_booking.  `key` is the ledger key of the material fields
      (module BookingKey) and `start` the parsed slot, or None if it does not parse
      (module Calendar). */
  datatype Request = Request(
    name: Option<string>,
    email: Option<string>,
    phone: Option<string>,
    address: Option<string>,
    service: Option<string>,
    staffId: Option<Id>,
    staffName: Option<string>,
    start: Option<Instant>,
    key: string)

  datatype Call =
    | Create(req: Request, ids: Ids)
    | Cancel(id: Id)
    | Reschedule(id: Id, to: Option<Instant>)
    | Upsert(email: string, note: string, memId: int)

  datatype Outcome =
    | Booked(booking: Booking, idempotent: bool)
    | SlotTaken                                        // ValueError: uq_appt_staff_slot
    | BadStart                                         // ValueError: the slot does not parse
    | Cancelled(found: bool)
    | NoAppointment                                    // None: no such appointment
    | SlotClash                                        // ValueError: the check before the move
    | Moved(id: Id, start: Instant, staffId: Option<Id>)
    | Saved(email: string, note: string, created: bool)
    | DbError                                          // any database error that reaches the caller
    | Reraised                                         // the defensive re-raises after a lost race

  const NOTE := "note"

  function NewClient(req: Request): Client {
    Client(req.name, req.email, req.phone, req.address)
  }

  function NewBooking(req: Request, ids: Ids, client: Id): Booking
    requires req.start.Some?
  {
    Booking(client, ids.job, ids.appointment, req.staffId, req.start.value)
  }

  /** The tables after a booking for `client`, whose row is inserted when `isNew`. */
  function WithBooking(t: Tables, req: Request, ids: Ids, client: Id, isNew: bool): Tables
    requires req.start.Some?
  {
    t.(clients := if isNew then t.clients[client := NewClient(req)] else t.clients,
       jobs := t.jobs[ids.job := Job(client, req.service, req.address)],
       appointments := t.appointments[ids.appointment :=
         Appointment(ids.job, req.staffId, req.staffName, req.start.value)],
       ledger := t.ledger[req.key := NewBooking(req, ids, client)])
  }

  ghost function ClientFor(t: Tables, req: Request): Option<Id> {
    if req.email.Some? then ClientByEmail(t, req.email.value) else None
  }

  ghost function CreateBooking(t: Tables, req: Request, ids: Ids): (Tables, Outcome) {
    if req.key in t.ledger then
      (t, Booked(t.ledger[req.key], true))
    else if req.start.None? then
      (t, BadStart)
    else if SlotTakenBy(t, req.staffId, req.start.value, None) then
      (t, SlotTaken)
    else if req.staffId.Some? && req.staffId.value !in t.staff then
      (t, DbError)
    else
      var found := ClientFor(t, req);
      var client := if found.Some? then found.value else ids.client;
      (WithBooking(t, req, ids, client, found.None?), Booked(NewBooking(req, ids, client), false))
  }

  ghost function CancelAppointment(t: Tables, id: Id): (Tables, Outcome) {
    if id in t.appointments then
      (t.(appointments := t.appointments - {id}), Cancelled(true))
    else
      (t, Cancelled(false))
  }

  function WithMove(t: Tables, id: Id, to: Instant): Tables
    requires id in t.appointments
  {
    t.(appointments := t.appointments[id := t.appointments[id].(start := to)])
  }

  ghost function RescheduleAppointment(t: Tables, id: Id, to: Option<Instant>): (Tables, Outcome) {
    if id !in t.appointments then
      (t, NoAppointment)
    else if to.None? then
      (t, BadStart)
    else if SlotTakenBy(t, t.appointments[id].staffId, to.value, Some(id)) then
      (t, SlotClash)
    else
      (WithMove(t, id, to.value), Moved(id, to.value, t.appointments[id].staffId))
  }

  function WithNote(t: Tables, m: int, note: string): Tables
    requires m in t.memories
  {
    t.(memories := t.memories[m := t.memories[m].(content := t.memories[m].content[NOTE := note])])
  }

  function WithPreference(t: Tables, m: int, email: string, note: string): Tables {
    t.(memories := t.memories[m := Memory(email, Preference, map[NOTE := note])])
  }

  ghost function UpsertPreference(t: Tables, email: string, note: string, memId: int): (Tables, Outcome) {
    var row := PreferenceOf(t, email);
    if row.None? then
      (WithPreference(t, memId, email, note), Saved(email, note, true))
    else
      (WithNote(t, row.value, note), Saved(email, note, false))
  }

  /** The row identifiers of the call are not in the tables yet. */
  predicate UnusedIds(t: Tables, c: Call) {
    match c
    case Create(_, ids) => ids.client !in t.clients && ids.job !in t.jobs && ids.appointment !in t.appointments
    case Upsert(_, _, memId) => memId !in t.memories
    case _ => true
  }

  ghost function Exec(t: Tables, c: Call): (Tables, Outcome) {
    match c
    case Create(req, ids) => CreateBooking(t, req, ids)
    case Cancel(id) => CancelAppointment(t, id)
    case Reschedule(id, to) => RescheduleAppointment(t, id, to)
    case Upsert(email, note, memId) => UpsertPreference(t, email, note, memId)
  }
}
