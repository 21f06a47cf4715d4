/** The four writes of src/booking_mcp/queries.py run concurrently, one session and one
    transaction per call, as a state machine whose steps are single SQL statements under
    PostgreSQL Read Committed (PostgreSQL documentation, section 13.2.1).

    A call's pending writes are a function of its program counter, so the shared state is
    the committed tables and one counter per call.  `Advance` is the one statement a call
    runs next.  A statement that needs a unique key or a row version which another open
    transaction holds waits; the scheduler may run any call that is not waiting, or make
    any unfinished call fail (statement timeout, lost connection).
 */
module Protocol {
  import opened Schema
  import opened Serial

  datatype Pc =
    | Ready
    // create_booking
    | Missed                               // no ledger row: look the client up
    | NoClient                             // no client: INSERT one inside a savepoint
    | EmailLost                            // savepoint rolled back: look the winner up
    | HasClient(client: Id, own: bool)     // INSERT the job
    | JobIn(client: Id, own: bool)         // parse the start, INSERT the appointment
    | ApptIn(client: Id, own: bool)        // INSERT the ledger row (flushed by commit)
    | LedgerIn(client: Id, own: bool)      // COMMIT
    | LedgerLost                           // rolled back: look the winner up
    // cancel_appointment and reschedule_appointment
    | Loaded(row: Appointment)             // the row as first read
    | Deleted(row: Appointment)            // DELETE done: COMMIT
    | Checked(row: Appointment)            // no clash seen: UPDATE locks the row version
    | RowLocked(row: Appointment)          // row version locked: UPDATE enters the new slot
    | MovedIn(row: Appointment)            // UPDATE done: COMMIT
    // upsert_preference
    | NoRow                                // INSERT a row (flushed by commit)
    | MemoryIn                             // COMMIT
    | MemoryLost                           // rolled back: look the winner up
    | HasRow(mem: int, content: map<string, string>)   // UPDATE the row
    | Updated(mem: int, content: map<string, string>)  // COMMIT
    | Done(outcome: Outcome)

  /** What an open transaction can make another one wait for. */
  datatype Key =
    | EmailKey(email: string)
    | SlotKey(staff: Id, start: Instant)
    | LedgerKey(key: string)
    | PreferenceKey(email: string)
    | AppointmentRow(id: Id)
    | MemoryRow(mem: int)

  predicate IsSlot(k: Key, staff: Option<Id>, start: Instant) {
    staff.Some? && k == SlotKey(staff.value, start)
  }

  /** The transaction of `c` at `pc` holds `k`: it has inserted the key, or it has deleted
      or superseded the row version that carries it, and has not ended. */
  predicate Holds(c: Call, pc: Pc, k: Key) {
    match c
    case Create(req, _) => (
      match pc
      case HasClient(_, own) => HoldsEmail(req, own, k)
      case JobIn(_, own) => HoldsEmail(req, own, k)
      case ApptIn(_, own) => HoldsEmail(req, own, k) || HoldsSlot(req, k)
      case LedgerIn(_, own) => HoldsEmail(req, own, k) || HoldsSlot(req, k) || k == LedgerKey(req.key)
      case _ => false)
    case Cancel(id) =>
      pc.Deleted? && (k == AppointmentRow(id) || IsSlot(k, pc.row.staffId, pc.row.start))
    case Reschedule(id, to) => (
      match pc
      case RowLocked(row) => k == AppointmentRow(id) || IsSlot(k, row.staffId, row.start)
      case MovedIn(row) =>
        k == AppointmentRow(id) || IsSlot(k, row.staffId, row.start) || (to.Some? && IsSlot(k, row.staffId, to.value))
      case _ => false)
    case Upsert(email, _, _) =>
      (pc.MemoryIn? && k == PreferenceKey(email)) || (pc.Updated? && k == MemoryRow(pc.mem))
  }

  predicate HoldsEmail(req: Request, own: bool, k: Key) {
    own && req.email.Some? && k == EmailKey(req.email.value)
  }

  predicate HoldsSlot(req: Request, k: Key) {
    req.start.Some? && IsSlot(k, req.staffId, req.start.value)
  }

  /** The key or row version that the next statement of `c` must have to itself. */
  function Wants(c: Call, pc: Pc): Option<Key> {
    match c
    case Create(req, _) => (
      match pc
      case NoClient => if req.email.Some? then Some(EmailKey(req.email.value)) else None
      case JobIn(_, _) =>
        if req.start.Some? && req.staffId.Some? then Some(SlotKey(req.staffId.value, req.start.value)) else None
      case ApptIn(_, _) => Some(LedgerKey(req.key))
      case _ => None)
    case Cancel(id) => if pc.Loaded? then Some(AppointmentRow(id)) else None
    case Reschedule(id, to) => (
      match pc
      case Checked(_) => Some(AppointmentRow(id))
      case RowLocked(row) =>
        if to.Some? && row.staffId.Some? then Some(SlotKey(row.staffId.value, to.value)) else None
      case _ => None)
    case Upsert(email, _, _) => (
      match pc
      case NoRow => Some(PreferenceKey(email))
      case HasRow(mem, _) => Some(MemoryRow(mem))
      case _ => None)
  }

  // ----- one statement -------------------------------------------------------

  ghost function AdvanceCreate(t: Tables, req: Request, ids: Ids, pc: Pc): (Tables, Pc) {
    match pc
    case Ready =>
      (t, if req.key in t.ledger then Done(Booked(t.ledger[req.key], true)) else Missed)
    case Missed =>
      // a null or empty address is not looked up
      var found := if req.email.Some? && req.email.value != "" then ClientByEmail(t, req.email.value) else None;
      (t, if found.Some? then HasClient(found.value, false) else NoClient)
    case NoClient =>
      (t, if req.email.Some? && HasEmail(t, req.email.value) then EmailLost else HasClient(ids.client, true))
    case EmailLost =>
      var found := ClientFor(t, req);
      (t, if found.Some? then HasClient(found.value, false) else Done(Reraised))
    case HasClient(client, own) => (t, JobIn(client, own))
    case JobIn(client, own) =>
      (t,
       if req.start.None? then Done(BadStart)
       else if SlotTakenBy(t, req.staffId, req.start.value, None) then Done(SlotTaken)
       else if req.staffId.Some? && req.staffId.value !in t.staff then Done(DbError)
       else ApptIn(client, own))
    case ApptIn(client, own) =>
      (t, if req.key in t.ledger then LedgerLost else LedgerIn(client, own))
    case LedgerIn(client, own) =>
      if req.start.None? then (t, Done(BadStart))
      else (WithBooking(t, req, ids, client, own), Done(Booked(NewBooking(req, ids, client), false)))
    case LedgerLost =>
      (t, if req.key in t.ledger then Done(Booked(t.ledger[req.key], true)) else Done(Reraised))
    case _ => (t, pc)
  }

  /** A DELETE that finds its row gone only warns, and the call still answers True. */
  ghost function AdvanceCancel(t: Tables, id: Id, pc: Pc): (Tables, Pc) {
    match pc
    case Ready =>
      (t, if id in t.appointments then Loaded(t.appointments[id]) else Done(Cancelled(false)))
    case Loaded(_) =>
      (t, if id in t.appointments then Deleted(t.appointments[id]) else Done(Cancelled(true)))
    case Deleted(_) => (t.(appointments := t.appointments - {id}), Done(Cancelled(true)))
    case _ => (t, pc)
  }

  /** Assigning the start that was loaded is no change, so no UPDATE is sent; an UPDATE
      that finds its row gone, or that hits the slot index, is a database error. */
  ghost function AdvanceReschedule(t: Tables, id: Id, to: Option<Instant>, pc: Pc): (Tables, Pc) {
    match pc
    case Ready =>
      (t, if id in t.appointments then Loaded(t.appointments[id]) else Done(NoAppointment))
    case Loaded(row) =>
      (t,
       if to.None? then Done(BadStart)
       else if SlotTakenBy(t, row.staffId, to.value, Some(id)) then Done(SlotClash)
       else if row.start == to.value then Done(Moved(id, to.value, row.staffId))
       else Checked(row))
    case Checked(_) =>
      (t, if id in t.appointments then RowLocked(t.appointments[id]) else Done(DbError))
    case RowLocked(row) =>
      (t, if to.Some? && SlotTakenBy(t, row.staffId, to.value, Some(id)) then Done(DbError) else MovedIn(row))
    case MovedIn(row) =>
      if id !in t.appointments || to.None? then (t, Done(DbError))
      else (WithMove(t, id, to.value), Done(Moved(id, to.value, row.staffId)))
    case _ => (t, pc)
  }

  /** The row read holds `note` already: no change, so no UPDATE is sent. */
  ghost function WithRead(t: Tables, m: int, email: string, note: string): Pc
    requires m in t.memories
  {
    var content := t.memories[m].content;
    if NOTE in content && content[NOTE] == note then Done(Saved(email, note, false)) else HasRow(m, content)
  }

  ghost function AdvanceUpsert(t: Tables, email: string, note: string, memId: int, pc: Pc): (Tables, Pc) {
    match pc
    case Ready =>
      var row := PreferenceOf(t, email);
      (t, if row.Some? then WithRead(t, row.value, email, note) else NoRow)
    case NoRow =>
      (t, if HasPreference(t, email) then MemoryLost else MemoryIn)
    case MemoryIn => (WithPreference(t, memId, email, note), Done(Saved(email, note, true)))
    case MemoryLost =>
      var row := PreferenceOf(t, email);
      (t, if row.Some? then WithRead(t, row.value, email, note) else Done(Reraised))
    case HasRow(m, content) => (t, Updated(m, content))
    case Updated(m, content) =>
      if m !in t.memories then (t, Done(DbError))
      else (t.(memories := t.memories[m := t.memories[m].(content := content[NOTE := note])]),
            Done(Saved(email, note, false)))
    case _ => (t, pc)
  }

  ghost function Advance(t: Tables, c: Call, pc: Pc): (Tables, Pc) {
    match c
    case Create(req, ids) => AdvanceCreate(t, req, ids, pc)
    case Cancel(id) => AdvanceCancel(t, id, pc)
    case Reschedule(id, to) => AdvanceReschedule(t, id, to, pc)
    case Upsert(email, note, memId) => AdvanceUpsert(t, email, note, memId, pc)
  }

  // ----- interleaved runs ----------------------------------------------------

  datatype State = State(tables: Tables, pcs: seq<Pc>)

  /** Run the next statement of a call, or make the call fail and roll back. */
  datatype Event = Go(call: nat) | Fail(call: nat)

  predicate WaitsFor(calls: seq<Call>, s: State, p: nat, q: nat)
    requires |calls| == |s.pcs|
  {
    && p < |calls| && q < |calls| && p != q
    && var want := Wants(calls[p], s.pcs[p]);
       want.Some? && Holds(calls[q], s.pcs[q], want.value)
  }

  predicate Blocked(calls: seq<Call>, s: State, p: nat)
    requires |calls| == |s.pcs|
  {
    exists q: nat | q < |calls| :: WaitsFor(calls, s, p, q)
  }

  predicate CanGo(calls: seq<Call>, s: State, p: nat)
    requires |calls| == |s.pcs|
  {
    p < |calls| && !s.pcs[p].Done? && !Blocked(calls, s, p)
  }

  predicate Enabled(calls: seq<Call>, s: State, e: Event)
    requires |calls| == |s.pcs|
  {
    match e
    case Go(p) => CanGo(calls, s, p)
    case Fail(p) => p < |calls| && !s.pcs[p].Done?
  }

  ghost function Apply(calls: seq<Call>, s: State, e: Event): (s': State)
    requires |calls| == |s.pcs| && Enabled(calls, s, e)
    ensures |s'.pcs| == |calls|
  {
    match e
    case Go(p) =>
      var (t', pc') := Advance(s.tables, calls[p], s.pcs[p]);
      State(t', s.pcs[p := pc'])
    case Fail(p) => s.(pcs := s.pcs[p := Done(DbError)])
  }

  function Init(calls: seq<Call>, t0: Tables): (s: State)
    ensures |s.pcs| == |calls|
  {
    State(t0, seq(|calls|, _ => Ready))
  }

  /** Every event of the schedule is enabled when its turn comes. */
  ghost predicate Runs(calls: seq<Call>, s: State, es: seq<Event>)
    requires |calls| == |s.pcs|
    decreases |es|
  {
    es == [] || (Enabled(calls, s, es[0]) && Runs(calls, Apply(calls, s, es[0]), es[1..]))
  }

  ghost function Final(calls: seq<Call>, s: State, es: seq<Event>): (s': State)
    requires |calls| == |s.pcs| && Runs(calls, s, es)
    ensures |s'.pcs| == |calls|
    decreases |es|
  {
    if es == [] then s else Final(calls, Apply(calls, s, es[0]), es[1..])
  }

  predicate AllDone(s: State) {
    forall p | 0 <= p < |s.pcs| :: s.pcs[p].Done?
  }

  /** Identifiers are drawn fresh: no call's row identifiers occur in the initial tables,
      and no two calls share one. */
  ghost predicate FreshIds(calls: seq<Call>, t0: Tables) {
    && (forall p | 0 <= p < |calls| :: UnusedIds(t0, calls[p]))
    && (forall p, q | 0 <= p < q < |calls| :: DifferentIds(calls[p], calls[q]))
  }

  predicate DifferentIds(c: Call, d: Call) {
    && (c.Create? && d.Create? ==>
          c.ids.client != d.ids.client && c.ids.job != d.ids.job && c.ids.appointment != d.ids.appointment)
    && (c.Upsert? && d.Upsert? ==> c.memId != d.memId)
  }
}
