/** The shared booking tables and their constraints (src/booking_mcp/models.py).

    Rows are values and a table is a map from its primary key.  Every constraint that
    the code relies on, and that is not the primary key itself, is a predicate below;
    `Valid` is their conjunction.
 */
module Schema {
  datatype Option<+T> = None | Some(value: T)

  /** Row identifiers are opaque text (UUIDs); memory rows have integer identifiers. */
  type Id = string

  /** A wall-clock start, in seconds since 0001-01-01 00:00:00. */
  type Instant = int

  datatype Staff = Staff(name: string, active: bool, latitude: Option<real>, longitude: Option<real>)

  datatype Client = Client(name: Option<string>, email: Option<string>, phone: Option<string>, address: Option<string>)

  datatype Contact = Contact(clientId: Id, name: Option<string>, email: Option<string>, phone: Option<string>)

  datatype Job = Job(clientId: Id, service: Option<string>, address: Option<string>)

  datatype Appointment = Appointment(jobId: Id, staffId: Option<Id>, staffName: Option<string>, start: Instant)

  datatype MemoryType = Preference | Communication | Vip | Constraint

  datatype Memory = Memory(customerKey: string, memoryType: MemoryType, content: map<string, string>)

  /** The result recorded in a ledger row (the table `executed_actions`). */
  datatype Booking = Booking(clientId: Id, jobId: Id, appointmentId: Id, staffId: Option<Id>, start: Instant)

  datatype Tables = Tables(
    staff: map<Id, Staff>,
    skills: set<(Id, string)>,
    clients: map<Id, Client>,
    contacts: map<Id, Contact>,
    jobs: map<Id, Job>,
    appointments: map<Id, Appointment>,
    memories: map<int, Memory>,
    ledger: map<string, Booking>)

  /** uq_client_email: null addresses are exempt. */
  ghost predicate UniqueEmails(clients: map<Id, Client>) {
    forall a, b | a in clients && b in clients && clients[a].email.Some? && clients[a].email == clients[b].email ::
      a == b
  }

  /** The two appointments claim one (staff, start) slot; unassigned appointments claim none. */
  predicate SameSlot(a: Appointment, b: Appointment) {
    a.staffId.Some? && a.staffId == b.staffId && a.start == b.start
  }

  /** uq_appt_staff_slot: one staff member cannot hold two appointments at one start. */
  ghost predicate UniqueSlots(appointments: map<Id, Appointment>) {
    forall a, b | a in appointments && b in appointments && SameSlot(appointments[a], appointments[b]) ::
      a == b
  }

  /** uq_customer_memory: one row for each customer and memory type. */
  ghost predicate UniqueMemories(memories: map<int, Memory>) {
    forall a, b |
      && a in memories && b in memories
      && memories[a].customerKey == memories[b].customerKey
      && memories[a].memoryType == memories[b].memoryType ::
      a == b
  }

  ghost predicate ForeignKeys(t: Tables) {
    && (forall j | j in t.jobs :: t.jobs[j].clientId in t.clients)
    && (forall c | c in t.contacts :: t.contacts[c].clientId in t.clients)
    && (forall a | a in t.appointments :: t.appointments[a].jobId in t.jobs)
    && (forall a | a in t.appointments && t.appointments[a].staffId.Some? ::
          t.appointments[a].staffId.value in t.staff)
    && (forall k | k in t.skills :: k.0 in t.staff)
  }

  ghost predicate Valid(t: Tables) {
    UniqueEmails(t.clients) && UniqueSlots(t.appointments) && UniqueMemories(t.memories) && ForeignKeys(t)
  }

  // ----- lookups -----------------------------------------------------------

  ghost predicate HasEmail(t: Tables, email: string) {
    exists c :: c in t.clients && t.clients[c].email == Some(email)
  }

  /** client_by_email: the address is unique, so the row found is determined. */
  ghost function ClientByEmail(t: Tables, email: string): (r: Option<Id>)
    ensures r.Some? <==> HasEmail(t, email)
    ensures r.Some? ==> r.value in t.clients && t.clients[r.value].email == Some(email)
  {
    if HasEmail(t, email) then
      var c :| c in t.clients && t.clients[c].email == Some(email);
      Some(c)
    else
      None
  }

  /** Some appointment other than `except` claims the slot of `staff` at `start`. */
  ghost predicate SlotTakenBy(t: Tables, staff: Option<Id>, start: Instant, except: Option<Id>) {
    exists a ::
      && a in t.appointments && Some(a) != except && staff.Some?
      && t.appointments[a].staffId == staff && t.appointments[a].start == start
  }

  predicate IsPreference(m: Memory, email: string) {
    m.customerKey == email && m.memoryType == Preference
  }

  ghost predicate HasPreference(t: Tables, email: string) {
    exists m :: m in t.memories && IsPreference(t.memories[m], email)
  }

  /** _get_preference: at most one row qualifies. */
  ghost function PreferenceOf(t: Tables, email: string): (r: Option<int>)
    ensures r.Some? <==> HasPreference(t, email)
    ensures r.Some? ==> r.value in t.memories && IsPreference(t.memories[r.value], email)
  {
    if HasPreference(t, email) then
      var m :| m in t.memories && IsPreference(t.memories[m], email);
      Some(m)
    else
      None
  }
}
