/** The writes of src/booking_mcp/queries.py on one database that nobody else is using:
    each method runs the statements of its original in order, on the rows in place, and is
    proved to do what the atomic write of the module `Serial` does.
 */
module Store {
  import opened Schema
  import opened Serial

  /** How an INSERT of an appointment can end. */
  datatype Inserted = Accepted | SlotViolation | ForeignKeyViolation

  class Database {
    var staff: map<Id, Staff>
    var skills: set<(Id, string)>
    var clients: map<Id, Client>
    var contacts: map<Id, Contact>
    var jobs: map<Id, Job>
    var appointments: map<Id, Appointment>
    var memories: map<int, Memory>
    var ledger: map<string, Booking>

    function Snapshot(): Tables
      reads this
    {
      Tables(staff, skills, clients, contacts, jobs, appointments, memories, ledger)
    }

    constructor (t: Tables)
      ensures Snapshot() == t
    {
      staff, skills, clients, contacts := t.staff, t.skills, t.clients, t.contacts;
      jobs, appointments, memories, ledger := t.jobs, t.appointments, t.memories, t.ledger;
    }

    /** session.rollback(): back to the tables at the start of the transaction. */
    method Rollback(t: Tables)
      modifies this
      ensures Snapshot() == t
    {
      staff, skills, clients, contacts := t.staff, t.skills, t.clients, t.contacts;
      jobs, appointments, memories, ledger := t.jobs, t.appointments, t.memories, t.ledger;
    }

    method FindClient(email: string) returns (r: Option<Id>)
      requires UniqueEmails(clients)
      ensures r == ClientByEmail(Snapshot(), email)
    {
      if c: Id :| c in clients && clients[c].email == Some(email) {
        r := Some(c);
      } else {
        r := None;
      }
    }

    /** INSERT guarded by uq_client_email. */
    method InsertClient(id: Id, row: Client) returns (ok: bool)
      requires id !in clients
      modifies this`clients
      ensures ok <==> (row.email.Some? ==> !HasEmail(old(Snapshot()), row.email.value))
      ensures clients == if ok then old(clients)[id := row] else old(clients)
    {
      if c: Id :| c in clients && row.email.Some? && clients[c].email == row.email {
        ok := false;
      } else {
        clients := clients[id := row];
        ok := true;
      }
    }

    /** INSERT guarded by uq_appt_staff_slot and by the foreign key to staff. */
    method InsertAppointment(id: Id, row: Appointment) returns (r: Inserted)
      requires id !in appointments
      modifies this`appointments
      ensures r.SlotViolation? <==> SlotTakenBy(old(Snapshot()), row.staffId, row.start, None)
      ensures r.ForeignKeyViolation? <==> !r.SlotViolation? && row.staffId.Some? && row.staffId.value !in staff
      ensures appointments == if r.Accepted? then old(appointments)[id := row] else old(appointments)
    {
      if a: Id :| a in appointments && SameSlot(row, appointments[a]) {
        r := SlotViolation;
        assert Some(a) != None;
      } else if row.staffId.Some? && row.staffId.value !in staff {
        r := ForeignKeyViolation;
      } else {
        appointments := appointments[id := row];
        r := Accepted;
      }
    }

    method CreateBooking(req: Request, ids: Ids) returns (out: Outcome)
      requires Valid(Snapshot())
      requires ids.client !in clients && ids.job !in jobs && ids.appointment !in appointments
      modifies this
      ensures (Snapshot(), out) == Serial.CreateBooking(old(Snapshot()), req, ids)
    {
      if req.key in ledger {
        return Booked(ledger[req.key], true);
      }
      var start := Snapshot();
      var client: Option<Id> := None;
      if req.email.Some? && req.email.value != "" {
        client := FindClient(req.email.value);
      }
      if client.None? {
        var ok := InsertClient(ids.client, NewClient(req));
        if ok {
          client := Some(ids.client);
        } else {
          client := FindClient(req.email.value);
        }
      }
      jobs := jobs[ids.job := Job(client.value, req.service, req.address)];
      if req.start.None? {
        Rollback(start);
        return BadStart;
      }
      var row := Appointment(ids.job, req.staffId, req.staffName, req.start.value);
      var inserted := InsertAppointment(ids.appointment, row);
      if !inserted.Accepted? {
        Rollback(start);
        return if inserted.SlotViolation? then SlotTaken else DbError;
      }
      var booking := NewBooking(req, ids, client.value);
      ledger := ledger[req.key := booking];
      out := Booked(booking, false);
    }

    method CancelAppointment(id: Id) returns (out: Outcome)
      modifies this`appointments
      ensures (Snapshot(), out) == Serial.CancelAppointment(old(Snapshot()), id)
    {
      if id !in appointments {
        return Cancelled(false);
      }
      appointments := appointments - {id};
      out := Cancelled(true);
    }

    method RescheduleAppointment(id: Id, to: Option<Instant>) returns (out: Outcome)
      modifies this`appointments
      ensures (Snapshot(), out) == Serial.RescheduleAppointment(old(Snapshot()), id, to)
    {
      if id !in appointments {
        return NoAppointment;
      }
      if to.None? {
        return BadStart;
      }
      var row := appointments[id];
      if row.staffId.Some? {
        if a: Id :| && a in appointments && a != id
                    && appointments[a].staffId == row.staffId && appointments[a].start == to.value {
          assert Some(a) != Some(id);
          return SlotClash;
        }
      }
      appointments := appointments[id := row.(start := to.value)];
      out := Moved(id, to.value, row.staffId);
    }

    method FindPreference(email: string) returns (r: Option<int>)
      requires UniqueMemories(memories)
      ensures r == PreferenceOf(Snapshot(), email)
    {
      if m: int :| m in memories && IsPreference(memories[m], email) {
        r := Some(m);
      } else {
        r := None;
      }
    }

    method UpsertPreference(email: string, note: string, memId: int) returns (out: Outcome)
      requires UniqueMemories(memories) && memId !in memories
      modifies this`memories
      ensures (Snapshot(), out) == Serial.UpsertPreference(old(Snapshot()), email, note, memId)
    {
      var row := FindPreference(email);
      if row.None? {
        memories := memories[memId := Memory(email, Preference, map[NOTE := note])];
      } else {
        var m := memories[row.value];
        memories := memories[row.value := m.(content := m.content[NOTE := note])];
      }
      out := Saved(email, note, row.None?);
    }
  }
}
