/** The inductive invariant of the protocol, and its preservation by every event. */
module Invariant {
  import opened Schema
  import opened Serial
  import opened Protocol
  import SerialLaws

  /** Two rows' contents agree on every entry but the note. */
  ghost predicate SameButNote(a: map<string, string>, b: map<string, string>) {
    a - {NOTE} == b - {NOTE}
  }

  ghost predicate ClientReady(t: Tables, req: Request, ids: Ids, client: Id, own: bool) {
    if own then
      client == ids.client && (req.email.Some? ==> !HasEmail(t, req.email.value))
    else
      client in t.clients && req.email.Some? && t.clients[client].email == req.email
  }

  ghost predicate SlotReady(t: Tables, req: Request) {
    && req.start.Some? && !SlotTakenBy(t, req.staffId, req.start.value, None)
    && (req.staffId.Some? ==> req.staffId.value in t.staff)
  }

  predicate BookedNow(pc: Pc) {
    pc.Done? && pc.outcome.Booked? && !pc.outcome.idempotent
  }

  predicate CancelledNow(pc: Pc) {
    pc == Done(Cancelled(true))
  }

  predicate CreatedNow(pc: Pc) {
    pc.Done? && pc.outcome.Saved? && pc.outcome.created
  }

  /** What the tables owe a create_booking at `pc`. */
  ghost predicate LocalCreate(t: Tables, req: Request, ids: Ids, pc: Pc) {
    && (match pc
        case Ready => true
        case Missed => true
        case NoClient => true
        case EmailLost => req.email.Some? && HasEmail(t, req.email.value)
        case HasClient(client, own) => ClientReady(t, req, ids, client, own)
        case JobIn(client, own) => ClientReady(t, req, ids, client, own)
        case ApptIn(client, own) => ClientReady(t, req, ids, client, own) && SlotReady(t, req)
        case LedgerIn(client, own) =>
          ClientReady(t, req, ids, client, own) && SlotReady(t, req) && req.key !in t.ledger
        case LedgerLost => req.key in t.ledger
        case Done(outcome) => LocalCreated(t, req, ids, outcome)
        case _ => false)
    && (!BookedNow(pc) ==>
          ids.client !in t.clients && ids.job !in t.jobs && ids.appointment !in t.appointments)
  }

  ghost predicate LocalCreated(t: Tables, req: Request, ids: Ids, outcome: Outcome) {
    match outcome
    case Booked(b, idempotent) =>
      && req.key in t.ledger && t.ledger[req.key] == b
      && (!idempotent ==> req.start.Some? && b == NewBooking(req, ids, b.clientId) && b.clientId in t.clients
                          && ids.job in t.jobs && t.jobs[ids.job] == Job(b.clientId, req.service, req.address))
    case SlotTaken => req.staffId.Some?
    case BadStart => req.start.None?
    case DbError => true
    case _ => false
  }

  ghost predicate LocalCancel(t: Tables, id: Id, pc: Pc) {
    match pc
    case Ready => true
    case Loaded(_) => true
    case Deleted(row) => id in t.appointments && t.appointments[id] == row
    case Done(outcome) =>
      outcome.DbError? || (outcome.Cancelled? && (outcome.found ==> id !in t.appointments))
    case _ => false
  }

  ghost predicate LocalReschedule(t: Tables, id: Id, to: Option<Instant>, pc: Pc) {
    match pc
    case Ready => true
    case Loaded(row) => id in t.appointments ==> t.appointments[id].staffId == row.staffId
    case Checked(row) => to.Some? && (id in t.appointments ==> t.appointments[id].staffId == row.staffId)
    case RowLocked(row) => to.Some? && id in t.appointments && t.appointments[id] == row
    case MovedIn(row) =>
      && to.Some? && id in t.appointments && t.appointments[id] == row
      && !SlotTakenBy(t, row.staffId, to.value, Some(id))
    case Done(outcome) =>
      outcome.DbError? || outcome.NoAppointment? || outcome.BadStart? || outcome.SlotClash? || outcome.Moved?
    case _ => false
  }

  ghost predicate OwnsPreference(t: Tables, m: int, email: string) {
    m in t.memories && IsPreference(t.memories[m], email)
  }

  ghost predicate LocalUpsert(t: Tables, email: string, note: string, memId: int, pc: Pc) {
    && (match pc
        case Ready => true
        case NoRow => true
        case MemoryIn => !HasPreference(t, email)
        case MemoryLost => HasPreference(t, email)
        case HasRow(m, content) => OwnsPreference(t, m, email) && SameButNote(content, t.memories[m].content)
        case Updated(m, content) => OwnsPreference(t, m, email) && SameButNote(content, t.memories[m].content)
        case Done(outcome) =>
          || outcome.DbError?
          || (outcome.Saved? && outcome.email == email && outcome.note == note && HasPreference(t, email))
        case _ => false)
    && (if CreatedNow(pc) then OwnsPreference(t, memId, email) else memId !in t.memories)
  }

  ghost predicate Local(t: Tables, c: Call, pc: Pc) {
    match c
    case Create(req, ids) => LocalCreate(t, req, ids, pc)
    case Cancel(id) => LocalCancel(t, id, pc)
    case Reschedule(id, to) => LocalReschedule(t, id, to, pc)
    case Upsert(email, note, memId) => LocalUpsert(t, email, note, memId, pc)
  }

  predicate Seen(pc: Pc) {
    pc.Loaded? || pc.Checked? || pc.RowLocked? || pc.MovedIn? || pc.Deleted? || CancelledNow(pc)
  }

  /** An appointment that some call has read is not one that another call has yet to insert. */
  predicate Apart(c: Call, pc: Pc, d: Call, qc: Pc) {
    c.Create? && !BookedNow(pc) && (d.Cancel? || d.Reschedule?) && Seen(qc) ==> d.id != c.ids.appointment
  }

  ghost predicate AllApart(calls: seq<Call>, s: State)
    requires |calls| == |s.pcs|
  {
    forall p, q | 0 <= p < |calls| && 0 <= q < |calls| :: Apart(calls[p], s.pcs[p], calls[q], s.pcs[q])
  }

  /** No key and no row version is held by two open transactions. */
  ghost predicate Exclusive(calls: seq<Call>, s: State)
    requires |calls| == |s.pcs|
  {
    forall p, q, k |
      && 0 <= p < |calls| && 0 <= q < |calls|
      && Holds(calls[p], s.pcs[p], k) && Holds(calls[q], s.pcs[q], k) ::
      p == q
  }

  ghost predicate AllLocal(calls: seq<Call>, s: State)
    requires |calls| == |s.pcs|
  {
    forall p | 0 <= p < |calls| :: Local(s.tables, calls[p], s.pcs[p])
  }

  ghost predicate DistinctIds(calls: seq<Call>) {
    forall p, q | 0 <= p < |calls| && 0 <= q < |calls| && p != q :: DifferentIds(calls[p], calls[q])
  }

  ghost predicate Inv(calls: seq<Call>, s: State) {
    && |calls| == |s.pcs|
    && DistinctIds(calls)
    && Valid(s.tables)
    && AllLocal(calls, s)
    && AllApart(calls, s)
    && Exclusive(calls, s)
  }

  // ----- the call that moves -------------------------------------------------

  /** A statement ends, or commits: the call's own facts hold afterwards. */
  lemma AdvanceLocal(t: Tables, c: Call, pc: Pc)
    requires Valid(t) && Local(t, c, pc) && !pc.Done?
    ensures Local(Advance(t, c, pc).0, c, Advance(t, c, pc).1)
  {
    if c.Create? {
      CreateLocal(t, c, pc);
    } else if c.Cancel? {
      CancelLocal(t, c, pc);
    } else if c.Reschedule? {
      RescheduleLocal(t, c, pc);
    } else {
      UpsertLocal(t, c, pc);
    }
  }

  lemma CreateLocal(t: Tables, c: Call, pc: Pc)
    requires c.Create? && Valid(t) && Local(t, c, pc) && !pc.Done?
    ensures Local(Advance(t, c, pc).0, c, Advance(t, c, pc).1)
  {
    if pc.LedgerIn? {
      var t' := WithBooking(t, c.req, c.ids, pc.client, pc.own);
      assert t'.ledger[c.req.key] == NewBooking(c.req, c.ids, pc.client);
    }
  }

  lemma CancelLocal(t: Tables, c: Call, pc: Pc)
    requires c.Cancel? && Local(t, c, pc) && !pc.Done?
    ensures Local(Advance(t, c, pc).0, c, Advance(t, c, pc).1)
  {
  }

  lemma RescheduleLocal(t: Tables, c: Call, pc: Pc)
    requires c.Reschedule? && Local(t, c, pc) && !pc.Done?
    ensures Local(Advance(t, c, pc).0, c, Advance(t, c, pc).1)
  {
  }

  lemma UpsertLocal(t: Tables, c: Call, pc: Pc)
    requires c.Upsert? && Valid(t) && Local(t, c, pc) && !pc.Done?
    ensures Local(Advance(t, c, pc).0, c, Advance(t, c, pc).1)
  {
    var t' := Advance(t, c, pc).0;
    if pc.MemoryIn? {
      assert OwnsPreference(t', c.memId, c.email);
    } else if pc.Updated? {
      assert OwnsPreference(t', pc.mem, c.email);
    }
  }

  // ----- the calls that stand still ------------------------------------------

  /** The two open transactions hold nothing in common. */
  ghost predicate NothingShared(c: Call, pc: Pc, d: Call, qc: Pc) {
    forall k :: !(Holds(c, pc, k) && Holds(d, qc, k))
  }

  /** What another call's statement commits leaves the facts of `d` standing, because the
      two transactions hold no key and no row version in common. */
  lemma AdvanceKeeps(t: Tables, c: Call, pc: Pc, d: Call, qc: Pc)
    requires Valid(t) && Local(t, c, pc) && Local(t, d, qc)
    requires DifferentIds(c, d) && Apart(c, pc, d, qc) && NothingShared(c, pc, d, qc)
    ensures Local(Advance(t, c, pc).0, d, qc)
  {
    if c.Create? {
      BookingKeeps(t, c, pc, d, qc);
    } else if c.Cancel? {
      CancelKeeps(t, c, pc, d, qc);
    } else if c.Reschedule? {
      MoveKeeps(t, c, pc, d, qc);
    } else {
      UpsertKeeps(t, c, pc, d, qc);
    }
  }

  lemma BookingKeeps(t: Tables, c: Call, pc: Pc, d: Call, qc: Pc)
    requires c.Create? && Valid(t) && Local(t, c, pc) && Local(t, d, qc)
    requires DifferentIds(c, d) && Apart(c, pc, d, qc) && NothingShared(c, pc, d, qc)
    ensures Local(Advance(t, c, pc).0, d, qc)
  {
    var t' := Advance(t, c, pc).0;
    if pc.LedgerIn? {
      if d.Create? {
        BookingKeepsCreate(t, c, pc, d, qc);
      } else if d.Reschedule? {
        if qc.MovedIn? && qc.row.staffId.Some? {
          assert Holds(d, qc, SlotKey(qc.row.staffId.value, d.to.value));
        }
      }
    }
  }

  lemma BookingKeepsCreate(t: Tables, c: Call, pc: Pc, d: Call, qc: Pc)
    requires c.Create? && pc.LedgerIn? && d.Create? && Valid(t) && Local(t, c, pc) && Local(t, d, qc)
    requires DifferentIds(c, d) && Apart(c, pc, d, qc) && NothingShared(c, pc, d, qc)
    ensures Local(Advance(t, c, pc).0, d, qc)
  {
    var t' := Advance(t, c, pc).0;
    assert qc.LedgerIn? ==> Holds(d, qc, LedgerKey(d.req.key));
    if (qc.ApptIn? || qc.LedgerIn?) && d.req.staffId.Some? {
      assert Holds(d, qc, SlotKey(d.req.staffId.value, d.req.start.value));
      assert !SlotTakenBy(t', d.req.staffId, d.req.start.value, None);
    }
    if (qc.HasClient? || qc.JobIn? || qc.ApptIn? || qc.LedgerIn?) && qc.own && d.req.email.Some? {
      assert Holds(d, qc, EmailKey(d.req.email.value));
      assert !HasEmail(t', d.req.email.value);
    }
    if qc.EmailLost? {
      var w := ClientByEmail(t, d.req.email.value).value;
      assert t'.clients[w] == t.clients[w];
    }
  }

  lemma CancelKeeps(t: Tables, c: Call, pc: Pc, d: Call, qc: Pc)
    requires c.Cancel? && Valid(t) && Local(t, c, pc) && Local(t, d, qc)
    requires DifferentIds(c, d) && Apart(c, pc, d, qc) && NothingShared(c, pc, d, qc)
    ensures Local(Advance(t, c, pc).0, d, qc)
  {
    if pc.Deleted? {
      assert Holds(c, pc, AppointmentRow(c.id));
      if (d.Cancel? && qc.Deleted?) || (d.Reschedule? && (qc.RowLocked? || qc.MovedIn?)) {
        assert Holds(d, qc, AppointmentRow(d.id));
      }
    }
  }

  lemma MoveKeeps(t: Tables, c: Call, pc: Pc, d: Call, qc: Pc)
    requires c.Reschedule? && Valid(t) && Local(t, c, pc) && Local(t, d, qc)
    requires DifferentIds(c, d) && Apart(c, pc, d, qc) && NothingShared(c, pc, d, qc)
    ensures Local(Advance(t, c, pc).0, d, qc)
  {
    if pc.MovedIn? && d.Create? {
      MoveKeepsCreate(t, c, pc, d, qc);
    } else if pc.MovedIn? && (d.Cancel? || d.Reschedule?) {
      MoveKeepsMove(t, c, pc, d, qc);
    }
  }

  lemma MoveKeepsCreate(t: Tables, c: Call, pc: Pc, d: Call, qc: Pc)
    requires c.Reschedule? && pc.MovedIn? && d.Create? && Local(t, c, pc) && Local(t, d, qc)
    requires NothingShared(c, pc, d, qc)
    ensures Local(Advance(t, c, pc).0, d, qc)
  {
    var t' := Advance(t, c, pc).0;
    if (qc.ApptIn? || qc.LedgerIn?) && d.req.staffId.Some? {
      assert Holds(d, qc, SlotKey(d.req.staffId.value, d.req.start.value));
      assert !SlotTakenBy(t', d.req.staffId, d.req.start.value, None);
    }
  }

  lemma MoveKeepsMove(t: Tables, c: Call, pc: Pc, d: Call, qc: Pc)
    requires c.Reschedule? && pc.MovedIn? && (d.Cancel? || d.Reschedule?) && Local(t, c, pc) && Local(t, d, qc)
    requires NothingShared(c, pc, d, qc)
    ensures Local(Advance(t, c, pc).0, d, qc)
  {
    var t' := Advance(t, c, pc).0;
    assert Holds(c, pc, AppointmentRow(c.id));
    if (d.Cancel? && qc.Deleted?) || (d.Reschedule? && (qc.RowLocked? || qc.MovedIn?)) {
      assert Holds(d, qc, AppointmentRow(d.id));
      if qc.MovedIn? && qc.row.staffId.Some? {
        assert Holds(d, qc, SlotKey(qc.row.staffId.value, d.to.value));
        assert !SlotTakenBy(t', qc.row.staffId, d.to.value, Some(d.id));
      }
    }
  }

  /** Every memory row stays, as a row of the same customer and type with the same entries
      but for the note. */
  ghost predicate KeepsMemories(t: Tables, t': Tables) {
    forall m | m in t.memories ::
      && m in t'.memories
      && t'.memories[m].customerKey == t.memories[m].customerKey
      && t'.memories[m].memoryType == t.memories[m].memoryType
      && SameButNote(t'.memories[m].content, t.memories[m].content)
  }

  lemma UpsertKeeps(t: Tables, c: Call, pc: Pc, d: Call, qc: Pc)
    requires c.Upsert? && Valid(t) && Local(t, c, pc) && Local(t, d, qc)
    requires DifferentIds(c, d) && Apart(c, pc, d, qc) && NothingShared(c, pc, d, qc)
    ensures Local(Advance(t, c, pc).0, d, qc)
  {
    if d.Upsert? && (pc.MemoryIn? || pc.Updated?) {
      UpsertKeepsRows(t, c, pc);
      UpsertKeepsUpsert(t, c, pc, d, qc);
    }
  }

  lemma UpsertKeepsRows(t: Tables, c: Call, pc: Pc)
    requires c.Upsert? && Local(t, c, pc) && (pc.MemoryIn? || pc.Updated?)
    ensures KeepsMemories(t, Advance(t, c, pc).0)
  {
  }

  lemma UpsertKeepsUpsert(t: Tables, c: Call, pc: Pc, d: Call, qc: Pc)
    requires c.Upsert? && d.Upsert? && (pc.MemoryIn? || pc.Updated?) && Local(t, c, pc) && Local(t, d, qc)
    requires DifferentIds(c, d) && NothingShared(c, pc, d, qc) && KeepsMemories(t, Advance(t, c, pc).0)
    ensures Local(Advance(t, c, pc).0, d, qc)
  {
    var t' := Advance(t, c, pc).0;
    if HasPreference(t, d.email) {
      assert OwnsPreference(t', PreferenceOf(t, d.email).value, d.email);
    }
    if qc.MemoryIn? {
      assert Holds(d, qc, PreferenceKey(d.email));
      assert pc.MemoryIn? ==> Holds(c, pc, PreferenceKey(c.email));
      assert !HasPreference(t', d.email);
    }
  }

  // ----- the invariant as a whole --------------------------------------------

  /** A commit keeps every constraint of the tables. */
  lemma AdvanceKeepsValid(t: Tables, c: Call, pc: Pc)
    requires Valid(t) && Local(t, c, pc) && !pc.Done?
    ensures Valid(Advance(t, c, pc).0)
  {
    if c.Create? {
      BookingKeepsValid(t, c, pc);
    } else if c.Cancel? || c.Reschedule? {
      MoveKeepsValid(t, c, pc);
    } else {
      UpsertKeepsValid(t, c, pc);
    }
  }

  lemma BookingKeepsValid(t: Tables, c: Call, pc: Pc)
    requires c.Create? && Valid(t) && Local(t, c, pc) && !pc.Done?
    ensures Valid(Advance(t, c, pc).0)
  {
    if pc.LedgerIn? {
      SerialLaws.BookingKeepsValid(t, c.req, c.ids, pc.client, pc.own);
    }
  }

  lemma MoveKeepsValid(t: Tables, c: Call, pc: Pc)
    requires (c.Cancel? || c.Reschedule?) && Valid(t) && Local(t, c, pc) && !pc.Done?
    ensures Valid(Advance(t, c, pc).0)
  {
    var t' := Advance(t, c, pc).0;
    assert UniqueSlots(t'.appointments);
  }

  lemma UpsertKeepsValid(t: Tables, c: Call, pc: Pc)
    requires c.Upsert? && Valid(t) && Local(t, c, pc) && !pc.Done?
    ensures Valid(Advance(t, c, pc).0)
  {
    var t' := Advance(t, c, pc).0;
    assert UniqueMemories(t'.memories);
  }

  /** A statement takes the key it wanted, and with a row version the slot that it carries. */
  lemma AdvanceHolds(t: Tables, c: Call, pc: Pc, k: Key)
    requires Valid(t) && Local(t, c, pc) && !pc.Done?
    requires Holds(c, Advance(t, c, pc).1, k)
    ensures || Holds(c, pc, k)
            || Wants(c, pc) == Some(k)
            || ((c.Cancel? || c.Reschedule?) && Wants(c, pc) == Some(AppointmentRow(c.id)) && c.id in t.appointments
                && IsSlot(k, t.appointments[c.id].staffId, t.appointments[c.id].start))
  {
  }

  /** Whoever holds the slot of a committed row has locked that row. */
  lemma SlotHolderLocksRow(t: Tables, d: Call, qc: Pc, id: Id)
    requires Valid(t) && Local(t, d, qc) && id in t.appointments && t.appointments[id].staffId.Some?
    requires Holds(d, qc, SlotKey(t.appointments[id].staffId.value, t.appointments[id].start))
    ensures Holds(d, qc, AppointmentRow(id))
  {
  }

  lemma AdvanceExclusive(t: Tables, c: Call, pc: Pc, d: Call, qc: Pc)
    requires Valid(t) && Local(t, c, pc) && Local(t, d, qc) && !pc.Done?
    requires NothingShared(c, pc, d, qc)
    requires Wants(c, pc).Some? ==> !Holds(d, qc, Wants(c, pc).value)
    ensures NothingShared(c, Advance(t, c, pc).1, d, qc)
  {
    forall k | Holds(c, Advance(t, c, pc).1, k) && Holds(d, qc, k)
      ensures false
    {
      AdvanceHolds(t, c, pc, k);
      if !Holds(c, pc, k) && Wants(c, pc) != Some(k) {
        SlotHolderLocksRow(t, d, qc, c.id);
      }
    }
  }

  lemma AdvanceApart(t: Tables, c: Call, pc: Pc, d: Call, qc: Pc)
    requires Local(t, c, pc) && Local(t, d, qc) && !pc.Done? && Apart(c, pc, d, qc) && Apart(d, qc, c, pc)
    ensures Apart(c, Advance(t, c, pc).1, d, qc)
    ensures Apart(d, qc, c, Advance(t, c, pc).1)
  {
  }

  lemma InitInv(calls: seq<Call>, t0: Tables)
    requires Valid(t0) && FreshIds(calls, t0)
    ensures Inv(calls, Init(calls, t0))
  {
    assert forall p | 0 <= p < |calls| :: UnusedIds(t0, calls[p]);
  }

  lemma GoInv(calls: seq<Call>, s: State, p: nat)
    requires Inv(calls, s) && CanGo(calls, s, p)
    ensures Inv(calls, Apply(calls, s, Go(p)))
  {
    var (t', pc') := Advance(s.tables, calls[p], s.pcs[p]);
    var s' := Apply(calls, s, Go(p));
    assert s'.pcs == s.pcs[p := pc'] && s'.tables == t';
    AdvanceKeepsValid(s.tables, calls[p], s.pcs[p]);
    AdvanceLocal(s.tables, calls[p], s.pcs[p]);
    forall q: nat | q < |calls| && q != p
      ensures Local(t', calls[q], s.pcs[q])
      ensures NothingShared(calls[p], pc', calls[q], s.pcs[q])
      ensures Apart(calls[p], pc', calls[q], s.pcs[q]) && Apart(calls[q], s.pcs[q], calls[p], pc')
    {
      assert NothingShared(calls[p], s.pcs[p], calls[q], s.pcs[q]);
      AdvanceKeeps(s.tables, calls[p], s.pcs[p], calls[q], s.pcs[q]);
      assert !WaitsFor(calls, s, p, q);
      AdvanceExclusive(s.tables, calls[p], s.pcs[p], calls[q], s.pcs[q]);
      AdvanceApart(s.tables, calls[p], s.pcs[p], calls[q], s.pcs[q]);
    }
    assert Exclusive(calls, s');
    assert AllLocal(calls, s');
    assert AllApart(calls, s');
  }

  lemma FailInv(calls: seq<Call>, s: State, p: nat)
    requires Inv(calls, s) && Enabled(calls, s, Fail(p))
    ensures Inv(calls, Apply(calls, s, Fail(p)))
  {
    var s' := Apply(calls, s, Fail(p));
    assert Local(s.tables, calls[p], s.pcs[p]);
    assert AllLocal(calls, s');
    assert AllApart(calls, s');
    assert Exclusive(calls, s');
  }

  lemma ApplyInv(calls: seq<Call>, s: State, e: Event)
    requires Inv(calls, s) && Enabled(calls, s, e)
    ensures Inv(calls, Apply(calls, s, e))
  {
    match e
    case Go(p) => GoInv(calls, s, p);
    case Fail(p) => FailInv(calls, s, p);
  }

  /** Every state of every run satisfies the invariant. */
  lemma {:induction false} RunInv(calls: seq<Call>, s: State, es: seq<Event>)
    requires Inv(calls, s) && Runs(calls, s, es)
    ensures Inv(calls, Final(calls, s, es))
    decreases |es|
  {
    if es == [] {
    } else {
      ApplyInv(calls, s, es[0]);
      RunInv(calls, Apply(calls, s, es[0]), es[1..]);
    }
  }
}
