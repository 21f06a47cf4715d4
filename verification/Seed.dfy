/** The demo data: seed_all (src/booking_mcp/seed.py). */
module Seed {
  import opened Schema
  import Text
  import opened Calendar
  import opened Availability

  datatype StaffSpec = StaffSpec(name: string, skills: set<string>, lat: real, lng: real)
  datatype ClientSpec = ClientSpec(name: string, email: string, phone: string, address: string)
  datatype MemorySpec = MemorySpec(key: string, kind: MemoryType, content: map<string, string>)
  datatype VisitSpec = VisitSpec(staffName: string, service: string, time: string)

  const SEED_DATE := "2026-06-20"

  const DEMO_STAFF := [
    StaffSpec("Alex Taylor", {"cleaning", "contact work"}, -27.47, 153.02),
    StaffSpec("Sam Rivers", {"cleaning", "gardening"}, -27.50, 153.05),
    StaffSpec("Jordan Lee", {"plumbing", "contact work"}, -27.45, 152.98)]

  const DEMO_CLIENTS := [
    ClientSpec("Priya Nair", "priya@example.com", "0400111222", "5 Park Rd, Brisbane"),
    ClientSpec("Liam O'Brien", "liam@example.com", "0400333444", "88 River St, Brisbane")]

  const DEMO_MEMORIES := [
    MemorySpec("priya@example.com", Preference, map["note" := "calm with anxious dogs"]),
    MemorySpec("priya@example.com", Vip, map["tier" := "gold"])]

  const DEMO_VISITS := [
    VisitSpec("Alex Taylor", "cleaning", "09:00"),
    VisitSpec("Alex Taylor", "contact work", "10:00"),
    VisitSpec("Sam Rivers", "gardening", "09:00")]

  datatype Summary = Summary(staff: nat, clients: nat, contacts: nat, memories: nat, appointments: nat)

  /** The data to seed.  Everything below holds of any such lists; seed_all has DEMO. */
  datatype Demo = Demo(
    staff: seq<StaffSpec>,
    clients: seq<ClientSpec>,
    memories: seq<MemorySpec>,
    visits: seq<VisitSpec>)

  const DEMO := Demo(DEMO_STAFF, DEMO_CLIENTS, DEMO_MEMORIES, DEMO_VISITS)

  /** There are staff members with different names, a client to book for, and starts that exist. */
  predicate Sound(demo: Demo) {
    && demo.staff != [] && demo.clients != [] && StartsExist(demo.visits)
    && (forall i, j | 0 <= i < j < |demo.staff| :: demo.staff[i].name != demo.staff[j].name)
  }

  /** The data, and the identifiers drawn for the rows that may be inserted. */
  datatype Draw = Draw(
    demo: Demo,
    staff: seq<Id>,
    clients: seq<Id>,
    contacts: seq<Id>,
    memories: seq<int>,
    jobs: seq<Id>,
    visits: seq<Id>)

  predicate NoRepeat<T(==)>(ids: seq<T>) {
    forall i, j | 0 <= i < j < |ids| :: ids[i] != ids[j]
  }

  predicate Unused<T(==), V>(ids: seq<T>, rows: map<T, V>) {
    NoRepeat(ids) && forall i | 0 <= i < |ids| :: ids[i] !in rows
  }

  predicate FreshDraw(t: Tables, d: Draw) {
    && Sound(d.demo) && |d.staff| == |d.demo.staff| && |d.clients| == |d.contacts| == |d.demo.clients|
    && |d.memories| == |d.demo.memories| && |d.jobs| == |d.visits| == |d.demo.visits|
    && Unused(d.staff, t.staff) && Unused(d.clients, t.clients) && Unused(d.contacts, t.contacts)
    && Unused(d.memories, t.memories) && Unused(d.jobs, t.jobs) && Unused(d.visits, t.appointments)
  }

  predicate DistinctNames(staff: map<Id, Staff>) {
    forall a, b | a in staff && b in staff && staff[a].name == staff[b].name :: a == b
  }

  /** staff_by_name: every name of a staff member is mapped to a row with that name.  When two
      rows share a name, the one that the query returns last stays. */
  ghost predicate Directory(dir: map<string, Id>, staff: map<Id, Staff>) {
    && (forall name | name in dir :: dir[name] in staff && staff[dir[name]].name == name)
    && (forall s | s in staff :: staff[s].name in dir)
  }

  ghost predicate HasMemory(t: Tables, key: string, kind: MemoryType) {
    exists m :: m in t.memories && t.memories[m].customerKey == key && t.memories[m].memoryType == kind
  }

  // ----- what each loop does ---------------------------------------------------------

  function WithStaff(t: Tables, spec: StaffSpec, id: Id): Tables {
    t.(staff := t.staff[id := Staff(spec.name, true, Some(spec.lat), Some(spec.lng))],
       skills := t.skills + set k | k in spec.skills :: (id, k))
  }

  function AddStaff(t: Tables, specs: seq<StaffSpec>, ids: seq<Id>): Tables
    requires |specs| == |ids|
    decreases |specs|
  {
    if specs == [] then t else AddStaff(WithStaff(t, specs[0], ids[0]), specs[1..], ids[1..])
  }

  function WithClient(t: Tables, spec: ClientSpec, id: Id, contact: Id): Tables {
    t.(clients := t.clients[id := Client(Some(spec.name), Some(spec.email), Some(spec.phone), Some(spec.address))],
       contacts := t.contacts[contact := Contact(id, Some(spec.name), Some(spec.email), Some(spec.phone))])
  }

  ghost function AddClients(t: Tables, specs: seq<ClientSpec>, ids: seq<Id>, contacts: seq<Id>): Tables
    requires |specs| == |ids| == |contacts|
    decreases |specs|
  {
    if specs == [] then t
    else
      var t' := if HasEmail(t, specs[0].email) then t else WithClient(t, specs[0], ids[0], contacts[0]);
      AddClients(t', specs[1..], ids[1..], contacts[1..])
  }

  function WithMemory(t: Tables, spec: MemorySpec, id: int): Tables {
    t.(memories := t.memories[id := Memory(spec.key, spec.kind, spec.content)])
  }

  ghost function AddMemories(t: Tables, specs: seq<MemorySpec>, ids: seq<int>): Tables
    requires |specs| == |ids|
    decreases |specs|
  {
    if specs == [] then t
    else
      var t' := if HasMemory(t, specs[0].key, specs[0].kind) then t else WithMemory(t, specs[0], ids[0]);
      AddMemories(t', specs[1..], ids[1..])
  }

  function WithVisit(t: Tables, spec: VisitSpec, s: Id, client: Id, start: Instant, job: Id, visit: Id): Tables
    requires s in t.staff && client in t.clients
  {
    t.(jobs := t.jobs[job := Job(client, Some(spec.service), t.clients[client].address)],
       appointments := t.appointments[visit := Appointment(job, Some(s), Some(t.staff[s].name), start)])
  }

  predicate StartsExist(specs: seq<VisitSpec>) {
    forall i | 0 <= i < |specs| :: StartOf(SEED_DATE, specs[i].time).Some?
  }

  /** Nothing is left to do for the visit: its staff member is unknown or busy then. */
  predicate Settled(t: Tables, spec: VisitSpec, dir: map<string, Id>) {
    var start := StartOf(SEED_DATE, spec.time);
    start.Some? && (spec.staffName in dir ==> Busy(t, dir[spec.staffName], start.value))
  }

  ghost function AddVisits(t: Tables, specs: seq<VisitSpec>, dir: map<string, Id>, client: Id,
                           jobs: seq<Id>, visits: seq<Id>): Tables
    requires |specs| == |jobs| == |visits| && StartsExist(specs) && client in t.clients && Directory(dir, t.staff)
    decreases |specs|
  {
    if specs == [] then t
    else
      var start := StartOf(SEED_DATE, specs[0].time).value;
      var t' := if Settled(t, specs[0], dir) then t
                else WithVisit(t, specs[0], dir[specs[0].staffName], client, start, jobs[0], visits[0]);
      AddVisits(t', specs[1..], dir, client, jobs[1..], visits[1..])
  }

  // ----- what the loops keep ----------------------------------------------------------

  /** Every row stays as it was. */
  ghost predicate Grows(t: Tables, t': Tables) {
    && (forall k | k in t.staff :: k in t'.staff && t'.staff[k] == t.staff[k])
    && t.skills <= t'.skills
    && (forall k | k in t.clients :: k in t'.clients && t'.clients[k] == t.clients[k])
    && (forall k | k in t.contacts :: k in t'.contacts && t'.contacts[k] == t.contacts[k])
    && (forall k | k in t.jobs :: k in t'.jobs && t'.jobs[k] == t.jobs[k])
    && (forall k | k in t.appointments :: k in t'.appointments && t'.appointments[k] == t.appointments[k])
    && (forall k | k in t.memories :: k in t'.memories && t'.memories[k] == t.memories[k])
    && t'.ledger == t.ledger
  }

  lemma UnusedRest<T, V>(ids: seq<T>, rows: map<T, V>, v: V)
    requires ids != [] && Unused(ids, rows)
    ensures Unused(ids[1..], rows) && Unused(ids[1..], rows[ids[0] := v])
  {
    assert forall i | 0 <= i < |ids[1..]| :: ids[1..][i] == ids[i + 1];
  }

  lemma {:induction false} StaffAdded(t: Tables, specs: seq<StaffSpec>, ids: seq<Id>)
    requires Valid(t) && |specs| == |ids| && Unused(ids, t.staff)
    ensures var t' := AddStaff(t, specs, ids);
            && Valid(t') && Grows(t, t') && |t'.staff| == |t.staff| + |specs|
            && t' == t.(staff := t'.staff, skills := t'.skills)
    decreases |specs|
  {
    if specs == [] {
    } else {
      var u := WithStaff(t, specs[0], ids[0]);
      UnusedRest(ids, t.staff, u.staff[ids[0]]);
      StaffKeepsValid(t, specs[0], ids[0]);
      StaffAdded(u, specs[1..], ids[1..]);
      GrowsOn(t, u, AddStaff(u, specs[1..], ids[1..]));
    }
  }

  lemma StaffKeepsValid(t: Tables, spec: StaffSpec, id: Id)
    requires Valid(t) && id !in t.staff
    ensures Valid(WithStaff(t, spec, id)) && Grows(t, WithStaff(t, spec, id))
  {
    assert ForeignKeys(WithStaff(t, spec, id));
  }

  lemma GrowsOn(t: Tables, u: Tables, v: Tables)
    requires Grows(t, u) && Grows(u, v)
    ensures Grows(t, v)
  {
  }

  /** All the clients are there, each new one with a contact, and nothing else changed. */
  ghost predicate ClientsDone(t: Tables, t': Tables, specs: seq<ClientSpec>) {
    && Grows(t, t') && t' == t.(clients := t'.clients, contacts := t'.contacts)
    && |t'.clients| - |t.clients| == |t'.contacts| - |t.contacts|
    && (forall i | 0 <= i < |specs| :: HasEmail(t', specs[i].email))
  }

  lemma ClientsCompose(t: Tables, u: Tables, t': Tables, specs: seq<ClientSpec>)
    requires specs != [] && Grows(t, u) && u == t.(clients := u.clients, contacts := u.contacts)
    requires |u.clients| - |t.clients| == |u.contacts| - |t.contacts| && HasEmail(u, specs[0].email)
    requires ClientsDone(u, t', specs[1..])
    ensures ClientsDone(t, t', specs)
  {
    GrowsOn(t, u, t');
    EmailKept(u, t', specs[0].email);
    assert forall i | 1 <= i < |specs| :: specs[i] == specs[1..][i - 1];
  }

  lemma {:induction false} ClientsAdded(t: Tables, specs: seq<ClientSpec>, ids: seq<Id>, contacts: seq<Id>)
    requires Valid(t) && |specs| == |ids| == |contacts| && Unused(ids, t.clients) && Unused(contacts, t.contacts)
    ensures var t' := AddClients(t, specs, ids, contacts); Valid(t') && ClientsDone(t, t', specs)
    decreases |specs|
  {
    if specs == [] {
    } else {
      var u := if HasEmail(t, specs[0].email) then t else WithClient(t, specs[0], ids[0], contacts[0]);
      ClientStep(t, u, specs[0], ids, contacts);
      ClientsAdded(u, specs[1..], ids[1..], contacts[1..]);
      ClientsCompose(t, u, AddClients(u, specs[1..], ids[1..], contacts[1..]), specs);
    }
  }

  lemma ClientStep(t: Tables, u: Tables, spec: ClientSpec, ids: seq<Id>, contacts: seq<Id>)
    requires Valid(t) && ids != [] && contacts != [] && Unused(ids, t.clients) && Unused(contacts, t.contacts)
    requires u == if HasEmail(t, spec.email) then t else WithClient(t, spec, ids[0], contacts[0])
    ensures Valid(u) && Grows(t, u) && HasEmail(u, spec.email) && u == t.(clients := u.clients, contacts := u.contacts)
    ensures |u.clients| - |t.clients| == |u.contacts| - |t.contacts|
    ensures Unused(ids[1..], u.clients) && Unused(contacts[1..], u.contacts)
  {
    if HasEmail(t, spec.email) {
      UnusedTail(ids, t.clients);
      UnusedTail(contacts, t.contacts);
    } else {
      ClientKeepsValid(t, spec, ids[0], contacts[0]);
      UnusedRest(ids, t.clients, u.clients[ids[0]]);
      UnusedRest(contacts, t.contacts, u.contacts[contacts[0]]);
    }
  }

  lemma ClientKeepsValid(t: Tables, spec: ClientSpec, id: Id, contact: Id)
    requires Valid(t) && id !in t.clients && contact !in t.contacts
    ensures var u := WithClient(t, spec, id, contact);
            HasEmail(u, spec.email) && Grows(t, u) && (!HasEmail(t, spec.email) ==> Valid(u))
  {
    var u := WithClient(t, spec, id, contact);
    assert u.clients[id].email == Some(spec.email);
  }

  lemma EmailKept(t: Tables, t': Tables, email: string)
    requires Grows(t, t') && HasEmail(t, email)
    ensures HasEmail(t', email)
  {
    var c :| c in t.clients && t.clients[c].email == Some(email);
    assert c in t'.clients && t'.clients[c].email == Some(email);
  }

  lemma MemoryKept(t: Tables, t': Tables, key: string, kind: MemoryType)
    requires Grows(t, t') && HasMemory(t, key, kind)
    ensures HasMemory(t', key, kind)
  {
    var m :| m in t.memories && t.memories[m].customerKey == key && t.memories[m].memoryType == kind;
    assert m in t'.memories && t'.memories[m] == t.memories[m];
  }

  /** All the memories are there, and nothing else changed. */
  ghost predicate MemoriesDone(t: Tables, t': Tables, specs: seq<MemorySpec>) {
    && Grows(t, t') && t' == t.(memories := t'.memories)
    && (forall i | 0 <= i < |specs| :: HasMemory(t', specs[i].key, specs[i].kind))
  }

  lemma MemoriesCompose(t: Tables, u: Tables, t': Tables, specs: seq<MemorySpec>)
    requires specs != [] && Grows(t, u) && u == t.(memories := u.memories) && HasMemory(u, specs[0].key, specs[0].kind)
    requires MemoriesDone(u, t', specs[1..])
    ensures MemoriesDone(t, t', specs)
  {
    GrowsOn(t, u, t');
    MemoryKept(u, t', specs[0].key, specs[0].kind);
    assert forall i | 1 <= i < |specs| :: specs[i] == specs[1..][i - 1];
  }

  lemma {:induction false} MemoriesAdded(t: Tables, specs: seq<MemorySpec>, ids: seq<int>)
    requires Valid(t) && |specs| == |ids| && Unused(ids, t.memories)
    ensures var t' := AddMemories(t, specs, ids); Valid(t') && MemoriesDone(t, t', specs)
    decreases |specs|
  {
    if specs == [] {
    } else {
      var u := if HasMemory(t, specs[0].key, specs[0].kind) then t else WithMemory(t, specs[0], ids[0]);
      MemoryStep(t, u, specs[0], ids);
      MemoriesAdded(u, specs[1..], ids[1..]);
      MemoriesCompose(t, u, AddMemories(u, specs[1..], ids[1..]), specs);
    }
  }

  lemma MemoryStep(t: Tables, u: Tables, spec: MemorySpec, ids: seq<int>)
    requires Valid(t) && ids != [] && Unused(ids, t.memories)
    requires u == if HasMemory(t, spec.key, spec.kind) then t else WithMemory(t, spec, ids[0])
    ensures Valid(u) && Grows(t, u) && HasMemory(u, spec.key, spec.kind) && u == t.(memories := u.memories)
    ensures Unused(ids[1..], u.memories)
  {
    if HasMemory(t, spec.key, spec.kind) {
      UnusedTail(ids, t.memories);
    } else {
      UnusedRest(ids, t.memories, u.memories[ids[0]]);
      assert u.memories[ids[0]].customerKey == spec.key;
      assert UniqueMemories(u.memories);
    }
  }

  lemma FreeVisit(t: Tables, spec: VisitSpec, s: Id, client: Id, start: Instant, job: Id, visit: Id)
    requires Valid(t) && s in t.staff && client in t.clients && job !in t.jobs && visit !in t.appointments
    requires !Busy(t, s, start)
    ensures var u := WithVisit(t, spec, s, client, start, job, visit); Valid(u) && Grows(t, u) && Busy(u, s, start)
  {
    var u := WithVisit(t, spec, s, client, start, job, visit);
    assert u.appointments[visit].staffId == Some(s);
    assert UniqueSlots(u.appointments);
    assert ForeignKeys(u);
  }

  /** A settled visit stays settled. */
  lemma SettledKept(t: Tables, t': Tables, spec: VisitSpec, dir: map<string, Id>)
    requires Grows(t, t') && Settled(t, spec, dir)
    ensures Settled(t', spec, dir)
  {
    if spec.staffName in dir {
      var start := StartOf(SEED_DATE, spec.time).value;
      var a :| a in t.appointments && t.appointments[a].staffId == Some(dir[spec.staffName])
               && t.appointments[a].start == start;
      assert t'.appointments[a] == t.appointments[a];
    }
  }

  /** No visit is left to do, each new one has a job, and nothing else changed. */
  ghost predicate VisitsDone(t: Tables, t': Tables, specs: seq<VisitSpec>, dir: map<string, Id>) {
    && Grows(t, t') && t' == t.(jobs := t'.jobs, appointments := t'.appointments)
    && |t'.jobs| - |t.jobs| == |t'.appointments| - |t.appointments|
    && (forall i | 0 <= i < |specs| :: Settled(t', specs[i], dir))
  }

  lemma VisitsCompose(t: Tables, u: Tables, t': Tables, specs: seq<VisitSpec>, dir: map<string, Id>)
    requires specs != [] && Grows(t, u) && u == t.(jobs := u.jobs, appointments := u.appointments)
    requires |u.jobs| - |t.jobs| == |u.appointments| - |t.appointments| && Settled(u, specs[0], dir)
    requires VisitsDone(u, t', specs[1..], dir)
    ensures VisitsDone(t, t', specs, dir)
  {
    GrowsOn(t, u, t');
    SettledKept(u, t', specs[0], dir);
    assert forall i | 1 <= i < |specs| :: specs[i] == specs[1..][i - 1];
  }

  lemma {:induction false} VisitsAdded(t: Tables, specs: seq<VisitSpec>, dir: map<string, Id>, client: Id,
                                       jobs: seq<Id>, visits: seq<Id>)
    requires Valid(t) && |specs| == |jobs| == |visits| && StartsExist(specs) && client in t.clients
    requires Directory(dir, t.staff) && Unused(jobs, t.jobs) && Unused(visits, t.appointments)
    ensures var t' := AddVisits(t, specs, dir, client, jobs, visits); Valid(t') && VisitsDone(t, t', specs, dir)
    decreases |specs|
  {
    if specs == [] {
    } else {
      var start := StartOf(SEED_DATE, specs[0].time).value;
      var u := if Settled(t, specs[0], dir) then t
               else WithVisit(t, specs[0], dir[specs[0].staffName], client, start, jobs[0], visits[0]);
      VisitStep(t, u, specs[0], dir, client, jobs, visits);
      VisitsAdded(u, specs[1..], dir, client, jobs[1..], visits[1..]);
      VisitsCompose(t, u, AddVisits(u, specs[1..], dir, client, jobs[1..], visits[1..]), specs, dir);
    }
  }

  lemma UnusedTail<T, V>(ids: seq<T>, rows: map<T, V>)
    requires ids != [] && Unused(ids, rows)
    ensures Unused(ids[1..], rows)
  {
    assert forall i | 0 <= i < |ids[1..]| :: ids[1..][i] == ids[i + 1];
  }

  lemma VisitStep(t: Tables, u: Tables, spec: VisitSpec, dir: map<string, Id>, client: Id,
                  jobs: seq<Id>, visits: seq<Id>)
    requires Valid(t) && client in t.clients && jobs != [] && visits != [] && Directory(dir, t.staff)
    requires Unused(jobs, t.jobs) && Unused(visits, t.appointments) && StartOf(SEED_DATE, spec.time).Some?
    requires u == if Settled(t, spec, dir) then t
                  else WithVisit(t, spec, dir[spec.staffName], client, StartOf(SEED_DATE, spec.time).value,
                                 jobs[0], visits[0])
    ensures Valid(u) && Grows(t, u) && Settled(u, spec, dir) && u == t.(jobs := u.jobs, appointments := u.appointments)
    ensures |u.jobs| - |t.jobs| == |u.appointments| - |t.appointments|
    ensures Unused(jobs[1..], u.jobs) && Unused(visits[1..], u.appointments)
  {
    if Settled(t, spec, dir) {
      UnusedTail(jobs, t.jobs);
      UnusedTail(visits, t.appointments);
    } else {
      FreeVisit(t, spec, dir[spec.staffName], client, StartOf(SEED_DATE, spec.time).value, jobs[0], visits[0]);
      UnusedRest(jobs, t.jobs, u.jobs[jobs[0]]);
      UnusedRest(visits, t.appointments, u.appointments[visits[0]]);
    }
  }

  // ----- a loop with nothing to do ------------------------------------------------------

  lemma {:induction false} ClientsAgain(t: Tables, specs: seq<ClientSpec>, ids: seq<Id>, contacts: seq<Id>)
    requires |specs| == |ids| == |contacts| && forall i | 0 <= i < |specs| :: HasEmail(t, specs[i].email)
    ensures AddClients(t, specs, ids, contacts) == t
    decreases |specs|
  {
    if specs == [] {
    } else {
      ClientsAgain(t, specs[1..], ids[1..], contacts[1..]);
    }
  }

  lemma {:induction false} MemoriesAgain(t: Tables, specs: seq<MemorySpec>, ids: seq<int>)
    requires |specs| == |ids| && forall i | 0 <= i < |specs| :: HasMemory(t, specs[i].key, specs[i].kind)
    ensures AddMemories(t, specs, ids) == t
    decreases |specs|
  {
    if specs == [] {
    } else {
      MemoriesAgain(t, specs[1..], ids[1..]);
    }
  }

  lemma {:induction false} VisitsAgain(t: Tables, specs: seq<VisitSpec>, dir: map<string, Id>, client: Id,
                                       jobs: seq<Id>, visits: seq<Id>)
    requires |specs| == |jobs| == |visits| && StartsExist(specs) && client in t.clients && Directory(dir, t.staff)
    requires forall i | 0 <= i < |specs| :: Settled(t, specs[i], dir)
    ensures AddVisits(t, specs, dir, client, jobs, visits) == t
    decreases |specs|
  {
    if specs == [] {
    } else {
      assert Settled(t, specs[0], dir);
      VisitsAgain(t, specs[1..], dir, client, jobs[1..], visits[1..]);
    }
  }

  // ----- the whole ------------------------------------------------------------------------

  lemma DemoDate()
    ensures SEED_DATE == FormatDate(Date(2026, 6, 20))
  {
    assert Text.Pad(2, 1) == "2" && Text.Pad(20, 2) == "20" && Text.Pad(202, 3) == "202" && Text.Pad(2026, 4) == "2026";
    assert Text.Pad(0, 1) == "0" && Text.Pad(6, 2) == "06";
  }

  lemma OnTheHour(time: string)
    requires time == "09:00" || time == "10:00"
    ensures TimeReads(time)
  {
    assert time[..2] == "09" || time[..2] == "10";
    assert time[3..] == "00";
    assert "09"[..1] == "0" && "10"[..1] == "1" && "00"[..1] == "0" && "0"[..0] == "" && "1"[..0] == "";
    assert Text.Value("0") == 0 && Text.Value("1") == 1;
    ReadableTime(time);
  }

  /** The demo data is sound: in particular the clock times of its visits exist on its date. */
  lemma DemoIsSound()
    ensures Sound(DEMO)
  {
    DemoDate();
    forall i | 0 <= i < |DEMO_VISITS|
      ensures StartOf(SEED_DATE, DEMO_VISITS[i].time).Some?
    {
      OnTheHour(DEMO_VISITS[i].time);
      StartReads(Date(2026, 6, 20), DEMO_VISITS[i].time);
    }
  }

  /** The staff of seed_all's directory: those that are there, or the demo staff. */
  function SeededStaff(t: Tables, d: Draw): Tables
    requires |d.staff| == |d.demo.staff|
  {
    if t.staff == map[] then AddStaff(t, d.demo.staff, d.staff) else t
  }

  /** The tables after the staff, the clients and the memories have been added. */
  ghost function Stages(t: Tables, d: Draw): (Tables, Tables, Tables)
    requires FreshDraw(t, d)
  {
    var a := SeededStaff(t, d);
    var b := AddClients(a, d.demo.clients, d.clients, d.contacts);
    (a, b, AddMemories(b, d.demo.memories, d.memories))
  }

  /** What the three stages leave behind; `a` is what the first one leaves. */
  ghost predicate StagesDone(t: Tables, a: Tables, c: Tables, demo: Demo) {
    && Grows(t, c) && c.staff == a.staff != map[] && c.jobs == t.jobs && c.appointments == t.appointments
    && |c.clients| - |t.clients| == |c.contacts| - |t.contacts|
    && |c.staff| - |t.staff| == (if t.staff == map[] then |demo.staff| else 0)
    && (forall i | 0 <= i < |demo.clients| :: HasEmail(c, demo.clients[i].email))
    && (forall i | 0 <= i < |demo.memories| :: HasMemory(c, demo.memories[i].key, demo.memories[i].kind))
  }

  lemma StagesCompose(t: Tables, a: Tables, b: Tables, c: Tables, demo: Demo)
    requires Grows(t, a) && a == t.(staff := a.staff, skills := a.skills) && a.staff != map[]
    requires |a.staff| - |t.staff| == (if t.staff == map[] then |demo.staff| else 0)
    requires ClientsDone(a, b, demo.clients) && MemoriesDone(b, c, demo.memories)
    ensures StagesDone(t, a, c, demo)
  {
    GrowsOn(t, a, b);
    GrowsOn(t, b, c);
    forall i | 0 <= i < |demo.clients|
      ensures HasEmail(c, demo.clients[i].email)
    {
      EmailKept(b, c, demo.clients[i].email);
    }
  }

  lemma FirstStage(t: Tables, d: Draw)
    requires Valid(t) && d.demo.staff != [] && |d.staff| == |d.demo.staff| && Unused(d.staff, t.staff)
    ensures var a := SeededStaff(t, d);
            && Valid(a) && Grows(t, a) && a == t.(staff := a.staff, skills := a.skills) && a.staff != map[]
            && |a.staff| - |t.staff| == (if t.staff == map[] then |d.demo.staff| else 0)
  {
    StaffAdded(t, d.demo.staff, d.staff);
  }

  lemma StagesAreValid(t: Tables, d: Draw)
    requires Valid(t) && FreshDraw(t, d)
    ensures var (a, b, c) := Stages(t, d);
            Valid(c) && StagesDone(t, a, c, d.demo) && HasEmail(c, d.demo.clients[0].email)
  {
    var (a, b, c) := Stages(t, d);
    FirstStage(t, d);
    LaterStages(a, b, c, d);
    StagesCompose(t, a, b, c, d.demo);
  }

  lemma LaterStages(a: Tables, b: Tables, c: Tables, d: Draw)
    requires Valid(a) && |d.clients| == |d.contacts| == |d.demo.clients| && |d.memories| == |d.demo.memories|
    requires Unused(d.clients, a.clients) && Unused(d.contacts, a.contacts) && Unused(d.memories, a.memories)
    requires b == AddClients(a, d.demo.clients, d.clients, d.contacts)
    requires c == AddMemories(b, d.demo.memories, d.memories)
    ensures Valid(b) && ClientsDone(a, b, d.demo.clients) && Valid(c) && MemoriesDone(b, c, d.demo.memories)
  {
    ClientsAdded(a, d.demo.clients, d.clients, d.contacts);
    MemoriesAdded(b, d.demo.memories, d.memories);
  }

  /** The directory fits the staff that seed_all works with. */
  ghost predicate Fits(t: Tables, d: Draw, dir: map<string, Id>) {
    FreshDraw(t, d) && Directory(dir, SeededStaff(t, d).staff)
  }

  /** seed_all, with the directory that the order of the staff rows leads to. */
  ghost function Seeded(t: Tables, d: Draw, dir: map<string, Id>): Tables
    requires Valid(t) && Fits(t, d, dir)
  {
    StagesAreValid(t, d);
    var c := Stages(t, d).2;
    AddVisits(c, d.demo.visits, dir, ClientByEmail(c, d.demo.clients[0].email).value, d.jobs, d.visits)
  }

  /** Nothing of the demo data is missing, to a run with this directory. */
  ghost predicate Complete(t: Tables, dir: map<string, Id>, demo: Demo) {
    && t.staff != map[]
    && (forall i | 0 <= i < |demo.clients| :: HasEmail(t, demo.clients[i].email))
    && (forall i | 0 <= i < |demo.memories| :: HasMemory(t, demo.memories[i].key, demo.memories[i].kind))
    && (forall i | 0 <= i < |demo.visits| :: Settled(t, demo.visits[i], dir))
  }

  lemma CompleteFrom(c: Tables, t': Tables, dir: map<string, Id>, demo: Demo)
    requires Grows(c, t') && c.staff != map[]
    requires forall i | 0 <= i < |demo.clients| :: HasEmail(c, demo.clients[i].email)
    requires forall i | 0 <= i < |demo.memories| :: HasMemory(c, demo.memories[i].key, demo.memories[i].kind)
    requires forall i | 0 <= i < |demo.visits| :: Settled(t', demo.visits[i], dir)
    ensures Complete(t', dir, demo)
  {
    var s :| s in c.staff;
    assert s in t'.staff;
    forall i | 0 <= i < |demo.clients|
      ensures HasEmail(t', demo.clients[i].email)
    {
      EmailKept(c, t', demo.clients[i].email);
    }
    forall i | 0 <= i < |demo.memories|
      ensures HasMemory(t', demo.memories[i].key, demo.memories[i].kind)
    {
      MemoryKept(c, t', demo.memories[i].key, demo.memories[i].kind);
    }
  }

  /** Seeding keeps every constraint and every row, completes the demo data, adds a contact
      with each client and a job with each appointment, and adds staff only when there are
      none. */
  lemma SeedingCompletes(t: Tables, d: Draw, dir: map<string, Id>)
    requires Valid(t) && Fits(t, d, dir)
    ensures var t' := Seeded(t, d, dir);
            && Valid(t') && Grows(t, t') && Complete(t', dir, d.demo)
            && |t'.clients| - |t.clients| == |t'.contacts| - |t.contacts|
            && |t'.jobs| - |t.jobs| == |t'.appointments| - |t.appointments|
            && |t'.staff| - |t.staff| == (if t.staff == map[] then |d.demo.staff| else 0)
            && t'.staff == SeededStaff(t, d).staff
  {
    StagesAreValid(t, d);
    var c, t' := Stages(t, d).2, Seeded(t, d, dir);
    VisitsAdded(c, d.demo.visits, dir, ClientByEmail(c, d.demo.clients[0].email).value, d.jobs, d.visits);
    GrowsOn(t, c, t');
    CompleteFrom(c, t', dir, d.demo);
  }

  /** Seeding changes nothing exactly when the demo data is complete. */
  lemma SeedingCompleteData(t: Tables, d: Draw, dir: map<string, Id>)
    requires Valid(t) && Fits(t, d, dir)
    ensures Seeded(t, d, dir) == t <==> Complete(t, dir, d.demo)
  {
    SeedingCompletes(t, d, dir);
    if Complete(t, dir, d.demo) {
      NothingToSeed(t, d, dir);
    }
  }

  lemma NothingToSeed(t: Tables, d: Draw, dir: map<string, Id>)
    requires Valid(t) && Fits(t, d, dir) && Complete(t, dir, d.demo)
    ensures Seeded(t, d, dir) == t
  {
    ClientsAgain(t, d.demo.clients, d.clients, d.contacts);
    MemoriesAgain(t, d.demo.memories, d.memories);
    VisitsAgain(t, d.demo.visits, dir, ClientByEmail(t, d.demo.clients[0].email).value, d.jobs, d.visits);
  }

  // ----- what the new rows say ------------------------------------------------------------

  /** The rows of the staff specifications, with exactly their skills. */
  ghost predicate StaffRows(t: Tables, t': Tables, specs: seq<StaffSpec>, ids: seq<Id>)
    requires |specs| == |ids|
  {
    && (forall i | 0 <= i < |specs| ::
          && ids[i] in t'.staff && t'.staff[ids[i]].name == specs[i].name && t'.staff[ids[i]].active == true
          && t'.staff[ids[i]].latitude == Some(specs[i].lat) && t'.staff[ids[i]].longitude == Some(specs[i].lng)
          && (forall k :: (ids[i], k) in t'.skills <==> k in specs[i].skills))
    && (forall s | s in t'.staff && s !in t.staff :: s in ids)
    && (forall s, k | s in t.staff :: (s, k) in t'.skills <==> (s, k) in t.skills)
  }

  lemma {:induction false} StaffSay(t: Tables, specs: seq<StaffSpec>, ids: seq<Id>)
    requires Valid(t) && |specs| == |ids| && Unused(ids, t.staff)
    ensures StaffRows(t, AddStaff(t, specs, ids), specs, ids)
    decreases |specs|
  {
    if specs == [] {
      assert AddStaff(t, specs, ids) == t;
    } else {
      var u := WithStaff(t, specs[0], ids[0]);
      UnusedRest(ids, t.staff, u.staff[ids[0]]);
      StaffKeepsValid(t, specs[0], ids[0]);
      StaffSay(u, specs[1..], ids[1..]);
      StaffAdded(u, specs[1..], ids[1..]);
      StaffRowsCompose(t, u, AddStaff(u, specs[1..], ids[1..]), specs, ids);
    }
  }

  lemma StaffRowsCompose(t: Tables, u: Tables, t': Tables, specs: seq<StaffSpec>, ids: seq<Id>)
    requires Valid(t) && specs != [] && |specs| == |ids| && ids[0] !in t.staff && u == WithStaff(t, specs[0], ids[0])
    requires StaffRows(u, t', specs[1..], ids[1..]) && Grows(u, t')
    ensures StaffRows(t, t', specs, ids)
  {
    forall i | 0 <= i < |specs|
      ensures i > 0 ==> specs[i] == specs[1..][i - 1] && ids[i] == ids[1..][i - 1]
    {
    }
    assert u.staff[ids[0]] == Staff(specs[0].name, true, Some(specs[0].lat), Some(specs[0].lng));
    assert forall k :: (ids[0], k) !in t.skills;
    assert forall k :: (ids[0], k) in u.skills <==> k in specs[0].skills;
    assert forall s :: s in ids[1..] ==> s in ids;
  }

  /** The client, or the contact, is that of a specification. */
  ghost predicate NewClient(t: Tables, specs: seq<ClientSpec>, ids: seq<Id>, contacts: seq<Id>, c: Id)
    requires |specs| == |ids| == |contacts|
  {
    exists i | 0 <= i < |specs| :: c == ids[i] && IsClientOf(t, specs[i], ids[i], contacts[i])
  }

  ghost predicate NewContact(t: Tables, specs: seq<ClientSpec>, ids: seq<Id>, contacts: seq<Id>, c: Id)
    requires |specs| == |ids| == |contacts|
  {
    exists i | 0 <= i < |specs| :: c == contacts[i] && IsClientOf(t, specs[i], ids[i], contacts[i])
  }

  /** A new client is that of a specification, with a contact that repeats it; a new contact is
      of such a client. */
  ghost predicate ClientRows(t: Tables, t': Tables, specs: seq<ClientSpec>, ids: seq<Id>, contacts: seq<Id>)
    requires |specs| == |ids| == |contacts|
  {
    && (forall c | c in t'.clients && c !in t.clients :: NewClient(t', specs, ids, contacts, c))
    && (forall c | c in t'.contacts && c !in t.contacts :: NewContact(t', specs, ids, contacts, c))
  }

  predicate IsClientOf(t: Tables, spec: ClientSpec, id: Id, contact: Id) {
    && id in t.clients && t.clients[id].name == Some(spec.name) && t.clients[id].email == Some(spec.email)
    && t.clients[id].phone == Some(spec.phone) && t.clients[id].address == Some(spec.address)
    && contact in t.contacts && t.contacts[contact].clientId == id && t.contacts[contact].name == Some(spec.name)
    && t.contacts[contact].email == Some(spec.email) && t.contacts[contact].phone == Some(spec.phone)
  }

  lemma {:induction false} ClientsSay(t: Tables, specs: seq<ClientSpec>, ids: seq<Id>, contacts: seq<Id>)
    requires Valid(t) && |specs| == |ids| == |contacts| && Unused(ids, t.clients) && Unused(contacts, t.contacts)
    ensures ClientRows(t, AddClients(t, specs, ids, contacts), specs, ids, contacts)
    decreases |specs|
  {
    if specs == [] {
      assert AddClients(t, specs, ids, contacts) == t;
    } else {
      var u := if HasEmail(t, specs[0].email) then t else WithClient(t, specs[0], ids[0], contacts[0]);
      ClientStep(t, u, specs[0], ids, contacts);
      ClientsSay(u, specs[1..], ids[1..], contacts[1..]);
      ClientsAdded(u, specs[1..], ids[1..], contacts[1..]);
      ClientRowsCompose(t, u, AddClients(u, specs[1..], ids[1..], contacts[1..]), specs, ids, contacts);
    }
  }

  lemma NewClientLater(t: Tables, specs: seq<ClientSpec>, ids: seq<Id>, contacts: seq<Id>, c: Id)
    requires specs != [] && |specs| == |ids| == |contacts|
    ensures NewClient(t, specs[1..], ids[1..], contacts[1..], c) ==> NewClient(t, specs, ids, contacts, c)
    ensures NewContact(t, specs[1..], ids[1..], contacts[1..], c) ==> NewContact(t, specs, ids, contacts, c)
  {
    assert forall i | 0 <= i < |specs[1..]| ::
        specs[1..][i] == specs[i + 1] && ids[1..][i] == ids[i + 1] && contacts[1..][i] == contacts[i + 1];
  }

  lemma ClientKept(t: Tables, t': Tables, spec: ClientSpec, id: Id, contact: Id)
    requires Grows(t, t') && IsClientOf(t, spec, id, contact)
    ensures IsClientOf(t', spec, id, contact)
  {
  }

  lemma ClientRowsCompose(t: Tables, u: Tables, t': Tables, specs: seq<ClientSpec>, ids: seq<Id>, contacts: seq<Id>)
    requires specs != [] && |specs| == |ids| == |contacts| && Grows(u, t')
    requires u == t || u == WithClient(t, specs[0], ids[0], contacts[0])
    requires ClientRows(u, t', specs[1..], ids[1..], contacts[1..])
    ensures ClientRows(t, t', specs, ids, contacts)
  {
    if u != t {
      assert IsClientOf(u, specs[0], ids[0], contacts[0]);
      ClientKept(u, t', specs[0], ids[0], contacts[0]);
    }
    forall c | c in t'.clients && c !in t.clients
      ensures NewClient(t', specs, ids, contacts, c)
    {
      NewClientLater(t', specs, ids, contacts, c);
    }
    forall c | c in t'.contacts && c !in t.contacts
      ensures NewContact(t', specs, ids, contacts, c)
    {
      NewClientLater(t', specs, ids, contacts, c);
    }
  }

  /** A new memory is that of a specification. */
  ghost predicate MemoryRows(t: Tables, t': Tables, specs: seq<MemorySpec>, ids: seq<int>)
    requires |specs| == |ids|
  {
    forall m | m in t'.memories && m !in t.memories ::
      exists i | 0 <= i < |specs| ::
        && m == ids[i] && t'.memories[m].customerKey == specs[i].key
        && t'.memories[m].memoryType == specs[i].kind && t'.memories[m].content == specs[i].content
  }

  lemma {:induction false} MemoriesSay(t: Tables, specs: seq<MemorySpec>, ids: seq<int>)
    requires Valid(t) && |specs| == |ids| && Unused(ids, t.memories)
    ensures MemoryRows(t, AddMemories(t, specs, ids), specs, ids)
    decreases |specs|
  {
    if specs == [] {
      assert AddMemories(t, specs, ids) == t;
    } else {
      var u := if HasMemory(t, specs[0].key, specs[0].kind) then t else WithMemory(t, specs[0], ids[0]);
      MemoryStep(t, u, specs[0], ids);
      MemoriesSay(u, specs[1..], ids[1..]);
      MemoriesAdded(u, specs[1..], ids[1..]);
      MemoryRowsCompose(t, u, AddMemories(u, specs[1..], ids[1..]), specs, ids);
    }
  }

  lemma MemoryRowsCompose(t: Tables, u: Tables, t': Tables, specs: seq<MemorySpec>, ids: seq<int>)
    requires specs != [] && |specs| == |ids| && Grows(u, t') && (u == t || u == WithMemory(t, specs[0], ids[0]))
    requires MemoryRows(u, t', specs[1..], ids[1..])
    ensures MemoryRows(t, t', specs, ids)
  {
    forall m | m in t'.memories && m !in t.memories
      ensures exists i | 0 <= i < |specs| ::
                && m == ids[i] && t'.memories[m].customerKey == specs[i].key
                && t'.memories[m].memoryType == specs[i].kind && t'.memories[m].content == specs[i].content
    {
      if m !in u.memories {
        var i :| && 0 <= i < |specs[1..]| && m == ids[1..][i] && t'.memories[m].customerKey == specs[1..][i].key
                 && t'.memories[m].memoryType == specs[1..][i].kind && t'.memories[m].content == specs[1..][i].content;
        assert m == ids[i + 1] && specs[1..][i] == specs[i + 1];
      } else {
        assert m == ids[0] && t'.memories[m] == u.memories[m];
      }
    }
  }

  /** The appointment, or the job, is that of a specification. */
  ghost predicate NewVisit(t: Tables, specs: seq<VisitSpec>, dir: map<string, Id>, client: Id,
                           jobs: seq<Id>, visits: seq<Id>, a: Id)
    requires |specs| == |jobs| == |visits|
  {
    exists i | 0 <= i < |specs| :: a == visits[i] && IsVisitOf(t, specs[i], dir, client, jobs[i], visits[i])
  }

  ghost predicate NewJob(t: Tables, specs: seq<VisitSpec>, dir: map<string, Id>, client: Id,
                         jobs: seq<Id>, visits: seq<Id>, j: Id)
    requires |specs| == |jobs| == |visits|
  {
    exists i | 0 <= i < |specs| :: j == jobs[i] && IsVisitOf(t, specs[i], dir, client, jobs[i], visits[i])
  }

  /** A new appointment is that of a specification, for the staff member in the directory, at its
      time, with a job for the client; a new job is of such an appointment. */
  ghost predicate VisitRows(t: Tables, t': Tables, specs: seq<VisitSpec>, dir: map<string, Id>, client: Id,
                            jobs: seq<Id>, visits: seq<Id>)
    requires |specs| == |jobs| == |visits|
  {
    && (forall a | a in t'.appointments && a !in t.appointments :: NewVisit(t', specs, dir, client, jobs, visits, a))
    && (forall j | j in t'.jobs && j !in t.jobs :: NewJob(t', specs, dir, client, jobs, visits, j))
  }

  predicate IsVisitOf(t: Tables, spec: VisitSpec, dir: map<string, Id>, client: Id, job: Id, visit: Id) {
    && spec.staffName in dir && client in t.clients
    && visit in t.appointments && t.appointments[visit].jobId == job
    && t.appointments[visit].staffId == Some(dir[spec.staffName])
    && t.appointments[visit].staffName == Some(spec.staffName)
    && Some(t.appointments[visit].start) == StartOf("2026-06-20", spec.time)
    && job in t.jobs && t.jobs[job].clientId == client && t.jobs[job].service == Some(spec.service)
    && t.jobs[job].address == t.clients[client].address
  }

  lemma VisitSays(t: Tables, u: Tables, spec: VisitSpec, dir: map<string, Id>, client: Id, job: Id, visit: Id)
    requires client in t.clients && Directory(dir, t.staff) && StartOf(SEED_DATE, spec.time).Some?
    requires u == if Settled(t, spec, dir) then t
                  else WithVisit(t, spec, dir[spec.staffName], client, StartOf(SEED_DATE, spec.time).value, job, visit)
    ensures u != t ==> IsVisitOf(u, spec, dir, client, job, visit)
    ensures forall a | a in u.appointments && a !in t.appointments :: a == visit
    ensures forall j | j in u.jobs && j !in t.jobs :: j == job
  {
  }

  lemma {:induction false} VisitsSay(t: Tables, specs: seq<VisitSpec>, dir: map<string, Id>, client: Id,
                                     jobs: seq<Id>, visits: seq<Id>)
    requires Valid(t) && |specs| == |jobs| == |visits| && StartsExist(specs) && client in t.clients
    requires Directory(dir, t.staff) && Unused(jobs, t.jobs) && Unused(visits, t.appointments)
    ensures VisitRows(t, AddVisits(t, specs, dir, client, jobs, visits), specs, dir, client, jobs, visits)
    decreases |specs|
  {
    if specs == [] {
      assert AddVisits(t, specs, dir, client, jobs, visits) == t;
    } else {
      var start := StartOf(SEED_DATE, specs[0].time).value;
      var u := if Settled(t, specs[0], dir) then t
               else WithVisit(t, specs[0], dir[specs[0].staffName], client, start, jobs[0], visits[0]);
      VisitStep(t, u, specs[0], dir, client, jobs, visits);
      VisitsSay(u, specs[1..], dir, client, jobs[1..], visits[1..]);
      VisitsAdded(u, specs[1..], dir, client, jobs[1..], visits[1..]);
      VisitSays(t, u, specs[0], dir, client, jobs[0], visits[0]);
      VisitRowsCompose(t, u, AddVisits(u, specs[1..], dir, client, jobs[1..], visits[1..]), specs, dir, client,
                       jobs, visits);
    }
  }

  lemma NewVisitLater(t: Tables, specs: seq<VisitSpec>, dir: map<string, Id>, client: Id,
                      jobs: seq<Id>, visits: seq<Id>, x: Id)
    requires specs != [] && |specs| == |jobs| == |visits|
    ensures NewVisit(t, specs[1..], dir, client, jobs[1..], visits[1..], x) ==>
              NewVisit(t, specs, dir, client, jobs, visits, x)
    ensures NewJob(t, specs[1..], dir, client, jobs[1..], visits[1..], x) ==>
              NewJob(t, specs, dir, client, jobs, visits, x)
  {
    assert forall i | 0 <= i < |specs[1..]| ::
        specs[1..][i] == specs[i + 1] && jobs[1..][i] == jobs[i + 1] && visits[1..][i] == visits[i + 1];
  }

  lemma VisitKept(t: Tables, t': Tables, spec: VisitSpec, dir: map<string, Id>, client: Id, job: Id, visit: Id)
    requires Grows(t, t') && IsVisitOf(t, spec, dir, client, job, visit)
    ensures IsVisitOf(t', spec, dir, client, job, visit)
  {
  }

  lemma VisitRowsCompose(t: Tables, u: Tables, t': Tables, specs: seq<VisitSpec>, dir: map<string, Id>, client: Id,
                         jobs: seq<Id>, visits: seq<Id>)
    requires specs != [] && |specs| == |jobs| == |visits| && Grows(u, t')
    requires u != t ==> IsVisitOf(u, specs[0], dir, client, jobs[0], visits[0])
    requires forall a | a in u.appointments && a !in t.appointments :: a == visits[0]
    requires forall j | j in u.jobs && j !in t.jobs :: j == jobs[0]
    requires VisitRows(u, t', specs[1..], dir, client, jobs[1..], visits[1..])
    ensures VisitRows(t, t', specs, dir, client, jobs, visits)
  {
    if u != t {
      VisitKept(u, t', specs[0], dir, client, jobs[0], visits[0]);
    }
    forall a | a in t'.appointments && a !in t.appointments
      ensures NewVisit(t', specs, dir, client, jobs, visits, a)
    {
      NewVisitLater(t', specs, dir, client, jobs, visits, a);
    }
    forall j | j in t'.jobs && j !in t.jobs
      ensures NewJob(t', specs, dir, client, jobs, visits, j)
    {
      NewVisitLater(t', specs, dir, client, jobs, visits, j);
    }
  }

  /** Rows found on tables that agree on those tables. */
  lemma RowsOfStages(t: Tables, a: Tables, b: Tables, c: Tables, t': Tables, d: Draw)
    requires |d.clients| == |d.contacts| == |d.demo.clients| && |d.memories| == |d.demo.memories|
    requires a == t.(staff := a.staff, skills := a.skills) && b == a.(clients := b.clients, contacts := b.contacts)
    requires c == b.(memories := c.memories) && t' == c.(jobs := t'.jobs, appointments := t'.appointments)
    requires ClientRows(a, b, d.demo.clients, d.clients, d.contacts) && MemoryRows(b, c, d.demo.memories, d.memories)
    ensures ClientRows(t, t', d.demo.clients, d.clients, d.contacts) && MemoryRows(t, t', d.demo.memories, d.memories)
  {
    forall x | x in t'.clients && x !in t.clients
      ensures NewClient(t', d.demo.clients, d.clients, d.contacts, x)
    {
      assert NewClient(b, d.demo.clients, d.clients, d.contacts, x);
    }
    forall x | x in t'.contacts && x !in t.contacts
      ensures NewContact(t', d.demo.clients, d.clients, d.contacts, x)
    {
      assert NewContact(b, d.demo.clients, d.clients, d.contacts, x);
    }
  }

  lemma StagesSay(t: Tables, d: Draw, t': Tables)
    requires Valid(t) && FreshDraw(t, d)
    requires var c := Stages(t, d).2; t' == c.(jobs := t'.jobs, appointments := t'.appointments)
    ensures if t.staff == map[] then StaffRows(t, t', d.demo.staff, d.staff)
            else t'.staff == t.staff && t'.skills == t.skills
    ensures ClientRows(t, t', d.demo.clients, d.clients, d.contacts) && MemoryRows(t, t', d.demo.memories, d.memories)
  {
    var (a, b, c) := Stages(t, d);
    FirstStage(t, d);
    LaterStages(a, b, c, d);
    ClientsSay(a, d.demo.clients, d.clients, d.contacts);
    MemoriesSay(b, d.demo.memories, d.memories);
    RowsOfStages(t, a, b, c, t', d);
    if t.staff == map[] {
      StaffSay(t, d.demo.staff, d.staff);
      assert t'.staff == a.staff && t'.skills == a.skills;
    }
  }

  /** What seeding writes, row by row: into an empty staff table, each member of the demo staff,
      active, with name, place and exactly the skills given; each new client with the name, the
      address for mail and post and the telephone number given, and a contact that repeats
      them; each new memory with the content given; each new appointment for the directory's
      staff member, at the time given on 2026-06-20, with a job of the service given for the
      first demo client at that client's address.  Nothing else is new. */
  lemma SeededRowsSay(t: Tables, d: Draw, dir: map<string, Id>) returns (client: Id)
    requires Valid(t) && Fits(t, d, dir)
    ensures var t' := Seeded(t, d, dir);
            && (if t.staff == map[] then StaffRows(t, t', d.demo.staff, d.staff)
                else t'.staff == t.staff && t'.skills == t.skills)
            && ClientRows(t, t', d.demo.clients, d.clients, d.contacts)
            && MemoryRows(t, t', d.demo.memories, d.memories)
            && client in t'.clients && t'.clients[client].email == Some(d.demo.clients[0].email)
            && VisitRows(t, t', d.demo.visits, dir, client, d.jobs, d.visits)
  {
    StagesAreValid(t, d);
    var c, t' := Stages(t, d).2, Seeded(t, d, dir);
    client := ClientByEmail(c, d.demo.clients[0].email).value;
    VisitsAdded(c, d.demo.visits, dir, client, d.jobs, d.visits);
    VisitsSay(c, d.demo.visits, dir, client, d.jobs, d.visits);
    StagesSay(t, d, t');
  }

  /** Everybody who has the name of a demo visit is busy at its time. */
  ghost predicate NamesakesBusy(t: Tables, demo: Demo) {
    forall i, s | 0 <= i < |demo.visits| && s in t.staff && t.staff[s].name == demo.visits[i].staffName ::
      StartOf(SEED_DATE, demo.visits[i].time).Some? && Busy(t, s, StartOf(SEED_DATE, demo.visits[i].time).value)
  }

  lemma NamesakesDecide(t: Tables, d: Draw, dir: map<string, Id>)
    requires Complete(t, dir, d.demo) && Fits(t, d, dir)
    ensures (forall dir' | Fits(t, d, dir') :: Complete(t, dir', d.demo)) <==> NamesakesBusy(t, d.demo)
  {
    if forall dir' | Fits(t, d, dir') :: Complete(t, dir', d.demo) {
      forall i, s | 0 <= i < |d.demo.visits| && s in t.staff && t.staff[s].name == d.demo.visits[i].staffName
        ensures Busy(t, s, StartOf(SEED_DATE, d.demo.visits[i].time).value)
      {
        var dir' := dir[d.demo.visits[i].staffName := s];
        assert Fits(t, d, dir');
        assert Settled(t, d.demo.visits[i], dir');
      }
    }
  }

  lemma Rerun(t: Tables, d: Draw, dir: map<string, Id>)
    requires Valid(t) && FreshDraw(t, d) && Complete(t, dir, d.demo) && Directory(dir, t.staff)
    ensures (forall dir' | Fits(t, d, dir') :: Seeded(t, d, dir') == t) <==> NamesakesBusy(t, d.demo)
  {
    forall dir' | Fits(t, d, dir')
      ensures Seeded(t, d, dir') == t <==> Complete(t, dir', d.demo)
    {
      SeedingCompleteData(t, d, dir');
    }
    NamesakesDecide(t, d, dir);
  }

  /** The staff members whom the visits are for. */
  ghost predicate IsTarget(specs: seq<VisitSpec>, dir: map<string, Id>, s: Id) {
    exists i | 0 <= i < |specs| :: specs[i].staffName in dir && dir[specs[i].staffName] == s
  }

  /** Adding the visits makes nobody busy but the staff members whom they are for. */
  lemma {:induction false} BusyBefore(t: Tables, specs: seq<VisitSpec>, dir: map<string, Id>, client: Id,
                                      jobs: seq<Id>, visits: seq<Id>, s: Id, start: Instant)
    requires |specs| == |jobs| == |visits| && StartsExist(specs) && client in t.clients && Directory(dir, t.staff)
    requires Busy(AddVisits(t, specs, dir, client, jobs, visits), s, start) && !IsTarget(specs, dir, s)
    ensures Busy(t, s, start)
    decreases |specs|
  {
    if specs == [] {
    } else {
      var slot := StartOf(SEED_DATE, specs[0].time).value;
      var u := if Settled(t, specs[0], dir) then t
               else WithVisit(t, specs[0], dir[specs[0].staffName], client, slot, jobs[0], visits[0]);
      NotTargetOfRest(specs, dir, s);
      BusyBefore(u, specs[1..], dir, client, jobs[1..], visits[1..], s, start);
      BusyOneBefore(t, u, specs[0], dir, client, slot, jobs[0], visits[0], s, start);
    }
  }

  lemma NotTargetOfRest(specs: seq<VisitSpec>, dir: map<string, Id>, s: Id)
    requires specs != [] && !IsTarget(specs, dir, s)
    ensures !IsTarget(specs[1..], dir, s)
    ensures specs[0].staffName in dir ==> dir[specs[0].staffName] != s
  {
    assert forall i | 0 <= i < |specs[1..]| :: specs[1..][i] == specs[i + 1];
  }

  lemma BusyOneBefore(t: Tables, u: Tables, spec: VisitSpec, dir: map<string, Id>, client: Id, slot: Instant,
                      job: Id, visit: Id, s: Id, start: Instant)
    requires client in t.clients && Directory(dir, t.staff) && (spec.staffName in dir ==> dir[spec.staffName] != s)
    requires u == t || (spec.staffName in dir && u == WithVisit(t, spec, dir[spec.staffName], client, slot, job, visit))
    requires Busy(u, s, start)
    ensures Busy(t, s, start)
  {
    var a :| a in u.appointments && u.appointments[a].staffId == Some(s) && u.appointments[a].start == start;
    assert a in t.appointments && t.appointments[a] == u.appointments[a];
  }

  lemma BusyKept(t: Tables, t': Tables, s: Id, start: Instant)
    requires Grows(t, t') && Busy(t, s, start)
    ensures Busy(t', s, start)
  {
    var a :| a in t.appointments && t.appointments[a].staffId == Some(s) && t.appointments[a].start == start;
    assert a in t'.appointments && t'.appointments[a] == t.appointments[a];
  }

  /** Everybody who has the name of a demo visit, but for the one in the directory, is busy at
      its time, before seeding. */
  ghost predicate OthersBusy(t: Tables, d: Draw, dir: map<string, Id>)
    requires Fits(t, d, dir)
  {
    forall i, s |
      && 0 <= i < |d.demo.visits| && s in SeededStaff(t, d).staff
      && SeededStaff(t, d).staff[s].name == d.demo.visits[i].staffName && dir[d.demo.visits[i].staffName] != s ::
      Busy(t, s, StartOf(SEED_DATE, d.demo.visits[i].time).value)
  }

  /** Seeding makes nobody busy but those in the directory. */
  lemma BusyAfterSeeding(t: Tables, d: Draw, dir: map<string, Id>, s: Id, start: Instant)
    requires Valid(t) && Fits(t, d, dir) && !IsTarget(d.demo.visits, dir, s)
    ensures Busy(Seeded(t, d, dir), s, start) <==> Busy(t, s, start)
  {
    StagesAreValid(t, d);
    SeedingCompletes(t, d, dir);
    var c := Stages(t, d).2;
    if Busy(Seeded(t, d, dir), s, start) {
      BusyBefore(c, d.demo.visits, dir, ClientByEmail(c, d.demo.clients[0].email).value, d.jobs, d.visits, s, start);
    }
    if Busy(t, s, start) {
      BusyKept(t, Seeded(t, d, dir), s, start);
    }
  }

  lemma NamesakeBefore(t: Tables, d: Draw, dir: map<string, Id>, i: nat, s: Id)
    requires Valid(t) && Fits(t, d, dir) && i < |d.demo.visits| && s in SeededStaff(t, d).staff
    requires SeededStaff(t, d).staff[s].name == d.demo.visits[i].staffName
    ensures var start := StartOf(SEED_DATE, d.demo.visits[i].time).value;
            Busy(Seeded(t, d, dir), s, start) <==> dir[d.demo.visits[i].staffName] == s || Busy(t, s, start)
  {
    if dir[d.demo.visits[i].staffName] == s {
      SeedingCompletes(t, d, dir);
      assert Settled(Seeded(t, d, dir), d.demo.visits[i], dir);
    } else {
      NamesakeIsNoTarget(d.demo.visits, dir, SeededStaff(t, d).staff, s);
      BusyAfterSeeding(t, d, dir, s, StartOf(SEED_DATE, d.demo.visits[i].time).value);
    }
  }

  lemma SeededKeepsStaff(t: Tables, d: Draw, dir: map<string, Id>)
    requires Valid(t) && Fits(t, d, dir)
    ensures Seeded(t, d, dir).staff == SeededStaff(t, d).staff
  {
    SeedingCompletes(t, d, dir);
  }

  /** Whether everybody with a name of the visits is busy after seeding can be told before. */
  lemma NamesakesBefore(t: Tables, d: Draw, dir: map<string, Id>)
    requires Valid(t) && Fits(t, d, dir)
    ensures NamesakesBusy(Seeded(t, d, dir), d.demo) <==> OthersBusy(t, d, dir)
  {
    var t', staff := Seeded(t, d, dir), SeededStaff(t, d).staff;
    SeededKeepsStaff(t, d, dir);
    forall i: nat, s | i < |d.demo.visits| && s in staff && staff[s].name == d.demo.visits[i].staffName
      ensures var start := StartOf(SEED_DATE, d.demo.visits[i].time).value;
              Busy(t', s, start) <==> dir[d.demo.visits[i].staffName] == s || Busy(t, s, start)
    {
      NamesakeBefore(t, d, dir, i, s);
    }
  }

  lemma NamesakeIsNoTarget(specs: seq<VisitSpec>, dir: map<string, Id>, staff: map<Id, Staff>, s: Id)
    requires Directory(dir, staff) && s in staff && dir[staff[s].name] != s
    ensures !IsTarget(specs, dir, s)
  {
  }

  /** A second run adds nothing, in whatever order the staff rows come then, exactly when,
      before the first one, everybody who shares the name of a demo visit with the one in the
      directory was busy at its time. */
  lemma SeedingIsIdempotent(t: Tables, d: Draw, dir: map<string, Id>, d': Draw)
    requires Valid(t) && Fits(t, d, dir) && d'.demo == d.demo
    requires Valid(Seeded(t, d, dir)) && FreshDraw(Seeded(t, d, dir), d')
    ensures var t' := Seeded(t, d, dir);
            (forall dir' | Fits(t', d', dir') :: Seeded(t', d', dir') == t') <==> OthersBusy(t, d, dir)
  {
    SeedingCompletes(t, d, dir);
    Rerun(Seeded(t, d, dir), d', dir);
    NamesakesBefore(t, d, dir);
  }

  /** Two staff members with the name of the first demo visit, and nothing else. */
  function TwoNamesakes(): Tables {
    var row := Staff(DEMO_VISITS[0].staffName, true, None, None);
    Tables(map["a" := row, "b" := row], {}, map[], map[], map[], map[], map[], map[])
  }

  /** There a second run that reads the rows in the other order books the visit once more, for
      the other staff member, who was free after the first run. */
  lemma NamesakeIsBookedToo(d: Draw, d': Draw)
    requires d.demo == d'.demo == DEMO && FreshDraw(TwoNamesakes(), d)
    ensures var t, name := TwoNamesakes(), DEMO_VISITS[0].staffName;
            var dir, dir' := map[name := "a"], map[name := "b"];
            && Valid(t) && Fits(t, d, dir)
            && (var t' := Seeded(t, d, dir);
                FreshDraw(t', d') && Valid(t') ==>
                  && Fits(t', d', dir')
                  && (var start := StartOf(SEED_DATE, DEMO_VISITS[0].time).value;
                      !Busy(t', "b", start) && Busy(Seeded(t', d', dir'), "b", start)))
  {
    var t, name := TwoNamesakes(), DEMO_VISITS[0].staffName;
    var dir, dir' := map[name := "a"], map[name := "b"];
    NamesakesTables(t, dir, dir');
    SeedingCompletes(t, d, dir);
    var t' := Seeded(t, d, dir);
    var start := StartOf(SEED_DATE, d.demo.visits[0].time).value;
    BusyAfterSeeding(t, d, dir, "b", start);
    if FreshDraw(t', d') && Valid(t') {
      SeedingCompletes(t', d', dir');
      assert Settled(Seeded(t', d', dir'), d'.demo.visits[0], dir');
    }
  }

  lemma NamesakesTables(t: Tables, dir: map<string, Id>, dir': map<string, Id>)
    requires t == TwoNamesakes()
    requires dir == map[DEMO_VISITS[0].staffName := "a"] && dir' == map[DEMO_VISITS[0].staffName := "b"]
    ensures Valid(t) && t.staff != map[] && Directory(dir, t.staff) && Directory(dir', t.staff)
    ensures forall start :: !Busy(t, "b", start)
    ensures !IsTarget(DEMO_VISITS, dir, "b")
  {
    assert "a" in t.staff && "b" in t.staff && "a" != "b";
  }

  lemma {:induction false} NamesAdded(t: Tables, specs: seq<StaffSpec>, ids: seq<Id>)
    requires |specs| == |ids| && Unused(ids, t.staff) && DistinctNames(t.staff)
    requires forall i, j | 0 <= i < j < |specs| :: specs[i].name != specs[j].name
    requires forall i, s | 0 <= i < |specs| && s in t.staff :: t.staff[s].name != specs[i].name
    ensures DistinctNames(AddStaff(t, specs, ids).staff)
    decreases |specs|
  {
    if specs == [] {
    } else {
      var u := WithStaff(t, specs[0], ids[0]);
      UnusedRest(ids, t.staff, u.staff[ids[0]]);
      assert forall i | 0 <= i < |specs[1..]| :: specs[1..][i] == specs[i + 1];
      NamesAdded(u, specs[1..], ids[1..]);
    }
  }

  lemma StaffNamesStay(t: Tables, d: Draw)
    requires Sound(d.demo) && |d.staff| == |d.demo.staff| && Unused(d.staff, t.staff) && DistinctNames(t.staff)
    ensures DistinctNames(SeededStaff(t, d).staff)
  {
    if t.staff == map[] {
      NamesAdded(t, d.demo.staff, d.staff);
    }
  }

  /** Seeding keeps staff names distinct, and then everybody who has the name of a demo visit is
      busy: a second run adds nothing. */
  lemma DistinctNamesStay(t: Tables, d: Draw, dir: map<string, Id>)
    requires Valid(t) && Fits(t, d, dir) && DistinctNames(t.staff)
    ensures DistinctNames(Seeded(t, d, dir).staff) && NamesakesBusy(Seeded(t, d, dir), d.demo)
  {
    SeedingCompletes(t, d, dir);
    StaffNamesStay(t, d);
    NamesakesOfDistinct(Seeded(t, d, dir), dir, d.demo);
  }

  lemma NamesakesOfDistinct(t: Tables, dir: map<string, Id>, demo: Demo)
    requires Directory(dir, t.staff) && DistinctNames(t.staff) && Complete(t, dir, demo)
    ensures NamesakesBusy(t, demo)
  {
    forall i, s | 0 <= i < |demo.visits| && s in t.staff && t.staff[s].name == demo.visits[i].staffName
      ensures StartOf(SEED_DATE, demo.visits[i].time).Some? && Busy(t, s, StartOf(SEED_DATE, demo.visits[i].time).value)
    {
      assert dir[demo.visits[i].staffName] == s;
      assert Settled(t, demo.visits[i], dir);
    }
  }
}
