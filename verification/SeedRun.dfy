/** seed_all (src/booking_mcp/seed.py) statement by statement, on the rows in place. */
module SeedRun {
  import opened Schema
  import opened Calendar
  import opened Availability
  import opened Store
  import opened Seed

  method SeedStaff(db: Database, specs: seq<StaffSpec>, ids: seq<Id>) returns (byName: map<string, Id>, count: nat)
    requires |specs| == |ids| && db.staff == map[] && Unused(ids, db.staff)
    modifies db
    ensures db.Snapshot() == AddStaff(old(db.Snapshot()), specs, ids)
    ensures Directory(byName, db.staff) && count == |specs|
  {
    byName, count := map[], 0;
    assert specs[0..] == specs && ids[0..] == ids;
    while count < |specs|
      invariant count <= |specs|
      invariant AddStaff(db.Snapshot(), specs[count..], ids[count..]) == AddStaff(old(db.Snapshot()), specs, ids)
      invariant Directory(byName, db.staff)
      invariant forall i | count <= i < |specs| :: ids[i] !in db.staff
    {
      var spec, id := specs[count], ids[count];
      var row := Staff(spec.name, true, Some(spec.lat), Some(spec.lng));
      db.staff := db.staff[id := row];
      db.skills := db.skills + set k | k in spec.skills :: (id, k);
      byName := byName[spec.name := id];
      assert specs[count..][1..] == specs[count + 1..] && ids[count..][1..] == ids[count + 1..];
      count := count + 1;
    }
  }

  /** The dictionary of the rows that are there, in whatever order the query returns them. */
  method ReadStaff(staff: map<Id, Staff>) returns (byName: map<string, Id>)
    ensures Directory(byName, staff)
  {
    byName := map[];
    var left := staff.Keys;
    while left != {}
      invariant left <= staff.Keys
      invariant forall name | name in byName :: byName[name] in staff && staff[byName[name]].name == name
      invariant forall s | s in staff && s !in left :: staff[s].name in byName
      decreases left
    {
      var s :| s in left;
      byName, left := byName[staff[s].name := s], left - {s};
    }
  }

  /** Each new client comes with a contact. */
  method SeedClients(db: Database, specs: seq<ClientSpec>, ids: seq<Id>, contacts: seq<Id>) returns (count: nat)
    requires Valid(db.Snapshot()) && |specs| == |ids| == |contacts|
    requires Unused(ids, db.clients) && Unused(contacts, db.contacts)
    modifies db
    ensures db.Snapshot() == AddClients(old(db.Snapshot()), specs, ids, contacts)
    ensures count == |db.clients| - |old(db.clients)| == |db.contacts| - |old(db.contacts)|
  {
    count := 0;
    assert specs[0..] == specs && ids[0..] == ids && contacts[0..] == contacts;
    for i := 0 to |specs|
      invariant AddClients(db.Snapshot(), specs[i..], ids[i..], contacts[i..])
                == AddClients(old(db.Snapshot()), specs, ids, contacts)
      invariant Valid(db.Snapshot()) && Unused(ids[i..], db.clients) && Unused(contacts[i..], db.contacts)
      invariant count == |db.clients| - |old(db.clients)| == |db.contacts| - |old(db.contacts)|
    {
      ghost var before := db.Snapshot();
      var spec := specs[i];
      assert specs[i..][1..] == specs[i + 1..];
      assert ids[i..][1..] == ids[i + 1..] && contacts[i..][1..] == contacts[i + 1..];
      var existing := db.FindClient(spec.email);
      if existing.None? {
        var row := Client(Some(spec.name), Some(spec.email), Some(spec.phone), Some(spec.address));
        db.clients := db.clients[ids[i] := row];
        db.contacts := db.contacts[contacts[i] := Contact(ids[i], Some(spec.name), Some(spec.email), Some(spec.phone))];
        count := count + 1;
      }
      ClientStep(before, db.Snapshot(), spec, ids[i..], contacts[i..]);
    }
  }

  method SeedMemories(db: Database, specs: seq<MemorySpec>, ids: seq<int>) returns (count: nat)
    requires Valid(db.Snapshot()) && |specs| == |ids| && Unused(ids, db.memories)
    modifies db
    ensures db.Snapshot() == AddMemories(old(db.Snapshot()), specs, ids)
    ensures count == |db.memories| - |old(db.memories)|
  {
    count := 0;
    assert specs[0..] == specs && ids[0..] == ids;
    for i := 0 to |specs|
      invariant AddMemories(db.Snapshot(), specs[i..], ids[i..]) == AddMemories(old(db.Snapshot()), specs, ids)
      invariant Valid(db.Snapshot()) && Unused(ids[i..], db.memories)
      invariant count == |db.memories| - |old(db.memories)|
    {
      ghost var before := db.Snapshot();
      var spec := specs[i];
      assert specs[i..][1..] == specs[i + 1..] && ids[i..][1..] == ids[i + 1..];
      if m: int :| && m in db.memories
                   && db.memories[m].customerKey == spec.key && db.memories[m].memoryType == spec.kind {
        assert HasMemory(before, spec.key, spec.kind);
      } else {
        db.memories := db.memories[ids[i] := Memory(spec.key, spec.kind, spec.content)];
        count := count + 1;
      }
      MemoryStep(before, db.Snapshot(), spec, ids[i..]);
    }
  }

  method SeedVisit(db: Database, spec: VisitSpec, byName: map<string, Id>, client: Id, job: Id, visit: Id)
    returns (added: bool)
    requires client in db.clients && StartOf(SEED_DATE, spec.time).Some? && Directory(byName, db.staff)
    modifies db`jobs, db`appointments
    ensures added == !Settled(old(db.Snapshot()), spec, byName)
    ensures db.Snapshot() ==
            if !added then old(db.Snapshot())
            else WithVisit(old(db.Snapshot()), spec, byName[spec.staffName], client,
                           StartOf(SEED_DATE, spec.time).value, job, visit)
  {
    var start := StartOf(SEED_DATE, spec.time).value;
    if spec.staffName !in byName || Busy(db.Snapshot(), byName[spec.staffName], start) {
      return false;
    }
    var s := byName[spec.staffName];
    db.jobs := db.jobs[job := Job(client, Some(spec.service), db.clients[client].address)];
    db.appointments := db.appointments[visit := Appointment(job, Some(s), Some(db.staff[s].name), start)];
    added := true;
  }

  /** Each new appointment comes with a job. */
  method SeedVisits(db: Database, specs: seq<VisitSpec>, byName: map<string, Id>, client: Id,
                    jobs: seq<Id>, visits: seq<Id>)
    returns (count: nat)
    requires Valid(db.Snapshot()) && |specs| == |jobs| == |visits| && StartsExist(specs) && client in db.clients
    requires Unused(jobs, db.jobs) && Unused(visits, db.appointments) && Directory(byName, db.staff)
    modifies db`jobs, db`appointments
    ensures db.Snapshot() == AddVisits(old(db.Snapshot()), specs, byName, client, jobs, visits)
    ensures count == |db.appointments| - |old(db.appointments)| == |db.jobs| - |old(db.jobs)|
  {
    count := 0;
    assert specs[0..] == specs && jobs[0..] == jobs && visits[0..] == visits;
    for i := 0 to |specs|
      invariant StartsExist(specs[i..])
      invariant AddVisits(db.Snapshot(), specs[i..], byName, client, jobs[i..], visits[i..])
                == AddVisits(old(db.Snapshot()), specs, byName, client, jobs, visits)
      invariant Valid(db.Snapshot()) && Unused(jobs[i..], db.jobs) && Unused(visits[i..], db.appointments)
      invariant count == |db.appointments| - |old(db.appointments)| == |db.jobs| - |old(db.jobs)|
    {
      ghost var before := db.Snapshot();
      assert specs[i..][1..] == specs[i + 1..];
      assert jobs[i..][1..] == jobs[i + 1..] && visits[i..][1..] == visits[i + 1..];
      assert specs[i..][0] == specs[i];
      var added := SeedVisit(db, specs[i], byName, client, jobs[i], visits[i]);
      VisitStep(before, db.Snapshot(), specs[i], byName, client, jobs[i..], visits[i..]);
      RestExists(specs[i..]);
      count := if added then count + 1 else count;
    }
  }

  lemma RestExists(specs: seq<VisitSpec>)
    requires specs != [] && StartsExist(specs)
    ensures StartsExist(specs[1..])
  {
    assert forall i | 0 <= i < |specs[1..]| :: specs[1..][i] == specs[i + 1];
  }

  /** The first query of seed_all: add the demo staff, or read the staff that are there. */
  method StaffByName(db: Database, d: Draw) returns (byName: map<string, Id>, count: nat)
    requires FreshDraw(db.Snapshot(), d)
    modifies db
    ensures db.Snapshot() == SeededStaff(old(db.Snapshot()), d)
    ensures Directory(byName, db.staff) && count == |db.staff| - |old(db.staff)|
  {
    if db.staff == map[] {
      byName, count := SeedStaff(db, d.demo.staff, d.staff);
      StaffCount(old(db.Snapshot()), d.demo.staff, d.staff);
    } else {
      byName := ReadStaff(db.staff);
      count := 0;
    }
  }

  lemma {:induction false} StaffCount(t: Tables, specs: seq<StaffSpec>, ids: seq<Id>)
    requires |specs| == |ids| && Unused(ids, t.staff)
    ensures |AddStaff(t, specs, ids).staff| == |t.staff| + |specs|
    decreases |specs|
  {
    if specs == [] {
    } else {
      UnusedRest(ids, t.staff, Staff(specs[0].name, true, Some(specs[0].lat), Some(specs[0].lng)));
      StaffCount(WithStaff(t, specs[0], ids[0]), specs[1..], ids[1..]);
    }
  }

  /** The numbers of rows that the first stages have added. */
  predicate StageCounts(t: Tables, c: Tables, staff: nat, clients: nat, memories: nat) {
    && staff == |c.staff| - |t.staff| && clients == |c.clients| - |t.clients| == |c.contacts| - |t.contacts|
    && memories == |c.memories| - |t.memories| && c.jobs == t.jobs && c.appointments == t.appointments
  }

  /** The number of visits added, each with a job; nothing else has changed. */
  predicate VisitCounts(c: Tables, t': Tables, visits: nat) {
    && t' == c.(jobs := t'.jobs, appointments := t'.appointments)
    && visits == |t'.appointments| - |c.appointments| == |t'.jobs| - |c.jobs|
  }

  /** The staff, the clients with their contacts, and the memories. */
  method SeedStages(db: Database, d: Draw)
    returns (byName: map<string, Id>, staffCount: nat, clientCount: nat, memoryCount: nat)
    requires Valid(db.Snapshot()) && FreshDraw(db.Snapshot(), d)
    modifies db
    ensures db.Snapshot() == Stages(old(db.Snapshot()), d).2 && Fits(old(db.Snapshot()), d, byName)
    ensures StageCounts(old(db.Snapshot()), db.Snapshot(), staffCount, clientCount, memoryCount)
  {
    StageTables(db.Snapshot(), d);
    byName, staffCount := StaffByName(db, d);
    clientCount := SeedClients(db, d.demo.clients, d.clients, d.contacts);
    memoryCount := SeedMemories(db, d.demo.memories, d.memories);
  }

  /** The visits are booked for the client with the address. */
  method SeedAnchored(db: Database, specs: seq<VisitSpec>, byName: map<string, Id>, email: string,
                      jobs: seq<Id>, visits: seq<Id>)
    returns (count: nat)
    requires Valid(db.Snapshot()) && HasEmail(db.Snapshot(), email)
    requires |specs| == |jobs| == |visits| && StartsExist(specs)
    requires Unused(jobs, db.jobs) && Unused(visits, db.appointments) && Directory(byName, db.staff)
    modifies db`jobs, db`appointments
    ensures db.Snapshot() ==
            AddVisits(old(db.Snapshot()), specs, byName, ClientByEmail(old(db.Snapshot()), email).value, jobs, visits)
    ensures VisitCounts(old(db.Snapshot()), db.Snapshot(), count)
  {
    var anchor := db.FindClient(email);
    count := SeedVisits(db, specs, byName, anchor.value, jobs, visits);
  }

  /** The counters are the numbers of rows added. */
  predicate Counts(summary: Summary, t: Tables, t': Tables) {
    && summary.staff == |t'.staff| - |t.staff|
    && summary.clients == |t'.clients| - |t.clients|
    && summary.contacts == |t'.contacts| - |t.contacts|
    && summary.memories == |t'.memories| - |t.memories|
    && summary.appointments == |t'.appointments| - |t.appointments| == |t'.jobs| - |t.jobs|
  }

  /** The last stage. */
  method SeedLast(db: Database, ghost t: Tables, d: Draw, byName: map<string, Id>) returns (count: nat)
    requires Valid(t) && Fits(t, d, byName) && db.Snapshot() == Stages(t, d).2
    modifies db`jobs, db`appointments
    ensures db.Snapshot() == Seeded(t, d, byName) && VisitCounts(old(db.Snapshot()), db.Snapshot(), count)
  {
    StagesAreValid(t, d);
    count := SeedAnchored(db, d.demo.visits, byName, d.demo.clients[0].email, d.jobs, d.visits);
  }

  lemma CountsAdd(t: Tables, c: Tables, t': Tables, staff: nat, clients: nat, memories: nat, visits: nat)
    requires StageCounts(t, c, staff, clients, memories) && VisitCounts(c, t', visits)
    ensures Counts(Summary(staff, clients, clients, memories, visits), t, t')
  {
  }

  /** seed_all, with DEMO for `d.demo`: the demo data is completed, and the counters are the
      numbers of rows added.  The directory is returned for the specification only. */
  method SeedAll(db: Database, d: Draw) returns (summary: Summary, ghost dir: map<string, Id>)
    requires Valid(db.Snapshot()) && FreshDraw(db.Snapshot(), d)
    modifies db
    ensures Fits(old(db.Snapshot()), d, dir) && db.Snapshot() == Seeded(old(db.Snapshot()), d, dir)
    ensures Counts(summary, old(db.Snapshot()), db.Snapshot())
  {
    ghost var t := db.Snapshot();
    var byName, staffCount, clientCount, memoryCount := SeedStages(db, d);
    dir := byName;
    ghost var c := db.Snapshot();
    var visitCount := SeedLast(db, t, d, byName);
    summary := Summary(staffCount, clientCount, clientCount, memoryCount, visitCount);
    CountsAdd(t, c, db.Snapshot(), staffCount, clientCount, memoryCount, visitCount);
  }

  lemma SecondRun(t: Tables, d: Draw, dir: map<string, Id>, t': Tables, d': Draw)
    requires Valid(t) && Fits(t, d, dir) && DistinctNames(t.staff)
    requires t' == Seeded(t, d, dir) && FreshDraw(t', d') && d'.demo == d.demo
    ensures Valid(t') && forall dir' | Fits(t', d', dir') :: Seeded(t', d', dir') == t'
  {
    SeedingCompletes(t, d, dir);
    DistinctNamesStay(t, d, dir);
    NamesakesBefore(t, d, dir);
    SeedingIsIdempotent(t, d, dir, d');
  }

  /** seed_all run twice: when staff names are distinct, the second run reports zero rows for
      everything and leaves the tables of the first. */
  method SeedTwice(db: Database, d: Draw, d': Draw)
    returns (first: Summary, second: Summary, ghost dir: map<string, Id>)
    requires Valid(db.Snapshot()) && FreshDraw(db.Snapshot(), d) && DistinctNames(db.staff)
    requires d'.demo == d.demo
    requires forall dir | Fits(db.Snapshot(), d, dir) :: FreshDraw(Seeded(db.Snapshot(), d, dir), d')
    modifies db
    ensures Fits(old(db.Snapshot()), d, dir) && db.Snapshot() == Seeded(old(db.Snapshot()), d, dir)
    ensures Counts(first, old(db.Snapshot()), db.Snapshot()) && second == Summary(0, 0, 0, 0, 0)
  {
    ghost var t := db.Snapshot();
    first, dir := SeedAll(db, d);
    SecondRun(t, d, dir, db.Snapshot(), d');
    second := SeedAgain(db, d');
  }

  /** A run that finds nothing to do. */
  method SeedAgain(db: Database, d: Draw) returns (summary: Summary)
    requires Valid(db.Snapshot()) && FreshDraw(db.Snapshot(), d)
    requires forall dir | Fits(db.Snapshot(), d, dir) :: Seeded(db.Snapshot(), d, dir) == db.Snapshot()
    modifies db
    ensures db.Snapshot() == old(db.Snapshot()) && summary == Summary(0, 0, 0, 0, 0)
  {
    ghost var dir;
    summary, dir := SeedAll(db, d);
  }

  /** Which tables each stage leaves alone. */
  lemma StageTables(t: Tables, d: Draw)
    requires Valid(t) && FreshDraw(t, d)
    ensures var (a, b, c) := Stages(t, d);
            && Valid(a) && Valid(b) && Valid(c) && HasEmail(c, d.demo.clients[0].email)
            && a == t.(staff := a.staff, skills := a.skills)
            && b == a.(clients := b.clients, contacts := b.contacts)
            && c == b.(memories := c.memories)
  {
    var (a, b, c) := Stages(t, d);
    FirstStage(t, d);
    ClientsAdded(a, d.demo.clients, d.clients, d.contacts);
    MemoriesAdded(b, d.demo.memories, d.memories);
    StagesAreValid(t, d);
  }
}
