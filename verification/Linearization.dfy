/** Every call that ends by its own statement, whether it commits or not, in one serial order.

    A call answers as if it ran alone when there is a moment, between its first and its last
    statement, at which the atomic write of the module `Serial` gives its answer and does to
    the tables what the call does.
 */
module Linearization {
  import opened Graph
  import opened Schema
  import opened Serial
  import opened Protocol
  import opened Invariant
  import opened Refinement

  /** A run of the protocol: the calls, the schedule, and the states before, between and
      after its events. */
  datatype Run = Run(calls: seq<Call>, events: seq<Event>, states: seq<State>)

  predicate Shaped(r: Run) {
    |r.states| == |r.events| + 1 && forall k | 0 <= k < |r.states| :: |r.states[k].pcs| == |r.calls|
  }

  ghost predicate Step(r: Run, k: nat)
    requires Shaped(r) && k < |r.events|
  {
    Enabled(r.calls, r.states[k], r.events[k]) && r.states[k + 1] == Apply(r.calls, r.states[k], r.events[k])
  }

  ghost predicate Steps(r: Run) {
    Shaped(r) && forall k: nat | k < |r.events| :: Step(r, k)
  }

  ghost predicate Possible(r: Run) {
    Steps(r) && Inv(r.calls, r.states[0])
  }

  /** The states of a schedule. */
  ghost function Trace(calls: seq<Call>, s: State, es: seq<Event>): (states: seq<State>)
    requires |calls| == |s.pcs| && Runs(calls, s, es)
    ensures |states| == |es| + 1
    decreases |es|
  {
    [s] + if es == [] then [] else Trace(calls, Apply(calls, s, es[0]), es[1..])
  }

  /** Every schedule is a run. */
  lemma {:induction false} TraceSteps(calls: seq<Call>, s: State, es: seq<Event>)
    requires |calls| == |s.pcs| && Runs(calls, s, es)
    ensures var states := Trace(calls, s, es);
            Steps(Run(calls, es, states)) && states[0] == s && states[|es|] == Final(calls, s, es)
    decreases |es|
  {
    if es == [] {
    } else {
      var s' := Apply(calls, s, es[0]);
      TraceSteps(calls, s', es[1..]);
      StepsBefore(calls, s, es, Trace(calls, s', es[1..]));
    }
  }

  lemma StepsBefore(calls: seq<Call>, s: State, es: seq<Event>, rest: seq<State>)
    requires |calls| == |s.pcs| && es != [] && Enabled(calls, s, es[0])
    requires Steps(Run(calls, es[1..], rest)) && rest[0] == Apply(calls, s, es[0])
    ensures Steps(Run(calls, es, [s] + rest))
  {
    var r, tail := Run(calls, es, [s] + rest), Run(calls, es[1..], rest);
    forall k | 0 <= k < |r.states|
      ensures |r.states[k].pcs| == |calls|
    {
      assert k > 0 ==> r.states[k] == tail.states[k - 1];
    }
    forall k: nat | k < |es|
      ensures Step(r, k)
    {
      if k > 0 {
        assert Step(tail, k - 1);
      }
    }
  }

  lemma {:induction false} AtInv(r: Run, k: nat)
    requires Possible(r) && k <= |r.events|
    ensures Inv(r.calls, r.states[k])
  {
    if k == 0 {
    } else {
      AtInv(r, k - 1);
      assert Step(r, k - 1);
      ApplyInv(r.calls, r.states[k - 1], r.events[k - 1]);
    }
  }

  /** Every run is that of its schedule. */
  lemma {:induction false} StepsAreTrace(r: Run)
    requires Steps(r)
    ensures Runs(r.calls, r.states[0], r.events)
    ensures Trace(r.calls, r.states[0], r.events) == r.states
    ensures Final(r.calls, r.states[0], r.events) == r.states[|r.events|]
    decreases |r.events|
  {
    if r.events == [] {
    } else {
      StepsAfter(r);
      assert Step(r, 0);
      StepsAreTrace(Run(r.calls, r.events[1..], r.states[1..]));
    }
  }

  lemma StepsAfter(r: Run)
    requires Steps(r) && r.events != []
    ensures Steps(Run(r.calls, r.events[1..], r.states[1..]))
  {
    var tail := Run(r.calls, r.events[1..], r.states[1..]);
    forall k: nat | k < |tail.events|
      ensures Step(tail, k)
    {
      assert Step(r, k + 1);
    }
  }

  lemma AtLocal(r: Run, k: nat, p: nat)
    requires Possible(r) && k <= |r.events| && p < |r.calls|
    ensures Valid(r.states[k].tables) && Local(r.states[k].tables, r.calls[p], r.states[k].pcs[p])
  {
    AtInv(r, k);
  }

  lemma EventKeepsStaff(calls: seq<Call>, s: State, e: Event)
    requires |calls| == |s.pcs| && Enabled(calls, s, e)
    ensures Apply(calls, s, e).tables.staff == s.tables.staff
  {
    if e.Go? {
      StaffStays(s.tables, calls[e.call], s.pcs[e.call]);
    }
  }

  lemma {:induction false} AtStaff(r: Run, k: nat)
    requires Steps(r) && k <= |r.events|
    ensures r.states[k].tables.staff == r.states[0].tables.staff
  {
    if k == 0 {
    } else {
      AtStaff(r, k - 1);
      assert Step(r, k - 1);
      EventKeepsStaff(r.calls, r.states[k - 1], r.events[k - 1]);
    }
  }

  lemma EventKeepsDone(calls: seq<Call>, s: State, e: Event, p: nat)
    requires |calls| == |s.pcs| && Enabled(calls, s, e) && p < |calls| && s.pcs[p].Done?
    ensures Apply(calls, s, e).pcs[p] == s.pcs[p] && e.call != p
  {
  }

  /** A call that has ended stays as it ended. */
  lemma {:induction false} DoneAt(r: Run, p: nat, i: nat, k: nat)
    requires Possible(r) && p < |r.calls| && i <= k <= |r.events| && r.states[i].pcs[p].Done?
    ensures r.states[k].pcs[p] == r.states[i].pcs[p]
    decreases k
  {
    if i == k {
    } else {
      DoneAt(r, p, i, k - 1);
      assert Step(r, k - 1);
      EventKeepsDone(r.calls, r.states[k - 1], r.events[k - 1], p);
    }
  }

  /** Event `k` lies between the first and the last statement of the call. */
  ghost predicate InProgress(r: Run, p: nat, k: nat)
    requires Shaped(r)
  {
    && k < |r.events| && p < |r.calls| && !r.states[k].pcs[p].Done?
    && (r.states[k].pcs[p].Ready? ==> r.events[k] == Go(p))
  }

  /** The call ends with event `j`, and by its own statement. */
  ghost predicate EndsAt(r: Run, p: nat, j: nat)
    requires Shaped(r)
  {
    j < |r.events| && p < |r.calls| && r.events[j] == Go(p) && r.states[j + 1].pcs[p].Done?
  }

  lemma EndIsAdvance(r: Run, p: nat, j: nat)
    requires Possible(r) && EndsAt(r, p, j)
    ensures !r.states[j].pcs[p].Done? && InProgress(r, p, j)
    ensures Advance(r.states[j].tables, r.calls[p], r.states[j].pcs[p])
            == (r.states[j + 1].tables, r.states[j + 1].pcs[p])
  {
    assert Step(r, j);
  }

  lemma EndsOnce(r: Run, p: nat, i: nat, j: nat)
    requires Possible(r) && EndsAt(r, p, i) && EndsAt(r, p, j)
    ensures i == j
  {
    if i != j {
      var (first, second) := if i < j then (i, j) else (j, i);
      EndIsAdvance(r, p, second);
      DoneAt(r, p, first + 1, second);
    }
  }

  /** Run alone at event `k`, the call that ends with event `j` gives its answer and changes
      no table. */
  ghost predicate AloneAt(r: Run, p: nat, j: nat, k: nat)
    requires Shaped(r) && EndsAt(r, p, j)
  {
    && k <= j && InProgress(r, p, k)
    && Exec(r.states[k].tables, r.calls[p]) == (r.states[k].tables, r.states[j + 1].pcs[p].outcome)
  }

  /** The call answers as if it ran alone: a call that commits at its COMMIT, any other call
      at some moment while it is in progress. */
  ghost predicate AsIfAlone(r: Run, p: nat, j: nat)
    requires Shaped(r) && EndsAt(r, p, j)
  {
    if Commits(r.states[j].pcs[p]) then
      Exec(r.states[j].tables, r.calls[p]) == (r.states[j + 1].tables, r.states[j + 1].pcs[p].outcome)
    else
      exists k: nat :: AloneAt(r, p, j, k)
  }

  // ----- when a call answers as if it ran alone -------------------------------------

  /** At event `k` of the call, the slot it asks for is taken and its key is not recorded. */
  ghost predicate RefusedAt(r: Run, p: nat, k: nat)
    requires Shaped(r) && p < |r.calls| && r.calls[p].Create? && r.calls[p].req.start.Some?
  {
    var req := r.calls[p].req;
    && InProgress(r, p, k) && req.key !in r.states[k].tables.ledger
    && SlotTakenBy(r.states[k].tables, req.staffId, req.start.value, None)
  }

  /** At event `k` of the call, the appointment exists and the slot it is to move to is taken. */
  ghost predicate ClashesAt(r: Run, p: nat, k: nat)
    requires Shaped(r) && k <= |r.events| && p < |r.calls| && r.calls[p].Reschedule? && r.calls[p].to.Some?
  {
    var id, to, t := r.calls[p].id, r.calls[p].to.value, r.states[k].tables;
    InProgress(r, p, k) && id in t.appointments && SlotTakenBy(t, t.appointments[id].staffId, to, Some(id))
  }

  /** What the statement `j` of the call finds in the tables agrees with what the call has
      read: a cancellation and the UPDATE of a move find their row, an UPDATE finds its new
      slot free, and when a call is refused for its slot although its key has been recorded or
      its row is gone, the refusal was due at an earlier moment of the call. */
  ghost predicate Undisturbed(r: Run, p: nat, j: nat)
    requires Shaped(r) && j <= |r.events| && p < |r.calls|
  {
    var t, pc := r.states[j].tables, r.states[j].pcs[p];
    match r.calls[p]
    case Create(req, _) =>
      pc.JobIn? && req.start.Some? && SlotTakenBy(t, req.staffId, req.start.value, None) && req.key in t.ledger ==>
        exists k: nat :: k <= j && RefusedAt(r, p, k)
    case Cancel(id) => pc.Loaded? ==> id in t.appointments
    case Reschedule(id, to) => (
      match pc
      case Loaded(row) =>
        to.Some? && SlotTakenBy(t, row.staffId, to.value, Some(id)) && id !in t.appointments ==>
          exists k: nat :: k <= j && ClashesAt(r, p, k)
      case Checked(_) => id in t.appointments
      case RowLocked(row) => to.Some? ==> !SlotTakenBy(t, row.staffId, to.value, Some(id))
      case _ => true)
    case Upsert(_, _, _) => true
  }

  /** What the first statement of a call under way found. */
  ghost predicate FoundFirst(t: Tables, c: Call, pc: Pc) {
    match c
    case Create(req, _) => req.key !in t.ledger
    case Cancel(id) => id in t.appointments
    case Reschedule(id, _) => id in t.appointments && (pc.Loaded? ==> pc.row == t.appointments[id])
    case Upsert(_, _, _) => true
  }

  lemma FirstStatement(t: Tables, c: Call)
    requires !Advance(t, c, Ready).1.Done?
    ensures FoundFirst(t, c, Advance(t, c, Ready).1)
  {
  }

  lemma LaterStatement(t0: Tables, t: Tables, c: Call, pc: Pc)
    requires FoundFirst(t0, c, pc) && Local(t, c, pc) && !pc.Ready? && !Advance(t, c, pc).1.Done?
    ensures FoundFirst(t0, c, Advance(t, c, pc).1)
  {
  }

  lemma FirstEvent(calls: seq<Call>, s: State, e: Event, p: nat)
    requires |calls| == |s.pcs| && Enabled(calls, s, e) && p < |calls| && s.pcs[p].Ready?
    requires var pc := Apply(calls, s, e).pcs[p]; !pc.Ready? && !pc.Done?
    ensures e == Go(p) && FoundFirst(s.tables, calls[p], Apply(calls, s, e).pcs[p])
  {
    FirstStatement(s.tables, calls[p]);
  }

  lemma LaterEvent(t0: Tables, calls: seq<Call>, s: State, e: Event, p: nat)
    requires |calls| == |s.pcs| && Enabled(calls, s, e) && p < |calls| && Local(s.tables, calls[p], s.pcs[p])
    requires !s.pcs[p].Ready? && FoundFirst(t0, calls[p], s.pcs[p]) && !Apply(calls, s, e).pcs[p].Done?
    ensures FoundFirst(t0, calls[p], Apply(calls, s, e).pcs[p])
  {
    if e == Go(p) {
      LaterStatement(t0, s.tables, calls[p], s.pcs[p]);
    }
  }

  lemma UnderWay(r: Run, p: nat, k: nat, t0: Tables)
    requires Possible(r) && p < |r.calls| && k < |r.events|
    requires !r.states[k].pcs[p].Ready? && FoundFirst(t0, r.calls[p], r.states[k].pcs[p])
    requires !r.states[k + 1].pcs[p].Done?
    ensures FoundFirst(t0, r.calls[p], r.states[k + 1].pcs[p])
  {
    assert Step(r, k);
    AtLocal(r, k, p);
    LaterEvent(t0, r.calls, r.states[k], r.events[k], p);
  }

  lemma NotDoneBefore(r: Run, p: nat, k: nat)
    requires Possible(r) && p < |r.calls| && k < |r.events| && !r.states[k + 1].pcs[p].Done?
    ensures !r.states[k].pcs[p].Done?
  {
    if r.states[k].pcs[p].Done? {
      DoneAt(r, p, k, k + 1);
    }
  }

  lemma BeganHere(r: Run, p: nat, k: nat)
    requires Possible(r) && p < |r.calls| && k < |r.events| && r.states[k].pcs[p].Ready?
    requires !r.states[k + 1].pcs[p].Ready? && !r.states[k + 1].pcs[p].Done?
    ensures InProgress(r, p, k) && FoundFirst(r.states[k].tables, r.calls[p], r.states[k + 1].pcs[p])
  {
    assert Step(r, k);
    FirstEvent(r.calls, r.states[k], r.events[k], p);
  }

  /** A call under way has a first statement behind it. */
  lemma {:induction false} Began(r: Run, p: nat, k: nat) returns (i: nat)
    requires Possible(r) && p < |r.calls| && r.states[0].pcs[p].Ready? && k <= |r.events|
    requires !r.states[k].pcs[p].Ready? && !r.states[k].pcs[p].Done?
    ensures i < k && InProgress(r, p, i) && FoundFirst(r.states[i].tables, r.calls[p], r.states[k].pcs[p])
    decreases k
  {
    NotDoneBefore(r, p, k - 1);
    if r.states[k - 1].pcs[p].Ready? {
      i := k - 1;
      BeganHere(r, p, k - 1);
    } else {
      i := Began(r, p, k - 1);
      UnderWay(r, p, k - 1, r.states[i].tables);
    }
  }

  /** The answers of a booking that ends without a COMMIT. */
  lemma BookingAnswers(t: Tables, c: Call, pc: Pc)
    requires c.Create? && Valid(t) && Local(t, c, pc) && !pc.Done? && !Commits(pc) && Advance(t, c, pc).1.Done?
    ensures var out := Advance(t, c, pc).1.outcome;
            if !pc.JobIn? then Exec(t, c) == (t, out)
            else if c.req.start.None? then out == BadStart
            else if SlotTakenBy(t, c.req.staffId, c.req.start.value, None) then out == SlotTaken
            else out == DbError && c.req.staffId.Some? && c.req.staffId.value !in t.staff
  {
  }

  /** A booking with a malformed start or an unknown staff member is refused at once. */
  lemma RefusedAtOnce(t: Tables, c: Call)
    requires c.Create? && Valid(t) && c.req.key !in t.ledger
    ensures c.req.start.None? ==> Exec(t, c) == (t, BadStart)
    ensures c.req.start.Some? && c.req.staffId.Some? && c.req.staffId.value !in t.staff ==> Exec(t, c) == (t, DbError)
  {
  }

  lemma BookingAlone(r: Run, p: nat, j: nat)
    requires Possible(r) && EndsAt(r, p, j) && r.states[0].pcs[p].Ready? && r.calls[p].Create?
    requires !Commits(r.states[j].pcs[p])
    ensures (exists k: nat :: AloneAt(r, p, j, k)) <==> Undisturbed(r, p, j)
  {
    EndIsAdvance(r, p, j);
    AtLocal(r, j, p);
    var pc, c, t := r.states[j].pcs[p], r.calls[p], r.states[j].tables;
    BookingAnswers(t, c, pc);
    if !pc.JobIn? {
      assert AloneAt(r, p, j, j);
    } else if c.req.start.Some? && SlotTakenBy(t, c.req.staffId, c.req.start.value, None) {
      RefusalAlone(r, p, j);
      assert c.req.key !in t.ledger ==> RefusedAt(r, p, j);
    } else {
      var i := Began(r, p, j);
      AtLocal(r, i, p);
      AtStaff(r, i);
      AtStaff(r, j);
      RefusedAtOnce(r.states[i].tables, c);
      assert AloneAt(r, p, j, i);
    }
  }

  lemma RefusalAlone(r: Run, p: nat, j: nat)
    requires Possible(r) && EndsAt(r, p, j) && r.calls[p].Create? && r.calls[p].req.start.Some?
    requires r.states[j].pcs[p].JobIn? && r.states[j + 1].pcs[p] == Done(SlotTaken)
    ensures (exists k: nat :: AloneAt(r, p, j, k)) <==> exists k: nat :: k <= j && RefusedAt(r, p, k)
  {
    forall k: nat | k <= j
      ensures AloneAt(r, p, j, k) <==> RefusedAt(r, p, k)
    {
    }
  }

  lemma CancelAlone(r: Run, p: nat, j: nat)
    requires Possible(r) && EndsAt(r, p, j) && r.states[0].pcs[p].Ready? && r.calls[p].Cancel?
    requires !Commits(r.states[j].pcs[p])
    ensures (exists k: nat :: AloneAt(r, p, j, k)) <==> Undisturbed(r, p, j)
  {
    EndIsAdvance(r, p, j);
    AtLocal(r, j, p);
    var pc, id := r.states[j].pcs[p], r.calls[p].id;
    if pc.Ready? {
      assert AloneAt(r, p, j, j);
    } else {
      forall k: nat | k <= j
        ensures !AloneAt(r, p, j, k)
      {
        assert id !in Exec(r.states[k].tables, Cancel(id)).0.appointments;
      }
    }
  }

  /** A move to where the appointment stands, or to nowhere, is answered without a change. */
  lemma MoveToItself(t: Tables, id: Id)
    requires Valid(t) && id in t.appointments
    ensures var row := t.appointments[id];
            Exec(t, Reschedule(id, Some(row.start))) == (t, Moved(id, row.start, row.staffId))
    ensures Exec(t, Reschedule(id, None)) == (t, BadStart)
  {
    var row := t.appointments[id];
    assert forall a | a in t.appointments && a != id :: !SameSlot(t.appointments[a], row);
    assert WithMove(t, id, row.start).appointments == t.appointments;
  }

  /** The answers of a move that ends without a COMMIT. */
  lemma MoveAnswers(t: Tables, c: Call, pc: Pc)
    requires c.Reschedule? && Local(t, c, pc) && !pc.Done? && !Commits(pc) && Advance(t, c, pc).1.Done?
    ensures var out := Advance(t, c, pc).1.outcome;
            match pc
            case Ready => Exec(t, c) == (t, out)
            case Loaded(row) =>
              if c.to.None? then out == BadStart
              else if SlotTakenBy(t, row.staffId, c.to.value, Some(c.id)) then out == SlotClash
              else c.to == Some(row.start) && out == Moved(c.id, row.start, row.staffId)
            case Checked(_) => out == DbError && c.id !in t.appointments
            case RowLocked(row) => out == DbError && SlotTakenBy(t, row.staffId, c.to.value, Some(c.id))
            case _ => false
  {
  }

  lemma MoveAlone(r: Run, p: nat, j: nat)
    requires Possible(r) && EndsAt(r, p, j) && r.states[0].pcs[p].Ready? && r.calls[p].Reschedule?
    requires !Commits(r.states[j].pcs[p])
    ensures (exists k: nat :: AloneAt(r, p, j, k)) <==> Undisturbed(r, p, j)
  {
    EndIsAdvance(r, p, j);
    AtLocal(r, j, p);
    var pc, c, t := r.states[j].pcs[p], r.calls[p], r.states[j].tables;
    MoveAnswers(t, c, pc);
    if pc.Ready? {
      assert AloneAt(r, p, j, j);
    } else if !pc.Loaded? {
      assert forall k: nat | k <= j :: !AloneAt(r, p, j, k);
    } else if c.to.Some? && SlotTakenBy(t, pc.row.staffId, c.to.value, Some(c.id)) {
      ClashAlone(r, p, j);
      assert c.id in t.appointments ==> ClashesAt(r, p, j);
    } else {
      var i := Began(r, p, j);
      AtLocal(r, i, p);
      MoveToItself(r.states[i].tables, c.id);
      assert AloneAt(r, p, j, i);
    }
  }

  lemma ClashAlone(r: Run, p: nat, j: nat)
    requires Possible(r) && EndsAt(r, p, j) && r.calls[p].Reschedule? && r.calls[p].to.Some?
    requires r.states[j].pcs[p].Loaded? && r.states[j + 1].pcs[p] == Done(SlotClash)
    ensures (exists k: nat :: AloneAt(r, p, j, k)) <==> exists k: nat :: k <= j && ClashesAt(r, p, k)
  {
    forall k: nat | k <= j
      ensures AloneAt(r, p, j, k) <==> ClashesAt(r, p, k)
    {
    }
  }

  lemma SaveAlone(r: Run, p: nat, j: nat)
    requires Possible(r) && EndsAt(r, p, j) && r.calls[p].Upsert? && !Commits(r.states[j].pcs[p])
    ensures AloneAt(r, p, j, j)
  {
    EndIsAdvance(r, p, j);
    AtLocal(r, j, p);
    SaveOfReadNote(r.states[j].tables, r.calls[p], r.states[j].pcs[p]);
  }

  lemma SaveOfReadNote(t: Tables, c: Call, pc: Pc)
    requires c.Upsert? && Valid(t) && Local(t, c, pc) && !pc.Done? && !Commits(pc) && Advance(t, c, pc).1.Done?
    ensures Exec(t, c) == (t, Advance(t, c, pc).1.outcome)
  {
    var m := PreferenceOf(t, c.email).value;
    assert t.memories[m].content[NOTE := c.note] == t.memories[m].content;
    assert WithNote(t, m, c.note).memories == t.memories;
  }

  /** A call that ends by its own statement answers as if it ran alone at some moment while it
      was in progress, if and only if what it has read was not disturbed.  The exceptions are a
      cancellation that finds its row gone and answers True, a move whose row is gone or whose
      new slot is taken when it comes to its UPDATE, and a refusal for a slot that was never
      taken while the key of the booking was unrecorded, or while the appointment to move
      existed.  Everything else, even a repeat, a malformed start, an unknown staff member or a
      move to the start that was read, is the answer of a call run alone. */
  lemma AnswerIsSerial(r: Run, p: nat, j: nat)
    requires Possible(r) && EndsAt(r, p, j) && r.states[0].pcs[p].Ready?
    ensures AsIfAlone(r, p, j) <==> Undisturbed(r, p, j)
  {
    if Commits(r.states[j].pcs[p]) {
      EndIsAdvance(r, p, j);
      AtLocal(r, j, p);
      CommitIsSerial(r.states[j].tables, r.calls[p], r.states[j].pcs[p]);
    } else {
      match r.calls[p]
      case Create(_, _) => BookingAlone(r, p, j);
      case Cancel(_) => CancelAlone(r, p, j);
      case Reschedule(_, _) => MoveAlone(r, p, j);
      case Upsert(_, _, _) => SaveAlone(r, p, j);
    }
  }

  // ----- one order for all of them ---------------------------------------------------

  /** The call ends by its own statement and answers as if it ran alone. */
  ghost predicate Answered(r: Run, p: nat)
    requires Shaped(r)
  {
    exists j: nat :: EndsAt(r, p, j) && AsIfAlone(r, p, j)
  }

  /** A moment at which the call can be taken to run alone: its COMMIT, if it has one. */
  ghost predicate IsPoint(r: Run, p: nat, k: nat)
    requires Shaped(r)
  {
    exists j: nat ::
      && EndsAt(r, p, j) && AsIfAlone(r, p, j)
      && if Commits(r.states[j].pcs[p]) then k == j else AloneAt(r, p, j, k)
  }

  ghost function Point(r: Run, p: nat): (point: Option<nat>)
    requires Shaped(r)
    ensures point.Some? <==> Answered(r, p)
    ensures point.Some? ==> IsPoint(r, p, point.value)
  {
    if Answered(r, p) then
      (var j: nat :| EndsAt(r, p, j) && AsIfAlone(r, p, j);
       if Commits(r.states[j].pcs[p]) then (assert IsPoint(r, p, j); Some(j))
       else
         (var k: nat :| AloneAt(r, p, j, k);
          assert IsPoint(r, p, k);
          Some(k)))
    else
      None
  }

  /** Event `k` is the COMMIT of the call. */
  ghost predicate CommitsAt(r: Run, p: nat, k: nat)
    requires Shaped(r)
  {
    k < |r.events| && p < |r.calls| && r.events[k] == Go(p) && Commits(r.states[k].pcs[p])
  }

  /** The call is to run at event `k`, where it changes nothing. */
  ghost predicate ReadsAt(r: Run, p: nat, k: nat)
    requires Shaped(r)
  {
    Point(r, p) == Some(k) && !CommitsAt(r, p, k)
  }

  /** The numbers below `n` in the set, in increasing order. */
  function Ascending(chosen: set<nat>, n: nat): seq<nat> {
    if n == 0 then [] else Ascending(chosen, n - 1) + if n - 1 in chosen then [n - 1] else []
  }

  lemma {:induction false} AscendingMeans(chosen: set<nat>, n: nat)
    ensures forall p: nat :: p in Ascending(chosen, n) <==> p < n && p in chosen
    ensures NoRepeats(Ascending(chosen, n))
  {
    if n == 0 {
    } else {
      AscendingMeans(chosen, n - 1);
    }
  }

  ghost function Readers(r: Run, k: nat): seq<nat>
    requires Shaped(r)
  {
    Ascending(set p: nat | p < |r.calls| && ReadsAt(r, p, k), |r.calls|)
  }

  ghost function Committers(r: Run, k: nat): seq<nat>
    requires Shaped(r) && k < |r.events|
  {
    if CommitsAt(r, r.events[k].call, k) then [r.events[k].call] else []
  }

  /** The calls with a point from event `k` on, in the order of their points. */
  ghost function SerialOrder(r: Run, k: nat): seq<nat>
    requires Shaped(r) && k <= |r.events|
    decreases |r.events| - k
  {
    if k == |r.events| then []
    else Readers(r, k) + Committers(r, k) + SerialOrder(r, k + 1)
  }

  /** What a point is. */
  lemma PointMeans(r: Run, p: nat) returns (j: nat)
    requires Possible(r) && Point(r, p).Some?
    ensures EndsAt(r, p, j) && AsIfAlone(r, p, j)
    ensures if Commits(r.states[j].pcs[p]) then Point(r, p).value == j else AloneAt(r, p, j, Point(r, p).value)
  {
    assert IsPoint(r, p, Point(r, p).value);
    j :| && EndsAt(r, p, j) && AsIfAlone(r, p, j)
         && if Commits(r.states[j].pcs[p]) then Point(r, p).value == j else AloneAt(r, p, j, Point(r, p).value);
  }

  lemma EndIsFinal(r: Run, p: nat, j: nat)
    requires Possible(r) && EndsAt(r, p, j)
    ensures r.states[|r.events|].pcs[p] == r.states[j + 1].pcs[p]
  {
    DoneAt(r, p, j + 1, |r.events|);
  }

  lemma CommitEnds(r: Run, p: nat, k: nat)
    requires Possible(r) && CommitsAt(r, p, k)
    ensures EndsAt(r, p, k) && AsIfAlone(r, p, k)
  {
    assert Step(r, k);
    AtLocal(r, k, p);
    CommitIsSerial(r.states[k].tables, r.calls[p], r.states[k].pcs[p]);
  }

  lemma CommitIsPoint(r: Run, p: nat, k: nat)
    requires Possible(r) && CommitsAt(r, p, k)
    ensures Point(r, p) == Some(k)
  {
    CommitEnds(r, p, k);
    var j := PointMeans(r, p);
    EndsOnce(r, p, k, j);
  }

  lemma ReaderIsAlone(r: Run, p: nat, k: nat)
    requires Possible(r) && ReadsAt(r, p, k)
    ensures k < |r.events| && JustReads(r.calls, r.states[k].tables, p, r.states[|r.events|])
  {
    var j := PointMeans(r, p);
    EndIsFinal(r, p, j);
  }

  lemma CommitterIsAlone(r: Run, p: nat, k: nat)
    requires Possible(r) && CommitsAt(r, p, k)
    ensures var (t', out) := Exec(r.states[k].tables, r.calls[p]);
            t' == r.states[k + 1].tables && r.states[|r.events|].pcs[p] == Done(out)
  {
    CommitEnds(r, p, k);
    EndIsFinal(r, p, k);
  }

  lemma QuietEvent(r: Run, k: nat)
    requires Possible(r) && k < |r.events| && Committers(r, k) == []
    ensures r.states[k + 1].tables == r.states[k].tables
  {
    assert Step(r, k);
    if r.events[k].Go? {
      AtLocal(r, k, r.events[k].call);
      QuietStatement(r.states[k].tables, r.calls[r.events[k].call], r.states[k].pcs[r.events[k].call]);
    }
  }

  lemma ReadersMean(r: Run, k: nat)
    requires Possible(r)
    ensures forall p: nat :: p in Readers(r, k) <==> p < |r.calls| && ReadsAt(r, p, k)
    ensures NoRepeats(Readers(r, k))
  {
    AscendingMeans(set p: nat | p < |r.calls| && ReadsAt(r, p, k), |r.calls|);
  }

  /** Running the calls in `order` one at a time from `t` gives the tables and the answers
      of `end`. */
  ghost predicate RunsSerially(calls: seq<Call>, t: Tables, order: seq<nat>, end: State)
    requires |calls| == |end.pcs|
  {
    && (forall i | 0 <= i < |order| :: order[i] < |calls|)
    && SerialTables(calls, t, order) == end.tables
    && SerialAnswers(calls, t, order, end.pcs)
  }

  /** Run alone on `t`, the call gives its answer and changes no table. */
  ghost predicate JustReads(calls: seq<Call>, t: Tables, p: nat, end: State)
    requires |calls| == |end.pcs|
  {
    p < |calls| && Exec(t, calls[p]).0 == t && end.pcs[p] == Done(Exec(t, calls[p]).1)
  }

  /** One more call in front. */
  lemma CallFirst(calls: seq<Call>, t: Tables, p: nat, rest: seq<nat>, end: State)
    requires |calls| == |end.pcs| && p < |calls| && end.pcs[p] == Done(Exec(t, calls[p]).1)
    requires RunsSerially(calls, Exec(t, calls[p]).0, rest, end)
    ensures RunsSerially(calls, t, [p] + rest, end)
  {
    assert ([p] + rest)[1..] == rest;
  }

  lemma {:induction false} ReadersFirst(calls: seq<Call>, t: Tables, readers: seq<nat>, rest: seq<nat>, end: State)
    requires |calls| == |end.pcs| && (forall p | p in readers :: JustReads(calls, t, p, end))
    requires RunsSerially(calls, t, rest, end)
    ensures RunsSerially(calls, t, readers + rest, end)
    decreases |readers|
  {
    if readers == [] {
      assert [] + rest == rest;
    } else {
      ReadersFirst(calls, t, readers[1..], rest, end);
      assert readers[0] in readers;
      CallFirst(calls, t, readers[0], readers[1..] + rest, end);
      assert [readers[0]] + (readers[1..] + rest) == readers + rest;
    }
  }

  lemma CommitterFirst(r: Run, k: nat, rest: seq<nat>)
    requires Possible(r) && k < |r.events|
    requires RunsSerially(r.calls, r.states[k + 1].tables, rest, r.states[|r.events|])
    ensures RunsSerially(r.calls, r.states[k].tables, Committers(r, k) + rest, r.states[|r.events|])
  {
    var p := r.events[k].call;
    if CommitsAt(r, p, k) {
      CommitterIsAlone(r, p, k);
      CallFirst(r.calls, r.states[k].tables, p, rest, r.states[|r.events|]);
    } else {
      QuietEvent(r, k);
      assert [] + rest == rest;
    }
  }

  lemma ReadersJustRead(r: Run, k: nat)
    requires Possible(r) && k < |r.events|
    ensures forall p | p in Readers(r, k) :: JustReads(r.calls, r.states[k].tables, p, r.states[|r.events|])
  {
    ReadersMean(r, k);
    forall p | p in Readers(r, k)
      ensures JustReads(r.calls, r.states[k].tables, p, r.states[|r.events|])
    {
      ReaderIsAlone(r, p, k);
    }
  }

  lemma EventFirst(r: Run, k: nat, rest: seq<nat>)
    requires Possible(r) && k < |r.events|
    requires RunsSerially(r.calls, r.states[k + 1].tables, rest, r.states[|r.events|])
    ensures RunsSerially(r.calls, r.states[k].tables, Readers(r, k) + Committers(r, k) + rest,
                         r.states[|r.events|])
  {
    var t, end, readers, committers := r.states[k].tables, r.states[|r.events|], Readers(r, k), Committers(r, k);
    CommitterFirst(r, k, rest);
    ReadersJustRead(r, k);
    ReadersFirst(r.calls, t, readers, committers + rest, end);
    assert readers + (committers + rest) == readers + committers + rest;
  }

  lemma {:induction false} OrderRunsSerially(r: Run, k: nat)
    requires Possible(r) && k <= |r.events|
    ensures RunsSerially(r.calls, r.states[k].tables, SerialOrder(r, k), r.states[|r.events|])
    decreases |r.events| - k
  {
    if k == |r.events| {
    } else {
      OrderRunsSerially(r, k + 1);
      EventFirst(r, k, SerialOrder(r, k + 1));
    }
  }

  /** `order` has every call with a point from event `k` on, and no other. */
  ghost predicate HasPoints(r: Run, k: nat, order: seq<nat>)
    requires Shaped(r)
  {
    forall p: nat :: p in order <==> Point(r, p).Some? && Point(r, p).value >= k
  }

  /** The points of the calls in `order` do not go back. */
  ghost predicate InPointOrder(r: Run, order: seq<nat>)
    requires Shaped(r)
  {
    forall i, j | 0 <= i < j < |order| :: NotAfter(r, order[i], order[j])
  }

  ghost predicate NotAfter(r: Run, p: nat, q: nat)
    requires Shaped(r)
  {
    Point(r, p).Some? && Point(r, q).Some? && Point(r, p).value <= Point(r, q).value
  }

  lemma PointIsEvent(r: Run, p: nat)
    requires Possible(r) && Point(r, p).Some?
    ensures p < |r.calls| && InProgress(r, p, Point(r, p).value)
  {
    var j := PointMeans(r, p);
    EndIsAdvance(r, p, j);
  }

  /** The calls with their point at event `k`. */
  lemma PointsHere(r: Run, k: nat)
    requires Possible(r) && k < |r.events|
    ensures forall p: nat :: p in Readers(r, k) + Committers(r, k) <==> Point(r, p) == Some(k)
    ensures NoRepeats(Readers(r, k) + Committers(r, k))
  {
    ReadersMean(r, k);
    forall p: nat | Point(r, p) == Some(k)
      ensures p < |r.calls|
    {
      PointIsEvent(r, p);
    }
    if CommitsAt(r, r.events[k].call, k) {
      CommitIsPoint(r, r.events[k].call, k);
    }
    AppendDistinct(Readers(r, k), Committers(r, k));
    forall p: nat | Point(r, p) == Some(k) && !ReadsAt(r, p, k)
      ensures p in Committers(r, k)
    {
      assert CommitsAt(r, p, k);
    }
  }

  lemma AppendDistinct(a: seq<nat>, b: seq<nat>)
    requires NoRepeats(a) && NoRepeats(b) && forall p: nat | p in a :: p !in b
    ensures NoRepeats(a + b)
  {
    assert forall i | 0 <= i < |a| :: a[i] in a;
    assert forall i | 0 <= i < |b| :: b[i] in b;
  }

  lemma {:induction false} OrderIsByPoint(r: Run, k: nat)
    requires Possible(r) && k <= |r.events|
    ensures var order := SerialOrder(r, k); NoRepeats(order) && HasPoints(r, k, order) && InPointOrder(r, order)
    decreases |r.events| - k
  {
    if k == |r.events| {
      forall p: nat | Point(r, p).Some?
        ensures Point(r, p).value < k
      {
        PointIsEvent(r, p);
      }
    } else {
      OrderIsByPoint(r, k + 1);
      PointsHere(r, k);
      var here, rest := Readers(r, k) + Committers(r, k), SerialOrder(r, k + 1);
      AppendDistinct(here, rest);
      AppendPoints(r, k, here, rest);
      assert here + rest == SerialOrder(r, k);
    }
  }

  lemma AppendPoints(r: Run, k: nat, here: seq<nat>, rest: seq<nat>)
    requires Possible(r) && HasPoints(r, k + 1, rest) && InPointOrder(r, rest)
    requires forall p: nat :: p in here <==> Point(r, p) == Some(k)
    ensures HasPoints(r, k, here + rest) && InPointOrder(r, here + rest)
  {
    var order := here + rest;
    assert forall p: nat :: p in order <==> p in here || p in rest;
    forall i, j | 0 <= i < j < |order|
      ensures NotAfter(r, order[i], order[j])
    {
      if i >= |here| {
        assert order[i] == rest[i - |here|] && order[j] == rest[j - |here|];
      } else {
        assert order[i] in here;
        assert order[j] in order;
      }
    }
  }

  /** Every interleaving is a serial execution of all the calls that answer as if they ran
      alone, whether they commit or not: there is one order of them, each once, in which
      running them one at a time leaves the tables of the interleaving and gives each caller
      the answer it got.  Every call has its place at a moment while it was in progress, so a
      call that ended before another one began comes before it.  The calls left out are those
      that `AnswerIsSerial` names, those that were failed, and those still under way; they
      have changed nothing. */
  lemma Linearizable(r: Run)
    requires Possible(r)
    ensures var order, end := SerialOrder(r, 0), r.states[|r.events|];
            && NoRepeats(order)
            && (forall p: nat :: p in order <==> Answered(r, p))
            && (forall i | 0 <= i < |order| :: order[i] < |r.calls| && Point(r, order[i]).Some?
                                              && InProgress(r, order[i], Point(r, order[i]).value))
            && InPointOrder(r, order)
            && end.tables == SerialTables(r.calls, r.states[0].tables, order)
            && SerialAnswers(r.calls, r.states[0].tables, order, end.pcs)
  {
    OrderRunsSerially(r, 0);
    OrderIsByPoint(r, 0);
    var order := SerialOrder(r, 0);
    forall i | 0 <= i < |order|
      ensures order[i] < |r.calls| && Point(r, order[i]).Some? && InProgress(r, order[i], Point(r, order[i]).value)
    {
      assert order[i] in order;
      PointIsEvent(r, order[i]);
    }
  }
}
