/** Calls that answer as if they ran alone whatever else runs, by what a caller can see before
    the run: which other calls there are. */
module SafeCalls {
  import opened Schema
  import opened Serial
  import opened Protocol
  import opened Invariant
  import opened Linearization
  import ExactlyOnce

  // ----- bookings -------------------------------------------------------------------

  /** Only a booking with the key records it. */
  lemma LedgerStep(t: Tables, c: Call, pc: Pc, k: string)
    requires Local(t, c, pc) && !pc.Done? && k !in t.ledger && k in Advance(t, c, pc).0.ledger
    ensures c.Create? && c.req.key == k && Advance(t, c, pc).1.Done?
  {
  }

  lemma LedgerEvent(r: Run, k: nat, key: string)
    requires Possible(r) && k < |r.events| && key !in r.states[k].tables.ledger
    requires key in r.states[k + 1].tables.ledger
    ensures r.events[k].Go? && r.events[k].call < |r.calls|
    ensures var q := r.events[k].call;
            r.calls[q].Create? && r.calls[q].req.key == key && r.states[k + 1].pcs[q].Done?
  {
    assert Step(r, k);
    AtLocal(r, k, r.events[k].call);
    if r.events[k].Go? {
      LedgerStep(r.states[k].tables, r.calls[r.events[k].call], r.states[k].pcs[r.events[k].call], key);
    }
  }

  /** No other call of the run books under the key. */
  predicate OwnKey(r: Run, p: nat, key: string) {
    forall q | 0 <= q < |r.calls| && q != p && r.calls[q].Create? :: r.calls[q].req.key != key
  }

  lemma {:induction false} StaysUnrecorded(r: Run, p: nat, i: nat, k: nat, key: string)
    requires Possible(r) && p < |r.calls| && OwnKey(r, p, key) && i <= k <= |r.events|
    requires key !in r.states[i].tables.ledger && !r.states[k].pcs[p].Done?
    ensures key !in r.states[k].tables.ledger
    decreases k
  {
    if i == k {
    } else {
      NotDoneBefore(r, p, k - 1);
      StaysUnrecorded(r, p, i, k - 1, key);
      if key in r.states[k].tables.ledger {
        LedgerEvent(r, k - 1, key);
      }
    }
  }

  /** A booking whose key no other call of the run has answers as if it ran alone. */
  lemma BookingIsSafe(r: Run, p: nat, j: nat)
    requires Possible(r) && EndsAt(r, p, j) && r.states[0].pcs[p].Ready?
    requires r.calls[p].Create? && OwnKey(r, p, r.calls[p].req.key)
    ensures AsIfAlone(r, p, j)
  {
    EndIsAdvance(r, p, j);
    if r.states[j].pcs[p].JobIn? {
      var i := Began(r, p, j);
      StaysUnrecorded(r, p, i, j, r.calls[p].req.key);
    }
    AnswerIsSerial(r, p, j);
  }

  // ----- cancellations ----------------------------------------------------------------

  /** Only a cancellation of the appointment removes it. */
  lemma RemovalStep(t: Tables, c: Call, pc: Pc, a: Id)
    requires Local(t, c, pc) && !pc.Done? && a in t.appointments && a !in Advance(t, c, pc).0.appointments
    ensures c == Cancel(a) && Advance(t, c, pc).1.Done?
  {
  }

  lemma RemovalEvent(r: Run, k: nat, a: Id)
    requires Possible(r) && k < |r.events| && a in r.states[k].tables.appointments
    requires a !in r.states[k + 1].tables.appointments
    ensures r.events[k].Go? && r.events[k].call < |r.calls|
    ensures r.calls[r.events[k].call] == Cancel(a) && r.states[k + 1].pcs[r.events[k].call].Done?
  {
    assert Step(r, k);
    AtLocal(r, k, r.events[k].call);
    if r.events[k].Go? {
      RemovalStep(r.states[k].tables, r.calls[r.events[k].call], r.states[k].pcs[r.events[k].call], a);
    }
  }

  /** No other call of the run cancels the appointment. */
  predicate OwnRow(r: Run, p: nat, a: Id) {
    forall q | 0 <= q < |r.calls| && q != p :: r.calls[q] != Cancel(a)
  }

  lemma {:induction false} RowStays(r: Run, p: nat, i: nat, k: nat, a: Id)
    requires Possible(r) && p < |r.calls| && OwnRow(r, p, a) && i <= k <= |r.events|
    requires a in r.states[i].tables.appointments && !r.states[k].pcs[p].Done?
    ensures a in r.states[k].tables.appointments
    decreases k
  {
    if i == k {
    } else {
      NotDoneBefore(r, p, k - 1);
      RowStays(r, p, i, k - 1, a);
      if a !in r.states[k].tables.appointments {
        RemovalEvent(r, k - 1, a);
      }
    }
  }

  /** A cancellation whose appointment no other call of the run cancels answers as if it ran
      alone. */
  lemma CancelIsSafe(r: Run, p: nat, j: nat)
    requires Possible(r) && EndsAt(r, p, j) && r.states[0].pcs[p].Ready?
    requires r.calls[p].Cancel? && OwnRow(r, p, r.calls[p].id)
    ensures AsIfAlone(r, p, j)
  {
    EndIsAdvance(r, p, j);
    if r.states[j].pcs[p].Loaded? {
      var i := Began(r, p, j);
      RowStays(r, p, i, j, r.calls[p].id);
    }
    AnswerIsSerial(r, p, j);
  }

  // ----- moves --------------------------------------------------------------------------

  /** The appointment is one of the staff member, be it there at the start or booked in the run. */
  predicate BelongsTo(r: Run, a: Id, staff: Option<Id>)
    requires Shaped(r)
  {
    || (a in r.states[0].tables.appointments && r.states[0].tables.appointments[a].staffId == staff)
    || (exists q | 0 <= q < |r.calls| :: r.calls[q].Create? && r.calls[q].ids.appointment == a
                                         && r.calls[q].req.staffId == staff)
  }

  /** The call can put an appointment other than `a` into the slot. */
  predicate Takes(r: Run, c: Call, a: Id, staff: Option<Id>, start: Instant)
    requires Shaped(r)
  {
    match c
    case Create(req, _) => req.staffId == staff && req.start == Some(start)
    case Reschedule(id, to) => id != a && to == Some(start) && BelongsTo(r, id, staff)
    case _ => false
  }

  /** No other call of the run takes the slot that the move of `a` to `to` needs. */
  ghost predicate OwnTarget(r: Run, p: nat, a: Id, to: Instant)
    requires Shaped(r)
  {
    forall q, staff: Option<Id> | 0 <= q < |r.calls| && q != p && BelongsTo(r, a, staff) && staff.Some? ::
      !Takes(r, r.calls[q], a, staff, to)
  }

  lemma {:induction false} OriginOfRow(r: Run, k: nat, a: Id)
    requires Possible(r) && k <= |r.events| && a in r.states[k].tables.appointments
    ensures BelongsTo(r, a, r.states[k].tables.appointments[a].staffId)
    decreases k
  {
    if k == 0 {
    } else {
      assert Step(r, k - 1);
      var s, e := r.states[k - 1], r.events[k - 1];
      if e.Go? {
        AtLocal(r, k - 1, e.call);
        ExactlyOnce.StatementRow(s.tables, r.calls[e.call], s.pcs[e.call], a);
      }
      if a in s.tables.appointments {
        OriginOfRow(r, k - 1, a);
      }
    }
  }

  /** Only a booking, or the move of another appointment, takes the slot. */
  lemma SlotStep(t: Tables, c: Call, pc: Pc, a: Id, staff: Option<Id>, start: Instant)
    requires Local(t, c, pc) && !pc.Done? && !SlotTakenBy(t, staff, start, Some(a))
    requires SlotTakenBy(Advance(t, c, pc).0, staff, start, Some(a))
    ensures staff.Some? && Advance(t, c, pc).1.Done?
    ensures || (c.Create? && c.req.staffId == staff && c.req.start == Some(start))
            || (c.Reschedule? && c.id != a && c.to == Some(start)
                && c.id in t.appointments && t.appointments[c.id].staffId == staff)
  {
  }

  lemma SlotEvent(r: Run, k: nat, a: Id, staff: Option<Id>, start: Instant)
    requires Possible(r) && k < |r.events| && !SlotTakenBy(r.states[k].tables, staff, start, Some(a))
    requires SlotTakenBy(r.states[k + 1].tables, staff, start, Some(a))
    ensures r.events[k].Go? && r.events[k].call < |r.calls| && staff.Some?
    ensures var q := r.events[k].call; Takes(r, r.calls[q], a, staff, start) && r.states[k + 1].pcs[q].Done?
  {
    assert Step(r, k);
    var s, q := r.states[k], r.events[k].call;
    AtLocal(r, k, q);
    if r.events[k].Go? {
      SlotStep(s.tables, r.calls[q], s.pcs[q], a, staff, start);
      if r.calls[q].Reschedule? {
        OriginOfRow(r, k, r.calls[q].id);
      }
    }
  }

  predicate Waiting(pc: Pc) {
    pc.Checked? || pc.RowLocked?
  }

  /** What the statement that brings a move to its check, or past it, has found. */
  lemma CheckStep(t: Tables, id: Id, to: Instant, pc: Pc)
    requires Local(t, Reschedule(id, Some(to)), pc) && !pc.Done?
    requires Waiting(Advance(t, Reschedule(id, Some(to)), pc).1)
    ensures var (t', pc') := Advance(t, Reschedule(id, Some(to)), pc);
            t' == t && if Waiting(pc) then pc'.row.staffId == pc.row.staffId
                       else !SlotTakenBy(t, pc'.row.staffId, to, Some(id))
  {
  }

  /** A move under way has its appointment. */
  lemma MoverHasRow(r: Run, p: nat, k: nat, id: Id)
    requires Possible(r) && k <= |r.events| && p < |r.calls| && r.states[0].pcs[p].Ready?
    requires r.calls[p].Reschedule? && r.calls[p].id == id && OwnRow(r, p, id)
    requires !r.states[k].pcs[p].Ready? && !r.states[k].pcs[p].Done?
    ensures id in r.states[k].tables.appointments
  {
    var i := Began(r, p, k);
    RowStays(r, p, i, k, id);
  }

  /** The staff member of a move that has passed its check is that of the appointment. */
  lemma WaiterBelongs(r: Run, p: nat, k: nat, id: Id)
    requires Possible(r) && k <= |r.events| && p < |r.calls| && r.states[0].pcs[p].Ready?
    requires r.calls[p].Reschedule? && r.calls[p].id == id && OwnRow(r, p, id) && Waiting(r.states[k].pcs[p])
    ensures BelongsTo(r, id, r.states[k].pcs[p].row.staffId)
  {
    MoverHasRow(r, p, k, id);
    AtLocal(r, k, p);
    OriginOfRow(r, k, id);
  }

  lemma SlotStaysFree(r: Run, p: nat, k: nat, id: Id, to: Instant, staff: Option<Id>)
    requires Possible(r) && k < |r.events| && p < |r.calls|
    requires OwnTarget(r, p, id, to) && BelongsTo(r, id, staff) && !r.states[k + 1].pcs[p].Done?
    requires !SlotTakenBy(r.states[k].tables, staff, to, Some(id))
    ensures !SlotTakenBy(r.states[k + 1].tables, staff, to, Some(id))
  {
    if SlotTakenBy(r.states[k + 1].tables, staff, to, Some(id)) {
      SlotEvent(r, k, id, staff, to);
    }
  }

  /** From its check on, the slot of such a move stays free. */
  lemma {:induction false} CheckedStaysFree(r: Run, p: nat, k: nat, id: Id, to: Instant)
    requires Possible(r) && k <= |r.events| && p < |r.calls| && r.states[0].pcs[p].Ready?
    requires r.calls[p] == Reschedule(id, Some(to)) && OwnRow(r, p, id) && OwnTarget(r, p, id, to)
    requires Waiting(r.states[k].pcs[p])
    ensures !SlotTakenBy(r.states[k].tables, r.states[k].pcs[p].row.staffId, to, Some(id))
    decreases k
  {
    var i := k - 1;
    NotDoneBefore(r, p, i);
    assert Step(r, i);
    AtLocal(r, i, p);
    if r.events[i] == Go(p) {
      CheckStep(r.states[i].tables, id, to, r.states[i].pcs[p]);
    }
    if Waiting(r.states[i].pcs[p]) {
      CheckedStaysFree(r, p, i, id, to);
      WaiterBelongs(r, p, i, id);
      SlotStaysFree(r, p, i, id, to, r.states[i].pcs[p].row.staffId);
    }
  }

  /** A move whose appointment no other call of the run cancels, and whose new slot no other call
      takes, answers as if it ran alone. */
  lemma MoveIsSafe(r: Run, p: nat, j: nat)
    requires Possible(r) && EndsAt(r, p, j) && r.states[0].pcs[p].Ready?
    requires r.calls[p].Reschedule? && OwnRow(r, p, r.calls[p].id)
    requires r.calls[p].to.Some? ==> OwnTarget(r, p, r.calls[p].id, r.calls[p].to.value)
    ensures AsIfAlone(r, p, j)
  {
    EndIsAdvance(r, p, j);
    var pc, c := r.states[j].pcs[p], r.calls[p];
    if !pc.Ready? {
      MoverHasRow(r, p, j, c.id);
    }
    if pc.RowLocked? && c.to.Some? {
      CheckedStaysFree(r, p, j, c.id, c.to.value);
    }
    AnswerIsSerial(r, p, j);
  }
}
