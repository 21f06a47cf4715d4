/** Reachable behaviour in which the protocol falls short of the atomic writes.  Each lemma
    gives one schedule, from any tables of the kind named; the modules Linearization and
    Liveness say exactly when it happens.
 */
module Surprises {
  import opened Schema
  import opened Serial
  import opened Protocol
  import opened ExactlyOnce
  import opened Linearization
  import opened Liveness
  import opened Graph
  import Invariant

  /** The calls, where they start, and the tables they pass through. */
  datatype Scene = Scene(calls: seq<Call>, start: State, tables: set<Tables>)

  /** The run begins and ends like that, and passes through the tables of the scene only. */
  ghost predicate Plays(g: Scene, r: Run, s: State) {
    && Steps(r) && r.calls == g.calls && r.states[0] == g.start && r.states[|r.events|] == s
    && forall k | 0 <= k < |r.states| :: r.states[k].tables in g.tables
  }

  /** The schedule is possible, ends in `s`, and passes through the tables of the scene only. */
  ghost predicate Leads(g: Scene, es: seq<Event>, s: State) {
    exists states: seq<State> :: Plays(g, Run(g.calls, es, states), s)
  }

  lemma LeadsRuns(g: Scene, es: seq<Event>, s: State)
    requires Leads(g, es, s)
    ensures |g.calls| == |g.start.pcs| == |s.pcs| && Runs(g.calls, g.start, es) && Final(g.calls, g.start, es) == s
    ensures Plays(g, Run(g.calls, es, Trace(g.calls, g.start, es)), s)
  {
    var states: seq<State> :| Plays(g, Run(g.calls, es, states), s);
    StepsAreTrace(Run(g.calls, es, states));
  }

  lemma LeadsNowhere(g: Scene)
    requires |g.calls| == |g.start.pcs| && g.start.tables in g.tables
    ensures Leads(g, [], g.start)
  {
    assert Plays(g, Run(g.calls, [], [g.start]), g.start);
  }

  lemma ThenGo(g: Scene, es: seq<Event>, s: State, p: nat, t': Tables, pc': Pc)
    requires Leads(g, es, s) && |g.calls| == |s.pcs| && CanGo(g.calls, s, p) && t' in g.tables
    requires Advance(s.tables, g.calls[p], s.pcs[p]) == (t', pc')
    ensures Leads(g, es + [Go(p)], State(t', s.pcs[p := pc']))
  {
    var states: seq<State> :| Plays(g, Run(g.calls, es, states), s);
    var s' := State(t', s.pcs[p := pc']);
    assert Apply(g.calls, s, Go(p)) == s';
    ThenStep(g, Run(g.calls, es, states), s, Go(p), s');
  }

  lemma ThenStep(g: Scene, r: Run, s: State, e: Event, s': State)
    requires Plays(g, r, s) && |g.calls| == |s.pcs| == |s'.pcs| && s'.tables in g.tables
    requires Enabled(g.calls, s, e) && s' == Apply(g.calls, s, e)
    ensures Plays(g, Run(g.calls, r.events + [e], r.states + [s']), s')
  {
    var longer := Run(g.calls, r.events + [e], r.states + [s']);
    forall k: nat | k < |longer.events|
      ensures Step(longer, k)
    {
      if k < |r.events| {
        assert Step(r, k);
      }
    }
  }

  /** A call that ends without a change, with an answer that it would not give without a change
      on any of the tables passed, does not answer as if it ran alone. */
  lemma NotAlone(r: Run, tables: set<Tables>, p: nat, j: nat, outcome: Outcome)
    requires Possible(r) && EndsAt(r, p, j) && r.states[j + 1] == State(r.states[j].tables, r.states[j + 1].pcs)
    requires r.states[j + 1].pcs[p] == Done(outcome) && NeverSays(tables, r.calls[p], outcome)
    requires forall k | 0 <= k < |r.states| :: r.states[k].tables in tables
    ensures !AsIfAlone(r, p, j)
  {
    forall k: nat | k <= j
      ensures !AloneAt(r, p, j, k)
    {
      assert r.states[k].tables in tables;
    }
    assert r.states[j].tables in tables;
  }

  /** On none of the tables does the call, run alone, give the answer without a change. */
  ghost predicate NeverSays(tables: set<Tables>, c: Call, outcome: Outcome) {
    forall t | t in tables :: Exec(t, c) != (t, outcome)
  }

  /** A call at this point holds nothing. */
  predicate Idle(pc: Pc) {
    pc.Ready? || pc.Missed? || pc.Loaded? || pc.Checked? || pc.Done?
  }

  /** All calls but `p` hold nothing. */
  predicate Quiet(pcs: seq<Pc>, p: nat) {
    forall q | 0 <= q < |pcs| && q != p :: Idle(pcs[q])
  }

  lemma QuietCanGo(calls: seq<Call>, t: Tables, pcs: seq<Pc>, p: nat)
    requires |calls| == |pcs| && p < |pcs| && Quiet(pcs, p) && !pcs[p].Done?
    ensures CanGo(calls, State(t, pcs), p)
  {
  }

  lemma ThenQuietly(g: Scene, es: seq<Event>, t: Tables, pcs: seq<Pc>, p: nat, t': Tables, pc': Pc)
    requires Leads(g, es, State(t, pcs)) && |pcs| == |g.calls| && p < |pcs|
    requires Quiet(pcs, p) && !pcs[p].Done? && t' in g.tables
    requires Advance(t, g.calls[p], pcs[p]) == (t', pc')
    ensures Leads(g, es + [Go(p)], State(t', pcs[p := pc']))
  {
    ThenGo(g, es, State(t, pcs), p, t', pc');
  }

  /** Two statements of one call in a row. */
  lemma ThenTwice(g: Scene, es: seq<Event>, t: Tables, pcs: seq<Pc>, p: nat, pc': Pc, t'': Tables, pc'': Pc)
    requires Leads(g, es, State(t, pcs)) && |pcs| == |g.calls| && p < |pcs| && Quiet(pcs, p) && !pcs[p].Done?
    requires t in g.tables && t'' in g.tables
    requires Advance(t, g.calls[p], pcs[p]) == (t, pc') && !pc'.Done? && Advance(t, g.calls[p], pc') == (t'', pc'')
    ensures Leads(g, es + [Go(p)] + [Go(p)], State(t'', pcs[p := pc'']))
  {
    ThenQuietly(g, es, t, pcs, p, t, pc');
    ThenQuietly(g, es + [Go(p)], t, pcs[p := pc'], p, t'', pc'');
    assert pcs[p := pc'][p := pc''] == pcs[p := pc''];
  }

  /** The calls with nothing done yet, passing through these tables. */
  function FromStart(calls: seq<Call>, t: Tables, tables: set<Tables>): (g: Scene)
    ensures |g.start.pcs| == |g.calls|
  {
    Scene(calls, Init(calls, t), tables + {t})
  }

  lemma LeadsFromStart(calls: seq<Call>, t: Tables, tables: set<Tables>, es: seq<Event>, s: State)
    requires Valid(t) && FreshIds(calls, t) && Leads(FromStart(calls, t, tables), es, s)
    ensures Reached(calls, t, es) && After(calls, t, es) == s
  {
    LeadsRuns(FromStart(calls, t, tables), es, s);
  }

  /** The last call of the schedule does not answer as if it ran alone. */
  ghost predicate EndsUnlikeAlone(calls: seq<Call>, t: Tables, es: seq<Event>, p: nat)
    requires Reached(calls, t, es)
  {
    var r := Run(calls, es, Trace(calls, Init(calls, t), es));
    es != [] && Possible(r) && EndsAt(r, p, |es| - 1) && !AsIfAlone(r, p, |es| - 1)
  }

  /** The last statement of such a schedule. */
  lemma EndUnlikeAlone(calls: seq<Call>, t: Tables, tables: set<Tables>, es: seq<Event>, t1: Tables, pcs: seq<Pc>,
                       p: nat, outcome: Outcome)
    requires Valid(t) && FreshIds(calls, t) && t1 in tables && Leads(FromStart(calls, t, tables), es, State(t1, pcs))
    requires |pcs| == |calls| && p < |pcs| && Quiet(pcs, p) && !pcs[p].Done?
    requires Advance(t1, calls[p], pcs[p]) == (t1, Done(outcome)) && NeverSays(tables + {t}, calls[p], outcome)
    ensures Reached(calls, t, es + [Go(p)])
    ensures After(calls, t, es + [Go(p)]) == State(t1, pcs[p := Done(outcome)])
    ensures EndsUnlikeAlone(calls, t, es + [Go(p)], p)
  {
    var g, s1, s2 := FromStart(calls, t, tables), State(t1, pcs), State(t1, pcs[p := Done(outcome)]);
    QuietCanGo(calls, t1, pcs, p);
    var states: seq<State> :| Plays(g, Run(calls, es, states), s1);
    assert Apply(calls, s1, Go(p)) == s2;
    ThenStep(g, Run(calls, es, states), s1, Go(p), s2);
    var r := Run(calls, es + [Go(p)], states + [s2]);
    StepsAreTrace(r);
    Invariant.InitInv(calls, t);
    NotAlone(r, g.tables, p, |es|, outcome);
  }

  // ----- cancellations ------------------------------------------------------------

  function WithoutAppointment(t: Tables, id: Id): Tables {
    t.(appointments := t.appointments - {id})
  }

  /** A cancellation that has read its row deletes it while the others hold nothing. */
  lemma CancelRest(g: Scene, es: seq<Event>, t: Tables, pcs: seq<Pc>, p: nat, id: Id)
    requires Leads(g, es, State(t, pcs)) && |pcs| == |g.calls| && p < |pcs| && Quiet(pcs, p)
    requires t in g.tables && WithoutAppointment(t, id) in g.tables
    requires g.calls[p] == Cancel(id) && id in t.appointments && pcs[p] == Loaded(t.appointments[id])
    ensures Leads(g, es + [Go(p)] + [Go(p)], State(WithoutAppointment(t, id), pcs[p := Done(Cancelled(true))]))
  {
    ThenTwice(g, es, t, pcs, p, Deleted(t.appointments[id]), WithoutAppointment(t, id), Done(Cancelled(true)));
  }

  /** Both cancellations have read the row; then the first one deletes it. */
  lemma FirstCancels(g: Scene, t: Tables, id: Id) returns (es: seq<Event>)
    requires id in t.appointments && g == FromStart([Cancel(id), Cancel(id)], t, {WithoutAppointment(t, id)})
    ensures Leads(g, es, State(WithoutAppointment(t, id), [Done(Cancelled(true)), Loaded(t.appointments[id])]))
  {
    var loaded, ended := Loaded(t.appointments[id]), Done(Cancelled(true));
    assert g.start.pcs == [Ready, Ready];
    LeadsNowhere(g);
    ThenQuietly(g, [], t, [Ready, Ready], 0, t, loaded);
    es := [] + [Go(0)];
    assert [Ready, Ready][0 := loaded] == [loaded, Ready];
    ThenQuietly(g, es, t, [loaded, Ready], 1, t, loaded);
    es := es + [Go(1)];
    assert [loaded, Ready][1 := loaded] == [loaded, loaded];
    CancelRest(g, es, t, [loaded, loaded], 0, id);
    es := es + [Go(0)] + [Go(0)];
    assert [loaded, loaded][0 := ended] == [ended, loaded];
  }

  lemma TrueIsAChange(tables: set<Tables>, id: Id)
    ensures NeverSays(tables, Cancel(id), Cancelled(true))
  {
    forall t | t in tables
      ensures Exec(t, Cancel(id)) != (t, Cancelled(true))
    {
      assert id !in t.appointments - {id};
    }
  }

  /** Two cancellations of one appointment can both answer True. */
  lemma BothCancelsAnswerTrue(t: Tables, id: Id) returns (es: seq<Event>)
    requires Valid(t) && id in t.appointments
    ensures var calls, ended := [Cancel(id), Cancel(id)], Done(Cancelled(true));
            && Reached(calls, t, es)
            && After(calls, t, es).pcs == [ended, ended]
            && EndsUnlikeAlone(calls, t, es, 1)
  {
    var calls, t' := [Cancel(id), Cancel(id)], WithoutAppointment(t, id);
    var pcs := [Done(Cancelled(true)), Loaded(t.appointments[id])];
    es := FirstCancels(FromStart(calls, t, {t'}), t, id);
    TrueIsAChange({t'} + {t}, id);
    EndUnlikeAlone(calls, t, {t'}, es, t', pcs, 1, Cancelled(true));
    es := es + [Go(1)];
    assert pcs[1 := Done(Cancelled(true))] == [Done(Cancelled(true)), Done(Cancelled(true))];
  }

  /** The call reads its row and finds the new slot free. */
  lemma ReadAndCheck(g: Scene, es: seq<Event>, t: Tables, pcs: seq<Pc>, p: nat, id: Id, to: Instant)
    requires Leads(g, es, State(t, pcs)) && |pcs| == |g.calls| && p < |pcs|
    requires Quiet(pcs, p) && pcs[p].Ready? && t in g.tables
    requires g.calls[p] == Reschedule(id, Some(to)) && id in t.appointments && t.appointments[id].start != to
    requires !SlotTakenBy(t, t.appointments[id].staffId, to, Some(id))
    ensures Leads(g, es + [Go(p)] + [Go(p)], State(t, pcs[p := Checked(t.appointments[id])]))
  {
    ThenTwice(g, es, t, pcs, p, Loaded(t.appointments[id]), t, Checked(t.appointments[id]));
  }

  /** A move passes its check, and then its row is cancelled. */
  lemma CheckThenCancel(g: Scene, t: Tables, id: Id, to: Instant) returns (es: seq<Event>)
    requires id in t.appointments && t.appointments[id].start != to
    requires !SlotTakenBy(t, t.appointments[id].staffId, to, Some(id))
    requires g == FromStart([Reschedule(id, Some(to)), Cancel(id)], t, {WithoutAppointment(t, id)})
    ensures Leads(g, es, State(WithoutAppointment(t, id), [Checked(t.appointments[id]), Done(Cancelled(true))]))
  {
    var row, ended := t.appointments[id], Done(Cancelled(true));
    assert g.start.pcs == [Ready, Ready];
    LeadsNowhere(g);
    ReadAndCheck(g, [], t, [Ready, Ready], 0, id, to);
    es := [] + [Go(0)] + [Go(0)];
    assert [Ready, Ready][0 := Checked(row)] == [Checked(row), Ready];
    ThenQuietly(g, es, t, [Checked(row), Ready], 1, t, Loaded(row));
    es := es + [Go(1)];
    assert [Checked(row), Ready][1 := Loaded(row)] == [Checked(row), Loaded(row)];
    CancelRest(g, es, t, [Checked(row), Loaded(row)], 1, id);
    es := es + [Go(1)] + [Go(1)];
    assert [Checked(row), Loaded(row)][1 := ended] == [Checked(row), ended];
  }

  lemma NoMoveAloneFails(tables: set<Tables>, id: Id, to: Instant)
    ensures forall t :: Exec(t, Reschedule(id, Some(to))).1 != DbError
    ensures NeverSays(tables, Reschedule(id, Some(to)), DbError)
  {
  }

  /** A move whose row is cancelled between its check and its UPDATE ends with a database
      error, which no move that runs alone ever does. */
  lemma MoveLosesItsRow(t: Tables, id: Id, to: Instant) returns (es: seq<Event>)
    requires Valid(t) && id in t.appointments && t.appointments[id].start != to
    requires !SlotTakenBy(t, t.appointments[id].staffId, to, Some(id))
    ensures var calls := [Reschedule(id, Some(to)), Cancel(id)];
            && Reached(calls, t, es)
            && After(calls, t, es).pcs == [Done(DbError), Done(Cancelled(true))]
            && EndsUnlikeAlone(calls, t, es, 0)
    ensures forall t' :: Exec(t', Reschedule(id, Some(to))).1 != DbError
  {
    var calls, t' := [Reschedule(id, Some(to)), Cancel(id)], WithoutAppointment(t, id);
    var pcs := [Checked(t.appointments[id]), Done(Cancelled(true))];
    NoMoveAloneFails({t'} + {t}, id, to);
    es := CheckThenCancel(FromStart(calls, t, {t'}), t, id, to);
    EndUnlikeAlone(calls, t, {t'}, es, t', pcs, 0, DbError);
    es := es + [Go(0)];
    assert pcs[0 := Done(DbError)] == [Done(DbError), Done(Cancelled(true))];
  }

  // ----- bookings ---------------------------------------------------------------------

  /** The request names a known client and a free slot of a staff member, and is new. */
  ghost predicate Bookable(t: Tables, req: Request) {
    && req.key !in t.ledger && req.email.Some? && req.email.value != "" && HasEmail(t, req.email.value)
    && req.start.Some? && req.staffId.Some? && req.staffId.value in t.staff
    && !SlotTakenBy(t, req.staffId, req.start.value, None)
  }

  ghost function ClientOf(t: Tables, req: Request): Id
    requires Bookable(t, req)
  {
    ClientByEmail(t, req.email.value).value
  }

  ghost function AfterBooking(t: Tables, req: Request, ids: Ids): Tables
    requires Bookable(t, req)
  {
    WithBooking(t, req, ids, ClientOf(t, req), false)
  }

  ghost function BookedPc(t: Tables, req: Request, ids: Ids): Pc
    requires Bookable(t, req)
  {
    Done(Booked(NewBooking(req, ids, ClientOf(t, req)), false))
  }

  /** A booking that has missed in the ledger goes through while the others hold nothing. */
  lemma BookRest(g: Scene, es: seq<Event>, t: Tables, pcs: seq<Pc>, p: nat, req: Request, ids: Ids)
    returns (es': seq<Event>)
    requires Leads(g, es, State(t, pcs)) && |pcs| == |g.calls| && p < |pcs| && Quiet(pcs, p)
    requires g.calls[p] == Create(req, ids) && pcs[p].Missed? && Bookable(t, req)
    requires t in g.tables && AfterBooking(t, req, ids) in g.tables
    ensures Leads(g, es', State(AfterBooking(t, req, ids), pcs[p := BookedPc(t, req, ids)]))
  {
    var client, ended := ClientOf(t, req), BookedPc(t, req, ids);
    ThenTwice(g, es, t, pcs, p, HasClient(client, false), t, JobIn(client, false));
    es' := es + [Go(p)] + [Go(p)];
    var pcs' := pcs[p := JobIn(client, false)];
    ThenTwice(g, es', t, pcs', p, ApptIn(client, false), t, LedgerIn(client, false));
    es' := es' + [Go(p)] + [Go(p)];
    var pcs'' := pcs'[p := LedgerIn(client, false)];
    ThenQuietly(g, es', t, pcs'', p, AfterBooking(t, req, ids), ended);
    es' := es' + [Go(p)];
    assert pcs''[p := ended] == pcs[p := ended];
  }

  /** Both of two identical requests miss in the ledger, the first one books, and the second one
      finds the client. */
  lemma TwinInserts(g: Scene, t: Tables, req: Request, ids: Ids, ids': Ids) returns (es: seq<Event>)
    requires Valid(t) && Bookable(t, req)
    requires g == FromStart([Create(req, ids), Create(req, ids')], t, {AfterBooking(t, req, ids)})
    ensures Leads(g, es, State(AfterBooking(t, req, ids), [BookedPc(t, req, ids), JobIn(ClientOf(t, req), false)]))
  {
    var t', booked, client := AfterBooking(t, req, ids), BookedPc(t, req, ids), ClientOf(t, req);
    assert g.start.pcs == [Ready, Ready];
    LeadsNowhere(g);
    ThenQuietly(g, [], t, [Ready, Ready], 0, t, Missed);
    es := [] + [Go(0)];
    assert [Ready, Ready][0 := Missed] == [Missed, Ready];
    ThenQuietly(g, es, t, [Missed, Ready], 1, t, Missed);
    es := es + [Go(1)];
    assert [Missed, Ready][1 := Missed] == [Missed, Missed];
    es := BookRest(g, es, t, [Missed, Missed], 0, req, ids);
    assert [Missed, Missed][0 := booked] == [booked, Missed];
    assert ClientByEmail(t', req.email.value) == Some(client);
    ThenTwice(g, es, t', [booked, Missed], 1, HasClient(client, false), t', JobIn(client, false));
    es := es + [Go(1)] + [Go(1)];
    assert [booked, Missed][1 := JobIn(client, false)] == [booked, JobIn(client, false)];
  }

  /** Two identical requests for one staff member: the loser of the race is refused for its
      slot, although the slot was free until the very booking it asks for was recorded under
      its key. */
  lemma TwinIsRefused(t: Tables, req: Request, ids: Ids, ids': Ids) returns (es: seq<Event>)
    requires Valid(t) && FreshIds([Create(req, ids), Create(req, ids')], t) && Bookable(t, req)
    ensures var calls := [Create(req, ids), Create(req, ids')];
            && Reached(calls, t, es)
            && After(calls, t, es).pcs[1] == Done(SlotTaken)
            && EndsUnlikeAlone(calls, t, es, 1)
            && req.key in After(calls, t, es).tables.ledger
            && Exec(After(calls, t, es).tables, calls[1]).1
               == Booked(After(calls, t, es).tables.ledger[req.key], true)
  {
    var calls, t' := [Create(req, ids), Create(req, ids')], AfterBooking(t, req, ids);
    es := TwinInserts(FromStart(calls, t, {t'}), t, req, ids, ids');
    assert t'.appointments[ids.appointment].staffId == req.staffId;
    EndUnlikeAlone(calls, t, {t'}, es, t', [BookedPc(t, req, ids), JobIn(ClientOf(t, req), false)], 1, SlotTaken);
    es := es + [Go(1)];
  }

  /** The move and the cancellation have read the row; then it is deleted. */
  lemma LoadThenCancel(g: Scene, t: Tables, id: Id, to: Option<Instant>, c: Call) returns (es: seq<Event>)
    requires id in t.appointments && g.calls == [Reschedule(id, to), Cancel(id), c]
    requires g.start == State(t, [Ready, Ready, Ready]) && t in g.tables && WithoutAppointment(t, id) in g.tables
    ensures Leads(g, es, State(WithoutAppointment(t, id), [Loaded(t.appointments[id]), Done(Cancelled(true)), Ready]))
  {
    var loaded, ended := Loaded(t.appointments[id]), Done(Cancelled(true));
    LeadsNowhere(g);
    ThenQuietly(g, [], t, [Ready, Ready, Ready], 0, t, loaded);
    es := [] + [Go(0)];
    assert [Ready, Ready, Ready][0 := loaded] == [loaded, Ready, Ready];
    ThenQuietly(g, es, t, [loaded, Ready, Ready], 1, t, loaded);
    es := es + [Go(1)];
    assert [loaded, Ready, Ready][1 := loaded] == [loaded, loaded, Ready];
    CancelRest(g, es, t, [loaded, loaded, Ready], 1, id);
    es := es + [Go(1)] + [Go(1)];
    assert [loaded, loaded, Ready][1 := ended] == [loaded, ended, Ready];
  }

  /** The move has read its row; then the row is cancelled, and a booking takes the new slot. */
  lemma CancelThenBook(g: Scene, t: Tables, id: Id, req: Request, ids: Ids) returns (es: seq<Event>)
    requires Valid(t) && id in t.appointments && req.start.Some? && Bookable(WithoutAppointment(t, id), req)
    requires g == FromStart([Reschedule(id, req.start), Cancel(id), Create(req, ids)], t,
                            {WithoutAppointment(t, id), AfterBooking(WithoutAppointment(t, id), req, ids)})
    ensures Leads(g, es, State(AfterBooking(WithoutAppointment(t, id), req, ids),
                               [Loaded(t.appointments[id]), Done(Cancelled(true)),
                                BookedPc(WithoutAppointment(t, id), req, ids)]))
  {
    var t1, loaded, ended := WithoutAppointment(t, id), Loaded(t.appointments[id]), Done(Cancelled(true));
    var booked := BookedPc(t1, req, ids);
    assert g.start.pcs == [Ready, Ready, Ready];
    es := LoadThenCancel(g, t, id, req.start, Create(req, ids));
    ThenQuietly(g, es, t1, [loaded, ended, Ready], 2, t1, Missed);
    es := es + [Go(2)];
    assert [loaded, ended, Ready][2 := Missed] == [loaded, ended, Missed];
    es := BookRest(g, es, t1, [loaded, ended, Missed], 2, req, ids);
    assert [loaded, ended, Missed][2 := booked] == [loaded, ended, booked];
  }

  lemma NeverClashes(tables: set<Tables>, id: Id, to: Instant)
    requires forall t | t in tables && id in t.appointments :: !SlotTakenBy(t, t.appointments[id].staffId, to, Some(id))
    ensures NeverSays(tables, Reschedule(id, Some(to)), SlotClash)
  {
  }

  lemma BookableWithout(t: Tables, id: Id, req: Request)
    requires Bookable(t, req)
    ensures Bookable(WithoutAppointment(t, id), req)
  {
    var t1 := WithoutAppointment(t, id);
    assert forall c | c in t.clients && t.clients[c].email == req.email :: c in t1.clients;
  }

  /** The tables of the schedule below. */
  lemma ClashTables(t: Tables, id: Id, req: Request, ids: Ids)
    requires id in t.appointments && ids.appointment !in t.appointments && Bookable(t, req)
    requires Bookable(WithoutAppointment(t, id), req) && req.staffId == t.appointments[id].staffId
    ensures var t1 := WithoutAppointment(t, id); var t2 := AfterBooking(t1, req, ids);
            && id !in t1.appointments && id !in t2.appointments
            && SlotTakenBy(t2, req.staffId, req.start.value, Some(id))
            && !SlotTakenBy(t, req.staffId, req.start.value, Some(id))
  {
    var t2 := AfterBooking(WithoutAppointment(t, id), req, ids);
    assert t2.appointments[ids.appointment].staffId == req.staffId;
    assert forall a | a in t.appointments :: Some(a) != None;
  }

  /** A move can be refused for a slot that was free for as long as its appointment was there. */
  lemma MoveClashesLate(t: Tables, id: Id, req: Request, ids: Ids) returns (es: seq<Event>)
    requires Valid(t) && id in t.appointments && FreshIds([Reschedule(id, req.start), Cancel(id), Create(req, ids)], t)
    requires Bookable(t, req) && req.staffId == t.appointments[id].staffId
    ensures var calls := [Reschedule(id, req.start), Cancel(id), Create(req, ids)];
            && Reached(calls, t, es)
            && After(calls, t, es).pcs[0] == Done(SlotClash)
            && EndsUnlikeAlone(calls, t, es, 0)
  {
    var calls, t1 := [Reschedule(id, req.start), Cancel(id), Create(req, ids)], WithoutAppointment(t, id);
    BookableWithout(t, id, req);
    var t2 := AfterBooking(t1, req, ids);
    var pcs := [Loaded(t.appointments[id]), Done(Cancelled(true)), BookedPc(t1, req, ids)];
    assert UnusedIds(t, calls[2]);
    ClashTables(t, id, req, ids);
    es := CancelThenBook(FromStart(calls, t, {t1, t2}), t, id, req, ids);
    NeverClashes({t1, t2} + {t}, id, req.start.value);
    EndUnlikeAlone(calls, t, {t1, t2}, es, t2, pcs, 0, SlotClash);
    es := es + [Go(0)];
  }

  // ----- the deadlock of two moves ------------------------------------------------

  /** The call moves its row from start to end while the others hold nothing. */
  lemma MoveAlone(g: Scene, es: seq<Event>, t: Tables, pcs: seq<Pc>, p: nat, id: Id, to: Instant)
    returns (es': seq<Event>)
    requires Leads(g, es, State(t, pcs)) && |pcs| == |g.calls| && p < |pcs| && Quiet(pcs, p) && pcs[p].Ready?
    requires g.calls[p] == Reschedule(id, Some(to)) && id in t.appointments && t.appointments[id].start != to
    requires !SlotTakenBy(t, t.appointments[id].staffId, to, Some(id))
    requires t in g.tables && WithMove(t, id, to) in g.tables
    ensures Leads(g, es', State(WithMove(t, id, to), pcs[p := Done(Moved(id, to, t.appointments[id].staffId))]))
  {
    var row := t.appointments[id];
    var ended := Done(Moved(id, to, row.staffId));
    ReadAndCheck(g, es, t, pcs, p, id, to);
    es' := es + [Go(p)] + [Go(p)];
    ThenTwice(g, es', t, pcs[p := Checked(row)], p, RowLocked(row), t, MovedIn(row));
    es' := es' + [Go(p)] + [Go(p)];
    var pcs' := pcs[p := Checked(row)][p := MovedIn(row)];
    ThenQuietly(g, es', t, pcs', p, WithMove(t, id, to), ended);
    es' := es' + [Go(p)];
    assert pcs'[p := ended] == pcs[p := ended];
  }

  /** Three moves of two appointments between two slots; the second appointment comes with the
      booking. */
  function CrossingCalls(a: Id, x: Instant, y: Instant, req: Request, ids: Ids): seq<Call> {
    [Reschedule(a, Some(y)), Reschedule(ids.appointment, Some(x)), Reschedule(a, Some(x)), Create(req, ids)]
  }

  /** The request books `y` for the staff member of `a`, who is free at `x` and `y`. */
  ghost predicate TwoFreeSlots(t: Tables, a: Id, x: Instant, y: Instant, req: Request, ids: Ids) {
    && a in t.appointments && UnusedIds(t, Create(req, ids)) && x != y
    && Bookable(t, req) && req.start == Some(y) && t.appointments[a].staffId == req.staffId
    && (forall c | c in t.appointments && t.appointments[c].staffId == req.staffId ::
          t.appointments[c].start != x && t.appointments[c].start != y)
  }

  ghost function Crossing(t: Tables, a: Id, x: Instant, y: Instant, req: Request, ids: Ids): (g: Scene)
    requires TwoFreeSlots(t, a, x, y, req, ids)
    ensures g.calls == CrossingCalls(a, x, y, req, ids) && g.start == State(t, [Ready, Ready, Ready, Ready])
  {
    var t' := AfterBooking(t, req, ids);
    var g := FromStart(CrossingCalls(a, x, y, req, ids), t, {t', WithMove(t', a, x)});
    assert g.start.pcs == [Ready, Ready, Ready, Ready];
    g
  }

  /** The first move checks `y`, and then the booking takes it. */
  lemma CheckThenBook(t: Tables, a: Id, x: Instant, y: Instant, req: Request, ids: Ids)
    returns (es: seq<Event>, ended: Pc)
    requires TwoFreeSlots(t, a, x, y, req, ids)
    ensures ended.Done?
    ensures Leads(Crossing(t, a, x, y, req, ids), es,
                  State(AfterBooking(t, req, ids), [Checked(t.appointments[a]), Ready, Ready, ended]))
  {
    var g, checked := Crossing(t, a, x, y, req, ids), Checked(t.appointments[a]);
    LeadsNowhere(g);
    ReadAndCheck(g, [], t, g.start.pcs, 0, a, y);
    es := [] + [Go(0)] + [Go(0)];
    assert g.start.pcs[0 := checked] == [checked, Ready, Ready, Ready];
    ThenQuietly(g, es, t, [checked, Ready, Ready, Ready], 3, t, Missed);
    es := es + [Go(3)];
    assert [checked, Ready, Ready, Ready][3 := Missed] == [checked, Ready, Ready, Missed];
    es := BookRest(g, es, t, [checked, Ready, Ready, Missed], 3, req, ids);
    ended := BookedPc(t, req, ids);
    assert [checked, Ready, Ready, Missed][3 := ended] == [checked, Ready, Ready, ended];
  }

  /** The second move checks `x`, and then the third one takes it. */
  lemma CheckThenMove(t: Tables, a: Id, x: Instant, y: Instant, req: Request, ids: Ids)
    returns (es: seq<Event>, pcs: seq<Pc>)
    requires TwoFreeSlots(t, a, x, y, req, ids)
    ensures Leads(Crossing(t, a, x, y, req, ids), es, State(WithMove(AfterBooking(t, req, ids), a, x), pcs))
    ensures |pcs| == 4 && pcs[0].Checked? && pcs[1].Checked? && pcs[2].Done? && pcs[3].Done?
  {
    var g, t', b := Crossing(t, a, x, y, req, ids), AfterBooking(t, req, ids), ids.appointment;
    var ended;
    es, ended := CheckThenBook(t, a, x, y, req, ids);
    pcs := [Checked(t.appointments[a]), Ready, Ready, ended];
    assert t'.appointments[b].staffId == req.staffId && t'.appointments[b].start == y;
    ReadAndCheck(g, es, t', pcs, 1, b, x);
    es, pcs := es + [Go(1)] + [Go(1)], pcs[1 := Checked(t'.appointments[b])];
    es := MoveAlone(g, es, t', pcs, 2, a, x);
    pcs := pcs[2 := Done(Moved(a, x, req.staffId))];
  }

  lemma FirstTwoLock(t: Tables, a: Id, x: Instant, y: Instant, req: Request, ids: Ids)
    returns (es: seq<Event>, st: State)
    requires TwoFreeSlots(t, a, x, y, req, ids)
    ensures Leads(Crossing(t, a, x, y, req, ids), es, st)
    ensures |st.pcs| == 4 && st.pcs[0].RowLocked? && st.pcs[1].RowLocked?
    ensures st.pcs[0].row.staffId == req.staffId == st.pcs[1].row.staffId
    ensures st.pcs[0].row.start == x && st.pcs[1].row.start == y
  {
    var g, t', b := Crossing(t, a, x, y, req, ids), WithMove(AfterBooking(t, req, ids), a, x), ids.appointment;
    var pcs;
    es, pcs := CheckThenMove(t, a, x, y, req, ids);
    ThenQuietly(g, es, t', pcs, 0, t', RowLocked(t'.appointments[a]));
    es := es + [Go(0)];
    pcs := pcs[0 := RowLocked(t'.appointments[a])];
    assert CanGo(g.calls, State(t', pcs), 1);
    ThenGo(g, es, State(t', pcs), 1, t', RowLocked(t'.appointments[b]));
    es := es + [Go(1)];
    st := State(t', pcs[1 := RowLocked(t'.appointments[b])]);
  }

  /** Three reschedules and a booking can deadlock.  The first move checks its free target, and
      the booking takes it; the second move, of the new appointment, checks its free target,
      and the third one brings the first appointment there.  The first two then lock their
      rows and wait for each other's old slot.  The moves do not keep apart: two of them take one
      appointment to different starts, and the other one goes to one of these. */
  lemma MovesDeadlock(t: Tables, a: Id, x: Instant, y: Instant, req: Request, ids: Ids) returns (es: seq<Event>)
    requires Valid(t) && TwoFreeSlots(t, a, x, y, req, ids)
    ensures var calls := CrossingCalls(a, x, y, req, ids);
            && Reached(calls, t, es)
            && WaitsFor(calls, After(calls, t, es), 0, 1) && WaitsFor(calls, After(calls, t, es), 1, 0)
            && Cyclic(Waits(calls, After(calls, t, es))) && !MovesKeepApart(calls)
  {
    var st;
    es, st := FirstTwoLock(t, a, x, y, req, ids);
    CrossingIsReached(t, a, x, y, req, ids, es, st);
    CrossedWaits(CrossingCalls(a, x, y, req, ids), st, a, x, y, req, ids);
    CrossingIsNotApart(a, x, y, req, ids);
  }

  lemma CrossingIsNotApart(a: Id, x: Instant, y: Instant, req: Request, ids: Ids)
    requires a != ids.appointment && x != y
    ensures !MovesKeepApart(CrossingCalls(a, x, y, req, ids))
  {
    var calls := CrossingCalls(a, x, y, req, ids);
    assert !Apart3(calls[2], calls[0], calls[1]);
  }

  lemma CrossingIsReached(t: Tables, a: Id, x: Instant, y: Instant, req: Request, ids: Ids, es: seq<Event>, st: State)
    requires Valid(t) && TwoFreeSlots(t, a, x, y, req, ids) && Leads(Crossing(t, a, x, y, req, ids), es, st)
    ensures Reached(CrossingCalls(a, x, y, req, ids), t, es) && After(CrossingCalls(a, x, y, req, ids), t, es) == st
  {
    var t' := AfterBooking(t, req, ids);
    CrossingIsFresh(t, a, x, y, req, ids);
    LeadsFromStart(CrossingCalls(a, x, y, req, ids), t, {t', WithMove(t', a, x)}, es, st);
  }

  lemma CrossingIsFresh(t: Tables, a: Id, x: Instant, y: Instant, req: Request, ids: Ids)
    requires TwoFreeSlots(t, a, x, y, req, ids)
    ensures FreshIds(CrossingCalls(a, x, y, req, ids), t)
  {
  }

  lemma CrossedWaits(calls: seq<Call>, st: State, a: Id, x: Instant, y: Instant, req: Request, ids: Ids)
    requires calls == CrossingCalls(a, x, y, req, ids) && |st.pcs| == 4 && req.staffId.Some?
    requires st.pcs[0].RowLocked? && st.pcs[0].row.staffId == req.staffId && st.pcs[0].row.start == x
    requires st.pcs[1].RowLocked? && st.pcs[1].row.staffId == req.staffId && st.pcs[1].row.start == y
    ensures WaitsFor(calls, st, 0, 1) && WaitsFor(calls, st, 1, 0) && Cyclic(Waits(calls, st))
  {
    assert IsCycle(Waits(calls, st), [0, 1, 0]);
  }
}
