/** Waiting, deadlock and termination. */
module Liveness {
  import opened Graph
  import opened Schema
  import opened Serial
  import opened Protocol
  import opened Invariant

  /** Keys are taken in the order client email, staff slot, ledger key; a call that does
      not wait while holding anything comes first or last. */
  function Level(c: Call, pc: Pc): nat {
    match pc
    case NoClient => 1
    case JobIn(_, _) => 2
    case RowLocked(_) => 3
    case ApptIn(_, _) => 4
    case HasClient(_, _) => 5
    case LedgerIn(_, _) => 5
    case Deleted(_) => 5
    case MovedIn(_) => 5
    case MemoryIn => 5
    case Updated(_, _) => 5
    case _ => 0
  }

  /** A reschedule that has locked its row and waits for the new slot. */
  predicate MidMove(calls: seq<Call>, s: State, p: nat)
    requires |calls| == |s.pcs|
  {
    p < |calls| && calls[p].Reschedule? && s.pcs[p].RowLocked?
  }

  /** Which call waits for which. */
  function Waits(calls: seq<Call>, s: State): Edges
    requires |calls| == |s.pcs|
  {
    set p: nat, q: nat | p < |calls| && q < |calls| && WaitsFor(calls, s, p, q) :: (p, q)
  }

  lemma WaitsGoUp(calls: seq<Call>, s: State, p: nat, q: nat)
    requires |calls| == |s.pcs| && WaitsFor(calls, s, p, q)
    ensures !s.pcs[p].Done? && !s.pcs[q].Done?
    ensures Level(calls[p], s.pcs[p]) <= Level(calls[q], s.pcs[q])
    ensures Level(calls[p], s.pcs[p]) == Level(calls[q], s.pcs[q]) ==> MidMove(calls, s, p) && MidMove(calls, s, q)
  {
  }

  lemma {:induction false} PathGoesUp(calls: seq<Call>, s: State, path: seq<nat>, i: nat, j: nat)
    requires |calls| == |s.pcs| && IsPath(Waits(calls, s), path) && i <= j < |path|
    requires forall k | 0 <= k < |path| :: path[k] < |calls|
    ensures Level(calls[path[i]], s.pcs[path[i]]) <= Level(calls[path[j]], s.pcs[path[j]])
    decreases j - i
  {
    if i == j {
    } else {
      WaitsGoUp(calls, s, path[i], path[i + 1]);
      PathGoesUp(calls, s, path, i + 1, j);
    }
  }

  lemma CycleIsOfCalls(calls: seq<Call>, s: State, path: seq<nat>)
    requires |calls| == |s.pcs| && IsCycle(Waits(calls, s), path)
    ensures forall k | 0 <= k < |path| :: path[k] < |calls|
  {
    forall k | 0 <= k < |path|
      ensures path[k] < |calls|
    {
      var e := if k < |path| - 1 then k else 0;
      assert (path[e], path[e + 1]) in Waits(calls, s);
    }
  }

  /** A cycle of waits consists of reschedules only, each between locking its row and
      entering its new slot. */
  lemma CyclesAreMoves(calls: seq<Call>, s: State, path: seq<nat>)
    requires |calls| == |s.pcs| && IsCycle(Waits(calls, s), path)
    ensures forall i | 0 <= i < |path| :: MidMove(calls, s, path[i])
  {
    CycleIsOfCalls(calls, s, path);
    forall i | 0 <= i < |path|
      ensures MidMove(calls, s, path[i])
    {
      var e := if i < |path| - 1 then i else i - 1;
      assert (path[e], path[e + 1]) in Waits(calls, s);
      WaitsGoUp(calls, s, path[e], path[e + 1]);
      PathGoesUp(calls, s, path, 0, e);
      PathGoesUp(calls, s, path, e + 1, |path| - 1);
    }
  }

  // ----- deadlocks ------------------------------------------------------------

  /** The unfinished calls at or above a level, if none of them can run, all wait for others of
      them. */
  lemma StuckIsClosed(calls: seq<Call>, s: State, n: nat, x: set<nat>)
    requires |calls| == |s.pcs| && x != {}
    requires x == set q: nat | q < |calls| && !s.pcs[q].Done? && Level(calls[q], s.pcs[q]) >= n
    requires forall p | p in x :: Blocked(calls, s, p)
    ensures Closed(Waits(calls, s), x)
  {
    forall p | p in x
      ensures LeadsInto(Waits(calls, s), p, x)
    {
      var q: nat :| q < |calls| && WaitsFor(calls, s, p, q);
      WaitsGoUp(calls, s, p, q);
      assert q in x && (p, q) in Waits(calls, s);
    }
  }

  /** Without a cycle, above every unfinished call there is one that can run. */
  lemma RunnableAbove(calls: seq<Call>, s: State, p: nat) returns (r: nat)
    requires |calls| == |s.pcs| && !Cyclic(Waits(calls, s)) && p < |calls| && !s.pcs[p].Done?
    ensures CanGo(calls, s, r) && Level(calls[r], s.pcs[r]) >= Level(calls[p], s.pcs[p])
  {
    var n := Level(calls[p], s.pcs[p]);
    var x := set q: nat | q < |calls| && !s.pcs[q].Done? && Level(calls[q], s.pcs[q]) >= n;
    assert p in x;
    if forall q | q in x :: Blocked(calls, s, q) {
      StuckIsClosed(calls, s, n, x);
      ClosedIsCyclic(Waits(calls, s));
    }
    r :| r in x && !Blocked(calls, s, r);
  }

  /** Without a cycle of waits some call can run its next statement, until all have ended. */
  lemma NoDeadlock(calls: seq<Call>, s: State)
    requires |calls| == |s.pcs| && !Cyclic(Waits(calls, s)) && !AllDone(s)
    ensures exists p: nat :: CanGo(calls, s, p)
  {
    var p: nat :| p < |calls| && !s.pcs[p].Done?;
    var r := RunnableAbove(calls, s, p);
  }

  /** A deadlock that a call has no part in does not depend on that call. */
  lemma ClosedElsewhere(calls: seq<Call>, s: State, s': State, r: nat, x: set<nat>)
    requires |calls| == |s.pcs| == |s'.pcs| && forall p: nat | p < |calls| && p != r :: s'.pcs[p] == s.pcs[p]
    requires Closed(Waits(calls, s), x) && r !in x
    ensures Closed(Waits(calls, s'), x)
  {
    forall p | p in x
      ensures LeadsInto(Waits(calls, s'), p, x)
    {
      assert LeadsInto(Waits(calls, s), p, x);
      var q :| q in x && (p, q) in Waits(calls, s);
      SameWait(calls, s, s', p, q);
    }
  }

  lemma ClosedIsBlocked(calls: seq<Call>, s: State, x: set<nat>, p: nat)
    requires |calls| == |s.pcs| && Closed(Waits(calls, s), x) && p in x
    ensures Blocked(calls, s, p)
  {
    assert LeadsInto(Waits(calls, s), p, x);
    var q :| q in x && (p, q) in Waits(calls, s);
    assert WaitsFor(calls, s, p, q);
  }

  /** A deadlock is still there after the statement of any call. */
  lemma ClosedStays(calls: seq<Call>, s: State, r: nat, x: set<nat>)
    requires |calls| == |s.pcs| && CanGo(calls, s, r) && Closed(Waits(calls, s), x)
    ensures Closed(Waits(calls, Apply(calls, s, Go(r))), x)
  {
    if r in x {
      ClosedIsBlocked(calls, s, x, r);
    }
    ClosedElsewhere(calls, s, Apply(calls, s, Go(r)), r, x);
  }

  lemma SameWait(calls: seq<Call>, s: State, s': State, p: nat, q: nat)
    requires |calls| == |s.pcs| == |s'.pcs| && p < |calls| && q < |calls|
    requires s'.pcs[p] == s.pcs[p] && s'.pcs[q] == s.pcs[q]
    ensures (p, q) in Waits(calls, s) <==> (p, q) in Waits(calls, s')
  {
    assert WaitsFor(calls, s, p, q) <==> WaitsFor(calls, s', p, q);
  }

  predicate AllGo(es: seq<Event>) {
    forall i | 0 <= i < |es| :: es[i].Go?
  }

  lemma {:induction false} DeadlockNeverEnds(calls: seq<Call>, s: State, es: seq<Event>, x: set<nat>)
    requires |calls| == |s.pcs| && Runs(calls, s, es) && AllGo(es) && Closed(Waits(calls, s), x)
    ensures !AllDone(Final(calls, s, es))
    decreases |es|
  {
    if es == [] {
      var p :| p in x;
      assert LeadsInto(Waits(calls, s), p, x);
      var q :| q in x && (p, q) in Waits(calls, s);
      WaitsGoUp(calls, s, p, q);
    } else {
      ClosedStays(calls, s, es[0].call, x);
      DeadlockNeverEnds(calls, Apply(calls, s, es[0]), es[1..], x);
    }
  }

  /** A deadlock has a part that consists of moves only. */
  lemma MovesOfDeadlock(calls: seq<Call>, s: State, x: set<nat>) returns (y: set<nat>)
    requires |calls| == |s.pcs| && Closed(Waits(calls, s), x)
    ensures Closed(Waits(calls, s), y) && forall p | p in y :: MidMove(calls, s, p)
  {
    var w := Waits(calls, s);
    var level := (p: nat) => if p < |calls| then Level(calls[p], s.pcs[p]) else 0;
    var moves := set p: nat | p < |calls| && MidMove(calls, s, p);
    forall e | e in w
      ensures level(e.0) <= level(e.1) && (level(e.0) < level(e.1) || e.0 in moves)
    {
      WaitsGoUp(calls, s, e.0, e.1);
    }
    y := TopIsClosed(w, x, level, moves, 5);
  }

  /** The statement of a call makes no cycle, unless it locks a row while another call is in
      the middle of a move. */
  lemma StaysAcyclic(calls: seq<Call>, s: State, r: nat)
    requires |calls| == |s.pcs| && CanGo(calls, s, r) && !Cyclic(Waits(calls, s))
    requires !s.pcs[r].Checked? || forall p: nat | p < |calls| :: !MidMove(calls, s, p)
    ensures !Cyclic(Waits(calls, Apply(calls, s, Go(r))))
  {
    var s' := Apply(calls, s, Go(r));
    ClosedIsCyclic(Waits(calls, s));
    ClosedIsCyclic(Waits(calls, s'));
    if x: set<nat> :| Closed(Waits(calls, s'), x) {
      var y := MovesOfDeadlock(calls, s', x);
      if r in y {
        LockIsFromCheck(calls, s, r);
        assert LeadsInto(Waits(calls, s'), r, y);
        var q :| q in y && (r, q) in Waits(calls, s');
        assert MidMove(calls, s', q) && q != r;
        assert MidMove(calls, s, q);
      } else {
        ClosedElsewhere(calls, s', s, r, y);
      }
    }
  }

  lemma LockIsFromCheck(calls: seq<Call>, s: State, r: nat)
    requires |calls| == |s.pcs| && CanGo(calls, s, r) && MidMove(calls, Apply(calls, s, Go(r)), r)
    ensures s.pcs[r].Checked?
  {
  }

  // ----- termination ----------------------------------------------------------

  function StepsLeft(pc: Pc): nat {
    match pc
    case Ready => 9
    case Missed => 8
    case NoClient => 7
    case EmailLost => 6
    case HasClient(_, _) => 5
    case JobIn(_, _) => 4
    case ApptIn(_, _) => 3
    case LedgerIn(_, _) => 2
    case LedgerLost => 1
    case Loaded(_) => 4
    case Deleted(_) => 1
    case Checked(_) => 3
    case RowLocked(_) => 2
    case MovedIn(_) => 1
    case NoRow => 5
    case MemoryIn => 1
    case MemoryLost => 4
    case HasRow(_, _) => 3
    case Updated(_, _) => 2
    case Done(_) => 0
  }

  function TotalLeft(pcs: seq<Pc>): nat {
    if pcs == [] then 0 else StepsLeft(pcs[0]) + TotalLeft(pcs[1..])
  }

  lemma {:induction false} TotalDrops(pcs: seq<Pc>, p: nat, pc: Pc)
    requires p < |pcs| && StepsLeft(pc) < StepsLeft(pcs[p])
    ensures TotalLeft(pcs[p := pc]) < TotalLeft(pcs)
  {
    if p == 0 {
      assert pcs[p := pc][1..] == pcs[1..];
    } else {
      assert pcs[p := pc][1..] == pcs[1..][p - 1 := pc];
      TotalDrops(pcs[1..], p - 1, pc);
    }
  }

  lemma BookingDrops(t: Tables, c: Call, pc: Pc)
    requires c.Create? && Local(t, c, pc) && !pc.Done?
    ensures StepsLeft(Advance(t, c, pc).1) < StepsLeft(pc)
  {
  }

  lemma ChangeDrops(t: Tables, c: Call, pc: Pc)
    requires !c.Create? && Local(t, c, pc) && !pc.Done?
    ensures StepsLeft(Advance(t, c, pc).1) < StepsLeft(pc)
  {
  }

  lemma EventDrops(calls: seq<Call>, s: State, e: Event)
    requires Inv(calls, s) && Enabled(calls, s, e)
    ensures TotalLeft(Apply(calls, s, e).pcs) < TotalLeft(s.pcs)
  {
    var p := e.call;
    assert Local(s.tables, calls[p], s.pcs[p]);
    if e.Go? {
      if calls[p].Create? {
        BookingDrops(s.tables, calls[p], s.pcs[p]);
      } else {
        ChangeDrops(s.tables, calls[p], s.pcs[p]);
      }
    }
    TotalDrops(s.pcs, p, Apply(calls, s, e).pcs[p]);
  }

  /** No run goes on for ever, whatever the scheduler does. */
  lemma {:induction false} RunsAreShort(calls: seq<Call>, s: State, es: seq<Event>)
    requires Inv(calls, s) && Runs(calls, s, es)
    ensures |es| + TotalLeft(Final(calls, s, es).pcs) <= TotalLeft(s.pcs)
    decreases |es|
  {
    if es == [] {
    } else {
      EventDrops(calls, s, es[0]);
      ApplyInv(calls, s, es[0]);
      RunsAreShort(calls, Apply(calls, s, es[0]), es[1..]);
    }
  }

  // ----- finishing ------------------------------------------------------------

  /** A statement that makes no cycle. */
  lemma SafeGo(calls: seq<Call>, s: State) returns (r: nat)
    requires |calls| == |s.pcs| && !AllDone(s) && !Cyclic(Waits(calls, s))
    ensures CanGo(calls, s, r) && !Cyclic(Waits(calls, Apply(calls, s, Go(r))))
  {
    if p: nat :| p < |calls| && MidMove(calls, s, p) {
      r := RunnableAbove(calls, s, p);
    } else {
      NoDeadlock(calls, s);
      r :| CanGo(calls, s, r);
    }
    StaysAcyclic(calls, s, r);
  }

  /** The schedule fails nobody but reschedules, each between locking its row and entering
      its new slot, and each at a moment when no call at all can run. */
  ghost predicate OnlyVictimsFail(calls: seq<Call>, s: State, es: seq<Event>)
    requires |calls| == |s.pcs| && Runs(calls, s, es)
    decreases |es|
  {
    es == [] ||
    (&& (es[0].Fail? ==> MidMove(calls, s, es[0].call) && forall r: nat :: !CanGo(calls, s, r))
     && OnlyVictimsFail(calls, Apply(calls, s, es[0]), es[1..]))
  }

  /** A move in a cycle of waits. */
  lemma Victim(calls: seq<Call>, s: State) returns (p: nat)
    requires |calls| == |s.pcs| && Cyclic(Waits(calls, s))
    ensures MidMove(calls, s, p)
  {
    var path: seq<nat> :| IsCycle(Waits(calls, s), path);
    CyclesAreMoves(calls, s, path);
    p := path[0];
  }

  /** The next event: a statement of a call that can run, or the end of a deadlocked move. */
  lemma NextEvent(calls: seq<Call>, s: State) returns (e: Event)
    requires |calls| == |s.pcs| && !AllDone(s)
    ensures Enabled(calls, s, e)
    ensures e.Fail? ==> MidMove(calls, s, e.call) && forall r: nat :: !CanGo(calls, s, r)
    ensures !Cyclic(Waits(calls, s)) ==> e.Go? && !Cyclic(Waits(calls, Apply(calls, s, e)))
  {
    if !Cyclic(Waits(calls, s)) {
      var r := SafeGo(calls, s);
      e := Go(r);
    } else if r: nat :| CanGo(calls, s, r) {
      e := Go(r);
    } else {
      var p := Victim(calls, s);
      e := Fail(p);
    }
  }

  /** Any mix of calls: from every state all of them can be finished, and the only calls that
      need to be failed on the way are deadlocked reschedules; from a state without a cycle of
      waits, such as every initial one, nobody needs to be failed. */
  lemma {:induction false} CanFinish(calls: seq<Call>, s: State) returns (es: seq<Event>)
    requires Inv(calls, s)
    ensures Runs(calls, s, es) && AllDone(Final(calls, s, es)) && OnlyVictimsFail(calls, s, es)
    ensures !Cyclic(Waits(calls, s)) ==> AllGo(es)
    decreases TotalLeft(s.pcs)
  {
    if AllDone(s) {
      es := [];
    } else {
      var e := NextEvent(calls, s);
      EventDrops(calls, s, e);
      ApplyInv(calls, s, e);
      var rest := CanFinish(calls, Apply(calls, s, e));
      es := [e] + rest;
      assert es[1..] == rest;
    }
  }

  /** At first nobody waits, and with CanFinish nobody needs to be failed. */
  lemma FirstIsAcyclic(calls: seq<Call>, t0: Tables)
    ensures !Cyclic(Waits(calls, Init(calls, t0)))
  {
    NoEdgesNoClosed(Waits(calls, Init(calls, t0)));
    ClosedIsCyclic(Waits(calls, Init(calls, t0)));
  }

  /** All calls end, and nobody is failed. */
  ghost predicate Finishes(calls: seq<Call>, s: State, es: seq<Event>)
    requires |calls| == |s.pcs|
  {
    Runs(calls, s, es) && AllDone(Final(calls, s, es)) && AllGo(es)
  }

  /** All calls can be finished without failing any exactly when their waits have no cycle. */
  lemma FinishesUnlessCyclic(calls: seq<Call>, s: State)
    requires Inv(calls, s)
    ensures (exists es: seq<Event> :: Finishes(calls, s, es)) <==> !Cyclic(Waits(calls, s))
  {
    ClosedIsCyclic(Waits(calls, s));
    if x: set<nat> :| Closed(Waits(calls, s), x) {
      forall es: seq<Event> | Finishes(calls, s, es)
        ensures false
      {
        DeadlockNeverEnds(calls, s, es, x);
      }
    } else {
      var es := CanFinish(calls, s);
      assert Finishes(calls, s, es);
    }
  }

  // ----- moves that never deadlock -----------------------------------------------

  predicate Moves(c: Call) {
    c.Reschedule? && c.to.Some?
  }

  /** Not: two moves of one appointment to different starts, to one of which an appointment
      other than theirs is moved. */
  predicate Apart3(c: Call, c': Call, d: Call) {
    Moves(c) && Moves(c') && Moves(d) && c.id == c'.id && c.to != c'.to && d.id != c.id ==> d.to != c.to
  }

  /** No appointment has two moves to different starts, to one of which another appointment is
      moved. */
  predicate MovesKeepApart(calls: seq<Call>) {
    forall p, q, r | 0 <= p < |calls| && 0 <= q < |calls| && 0 <= r < |calls| :: Apart3(calls[p], calls[q], calls[r])
  }

  predicate PastCheck(pc: Pc) {
    pc.Checked? || pc.RowLocked? || pc.MovedIn?
  }

  /** `c` is to go where the appointment of `d` stands, with the same staff member. */
  predicate AimsAt(t: Tables, c: Call, d: Call) {
    && c.Reschedule? && d.Reschedule? && c.id != d.id && c.id in t.appointments && d.id in t.appointments
    && t.appointments[c.id].staffId.Some? && t.appointments[d.id].staffId == t.appointments[c.id].staffId
    && c.to == Some(t.appointments[d.id].start)
  }

  predicate Aiming(calls: seq<Call>, s: State, p: nat, q: nat)
    requires |calls| == |s.pcs|
  {
    p < |calls| && q < |calls| && PastCheck(s.pcs[p]) && PastCheck(s.pcs[q]) && AimsAt(s.tables, calls[p], calls[q])
  }

  /** Which move that has passed its check is to go where which other one stands. */
  function Aims(calls: seq<Call>, s: State): Edges
    requires |calls| == |s.pcs|
  {
    set p: nat, q: nat | p < |calls| && q < |calls| && Aiming(calls, s, p, q) :: (p, q)
  }

  /** A move that has just passed its check aims nowhere. */
  lemma CheckedAimsNowhere(t: Tables, c: Call, pc: Pc, d: Call)
    requires Local(t, c, pc) && !PastCheck(pc) && PastCheck(Advance(t, c, pc).1)
    ensures !AimsAt(Advance(t, c, pc).0, c, d)
  {
  }

  /** A statement other than the COMMIT of a move makes nothing aim at anything. */
  lemma NothingAims(t: Tables, b: Call, pc: Pc, c: Call, cc: Pc, d: Call, dc: Pc)
    requires Local(t, b, pc) && !pc.MovedIn? && PastCheck(cc) && PastCheck(dc)
    requires Apart(b, pc, c, cc) && Apart(b, pc, d, dc) && AimsAt(Advance(t, b, pc).0, c, d)
    ensures AimsAt(t, c, d)
  {
  }

  /** The COMMIT of a move `u` makes no `c` aim at a `d` that aims at something. */
  lemma MoveAims(t: Tables, u: Call, c: Call, d: Call, f: Call)
    requires Moves(u) && u.id in t.appointments && Valid(WithMove(t, u.id, u.to.value)) && Apart3(u, d, c)
    requires AimsAt(WithMove(t, u.id, u.to.value), c, d) && AimsAt(WithMove(t, u.id, u.to.value), d, f)
    ensures AimsAt(t, c, d)
  {
  }

  lemma AimBefore(calls: seq<Call>, s: State, e: Event, p: nat, q: nat, r: nat)
    requires Inv(calls, s) && Enabled(calls, s, e) && MovesKeepApart(calls)
    requires Aiming(calls, Apply(calls, s, e), p, q) && Aiming(calls, Apply(calls, s, e), q, r)
    ensures Aiming(calls, s, p, q)
  {
    if e.Go? {
      StatementAims(calls, s, e.call, p, q, r);
    }
  }

  lemma PastCheckBefore(calls: seq<Call>, s: State, u: nat, p: nat, q: nat)
    requires Inv(calls, s) && CanGo(calls, s, u) && Aiming(calls, Apply(calls, s, Go(u)), p, q)
    ensures PastCheck(s.pcs[p])
  {
    if p == u && !PastCheck(s.pcs[p]) {
      assert Local(s.tables, calls[p], s.pcs[p]);
      CheckedAimsNowhere(s.tables, calls[p], s.pcs[p], calls[q]);
    }
  }

  lemma StatementAims(calls: seq<Call>, s: State, u: nat, p: nat, q: nat, r: nat)
    requires Inv(calls, s) && CanGo(calls, s, u) && MovesKeepApart(calls)
    requires Aiming(calls, Apply(calls, s, Go(u)), p, q) && Aiming(calls, Apply(calls, s, Go(u)), q, r)
    ensures Aiming(calls, s, p, q)
  {
    PastCheckBefore(calls, s, u, p, q);
    PastCheckBefore(calls, s, u, q, r);
    assert Local(s.tables, calls[u], s.pcs[u]);
    assert Apart(calls[u], s.pcs[u], calls[p], s.pcs[p]) && Apart(calls[u], s.pcs[u], calls[q], s.pcs[q]);
    if s.pcs[u].MovedIn? {
      AdvanceKeepsValid(s.tables, calls[u], s.pcs[u]);
      assert Apart3(calls[u], calls[q], calls[p]);
      MoveAims(s.tables, calls[u], calls[p], calls[q], calls[r]);
    } else {
      NothingAims(s.tables, calls[u], s.pcs[u], calls[p], s.pcs[p], calls[q], s.pcs[q]);
    }
  }

  /** No set of moves ever comes to aim at each other. */
  lemma EventKeepsAims(calls: seq<Call>, s: State, e: Event)
    requires Inv(calls, s) && Enabled(calls, s, e) && MovesKeepApart(calls) && !HasClosed(Aims(calls, s))
    ensures !HasClosed(Aims(calls, Apply(calls, s, e)))
  {
    var w' := Aims(calls, Apply(calls, s, e));
    if x: set<nat> :| Closed(w', x) {
      forall p | p in x
        ensures LeadsInto(Aims(calls, s), p, x)
      {
        assert LeadsInto(w', p, x);
        var q :| q in x && (p, q) in w';
        assert LeadsInto(w', q, x);
        var r :| r in x && (q, r) in w';
        AimBefore(calls, s, e, p, q, r);
        assert (p, q) in Aims(calls, s);
      }
      assert Closed(Aims(calls, s), x);
    }
  }

  lemma {:induction false} RunKeepsAims(calls: seq<Call>, s: State, es: seq<Event>)
    requires Inv(calls, s) && Runs(calls, s, es) && MovesKeepApart(calls) && !HasClosed(Aims(calls, s))
    ensures !HasClosed(Aims(calls, Final(calls, s, es)))
    decreases |es|
  {
    if es == [] {
    } else {
      ApplyInv(calls, s, es[0]);
      EventKeepsAims(calls, s, es[0]);
      RunKeepsAims(calls, Apply(calls, s, es[0]), es[1..]);
    }
  }

  /** A move that waits for a move aims at it. */
  lemma WaitIsAim(calls: seq<Call>, s: State, p: nat, q: nat)
    requires Inv(calls, s) && MidMove(calls, s, p) && MidMove(calls, s, q) && WaitsFor(calls, s, p, q)
    ensures Aiming(calls, s, p, q)
  {
    assert Local(s.tables, calls[p], s.pcs[p]) && Local(s.tables, calls[q], s.pcs[q]);
    assert Holds(calls[p], s.pcs[p], AppointmentRow(calls[p].id));
    assert Holds(calls[q], s.pcs[q], AppointmentRow(calls[q].id));
  }

  lemma UnaimedIsAcyclic(calls: seq<Call>, s: State)
    requires Inv(calls, s) && !HasClosed(Aims(calls, s))
    ensures !Cyclic(Waits(calls, s))
  {
    var w := Waits(calls, s);
    ClosedIsCyclic(w);
    if x: set<nat> :| Closed(w, x) {
      var y := MovesOfDeadlock(calls, s, x);
      forall p | p in y
        ensures LeadsInto(Aims(calls, s), p, y)
      {
        assert LeadsInto(w, p, y);
        var q :| q in y && (p, q) in w;
        WaitIsAim(calls, s, p, q);
        assert (p, q) in Aims(calls, s);
      }
      assert Closed(Aims(calls, s), y);
    }
  }

  lemma NobodyAimsAtFirst(calls: seq<Call>, t0: Tables)
    ensures !HasClosed(Aims(calls, Init(calls, t0)))
  {
    NoEdgesNoClosed(Aims(calls, Init(calls, t0)));
  }

  /** Moves that keep apart never deadlock, whatever other calls run with them: no reachable
      state has a cycle of waits, so from each of them all calls can be finished without
      failing any. */
  lemma ApartNeverDeadlock(calls: seq<Call>, t0: Tables, es: seq<Event>) returns (rest: seq<Event>)
    requires Valid(t0) && FreshIds(calls, t0) && Runs(calls, Init(calls, t0), es) && MovesKeepApart(calls)
    ensures !Cyclic(Waits(calls, Final(calls, Init(calls, t0), es)))
    ensures Finishes(calls, Final(calls, Init(calls, t0), es), rest)
  {
    InitInv(calls, t0);
    RunInv(calls, Init(calls, t0), es);
    NobodyAimsAtFirst(calls, t0);
    RunKeepsAims(calls, Init(calls, t0), es);
    UnaimedIsAcyclic(calls, Final(calls, Init(calls, t0), es));
    rest := CanFinish(calls, Final(calls, Init(calls, t0), es));
  }

  predicate TwoMovesAtMost(calls: seq<Call>) {
    forall p, q, r |
      && 0 <= p < |calls| && 0 <= q < |calls| && 0 <= r < |calls|
      && calls[p].Reschedule? && calls[q].Reschedule? && calls[r].Reschedule? ::
      p == q || q == r || p == r
  }

  predicate OneMoveEach(calls: seq<Call>) {
    forall p, q |
      && 0 <= p < |calls| && 0 <= q < |calls|
      && calls[p].Reschedule? && calls[q].Reschedule? && calls[p].id == calls[q].id ::
      p == q
  }

  /** Two reschedules, or any number with at most one for each appointment, keep apart. */
  lemma FewMovesKeepApart(calls: seq<Call>)
    ensures TwoMovesAtMost(calls) || OneMoveEach(calls) ==> MovesKeepApart(calls)
  {
  }
}
