/** The interleaved protocol refines the atomic writes of the module `Serial`. */
module Refinement {
  import opened Graph
  import opened Schema
  import opened Serial
  import opened Protocol
  import opened Invariant

  /** The next statement of the transaction is a COMMIT with something to commit. */
  predicate Commits(pc: Pc) {
    pc.LedgerIn? || pc.Deleted? || pc.MovedIn? || pc.MemoryIn? || pc.Updated?
  }

  /** A statement that does not commit changes no table. */
  lemma QuietStatement(t: Tables, c: Call, pc: Pc)
    requires Valid(t) && Local(t, c, pc) && !Commits(pc)
    ensures Advance(t, c, pc).0 == t
  {
  }

  /** No statement changes the staff. */
  lemma StaffStays(t: Tables, c: Call, pc: Pc)
    ensures Advance(t, c, pc).0.staff == t.staff
  {
  }

  /** A save of the note that is there, and a move to where the appointment stands, end without
      an UPDATE; they wait for nobody and overwrite nothing. */
  lemma NothingToWrite(t: Tables, email: string, note: string, memId: int, id: Id)
    ensures HasPreference(t, email) && "note" in t.memories[PreferenceOf(t, email).value].content
            && t.memories[PreferenceOf(t, email).value].content["note"] == note ==>
              Advance(t, Upsert(email, note, memId), Ready) == (t, Done(Saved(email, note, false)))
    ensures Valid(t) && id in t.appointments ==>
              var row := t.appointments[id];
              Advance(t, Reschedule(id, Some(row.start)), Loaded(row)) == (t, Done(Moved(id, row.start, row.staffId)))
  {
    if Valid(t) && id in t.appointments {
      assert forall a | a in t.appointments && a != id :: !SameSlot(t.appointments[a], t.appointments[id]);
    }
  }

  /** A COMMIT does to the tables, and answers to its caller, what the whole call would if
      it ran alone at that moment. */
  lemma CommitIsSerial(t: Tables, c: Call, pc: Pc)
    requires Valid(t) && Local(t, c, pc) && Commits(pc)
    ensures Advance(t, c, pc) == (Exec(t, c).0, Done(Exec(t, c).1))
  {
    if c.Create? {
      BookingIsSerial(t, c, pc);
    } else if c.Upsert? {
      PreferenceIsSerial(t, c, pc);
    }
  }

  lemma BookingIsSerial(t: Tables, c: Call, pc: Pc)
    requires c.Create? && Valid(t) && Local(t, c, pc) && Commits(pc)
    ensures Advance(t, c, pc) == (Exec(t, c).0, Done(Exec(t, c).1))
  {
    var found := ClientFor(t, c.req);
    assert found == if pc.own then None else Some(pc.client);
  }

  lemma PreferenceIsSerial(t: Tables, c: Call, pc: Pc)
    requires c.Upsert? && Valid(t) && Local(t, c, pc) && Commits(pc)
    ensures Advance(t, c, pc) == (Exec(t, c).0, Done(Exec(t, c).1))
  {
    if pc.Updated? {
      var m := pc.mem;
      assert PreferenceOf(t, c.email) == Some(m);
      NoteOverwrites(pc.content, t.memories[m].content, c.note);
    }
  }

  /** Contents that agree but for the note are equal once the note is written. */
  lemma NoteOverwrites(a: map<string, string>, b: map<string, string>, note: string)
    requires SameButNote(a, b)
    ensures a[NOTE := note] == b[NOTE := note]
  {
    assert forall k | k != NOTE :: (k in a <==> k in a - {NOTE}) && (k in b <==> k in b - {NOTE});
    assert forall k | k != NOTE && k in a :: a[k] == (a - {NOTE})[k] && b[k] == (b - {NOTE})[k];
  }

  // ----- whole runs -----------------------------------------------------------

  /** The calls that commit, in the order of their COMMITs. */
  ghost function CommitOrder(calls: seq<Call>, s: State, es: seq<Event>): seq<nat>
    requires |calls| == |s.pcs| && Runs(calls, s, es)
    decreases |es|
  {
    if es == [] then []
    else (if es[0].Go? && Commits(s.pcs[es[0].call]) then [es[0].call] else [])
         + CommitOrder(calls, Apply(calls, s, es[0]), es[1..])
  }

  /** The tables after running the calls in `order` one at a time. */
  ghost function SerialTables(calls: seq<Call>, t: Tables, order: seq<nat>): Tables
    requires forall i | 0 <= i < |order| :: order[i] < |calls|
    decreases |order|
  {
    if order == [] then t else SerialTables(calls, Exec(t, calls[order[0]]).0, order[1..])
  }

  /** The answers of the calls in `order`, run one at a time from `t`, are those in `pcs`. */
  ghost predicate SerialAnswers(calls: seq<Call>, t: Tables, order: seq<nat>, pcs: seq<Pc>)
    requires |pcs| == |calls|
    decreases |order|
  {
    order == [] ||
    (&& order[0] < |calls|
     && pcs[order[0]] == Done(Exec(t, calls[order[0]]).1)
     && SerialAnswers(calls, Exec(t, calls[order[0]]).0, order[1..], pcs))
  }

  /** A call that has ended stays as it ended. */
  lemma {:induction false} DoneStays(calls: seq<Call>, s: State, es: seq<Event>, p: nat)
    requires |calls| == |s.pcs| && Runs(calls, s, es) && p < |calls| && s.pcs[p].Done?
    ensures Final(calls, s, es).pcs[p] == s.pcs[p]
    decreases |es|
  {
    if es == [] {
    } else {
      DoneStays(calls, Apply(calls, s, es[0]), es[1..], p);
    }
  }

  /** The calls in `order` have not ended yet. */
  predicate Unfinished(calls: seq<Call>, s: State, order: seq<nat>)
    requires |calls| == |s.pcs|
  {
    forall i | 0 <= i < |order| :: order[i] < |calls| && !s.pcs[order[i]].Done?
  }

  lemma {:induction false} CommitOrderUnfinished(calls: seq<Call>, s: State, es: seq<Event>)
    requires |calls| == |s.pcs| && Runs(calls, s, es)
    ensures Unfinished(calls, s, CommitOrder(calls, s, es))
    decreases |es|
  {
    if es == [] {
    } else {
      var s' := Apply(calls, s, es[0]);
      CommitOrderUnfinished(calls, s', es[1..]);
      assert forall q | 0 <= q < |calls| && !s'.pcs[q].Done? :: !s.pcs[q].Done?;
    }
  }

  /** Every interleaving is a serial execution: the tables it leaves are those of running
      the committing calls one at a time in commit order, each exactly once, and each of
      them gave its caller the answer it gives in that serial execution. */
  lemma {:induction false} Serializable(calls: seq<Call>, s: State, es: seq<Event>)
    requires Inv(calls, s) && Runs(calls, s, es)
    ensures var order := CommitOrder(calls, s, es);
            && NoRepeats(order)
            && Unfinished(calls, s, order)
            && Final(calls, s, es).tables == SerialTables(calls, s.tables, order)
            && SerialAnswers(calls, s.tables, order, Final(calls, s, es).pcs)
    decreases |es|
  {
    CommitOrderUnfinished(calls, s, es);
    if es == [] {
    } else {
      var s' := Apply(calls, s, es[0]);
      ApplyInv(calls, s, es[0]);
      Serializable(calls, s', es[1..]);
      CommitOrderUnfinished(calls, s', es[1..]);
      var rest := CommitOrder(calls, s', es[1..]);
      var p := es[0].call;
      if es[0].Go? && Commits(s.pcs[p]) {
        CommitIsSerial(s.tables, calls[p], s.pcs[p]);
        DoneStays(calls, s', es[1..], p);
        assert ([p] + rest)[1..] == rest;
      } else {
        if es[0].Go? {
          QuietStatement(s.tables, calls[p], s.pcs[p]);
        }
        assert [] + rest == rest;
      }
    }
  }
}
