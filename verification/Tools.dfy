/** The write tools (src/booking_mcp/tools.py) as state machines on top of the protocol:
    resolve or extract, ask the user, and only then run the write. */
module Tools {
  import opened Graph
  import opened Schema
  import opened Serial
  import opened Protocol
  import opened Invariant
  import opened Refinement
  import opened BookingKey
  import Calendar

  /** What the client's user answers to the elicitation. */
  datatype Elicited = Accepted(data: bool) | Declined | Dismissed | NoElicitation

  /** What the client's language model answers to the sampling request. */
  datatype Sampled = Extracted(fields: Material) | NoSampling | TimedOut | Unparsable

  /** One run of a write tool, with the answers it will be given; `readable` is whether the
      database answers when the staff member is looked up. */
  datatype Tool =
    | CreateTool(fields: Material, readable: bool, answer: Elicited)      // create_booking
    | ChangeTool(answer: Elicited)                                        // cancel, reschedule, preference
    | TextTool(sample: Sampled, answer: Elicited)                         // book_from_text

  datatype Refusal =
    | DatabaseError | UnknownStaff | Disabled | NoSample | SampleTimeout | BadExtract | CannotConfirm | NotConfirmed

  datatype Stage = Resolving | Sampling | Confirming | Writing | Refused(why: Refusal)

  predicate IsSpace(c: char) {
    c == ' ' || '\t' <= c <= '\r'
  }

  /** The address pattern: one @ with text before it, and a dot with text around it after. */
  predicate EmailShaped(s: string) {
    exists i, j | 0 < i < j - 1 && j < |s| - 1 :: s[i] == '@' && s[j] == '.'
                && forall k | 0 <= k < |s| && k != i :: s[k] != '@' && !IsSpace(s[k])
  }

  /** Text without at-signs and white space. */
  predicate Plain(s: string) {
    s != "" && forall k | 0 <= k < |s| :: s[k] != '@' && s[k] != ' ' && !('\t' <= s[k] <= '\r')
  }

  /** An address is accepted exactly when it is made of three such texts, with an at-sign behind
      the first one and a dot behind the second one. */
  lemma EmailShapedMeans(s: string)
    ensures EmailShaped(s) <==>
              exists a: string, b: string, c: string :: Plain(a) && Plain(b) && Plain(c) && s == a + "@" + b + "." + c
  {
    if i, j :| && 0 < i < j - 1 && j < |s| - 1 && s[i] == '@' && s[j] == '.'
               && forall k | 0 <= k < |s| && k != i :: s[k] != '@' && !IsSpace(s[k]) {
      var a, b, c := s[..i], s[i + 1..j], s[j + 1..];
      assert s == a + "@" + b + "." + c;
      assert Plain(a) && Plain(b) && Plain(c);
    }
    forall a: string, b: string, c: string | Plain(a) && Plain(b) && Plain(c) && s == a + "@" + b + "." + c
      ensures EmailShaped(s)
    {
      ShapeOfParts(a, b, c);
    }
  }

  lemma ShapeOfParts(a: string, b: string, c: string)
    requires Plain(a) && Plain(b) && Plain(c)
    ensures EmailShaped(a + "@" + b + "." + c)
  {
    var s, i, j := a + "@" + b + "." + c, |a|, |a| + 1 + |b|;
    assert s[i] == '@' && s[j] == '.';
    forall k | 0 <= k < |s| && k != i
      ensures s[k] != '@' && !IsSpace(s[k])
    {
      if k < i {
        assert s[k] == a[k];
      } else if k < j {
        assert s[k] == b[k - i - 1];
      } else if k > j {
        assert s[k] == c[k - j - 1];
      }
    }
  }

  /** BookingExtract accepts the fields. */
  predicate ValidExtract(m: Material) {
    && m.name.Some? && m.service.Some? && m.email.Some? && EmailShaped(m.email.value)
    && Calendar.ValidDate(m.date) && Calendar.ValidTime(m.time) && m.staffId.None?
  }

  /** _confirm: only an acceptance that carries True counts. */
  function Confirm(e: Elicited): Stage {
    match e
    case Accepted(data) => if data then Writing else Refused(NotConfirmed)
    case Declined => Refused(NotConfirmed)
    case Dismissed => Refused(NotConfirmed)
    case NoElicitation => Refused(CannotConfirm)
  }

  function FirstStage(tool: Tool): Stage {
    match tool
    case CreateTool(_, _, _) => Resolving
    case ChangeTool(_) => Confirming
    case TextTool(_, _) => Sampling
  }

  predicate NamesStaff(staffId: Option<Id>) {
    staffId.Some? && staffId.value != ""
  }

  predicate ActiveStaff(t: Tables, staffId: Option<Id>) {
    NamesStaff(staffId) ==> staffId.value in t.staff && t.staff[staffId.value].active
  }

  /** The stage after the current one ends; `forced` is FORCE_WORKFLOW_FOR_SAMPLING. */
  function NextStage(tool: Tool, stage: Stage, t: Tables, forced: bool): Stage {
    match stage
    case Resolving =>
      if tool.CreateTool? && NamesStaff(tool.fields.staffId) && !tool.readable then Refused(DatabaseError)
      else if tool.CreateTool? && !ActiveStaff(t, tool.fields.staffId) then Refused(UnknownStaff)
      else Confirming
    case Sampling => (
      if forced || !tool.TextTool? then Refused(Disabled)
      else match tool.sample
        case NoSampling => Refused(NoSample)
        case TimedOut => Refused(SampleTimeout)
        case Unparsable => Refused(BadExtract)
        case Extracted(m) => if ValidExtract(m) then Confirming else Refused(BadExtract))
    case Confirming => Confirm(tool.answer)
    case _ => stage
  }

  /** The name of the staff member, as the tool finds it. */
  function StaffNameFor(t: Tables, staffId: Option<Id>): Option<string> {
    if NamesStaff(staffId) && staffId.value in t.staff then Some(t.staff[staffId.value].name) else None
  }

  /** The write of the tool is the one its user is asked about. */
  ghost predicate Fits(hash: string -> string, t0: Tables, tool: Tool, c: Call) {
    match tool
    case CreateTool(m, _, _) => c.Create? && c.req == RequestOf(hash, m, StaffNameFor(t0, m.staffId))
    case ChangeTool(_) => !c.Create?
    case TextTool(Extracted(m), _) => c.Create? && c.req == RequestOf(hash, m, None)
    case TextTool(_, _) => c.Create?
  }

  /** What create_booking is called with by the tool: the fields of the request, and the name of
      the staff member as it stands in the staff table. */
  lemma CreateToolCalls(hash: string -> string, t0: Tables, tool: Tool, c: Call)
    requires tool.CreateTool? && Fits(hash, t0, tool, c)
    ensures var (m, req) := (tool.fields, c.req);
            && req.name == m.name && req.email == m.email && req.phone == m.phone && req.address == m.address
            && req.service == m.service && req.staffId == m.staffId && req.start == Calendar.StartOf(m.date, m.time)
            && req.key == BookingKey.Key(hash, m)
            && (m.staffId.Some? && m.staffId.value != "" && m.staffId.value in t0.staff ==>
                  req.staffName == Some(t0.staff[m.staffId.value].name))
            && (m.staffId.None? || m.staffId.value == "" ==> req.staffName == None)
  {
    RequestSays(hash, tool.fields, c.req.staffName);
  }

  /** Why a tool stops. */
  lemma RefusalsMean(tool: Tool, t: Tables, forced: bool)
    ensures Confirm(tool.answer) == Writing <==> tool.answer == Accepted(true)
    ensures Confirm(tool.answer) == Refused(CannotConfirm) <==> tool.answer == NoElicitation
    ensures Confirm(tool.answer) == Refused(NotConfirmed) <==>
              tool.answer == Accepted(false) || tool.answer == Declined || tool.answer == Dismissed
    ensures tool.TextTool? ==>
              var next := NextStage(tool, Sampling, t, forced);
              && (next == Refused(Disabled) <==> forced)
              && (next == Refused(NoSample) <==> !forced && tool.sample == NoSampling)
              && (next == Refused(SampleTimeout) <==> !forced && tool.sample == TimedOut)
              && (next == Confirming || next == Refused(BadExtract) <==>
                    !forced && (tool.sample.Extracted? || tool.sample == Unparsable))
    ensures tool.CreateTool? && tool.fields.staffId.Some? && tool.fields.staffId.value != "" ==>
              var (next, s) := (NextStage(tool, Resolving, t, forced), tool.fields.staffId.value);
              && (next == Refused(DatabaseError) <==> !tool.readable)
              && (next == Refused(UnknownStaff) <==> tool.readable && (s !in t.staff || t.staff[s].active == false))
              && (next == Confirming <==> tool.readable && s in t.staff && t.staff[s].active == true)
  {
  }

  datatype System = System(proto: State, stages: seq<Stage>)

  /** A tool leaves its stage, or the write of a tool makes one step of the protocol. */
  datatype Move = Tool(run: nat) | Write(event: Event)

  ghost predicate CanMove(tools: seq<Tool>, calls: seq<Call>, s: System, m: Move) {
    && |tools| == |calls| == |s.proto.pcs| == |s.stages|
    && match m
       case Tool(p) => p < |tools| && !s.stages[p].Writing? && !s.stages[p].Refused?
       case Write(e) => e.call < |tools| && s.stages[e.call].Writing? && Enabled(calls, s.proto, e)
  }

  ghost function MoveTo(tools: seq<Tool>, calls: seq<Call>, forced: bool, s: System, m: Move): System
    requires CanMove(tools, calls, s, m)
  {
    match m
    case Tool(p) => s.(stages := s.stages[p := NextStage(tools[p], s.stages[p], s.proto.tables, forced)])
    case Write(e) => s.(proto := Apply(calls, s.proto, e))
  }

  ghost predicate MovesRun(tools: seq<Tool>, calls: seq<Call>, forced: bool, s: System, ms: seq<Move>)
    decreases |ms|
  {
    ms == [] ||
    (CanMove(tools, calls, s, ms[0]) && MovesRun(tools, calls, forced, MoveTo(tools, calls, forced, s, ms[0]), ms[1..]))
  }

  ghost function MovesEnd(tools: seq<Tool>, calls: seq<Call>, forced: bool, s: System, ms: seq<Move>): System
    requires MovesRun(tools, calls, forced, s, ms)
    decreases |ms|
  {
    if ms == [] then s else MovesEnd(tools, calls, forced, MoveTo(tools, calls, forced, s, ms[0]), ms[1..])
  }

  /** The steps of the writes among the moves. */
  function WritesIn(ms: seq<Move>): seq<Event> {
    if ms == [] then [] else (if ms[0].Write? then [ms[0].event] else []) + WritesIn(ms[1..])
  }

  /** The user of the run said yes, and everything the tool checks first was in order. */
  predicate Approved(t: Tables, forced: bool, tool: Tool) {
    && tool.answer == Accepted(true)
    && (tool.CreateTool? ==> ActiveStaff(t, tool.fields.staffId) && (NamesStaff(tool.fields.staffId) ==> tool.readable))
    && (tool.TextTool? ==> !forced && tool.sample.Extracted? && ValidExtract(tool.sample.fields))
  }

  /** What a run has behind it at each stage; a write that has begun is an approved one. */
  predicate Gate(t: Tables, forced: bool, tool: Tool, stage: Stage, pc: Pc) {
    && (match stage
        case Resolving => tool.CreateTool?
        case Sampling => tool.TextTool?
        case Confirming => Approved(t, forced, tool.(answer := Accepted(true)))
        case Writing => Approved(t, forced, tool)
        case Refused(_) => !Approved(t, forced, tool))
    && (!stage.Writing? ==> pc.Ready?)
  }

  ghost predicate Gated(tools: seq<Tool>, forced: bool, s: System, staff: map<Id, Staff>) {
    && |tools| == |s.proto.pcs| == |s.stages| && s.proto.tables.staff == staff
    && forall p | 0 <= p < |tools| :: Gate(s.proto.tables, forced, tools[p], s.stages[p], s.proto.pcs[p])
  }

  lemma ApprovedByStaff(t: Tables, t': Tables, forced: bool, tool: Tool)
    requires t.staff == t'.staff
    ensures Approved(t, forced, tool) <==> Approved(t', forced, tool)
  {
  }

  lemma MoveKeepsGate(tools: seq<Tool>, calls: seq<Call>, forced: bool, s: System, m: Move, staff: map<Id, Staff>)
    requires CanMove(tools, calls, s, m) && Inv(calls, s.proto) && Gated(tools, forced, s, staff)
    ensures Gated(tools, forced, MoveTo(tools, calls, forced, s, m), staff)
    ensures Inv(calls, MoveTo(tools, calls, forced, s, m).proto)
  {
    var s' := MoveTo(tools, calls, forced, s, m);
    if m.Write? {
      ApplyInv(calls, s.proto, m.event);
      if m.event.Go? {
        StaffStays(s.proto.tables, calls[m.event.call], s.proto.pcs[m.event.call]);
      }
      forall p | 0 <= p < |tools|
        ensures Gate(s'.proto.tables, forced, tools[p], s'.stages[p], s'.proto.pcs[p])
      {
        assert Gate(s.proto.tables, forced, tools[p], s.stages[p], s.proto.pcs[p]);
        ApprovedByStaff(s.proto.tables, s'.proto.tables, forced, tools[p]);
        ApprovedByStaff(s.proto.tables, s'.proto.tables, forced, tools[p].(answer := Accepted(true)));
      }
    } else {
      assert Gate(s.proto.tables, forced, tools[m.run], s.stages[m.run], s.proto.pcs[m.run]);
    }
  }

  ghost function Start(tools: seq<Tool>, calls: seq<Call>, t0: Tables): System {
    System(Init(calls, t0), seq(|tools|, p requires 0 <= p < |tools| => FirstStage(tools[p])))
  }

  /** The tool runs project to a run of the protocol, so everything proved of the protocol
      holds of the tools. */
  lemma {:induction false} ToolsRefineProtocol(tools: seq<Tool>, calls: seq<Call>, forced: bool,
                                               s: System, ms: seq<Move>)
    requires |calls| == |s.proto.pcs| && MovesRun(tools, calls, forced, s, ms)
    ensures Runs(calls, s.proto, WritesIn(ms))
    ensures Final(calls, s.proto, WritesIn(ms)) == MovesEnd(tools, calls, forced, s, ms).proto
    decreases |ms|
  {
    if ms == [] {
    } else {
      var s' := MoveTo(tools, calls, forced, s, ms[0]);
      ToolsRefineProtocol(tools, calls, forced, s', ms[1..]);
      if ms[0].Write? {
        assert ([ms[0].event] + WritesIn(ms[1..]))[1..] == WritesIn(ms[1..]);
      } else {
        assert [] + WritesIn(ms[1..]) == WritesIn(ms[1..]);
      }
    }
  }

  lemma {:induction false} GateHolds(tools: seq<Tool>, calls: seq<Call>, forced: bool, s: System, ms: seq<Move>,
                                     staff: map<Id, Staff>)
    requires Inv(calls, s.proto) && Gated(tools, forced, s, staff) && MovesRun(tools, calls, forced, s, ms)
    ensures Gated(tools, forced, MovesEnd(tools, calls, forced, s, ms), staff)
    ensures Inv(calls, MovesEnd(tools, calls, forced, s, ms).proto)
    decreases |ms|
  {
    if ms == [] {
    } else {
      MoveKeepsGate(tools, calls, forced, s, ms[0], staff);
      GateHolds(tools, calls, forced, MoveTo(tools, calls, forced, s, ms[0]), ms[1..], staff);
    }
  }

  /** A run of the tools from tables that meet the constraints. */
  ghost predicate ToolRun(hash: string -> string, tools: seq<Tool>, calls: seq<Call>, forced: bool, t0: Tables,
                          ms: seq<Move>) {
    && |tools| == |calls| && Valid(t0) && FreshIds(calls, t0)
    && (forall p | 0 <= p < |tools| :: Fits(hash, t0, tools[p], calls[p]))
    && MovesRun(tools, calls, forced, Start(tools, calls, t0), ms)
  }

  lemma StartIsGated(hash: string -> string, tools: seq<Tool>, calls: seq<Call>, forced: bool, t0: Tables,
                     ms: seq<Move>)
    requires ToolRun(hash, tools, calls, forced, t0, ms)
    ensures Inv(calls, Init(calls, t0)) && Gated(tools, forced, Start(tools, calls, t0), t0.staff)
  {
    InitInv(calls, t0);
  }

  /** What approval means, in full: the user accepted with True; a named staff member is there
      and active; a booking from text has the direct path enabled, and a name, a service, an
      address, a date and a time of the right form, and no staff member. */
  lemma ApprovedMeans(t: Tables, forced: bool, tool: Tool)
    ensures Approved(t, forced, tool) <==>
              && tool.answer == Accepted(true)
              && (tool.CreateTool? && tool.fields.staffId.Some? && tool.fields.staffId.value != "" ==>
                    && tool.readable && tool.fields.staffId.value in t.staff
                    && t.staff[tool.fields.staffId.value].active == true)
              && (tool.TextTool? ==>
                    && !forced && tool.sample.Extracted?
                    && tool.sample.fields.name.Some? && tool.sample.fields.service.Some?
                    && tool.sample.fields.email.Some? && EmailShaped(tool.sample.fields.email.value)
                    && Calendar.ValidDate(tool.sample.fields.date) && Calendar.ValidTime(tool.sample.fields.time)
                    && tool.sample.fields.staffId.None?)
  {
  }

  /** Confirmation safety.  A write that has begun belongs to a run whose user said yes, whose
      staff member, if any, was active, and which, if it books from text, found the direct
      path enabled and its extraction valid.  A run that was refused has written nothing. */
  lemma OnlyApprovedWrite(hash: string -> string, tools: seq<Tool>, calls: seq<Call>, forced: bool, t0: Tables,
                          ms: seq<Move>, p: nat)
    requires ToolRun(hash, tools, calls, forced, t0, ms) && p < |tools|
    ensures var s := MovesEnd(tools, calls, forced, Start(tools, calls, t0), ms);
            && |s.proto.pcs| == |s.stages| == |tools|
            && (!s.proto.pcs[p].Ready? ==> Approved(t0, forced, tools[p]))
            && (s.stages[p].Refused? ==> !Approved(t0, forced, tools[p]) && s.proto.pcs[p].Ready?)
    ensures var s := MovesEnd(tools, calls, forced, Start(tools, calls, t0), ms);
            !s.proto.pcs[p].Ready? ==>
              && tools[p].answer == Accepted(true)
              && (tools[p].CreateTool? && tools[p].fields.staffId.Some? && tools[p].fields.staffId.value != "" ==>
                    && tools[p].fields.staffId.value in t0.staff
                    && t0.staff[tools[p].fields.staffId.value].active == true)
              && (tools[p].TextTool? ==> !forced && tools[p].sample.Extracted?)
  {
    StartIsGated(hash, tools, calls, forced, t0, ms);
    GateHolds(tools, calls, forced, Start(tools, calls, t0), ms, t0.staff);
    var s := MovesEnd(tools, calls, forced, Start(tools, calls, t0), ms);
    assert Gate(s.proto.tables, forced, tools[p], s.stages[p], s.proto.pcs[p]);
    ApprovedByStaff(s.proto.tables, t0, forced, tools[p]);
    ApprovedMeans(t0, forced, tools[p]);
  }

  lemma {:induction false} CommittersHaveBegun(calls: seq<Call>, s: State, es: seq<Event>)
    requires |calls| == |s.pcs| && Runs(calls, s, es)
    ensures Begun(calls, Final(calls, s, es), CommitOrder(calls, s, es))
    decreases |es|
  {
    if es == [] {
    } else {
      var s' := Apply(calls, s, es[0]);
      CommittersHaveBegun(calls, s', es[1..]);
      if es[0].Go? && Commits(s.pcs[es[0].call]) {
        StaysPastReady(s.tables, calls[es[0].call], s.pcs[es[0].call]);
        StaysBegun(calls, s', es[1..], es[0].call);
      }
    }
  }

  predicate Begun(calls: seq<Call>, s: State, order: seq<nat>)
    requires |calls| == |s.pcs|
  {
    forall i | 0 <= i < |order| :: order[i] < |calls| && !s.pcs[order[i]].Ready?
  }

  lemma StaysPastReady(t: Tables, c: Call, pc: Pc)
    requires !pc.Ready?
    ensures !Advance(t, c, pc).1.Ready?
  {
  }

  lemma {:induction false} StaysBegun(calls: seq<Call>, s: State, es: seq<Event>, p: nat)
    requires |calls| == |s.pcs| && Runs(calls, s, es) && p < |calls| && !s.pcs[p].Ready?
    ensures !Final(calls, s, es).pcs[p].Ready?
    decreases |es|
  {
    if es == [] {
    } else {
      StaysPastReady(s.tables, calls[p], s.pcs[p]);
      StaysBegun(calls, Apply(calls, s, es[0]), es[1..], p);
    }
  }

  /** The tables a tool run leaves are those of its approved writes only, one at a time in
      commit order; when nobody approves, they are the tables it began with. */
  lemma TablesAreApproved(hash: string -> string, tools: seq<Tool>, calls: seq<Call>, forced: bool, t0: Tables,
                          ms: seq<Move>)
    returns (order: seq<nat>)
    requires ToolRun(hash, tools, calls, forced, t0, ms)
    ensures forall i | 0 <= i < |order| :: order[i] < |calls| && Approved(t0, forced, tools[order[i]])
    ensures NoRepeats(order)
    ensures MovesEnd(tools, calls, forced, Start(tools, calls, t0), ms).proto.tables == SerialTables(calls, t0, order)
  {
    var s := Start(tools, calls, t0);
    StartIsGated(hash, tools, calls, forced, t0, ms);
    ToolsRefineProtocol(tools, calls, forced, s, ms);
    Serializable(calls, s.proto, WritesIn(ms));
    CommittersHaveBegun(calls, s.proto, WritesIn(ms));
    order := CommitOrder(calls, s.proto, WritesIn(ms));
    forall i | 0 <= i < |order|
      ensures order[i] < |calls| && Approved(t0, forced, tools[order[i]])
    {
      OnlyApprovedWrite(hash, tools, calls, forced, t0, ms, order[i]);
    }
  }
}
