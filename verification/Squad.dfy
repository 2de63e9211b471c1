/** The coarse state machine: what one accepted call does to the tables when it runs as
    one atomic step. Each table's new contents are given as a function of the old store. */
module Squad {
  import opened Base
  import opened Codecs
  import opened Tables

  // ---------------------------------------------------------------- reports

  datatype StatusReport = StatusReport(
    session: string, role: string, status: Status, task: Option<string>,
    summary: Option<string>, validation: Option<string>, nextAction: Option<string>,
    assignment: Option<string>, generation: Option<int>)

  /** Status text is read into the vocabulary and written back without loss. */
  lemma StatusRoundTrip(s: string)
    ensures StatusText(ReadStatus(s)) == s
  {
  }

  function WorkStatusOf(s: Status): WorkStatus
  {
    match s
    case SComplete => DoneClaimed
    case SFailed => Stale
    case SAck => Acked
    case SBlocked => Blocked
    case _ => InProgress
  }

  function AgentStatusOf(s: Status): AgentStatus
  {
    match s
    case SComplete => Idle
    case SBlocked | SDegraded => Degraded
    case SFailed => Failed
    case _ => Busy
  }

  /** What a call draws from outside the database: the clock, generated ids, and the rows
      SQL is free to return where a query leaves several. */
  datatype Env = Env(now: nat, itemId: string, ackId: string, messageId: string,
                     dispatchId: string, openHint: nat, newestHint: nat)

  const NANOS_PER_MILLI: nat := 1_000_000

  function MillisOf(now: nat): nat { now / NANOS_PER_MILLI }

  datatype Reply = Done | NoAgent | StaleGeneration

  /** The guards of `handle_report_status`; any reply but `Done` leaves the tables alone. */
  function ReportReply(db: Store, r: StatusReport): Reply
  {
    if RowFor(db.agents, r.session, r.role) == |db.agents| then NoAgent
    else if r.assignment.Some? && r.generation.Some? then
      var l := LatestLease(db.leases, r.assignment.value);
      if l < |db.leases| && db.leases[l].generation != r.generation.value then StaleGeneration else Done
    else Done
  }

  function Reporter(db: Store, r: StatusReport): Agent
    requires ReportReply(db, r) == Done
  {
    db.agents[RowFor(db.agents, r.session, r.role)]
  }

  /** The work item a report is about: its assignment id, else an open item of its task. */
  function ReportItem(db: Store, r: StatusReport, env: Env): Option<string>
    requires ReportReply(db, r) == Done
  {
    if r.assignment.Some? then r.assignment
    else if r.task.Some? then
      var i := OpenItem(db.items, r.task.value, Reporter(db, r).id, env.openHint);
      if i < |db.items| then Some(db.items[i].id) else None
    else None
  }

  function ReportItems(db: Store, r: StatusReport, env: Env): (items: seq<WorkItem>)
    requires ReportReply(db, r) == Done
    ensures |items| == |db.items|
  {
    match ReportItem(db, r, env)
    case None => db.items
    case Some(id) => UpdateItem(db.items, id, WorkStatusOf(r.status), env.now)
  }

  function ReportAcks(db: Store, r: StatusReport, env: Env): seq<Ack>
    requires ReportReply(db, r) == Done
  {
    match ReportItem(db, r, env)
    case None => db.acks
    case Some(id) =>
      var generation := match r.generation case Some(g) => g case None => 1;
      db.acks + [Ack(env.ackId, id, Reporter(db, r).id, r.status, generation, env.now)]
  }

  /** Steps 5 and 5b: status, then busy flag, active task and silence clock. */
  function ReportAgents(db: Store, r: StatusReport, env: Env): seq<Agent>
    requires ReportReply(db, r) == Done
  {
    var id := Reporter(db, r).id;
    var s := PatchAgents(db.agents, id, SetStatus(AgentStatusOf(r.status), env.now));
    if r.status == SComplete || r.status == SFailed then
      PatchAgents(PatchAgents(s, id, ClearTask), id, Signal(None, false, env.now))
    else PatchAgents(s, id, Signal(r.task, true, env.now))
  }

  function ReportMessage(sid: string, r: StatusReport, env: Env): Message
  {
    var summary := match r.summary case Some(s) => Some(Plain(s)) case None => None;
    Message(env.messageId, sid, r.task, r.role, r.status, summary, r.validation, r.nextAction, false, env.now)
  }

  function ReportInbox(db: Store, r: StatusReport, env: Env): seq<Message>
  {
    match ResolveSession(db.sessions, r.session)
    case None => db.inbox
    case Some(sid) => db.inbox + [ReportMessage(sid, r, env)]
  }

  // ---------------------------------------------------------------- auto-heal

  function Evidence(r: StatusReport): string
  {
    match r.validation
    case Some(v) => v
    case None => match r.summary case Some(s) => s case None => ""
  }

  predicate TypeScriptShaped(text: string)
  {
    var low := Lower(text);
    Contains(low, "typescript") || Contains(low, "typecheck") || Contains(low, "exactoptional")
  }

  datatype Heal = NoHeal | Redecompose(task: string) | Resume(parent: string, role: string)

  /** What `handle_auto_heal` decides, over the items as the report left them. */
  function HealOf(items: seq<WorkItem>, r: StatusReport, env: Env): Heal
  {
    if r.task.None? then NoHeal
    else match r.status
      case SBlocked =>
        if TypeScriptShaped(Evidence(r)) then Redecompose(AutoFixId(r.task.value, MillisOf(env.now))) else NoHeal
      case SComplete =>
        (match AutoFixParent(r.task.value)
         case None => NoHeal
         case Some(parent) =>
           var i := NewestBlocked(items, parent, r.session, env.newestHint);
           if i < |items| then Resume(parent, items[i].role) else NoHeal)
      case _ => NoHeal
  }

  const ORCHESTRATOR: string := "orchestrator"
  const REPAIR_ROLE: string := "ai"

  /** Auto-heal dispatches name no files and no next action, at high priority. */
  const URGENT: Detail := Detail([], None, "high")

  /** `dispatch_and_inject`, agents part: the target works on the task from now on. */
  function Assigned(agents: seq<Agent>, session: string, role: string, task: string, now: nat): (r: seq<Agent>)
    ensures |r| == |agents|
  {
    var i := RowFor(agents, session, role);
    if i == |agents| then agents
    else
      var id := agents[i].id;
      PatchAgents(PatchAgents(agents, id, Signal(Some(task), true, now)), id, SetStatus(Busy, now))
  }

  /** `dispatch_and_inject`: the durable row, then the target's clock and status. */
  function Inject(db: Store, session: string, from: string, to: string, task: string, summary: Text,
                  detail: Detail, env: Env): Store
  {
    db.(dispatches := db.dispatches + [DispatchRow(env.dispatchId, session, task, from, to, summary, detail, env.now)],
        agents := Assigned(db.agents, session, to, task, env.now))
  }

  // The tables after a heal decision.

  function HealItems(items: seq<WorkItem>, session: string, heal: Heal): (r: seq<WorkItem>)
    ensures |r| == |items|
  {
    match heal case Resume(parent, _) => Unblock(items, parent, session) case _ => items
  }

  function HealAgents(agents: seq<Agent>, session: string, heal: Heal, now: nat): (r: seq<Agent>)
    ensures |r| == |agents|
  {
    match heal
    case NoHeal => agents
    case Redecompose(task) => Assigned(agents, session, REPAIR_ROLE, task, now)
    case Resume(parent, role) => Assigned(agents, session, role, parent, now)
  }

  function HealRows(r: StatusReport, heal: Heal, env: Env): seq<DispatchRow>
  {
    match heal
    case NoHeal => []
    case Redecompose(task) =>
      [DispatchRow(env.dispatchId, r.session, task, ORCHESTRATOR, REPAIR_ROLE,
                   RepairText(r.role, TextOr(r.task, ""), Evidence(r)), URGENT, env.now)]
    case Resume(parent, role) =>
      [DispatchRow(env.dispatchId, r.session, parent, ORCHESTRATOR, role, ResumeText, URGENT, env.now)]
  }

  function TextOr(o: Option<string>, default: string): string { match o case Some(s) => s case None => default }

  predicate PostsCard(s: Status) { s == SComplete || s == SBlocked || s == SFailed }

  function CardOf(r: StatusReport, env: Env): Card
  {
    Card("card-" + TextOr(r.task, "task") + "-" + r.role + "-" + Dec(MillisOf(env.now)), r.session, r.role,
         if r.status == SBlocked then TypeScriptCard else EnvironmentCard,
         CardText(r.status, TextOr(r.summary, "")), r.validation, env.now)
  }

  function ReportCards(db: Store, r: StatusReport, env: Env): seq<Card>
  {
    if PostsCard(r.status) then InsertCard(db.cards, CardOf(r, env)) else db.cards
  }

  /** An accepted report, table by table, given what auto-heal decided. */
  function Reported(db: Store, r: StatusReport, env: Env, heal: Heal): Store
    requires ReportReply(db, r) == Done
  {
    db.(items := HealItems(ReportItems(db, r, env), r.session, heal),
        acks := ReportAcks(db, r, env),
        agents := HealAgents(ReportAgents(db, r, env), r.session, heal, env.now),
        inbox := ReportInbox(db, r, env),
        dispatches := db.dispatches + HealRows(r, heal, env),
        cards := ReportCards(db, r, env))
  }

  /** What auto-heal decides on an accepted report. */
  function Decision(db: Store, r: StatusReport, env: Env): Heal
    requires ReportReply(db, r) == Done
  {
    HealOf(ReportItems(db, r, env), r, env)
  }

  /** `handle_report_status` as one step. */
  function Report(db: Store, r: StatusReport, env: Env): Store
  {
    if ReportReply(db, r) != Done then db else Reported(db, r, env, Decision(db, r, env))
  }

  // ---------------------------------------------------------------- acks and blockers

  /** A summary that says nothing: none, blank, or one of two stock answers. */
  predicate SaysNothing(summary: Option<string>)
  {
    var s := Trim(TextOr(summary, ""));
    s == [] || AsciiLower(s) == "pong" || AsciiLower(s) == "task acknowledged"
  }

  const AWAITING: string := "Awaiting" + " task assignment. Ready for next sprint."
  const ACTIVE_ON: string := "Ack" + "nowledged status ping. Active on task #"

  function ActiveText(it: WorkItem): string { ACTIVE_ON + it.task + " (" + it.summary + ")" }

  /** What an ack says instead of nothing: the agent's newest active item, if there is one. */
  function StatusSummary(db: Store, session: string, role: string, hint: nat): string
  {
    var k := RowFor(db.agents, session, role);
    if role == "" || session == "" || k == |db.agents| then AWAITING
    else
      var i := NewestActive(db.items, db.agents[k].id, hint);
      if i < |db.items| then ActiveText(db.items[i]) else AWAITING
  }

  /** `devorch_ack` as a report. */
  function AckReport(db: Store, r: StatusReport, hint: nat): StatusReport
  {
    r.(status := SAck,
       summary := if SaysNothing(r.summary) then Some(StatusSummary(db, r.session, r.role, hint)) else r.summary)
  }

  /** `devorch_blocker` as a report. */
  function BlockerReport(r: StatusReport): StatusReport
  {
    r.(status := SBlocked, summary := if r.summary.None? then Some("Encountered a blocker") else r.summary)
  }

  /** Blank, or one of the two stock answers in any mix of letter cases. */
  predicate StockAnswer(s: string) { s == "" || Spells(s, "pong") || Spells(s, "task acknowledged") }

  lemma LowerSpells(s: string, w: string)
    requires forall i :: 0 <= i < |w| ==> !('A' <= w[i] <= 'Z')
    ensures AsciiLower(s) == w <==> Spells(s, w)
  {
    var low := AsciiLower(s);
    assert forall i :: 0 <= i < |s| ==> low[i] == if 'A' <= s[i] <= 'Z' then (s[i] as int + 32) as char else s[i];
  }

  lemma StockIsTrimmed(s: string)
    requires StockAnswer(s)
    ensures Trimmed(s)
  {
  }

  /** A summary says nothing exactly when it is a stock answer with white space around it. */
  lemma SaysNothingExactly(s: string)
    ensures SaysNothing(Some(s))
       <==> exists before, core, after :: s == before + core + after && AllSpace(before) && AllSpace(after)
                                          && StockAnswer(core)
  {
    LowerSpells(Trim(s), "pong");
    LowerSpells(Trim(s), "task acknowledged");
    var b, c, a := TrimParts(s);
    if before, core, after :| s == before + core + after && AllSpace(before) && AllSpace(after) && StockAnswer(core) {
      StockIsTrimmed(core);
      TrimOf(before, core, after);
    }
  }

  /** An ack with a summary that says something keeps it. */
  lemma AckKeepsSummary(db: Store, r: StatusReport, hint: nat)
    requires r.summary.Some? && !SaysNothing(r.summary)
    ensures AckReport(db, r, hint).summary == r.summary
  {
  }

  lemma StartsLikeASummary(s: string)
    requires s != [] && s[0] == 'A'
    ensures !SaysNothing(Some(s))
  {
    TrimEndKeepsFirst(s);
    assert Trim(s)[0] == 'A' && AsciiLower(Trim(s))[0] == 'a';
    assert "pong"[0] == 'p' && "task acknowledged"[0] == 't';
  }

  /** An ack never files a summary that says nothing, and leaves every other field alone. */
  lemma AckSaysSomething(db: Store, r: StatusReport, hint: nat)
    ensures !SaysNothing(AckReport(db, r, hint).summary)
    ensures AckReport(db, r, hint) == r.(status := SAck, summary := AckReport(db, r, hint).summary)
  {
    var s := StatusSummary(db, r.session, r.role, hint);
    assert "Awaiting"[0] == 'A' && AWAITING[0] == 'A';
    assert "Ack"[0] == 'A' && ACTIVE_ON[0] == 'A';
    StartsLikeASummary(s);
  }

  // ---------------------------------------------------------------- dispatch, peers, inbox

  datatype DispatchCall = DispatchCall(
    session: string, from: string, to: string, task: string, summary: string,
    files: seq<string>, nextAction: Option<string>, priority: Option<string>)

  /** The call's files and next action, at normal priority unless it says otherwise. */
  function DetailOf(d: DispatchCall): Detail { Detail(d.files, d.nextAction, TextOr(d.priority, "normal")) }

  const WORKER_ROLES: seq<string> := ["ai", "dat", "sec", "ops", "plt", "ui", "doc", "qa"]

  predicate DispatchAccepted(d: DispatchCall)
  {
    d.session != "" && d.from != "" && d.to != "" && d.task != "" && d.summary != "" && d.to in WORKER_ROLES
  }

  function NewItem(a: Agent, d: DispatchCall, env: Env): WorkItem
  {
    WorkItem(env.itemId, d.session, d.to, a.id, d.task, d.summary, DetailOf(d), Delivered, env.now, None, None)
  }

  function DispatchItems(db: Store, d: DispatchCall, env: Env): seq<WorkItem>
  {
    var i := RowFor(db.agents, d.session, d.to);
    if i < |db.agents| then db.items + [NewItem(db.agents[i], d, env)] else db.items
  }

  function Dispatch(db: Store, d: DispatchCall, env: Env): Store
  {
    if !DispatchAccepted(d) then db
    else Inject(db.(items := DispatchItems(db, d, env)), d.session, d.from, d.to, d.task, Plain(d.summary),
                DetailOf(d), env)
  }

  datatype PeerMessage = PeerMessage(session: string, from: string, to: string, task: Option<string>,
                                     info: string, requested: Option<string>)

  predicate PeerAccepted(db: Store, m: PeerMessage) { RowFor(db.agents, m.session, m.to) < |db.agents| }

  function PeerRow(sid: string, m: PeerMessage, env: Env): Message
  {
    var summary := PeerText(m.from, m.info);
    Message(env.messageId, sid, m.task, m.from, SInfo, Some(summary), None, m.requested, false, env.now)
  }

  function Peer(db: Store, m: PeerMessage, env: Env): Store
  {
    if !PeerAccepted(db, m) then db
    else if m.to == ORCHESTRATOR then
      match ResolveSession(db.sessions, m.session)
      case None => db
      case Some(sid) => db.(inbox := db.inbox + [PeerRow(sid, m, env)])
    else
      var id := db.agents[RowFor(db.agents, m.session, m.to)].id;
      db.(agents := PatchAgents(db.agents, id, Signal(None, true, env.now)))
  }

  /** The clearing half of `orchestrator_inbox`; it runs even for an unknown session. */
  function Clear(db: Store, ids: seq<string>): Store { db.(inbox := ClearMessages(db.inbox, ids)) }

  predicate Unread(m: Message, sid: string) { m.session == sid && !m.cleared }

  function Subscribe(db: Store, s: Subscription): Store
  {
    if s.session == "" || s.role == "" || s.event == "" then db
    else db.(subs := InsertSubscription(db.subs, s))
  }

  // ---------------------------------------------------------------- nudges

  const NUDGE_SILENCE_MS: int := 900_000
  const NUDGE_THROTTLE_MS: int := 90_000

  /** `num_milliseconds` of a difference: nanoseconds truncated towards zero. */
  function Milliseconds(nanos: int): int
  {
    if nanos >= 0 then nanos / NANOS_PER_MILLI else -(-nanos / NANOS_PER_MILLI)
  }

  /** Milliseconds since a stamp, `i64::MAX` when there is none. */
  function Since(now: nat, stamp: Option<nat>): int
  {
    match stamp case None => I64_MAX case Some(t) => Milliseconds(now - t)
  }

  predicate Candidate(a: Agent) { a.busy && a.activeTask.Some? }

  predicate Overdue(now: nat, signalAt: Option<nat>, nudgeAt: Option<nat>)
  {
    Since(now, signalAt) > NUDGE_SILENCE_MS && Since(now, nudgeAt) > NUDGE_THROTTLE_MS
  }

  predicate ToNudge(a: Agent, now: nat) { Candidate(a) && Overdue(now, a.signalAt, a.nudgeAt) }

  function NudgedRow(a: Agent, now: nat): Agent { if ToNudge(a, now) then Patched(a, Nudged(now)) else a }

  function NudgedRows(agents: seq<Agent>, now: nat): (r: seq<Agent>)
    ensures |r| == |agents|
    ensures forall i :: 0 <= i < |agents| ==> r[i] == NudgedRow(agents[i], now)
  {
    seq(|agents|, i requires 0 <= i < |agents| => NudgedRow(agents[i], now))
  }

  function NudgeMessage(a: Agent, now: nat, id: string): Message
  {
    var minutes := Since(now, a.signalAt) / 60_000;
    Message(id, a.session, a.activeTask, a.role, SDegraded, Some(NudgeText(minutes)), None, None, false, now)
  }

  /** Inbox rows of one scan, in row order; the nudge of row `i` takes `ids[i]`. */
  function NudgeMessages(agents: seq<Agent>, now: nat, ids: seq<string>): seq<Message>
    requires |ids| == |agents|
  {
    if agents == [] then []
    else
      var n := |agents| - 1;
      NudgeMessages(agents[..n], now, ids[..n])
      + if ToNudge(agents[n], now) then [NudgeMessage(agents[n], now, ids[n])] else []
  }

  /** As `NudgedRow`, with the stamp taken later than the scan's own time. */
  function StampedRow(a: Agent, now: nat, stamp: nat): Agent
  {
    if ToNudge(a, now) then Patched(a, Nudged(stamp)) else a
  }

  function StampedRows(agents: seq<Agent>, now: nat, stamps: seq<nat>): (r: seq<Agent>)
    requires |stamps| == |agents|
    ensures |r| == |agents|
    ensures forall i :: 0 <= i < |agents| ==> r[i] == StampedRow(agents[i], now, stamps[i])
  {
    seq(|agents|, i requires 0 <= i < |agents| => StampedRow(agents[i], now, stamps[i]))
  }

  /** `nudge_once`, the clock read anew for the stamp of each row. */
  function StampedScan(db: Store, now: nat, stamps: seq<nat>, ids: seq<string>): Store
    requires |ids| == |stamps| == |db.agents|
  {
    db.(agents := StampedRows(db.agents, now, stamps), inbox := db.inbox + NudgeMessages(db.agents, now, ids))
  }

  /** `nudge_once` as one step, all stamps taken at the scan's own time. */
  function NudgeScan(db: Store, now: nat, ids: seq<string>): Store
    requires |ids| == |db.agents|
  {
    db.(agents := NudgedRows(db.agents, now), inbox := db.inbox + NudgeMessages(db.agents, now, ids))
  }
}
