/** The relay's database as an object: one field per table, one method per query, and the
    handlers as the sequences of queries they are. Each handler is proved to be the step of
    the coarse machine. */
module Relay {
  import opened Base
  import opened Codecs
  import opened Tables
  import opened Squad
  import opened Runs
  import opened Inbox
  import ActiveSessions
  import Launch

  // ---------------------------------------------------------------- what the methods are proved against

  /** A report up to the point where auto-heal starts. */
  function BeforeHeal(db: Store, r: StatusReport, env: Env): Store
    requires ReportReply(db, r) == Done
  {
    db.(items := ReportItems(db, r, env), acks := ReportAcks(db, r, env),
        agents := ReportAgents(db, r, env), inbox := ReportInbox(db, r, env))
  }

  /** What auto-heal dispatches and unblocks. */
  function AfterDispatches(db: Store, r: StatusReport, env: Env): Store
  {
    var heal := HealOf(db.items, r, env);
    db.(items := HealItems(db.items, r.session, heal),
        agents := HealAgents(db.agents, r.session, heal, env.now),
        dispatches := db.dispatches + HealRows(r, heal, env))
  }

  /** `handle_auto_heal` on its own. */
  function AfterHeal(db: Store, r: StatusReport, env: Env): Store
  {
    AfterDispatches(db, r, env).(cards := ReportCards(db, r, env))
  }

  lemma ReportInTwoParts(db: Store, r: StatusReport, env: Env)
    requires ReportReply(db, r) == Done
    ensures Report(db, r, env) == AfterHeal(BeforeHeal(db, r, env), r, env)
  {
  }

  /** First row of `rows` with this role, or `|rows|`. */
  predicate FirstWithRole(rows: seq<Agent>, role: string, k: nat)
  {
    && k <= |rows| && (k < |rows| ==> rows[k].role == role)
    && forall j :: 0 <= j < k ==> rows[j].role != role
  }

  lemma SessionRowsBelong(agents: seq<Agent>, session: string)
    ensures forall k :: 0 <= k < |Launch.SessionAgents(agents, session)| ==>
              Launch.SessionAgents(agents, session)[k].session == session
  {
  }

  lemma RowForPrefix(agents: seq<Agent>, session: string, role: string)
    requires agents != []
    ensures var n, i := |agents| - 1, RowFor(agents[..|agents| - 1], session, role);
            RowFor(agents, session, role) == if i < n then i else if Holds(agents[n], session, role) then n else n + 1
  {
    var n, i := |agents| - 1, RowFor(agents[..|agents| - 1], session, role);
    assert forall j :: 0 <= j < n ==> agents[..n][j] == agents[j];
    if i < n { assert Holds(agents[i], session, role); }
  }

  /** Reading a session's agents and taking the first of a role is one indexed lookup. */
  lemma {:induction false} LookupInTwoSteps(agents: seq<Agent>, session: string, role: string, k: nat)
    requires FirstWithRole(Launch.SessionAgents(agents, session), role, k)
    ensures var rows, i := Launch.SessionAgents(agents, session), RowFor(agents, session, role);
            (k < |rows| <==> i < |agents|) && (k < |rows| ==> rows[k] == agents[i])
  {
    if agents != [] {
      var n := |agents| - 1;
      var before, rows := Launch.SessionAgents(agents[..n], session), Launch.SessionAgents(agents, session);
      assert forall j :: 0 <= j < |before| ==> rows[j] == before[j];
      SessionRowsBelong(agents, session);
      RowForPrefix(agents, session, role);
      var k' := if k < |before| then k else |before|;
      assert FirstWithRole(before, role, k');
      LookupInTwoSteps(agents[..n], session, role, k');
      if agents[n].session == session {
        assert rows == before + [agents[n]] && rows[|before|] == agents[n];
      } else {
        assert rows == before + [] == before;
      }
    }
  }

  predicate IsBusyRole(agents: seq<Agent>, session: string, role: string)
  {
    var i := RowFor(agents, session, role);
    i < |agents| && agents[i].status == Busy
  }

  /** Roles subscribed to the event whose agent is busy: those a publication reaches. */
  function Reached(subs: seq<Subscription>, agents: seq<Agent>, session: string, event: string): seq<string>
  {
    if subs == [] then []
    else
      var s := subs[|subs| - 1];
      Reached(subs[..|subs| - 1], agents, session, event)
      + if s.session == session && s.event == event && IsBusyRole(agents, session, s.role) then [s.role] else []
  }

  lemma {:induction false} ReachedExactly(subs: seq<Subscription>, agents: seq<Agent>, session: string,
                                          event: string, role: string)
    ensures role in Reached(subs, agents, session, event)
       <==> Subscription(session, event, role) in subs && IsBusyRole(agents, session, role)
  {
    if subs != [] {
      var n := |subs| - 1;
      ReachedExactly(subs[..n], agents, session, event, role);
      assert subs == subs[..n] + [subs[n]];
    }
  }

  lemma LeasedToOneMore(l: Lease, a: seq<Agent>, b: Agent)
    ensures Launch.LeasedTo(l, a + [b]) <==> Launch.LeasedTo(l, a) || Launch.LeasedTo(l, [b])
  {
    var ab := a + [b];
    if Launch.LeasedTo(l, a) {
      var i :| 0 <= i < |a| && a[i].id == l.agent;
      assert ab[i].id == l.agent;
    }
    if Launch.LeasedTo(l, [b]) { assert ab[|a|].id == l.agent; }
    if Launch.LeasedTo(l, ab) {
      var i :| 0 <= i < |ab| && ab[i].id == l.agent;
      assert if i < |a| then a[i].id == l.agent else [b][0].id == l.agent;
    }
  }

  lemma RemoveLeasesNext(leases: seq<Lease>, l: Lease, a: seq<Agent>)
    ensures Launch.RemoveLeases(leases + [l], a)
         == Launch.RemoveLeases(leases, a) + if Launch.LeasedTo(l, a) then [] else [l]
  {
    assert (leases + [l])[..|leases|] == leases;
  }

  lemma {:induction false} RemoveLeasesTwice(leases: seq<Lease>, a: seq<Agent>, b: Agent)
    ensures Launch.RemoveLeases(Launch.RemoveLeases(leases, a), [b]) == Launch.RemoveLeases(leases, a + [b])
  {
    if leases != [] {
      var init, last := leases[..|leases| - 1], leases[|leases| - 1];
      assert leases == init + [last];
      RemoveLeasesTwice(init, a, b);
      LeasedToOneMore(last, a, b);
      RemoveLeasesNext(init, last, a);
      RemoveLeasesNext(init, last, a + [b]);
      RemoveLeasesNext(Launch.RemoveLeases(init, a), last, [b]);
      if Launch.LeasedTo(last, a) {
        assert Launch.RemoveLeases(leases, a) == Launch.RemoveLeases(init, a);
      } else {
        assert Launch.RemoveLeases(leases, a) == Launch.RemoveLeases(init, a) + [last];
      }
    }
  }

  lemma {:induction false} RemoveNoLeases(leases: seq<Lease>)
    ensures Launch.RemoveLeases(leases, []) == leases
  {
    if leases != [] { RemoveNoLeases(leases[..|leases| - 1]); }
  }

  // ---------------------------------------------------------------- sorting an answer

  predicate InOrder(rows: seq<Message>) { forall i, j :: 0 <= i < j < |rows| ==> rows[i].at <= rows[j].at }

  lemma InsertedInOrder(rows: seq<Message>, k: nat, m: Message)
    requires InOrder(rows) && k <= |rows|
    requires (forall j :: 0 <= j < k ==> rows[j].at <= m.at) && (forall j :: k <= j < |rows| ==> m.at <= rows[j].at)
    ensures InOrder(rows[..k] + [m] + rows[k..])
  {
  }

  lemma InsertedOnce(rows: seq<Message>, k: nat, m: Message)
    requires k <= |rows|
    ensures multiset(rows[..k] + [m] + rows[k..]) == multiset(rows) + multiset{m}
  {
    assert rows == rows[..k] + rows[k..];
  }

  /** Put `m` behind the rows that are no later. */
  method InsertInOrder(rows: seq<Message>, m: Message) returns (r: seq<Message>)
    requires InOrder(rows)
    ensures InOrder(r) && multiset(r) == multiset(rows) + multiset{m}
  {
    var k := |rows|;
    while k > 0 && rows[k - 1].at > m.at
      invariant 0 <= k <= |rows|
      invariant forall j :: k <= j < |rows| ==> m.at <= rows[j].at
    {
      k := k - 1;
    }
    InsertedInOrder(rows, k, m);
    InsertedOnce(rows, k, m);
    r := rows[..k] + [m] + rows[k..];
  }

  /** `WHERE session_id = ? AND cleared = 0 ORDER BY received_at ASC`. */
  method SortedUnread(inbox: seq<Message>, sid: string) returns (rows: seq<Message>)
    ensures IsReading(rows, inbox, sid)
  {
    rows := [];
    for i := 0 to |inbox|
      invariant InOrder(rows) && multiset(rows) == multiset(UnreadOf(inbox[..i], sid))
    {
      assert inbox[..i + 1][..i] == inbox[..i];
      if Unread(inbox[i], sid) {
        rows := InsertInOrder(rows, inbox[i]);
      }
    }
    assert inbox[..|inbox|] == inbox;
  }

  /** The scan has come to row `i`. */
  predicate StampedUpTo(agents: seq<Agent>, rows: seq<Agent>, now: nat, stamps: seq<nat>, i: nat)
    requires |rows| == |stamps|
  {
    && |agents| == |rows|
    && forall j :: 0 <= j < |rows| ==> agents[j] == if j < i then StampedRow(rows[j], now, stamps[j]) else rows[j]
  }

  /** Nudging row `i` carries the scan one row further. */
  lemma StampedNext(agents: seq<Agent>, rows: seq<Agent>, now: nat, stamps: seq<nat>, i: nat)
    requires i < |rows| == |stamps| && UniqueAgents(rows) && StampedUpTo(agents, rows, now, stamps, i)
    ensures StampedUpTo(if ToNudge(rows[i], now) then PatchAgents(agents, rows[i].id, Nudged(stamps[i])) else agents,
                        rows, now, stamps, i + 1)
  {
    assert forall j :: 0 <= j < |rows| && j != i ==> agents[j].id != rows[i].id;
  }

  /** With every stamp at the scan's own time this is the coarse scan. */
  lemma ScanAtItsOwnTime(db: Store, now: nat, stamps: seq<nat>, ids: seq<string>)
    requires |ids| == |stamps| == |db.agents| && forall i :: 0 <= i < |stamps| ==> stamps[i] == now
    ensures StampedScan(db, now, stamps, ids) == NudgeScan(db, now, ids)
  {
    assert StampedRows(db.agents, now, stamps) == NudgedRows(db.agents, now);
  }

  lemma MessagesNext(rows: seq<Agent>, i: nat, now: nat, ids: seq<string>)
    requires i < |rows| == |ids|
    ensures NudgeMessages(rows[..i + 1], now, ids[..i + 1])
         == NudgeMessages(rows[..i], now, ids[..i])
            + if ToNudge(rows[i], now) then [NudgeMessage(rows[i], now, ids[i])] else []
  {
    assert rows[..i + 1][..i] == rows[..i] && ids[..i + 1][..i] == ids[..i];
  }

  // ---------------------------------------------------------------- the database object

  datatype InboxAnswer = BadRequest | UnknownSession | Messages(rows: seq<Message>)

  class Db {
    var sessions: seq<Session>
    var agents: seq<Agent>
    var items: seq<WorkItem>
    var acks: seq<Ack>
    var dispatches: seq<DispatchRow>
    var inbox: seq<Message>
    var cards: seq<Card>
    var subs: seq<Subscription>
    var leases: seq<Lease>
    var targets: seq<Target>
    var quarantine: seq<QuarantineRow>

    constructor (db: Store)
      ensures Snap() == db
    {
      sessions, agents, items, acks := db.sessions, db.agents, db.items, db.acks;
      dispatches, inbox, cards, subs := db.dispatches, db.inbox, db.cards, db.subs;
      leases, targets, quarantine := db.leases, db.targets, db.quarantine;
    }

    /** The tables as one value. */
    function Snap(): Store
      reads this
    {
      Store(sessions, agents, items, acks, dispatches, inbox, cards, subs, leases, targets, quarantine)
    }

    // -------------------------------------------------------------- queries

    method FindAgent(session: string, role: string) returns (a: Option<Agent>)
      ensures var i := RowFor(agents, session, role); a == if i < |agents| then Some(agents[i]) else None
    {
      var rows := Launch.SessionAgents(agents, session);
      for k := 0 to |rows|
        invariant forall j :: 0 <= j < k ==> rows[j].role != role
      {
        if rows[k].role == role {
          LookupInTwoSteps(agents, session, role, k);
          return Some(rows[k]);
        }
      }
      LookupInTwoSteps(agents, session, role, |rows|);
      a := None;
    }

    method ResolveSessionId(session: string) returns (sid: Option<string>)
      ensures sid == ResolveSession(sessions, session)
    {
      match ParseSession(session) {
        case None => sid := None;
        case Some((slug, slot)) =>
          var i := SessionRow(sessions, slug, slot);
          sid := if i < |sessions| then Some(sessions[i].id) else None;
      }
    }

    method UpdateWorkItemStatus(id: string, status: WorkStatus, now: nat)
      modifies `items
      ensures items == UpdateItem(old(items), id, status, now)
    {
      items := UpdateItem(items, id, status, now);
    }

    method UpdateAgentStatus(id: string, status: AgentStatus, now: nat)
      modifies `agents
      ensures agents == PatchAgents(old(agents), id, SetStatus(status, now))
    {
      agents := PatchAgents(agents, id, SetStatus(status, now));
    }

    method MarkAgentSignal(id: string, task: Option<string>, busy: bool, now: nat)
      modifies `agents
      ensures agents == PatchAgents(old(agents), id, Signal(task, busy, now))
    {
      agents := PatchAgents(agents, id, Signal(task, busy, now));
    }

    method ClearAgentActiveTask(id: string)
      modifies `agents
      ensures agents == PatchAgents(old(agents), id, ClearTask)
    {
      agents := PatchAgents(agents, id, ClearTask);
    }

    // -------------------------------------------------------------- dispatch and report

    method DispatchAndInject(session: string, from: string, to: string, task: string, summary: Text,
                             detail: Detail, env: Env)
      modifies this
      ensures Snap() == Inject(old(Snap()), session, from, to, task, summary, detail, env)
    {
      dispatches := dispatches + [DispatchRow(env.dispatchId, session, task, from, to, summary, detail, env.now)];
      var target := FindAgent(session, to);
      if target.Some? {
        MarkAgentSignal(target.value.id, Some(task), true, env.now);
        UpdateAgentStatus(target.value.id, Busy, env.now);
      }
    }

    /** A TypeScript-shaped blocker is sent to the repair role. */
    method Redecompose(r: StatusReport, env: Env)
      requires r.status == SBlocked
      modifies this
      ensures Snap() == AfterDispatches(old(Snap()), r, env)
    {
      if r.task.Some? && TypeScriptShaped(Evidence(r)) {
        DispatchAndInject(r.session, ORCHESTRATOR, REPAIR_ROLE, AutoFixId(r.task.value, MillisOf(env.now)),
                          RepairText(r.role, r.task.value, Evidence(r)), URGENT, env);
      }
    }

    /** A finished repair unblocks its parent and sends it back to the newest blocked role. */
    method ResumeParent(r: StatusReport, env: Env)
      requires r.status == SComplete
      modifies this
      ensures Snap() == AfterDispatches(old(Snap()), r, env)
    {
      if r.task.None? { return; }
      var parent := AutoFixParent(r.task.value);
      if parent.None? { return; }
      var i := NewestBlocked(items, parent.value, r.session, env.newestHint);
      if i < |items| {
        var role := items[i].role;
        items := Unblock(items, parent.value, r.session);
        DispatchAndInject(r.session, ORCHESTRATOR, role, parent.value, ResumeText, URGENT, env);
      }
    }

    method HandleAutoHeal(r: StatusReport, env: Env)
      modifies this
      ensures Snap() == AfterHeal(old(Snap()), r, env)
    {
      ghost var was := Snap();
      if r.status == SBlocked {
        Redecompose(r, env);
      } else if r.status == SComplete {
        ResumeParent(r, env);
      }
      assert Snap() == AfterDispatches(was, r, env);
      if PostsCard(r.status) {
        cards := InsertCard(cards, CardOf(r, env));
      }
    }

    /** Resolve the work item; if there is one, update it and file the acknowledgement. */
    method RecordOnWorkItem(id: string, r: StatusReport, env: Env)
      requires ReportReply(Snap(), r) == Done && id == Reporter(Snap(), r).id
      modifies `items, `acks
      ensures items == ReportItems(old(Snap()), r, env) && acks == ReportAcks(old(Snap()), r, env)
    {
      var workItem := r.assignment;
      if workItem.None? && r.task.Some? {
        var i := OpenItem(items, r.task.value, id, env.openHint);
        if i < |items| { workItem := Some(items[i].id); }
      }
      if workItem.Some? {
        UpdateWorkItemStatus(workItem.value, WorkStatusOf(r.status), env.now);
        var generation := match r.generation case Some(g) => g case None => 1;
        acks := acks + [Ack(env.ackId, workItem.value, id, r.status, generation, env.now)];
      }
    }

    /** Agent status first, then the busy flag, active task and silence clock. */
    method MarkReporter(id: string, r: StatusReport, env: Env, ghost was: Store)
      requires ReportReply(was, r) == Done && was.agents == agents && id == Reporter(was, r).id
      modifies `agents
      ensures agents == ReportAgents(was, r, env)
    {
      UpdateAgentStatus(id, AgentStatusOf(r.status), env.now);
      if r.status == SComplete || r.status == SFailed {
        ClearAgentActiveTask(id);
        MarkAgentSignal(id, None, false, env.now);
      } else {
        MarkAgentSignal(id, r.task, true, env.now);
      }
    }

    method PostReport(r: StatusReport, env: Env)
      modifies `inbox
      ensures inbox == ReportInbox(old(Snap()), r, env)
    {
      var sid := ResolveSessionId(r.session);
      if sid.Some? { inbox := inbox + [ReportMessage(sid.value, r, env)]; }
    }

    /** The agent lookup and the generation check. */
    method CheckReport(r: StatusReport) returns (reply: Reply, id: string)
      ensures reply == ReportReply(Snap(), r)
      ensures reply == Done ==> id == Reporter(Snap(), r).id
    {
      var agent := FindAgent(r.session, r.role);
      if agent.None? { return NoAgent, ""; }
      if r.assignment.Some? && r.generation.Some? {
        var l := LatestLease(leases, r.assignment.value);
        if l < |leases| && leases[l].generation != r.generation.value { return StaleGeneration, ""; }
      }
      return Done, agent.value.id;
    }

    method HandleReportStatus(r: StatusReport, env: Env) returns (reply: Reply)
      modifies this
      ensures reply == ReportReply(old(Snap()), r)
      ensures Snap() == Report(old(Snap()), r, env)
    {
      ghost var was := Snap();
      var id: string;
      reply, id := CheckReport(r);
      if reply != Done { return; }
      RecordOnWorkItem(id, r, env);
      MarkReporter(id, r, env, was);
      PostReport(r, env);
      assert Snap() == BeforeHeal(was, r, env);
      ReportInTwoParts(was, r, env);
      HandleAutoHeal(r, env);
    }

    /** A summary for an ack that came without a telling one. */
    method AckSummary(session: string, role: string, hint: nat) returns (summary: string)
      ensures summary == StatusSummary(Snap(), session, role, hint)
    {
      if role == "" || session == "" { return AWAITING; }
      var agent := FindAgent(session, role);
      if agent.None? { return AWAITING; }
      var i := NewestActive(items, agent.value.id, hint);
      summary := if i < |items| then ActiveText(items[i]) else AWAITING;
    }

    /** `devorch_ack`: a report with the status fixed and a summary that says something. */
    method HandleAck(r: StatusReport, env: Env, hint: nat) returns (reply: Reply)
      modifies this
      ensures reply == ReportReply(old(Snap()), AckReport(old(Snap()), r, hint))
      ensures Snap() == Report(old(Snap()), AckReport(old(Snap()), r, hint), env)
    {
      var summary := r.summary;
      if SaysNothing(r.summary) {
        var s := AckSummary(r.session, r.role, hint);
        summary := Some(s);
      }
      reply := HandleReportStatus(r.(status := SAck, summary := summary), env);
    }

    /** `devorch_blocker`: as a report, with a summary of its own when none is given. */
    method HandleBlocker(r: StatusReport, env: Env) returns (reply: Reply)
      modifies this
      ensures reply == ReportReply(old(Snap()), BlockerReport(r))
      ensures Snap() == Report(old(Snap()), BlockerReport(r), env)
    {
      reply := HandleReportStatus(BlockerReport(r), env);
    }

    method DispatchTask(d: DispatchCall, env: Env) returns (ok: bool)
      modifies this
      ensures ok == DispatchAccepted(d)
      ensures Snap() == Dispatch(old(Snap()), d, env)
    {
      if d.session == "" || d.from == "" || d.to == "" || d.task == "" || d.summary == "" { return false; }
      if d.to !in WORKER_ROLES { return false; }
      var target := FindAgent(d.session, d.to);
      if target.Some? {
        items := items + [NewItem(target.value, d, env)];
      }
      DispatchAndInject(d.session, d.from, d.to, d.task, Plain(d.summary), DetailOf(d), env);
      ok := true;
    }

    method HandlePeerMessage(m: PeerMessage, env: Env) returns (ok: bool)
      modifies this
      ensures ok == PeerAccepted(old(Snap()), m)
      ensures Snap() == Peer(old(Snap()), m, env)
    {
      var target := FindAgent(m.session, m.to);
      if target.None? { return false; }
      if m.to == ORCHESTRATOR {
        var sid := ResolveSessionId(m.session);
        if sid.Some? { inbox := inbox + [PeerRow(sid.value, m, env)]; }
      } else {
        MarkAgentSignal(target.value.id, None, true, env.now);
      }
      ok := true;
    }

    /** `devorch_ping`: a peer message with fixed wording. */
    method HandlePing(m: PeerMessage, env: Env) returns (ok: bool)
      modifies this
      ensures ok == PeerAccepted(old(Snap()), m)
      ensures Snap() == Peer(old(Snap()), m.(info := "ping", requested := Some("status_update")), env)
    {
      ok := HandlePeerMessage(m.(info := "ping", requested := Some("status_update")), env);
    }

    // -------------------------------------------------------------- inbox and events

    /** Clears the named messages, whatever session they are in and even when the session is
        unknown, then reads what is left unread for the session in order of arrival. */
    method OrchestratorInbox(session: string, clearIds: seq<string>) returns (answer: InboxAnswer)
      modifies `inbox
      ensures inbox == if session == "" then old(inbox) else ClearMessages(old(inbox), clearIds)
      ensures answer.BadRequest? <==> session == "" || ParseSession(session).None?
      ensures answer.UnknownSession?
         <==> session != "" && ParseSession(session).Some? && ResolveSession(sessions, session).None?
      ensures answer.Messages? ==> ResolveSession(sessions, session).Some?
      ensures answer.Messages? ==> IsReading(answer.rows, inbox, ResolveSession(sessions, session).value)
    {
      if session == "" { return BadRequest; }
      for i := 0 to |clearIds|
        invariant inbox == ClearMessages(old(inbox), clearIds[..i])
      {
        assert clearIds[..i + 1] == clearIds[..i] + [clearIds[i]];
        inbox := ClearMessages(inbox, [clearIds[i]]);
      }
      assert clearIds[..|clearIds|] == clearIds;
      if ParseSession(session).None? { return BadRequest; }
      var sid := ResolveSessionId(session);
      if sid.None? { return UnknownSession; }
      var rows := SortedUnread(inbox, sid.value);
      answer := Messages(rows);
    }

    method HandleEventSubscribe(session: string, role: string, event: string) returns (ok: bool)
      modifies `subs
      ensures ok <==> session != "" && role != "" && event != ""
      ensures Snap() == Subscribe(old(Snap()), Subscription(session, event, role))
    {
      if session == "" || role == "" || event == "" { return false; }
      subs := InsertSubscription(subs, Subscription(session, event, role));
      ok := true;
    }

    /** The fan-out count: one for each subscribed role whose agent is busy. */
    method PublishEvent(session: string, event: string) returns (count: nat)
      ensures count == |Reached(subs, agents, session, event)|
    {
      count := 0;
      for i := 0 to |subs|
        invariant count == |Reached(subs[..i], agents, session, event)|
      {
        assert subs[..i + 1][..i] == subs[..i];
        if subs[i].session == session && subs[i].event == event {
          var agent := FindAgent(session, subs[i].role);
          if agent.Some? && agent.value.status == Busy { count := count + 1; }
        }
      }
      assert subs[..|subs|] == subs;
    }

    // -------------------------------------------------------------- nudges

    /** The scan; `stamps` are the readings of the clock as each row is stamped. */
    method NudgeOnce(now: nat, stamps: seq<nat>, ids: seq<string>)
      requires |ids| == |stamps| == |agents| && UniqueAgents(agents)
      modifies `agents, `inbox
      ensures Snap() == StampedScan(old(Snap()), now, stamps, ids)
    {
      var rows := agents;
      for i := 0 to |rows|
        invariant StampedUpTo(agents, rows, now, stamps, i)
        invariant inbox == old(inbox) + NudgeMessages(rows[..i], now, ids[..i])
      {
        MessagesNext(rows, i, now, ids);
        StampedNext(agents, rows, now, stamps, i);
        var a := rows[i];
        if !(a.busy && a.activeTask.Some?) { continue; }
        if Since(now, a.signalAt) <= NUDGE_SILENCE_MS { continue; }
        if Since(now, a.nudgeAt) <= NUDGE_THROTTLE_MS { continue; }
        agents := PatchAgents(agents, a.id, Nudged(stamps[i]));
        inbox := inbox + [NudgeMessage(a, now, ids[i])];
      }
      assert rows[..|rows|] == rows && ids[..|ids|] == ids;
      assert agents == StampedRows(rows, now, stamps);
    }

    // -------------------------------------------------------------- launch and stop

    method Register(c: Launch.LaunchCall) returns (ok: bool)
      requires Launch.WellFormed(c)
      modifies this
      ensures ok <==> !Launch.SessionExists(old(sessions), Launch.SessionOf(c))
      ensures Snap() == Launch.Register(old(Snap()), c)
    {
      if Launch.SessionExists(sessions, Launch.SessionOf(c)) { return false; }
      sessions := sessions + [Session(Launch.SessionOf(c), c.name, c.number, Active, c.now)];
      for i := 0 to Launch.PaneCount(c)
        invariant agents == Launch.InsertAgents(old(agents), c, i)
        invariant targets == Launch.InsertTargets(old(targets), c, i)
        invariant Snap() == old(Snap()).(sessions := sessions, agents := agents, targets := targets)
        invariant sessions == old(sessions) + [Session(Launch.SessionOf(c), c.name, c.number, Active, c.now)]
      {
        agents := InsertAgent(agents, Launch.AgentRow(c, i));
        targets := Launch.Without(targets, c.ids[i])
                   + [Target(c.ids[i], c.iterms[i], Some(c.iterms[i]), Ready, Some(c.now))];
      }
      ok := true;
    }

    /** `surface_codex_launch_errors`, for one role whose pane shows the error. */
    method MarkLaunchError(session: string, role: string, now: nat)
      modifies `agents
      ensures Snap() == Launch.LaunchError(old(Snap()), session, role, now)
    {
      var agent := FindAgent(session, role);
      if agent.Some? { UpdateAgentStatus(agent.value.id, Failed, now); }
    }

    /** `get_active_sessions`, as a scan of the table. */
    method GetActiveSessions() returns (ids: seq<string>)
      ensures ids == ActiveSessions.ActiveIds(sessions)
    {
      ids := [];
      for i := 0 to |sessions|
        invariant ids == ActiveSessions.ActiveIds(sessions[..i])
      {
        assert sessions[..i + 1][..i] == sessions[..i];
        if sessions[i].status == Active { ids := ids + [sessions[i].id]; }
      }
      assert sessions[..|sessions|] == sessions;
    }

    /** Deletes the leases of the session's agents, agent by agent, and counts them. */
    method DeleteLeasesBySessionAgents(session: string) returns (removed: nat)
      modifies `leases
      ensures leases == Launch.RemoveLeases(old(leases), Launch.SessionAgents(agents, session))
      ensures removed == |old(leases)| - |leases|
    {
      var rows := Launch.SessionAgents(agents, session);
      removed := 0;
      RemoveNoLeases(leases);
      for i := 0 to |rows|
        invariant leases == Launch.RemoveLeases(old(leases), rows[..i])
        invariant removed == |old(leases)| - |leases|
      {
        var left := Launch.RemoveLeases(leases, [rows[i]]);
        RemoveLeasesTwice(old(leases), rows[..i], rows[i]);
        assert rows[..i + 1] == rows[..i] + [rows[i]];
        RemovedShrink(leases, [rows[i]]);
        removed := removed + (|leases| - |left|);
        leases := left;
      }
      assert rows[..|rows|] == rows;
    }

    method StopSession(session: string) returns (ok: bool)
      modifies this
      ensures ok <==> Launch.SessionExists(old(sessions), session)
      ensures Snap() == Launch.StopSession(old(Snap()), session)
    {
      if !Launch.SessionExists(sessions, session) { return false; }
      var removed := DeleteLeasesBySessionAgents(session);
      sessions := SetSessionStatus(sessions, session, Stopped);
      ok := true;
    }
  }

  lemma {:induction false} RemovedShrink(leases: seq<Lease>, a: seq<Agent>)
    ensures |Launch.RemoveLeases(leases, a)| <= |leases|
  {
    if leases != [] { RemovedShrink(leases[..|leases| - 1], a); }
  }
}
