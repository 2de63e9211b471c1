/** What each call leaves in the tables, column by column and across calls: rows written here
    as literals, so that a changed word, default or column shows. Agent columns are those of
    the agent log; here are items, dispatches, acknowledgements, cards, subscriptions, leases
    and the rows of a launch. */
module Effects {
  import opened Base
  import opened Codecs
  import opened Tables
  import opened Squad
  import opened Runs
  import opened Items
  import opened Inbox
  import opened Relay
  import Launch

  // ---------------------------------------------------------------- dispatch

  /** A dispatch is accepted exactly when no field is empty and the target is a worker role. */
  lemma AcceptedExactly(d: DispatchCall)
    ensures DispatchAccepted(d)
       <==> d.session != "" && d.from != "" && d.to != "" && d.task != "" && d.summary != ""
            && d.to in {"ai", "dat", "sec", "ops", "plt", "ui", "doc", "qa"}
  {
  }

  /** An accepted dispatch writes its dispatch row and, when the target has an agent, a
      delivered work item for it; a refused one writes nothing. */
  lemma DispatchLeaves(db: Store, d: DispatchCall, env: Env)
    ensures !DispatchAccepted(d) ==> Dispatch(db, d, env) == db
    ensures DispatchAccepted(d) ==>
              var detail := Detail(d.files, d.nextAction, if d.priority.Some? then d.priority.value else "normal");
              var row := DispatchRow(env.dispatchId, d.session, d.task, d.from, d.to, Plain(d.summary),
                                     detail, env.now);
              && Dispatch(db, d, env).dispatches == db.dispatches + [row]
              && Dispatch(db, d, env) == db.(dispatches := db.dispatches + [row],
                                             items := Dispatch(db, d, env).items,
                                             agents := Dispatch(db, d, env).agents)
    ensures DispatchAccepted(d) ==>
              forall k :: 0 <= k < |db.agents| && k == RowFor(db.agents, d.session, d.to) ==>
                var detail := Detail(d.files, d.nextAction, if d.priority.Some? then d.priority.value else "normal");
                Dispatch(db, d, env).items
                == db.items + [WorkItem(env.itemId, d.session, d.to, db.agents[k].id, d.task, d.summary, detail,
                                        Delivered, env.now, None, None)]
    ensures RowFor(db.agents, d.session, d.to) == |db.agents| ==> Dispatch(db, d, env).items == db.items
  {
  }

  lemma AddedByHeal(db: Store, r: StatusReport, env: Env)
    requires ReportReply(db, r) == Done
    ensures Report(db, r, env).dispatches == db.dispatches + HealRows(r, Decision(db, r, env), env)
    ensures Decision(db, r, env).NoHeal? ==> Report(db, r, env).dispatches == db.dispatches
  {
  }

  lemma ResumedRole(items: seq<WorkItem>, r: StatusReport, env: Env) returns (n: nat)
    requires HealOf(items, r, env).Resume?
    ensures r.task.Some? && AutoFixParent(r.task.value) == Some(HealOf(items, r, env).parent)
    ensures IsNewestBlocked(items, HealOf(items, r, env).parent, r.session, n)
    ensures HealOf(items, r, env).role == items[n].role
  {
    n := NewestBlocked(items, HealOf(items, r, env).parent, r.session, env.newestHint);
  }

  /** A completed report adds at most the dispatch that puts the owner of the parent's newest
      blocked item back to work. */
  lemma ResumeLeaves(db: Store, r: StatusReport, env: Env) returns (parent: string, n: nat)
    requires ReportReply(db, r) == Done && r.status == SComplete
    requires Report(db, r, env).dispatches != db.dispatches
    ensures r.task.Some? && AutoFixParent(r.task.value) == Some(parent)
    ensures IsNewestBlocked(ReportItems(db, r, env), parent, r.session, n)
    ensures Report(db, r, env).dispatches
         == db.dispatches + [DispatchRow(env.dispatchId, r.session, parent, "orchestrator",
                                         ReportItems(db, r, env)[n].role, ResumeText,
                                         Detail([], None, "high"), env.now)]
  {
    AddedByHeal(db, r, env);
    parent := Decision(db, r, env).parent;
    n := ResumedRole(ReportItems(db, r, env), r, env);
  }

  /** Reports that are neither blocked nor complete dispatch nothing and resume nothing. */
  lemma OtherReportsDispatchNothing(db: Store, r: StatusReport, env: Env)
    requires ReportReply(db, r) == Done && r.status != SBlocked && r.status != SComplete
    ensures Report(db, r, env).dispatches == db.dispatches && Report(db, r, env).items == ReportItems(db, r, env)
  {
    AddedByHeal(db, r, env);
    assert Decision(db, r, env) == NoHeal;
  }

  // ---------------------------------------------------------------- reports

  /** The item is about the task, for the agent, and neither blocked, pending nor closed. */
  predicate Unfinished(it: WorkItem, task: string, agent: string)
  {
    it.task == task && it.agent == agent && it.status in {Leased, Delivered, Acked, InProgress}
  }

  predicate HasUnfinished(items: seq<WorkItem>, task: string, agent: string)
  {
    exists i | 0 <= i < |items| :: Unfinished(items[i], task, agent)
  }

  lemma OpenIsUnfinished(items: seq<WorkItem>, task: string, agent: string, hint: nat)
    ensures HasUnfinished(items, task, agent)
       <==> OpenItem(items, task, agent, hint) < |items|
    ensures HasUnfinished(items, task, agent) ==> Unfinished(items[OpenItem(items, task, agent, hint)], task, agent)
  {
    assert forall i :: 0 <= i < |items| ==> (OpenFor(items[i], task, agent) <==> Unfinished(items[i], task, agent));
  }

  /** A report without an assignment id updates an item iff it names a task of which the
      reporter has an unfinished item, and then one such item alone. */
  lemma UnassignedReportMoves(db: Store, r: StatusReport, env: Env)
    requires ReportReply(db, r) == Done && r.assignment.None? && UniqueItems(db.items)
    ensures ReportItem(db, r, env).Some? <==> r.task.Some? && HasUnfinished(db.items, r.task.value, Reporter(db, r).id)
    ensures |Report(db, r, env).acks| == |db.acks| + (if ReportItem(db, r, env).Some? then 1 else 0)
    ensures forall i :: 0 <= i < |db.items| && ReportItems(db, r, env)[i] != db.items[i] ==>
              r.task.Some? && Unfinished(db.items[i], r.task.value, Reporter(db, r).id)
    ensures forall i, j :: 0 <= i < j < |db.items| ==>
              ReportItems(db, r, env)[i] == db.items[i] || ReportItems(db, r, env)[j] == db.items[j]
  {
    if r.task.Some? {
      var task, id := r.task.value, Reporter(db, r).id;
      OpenIsUnfinished(db.items, task, id, env.openHint);
      var k := OpenItem(db.items, task, id, env.openHint);
      if k < |db.items| { OneItemUpdated(db.items, k, WorkStatusOf(r.status), env.now); }
    }
  }

  /** A report that resolves to an item files one acknowledgement of it, in the reporter's
      name, with the generation it gave or 1. */
  lemma AckLeaves(db: Store, r: StatusReport, env: Env, id: string)
    requires ReportReply(db, r) == Done && ReportItem(db, r, env) == Some(id)
    ensures var g := if r.generation.Some? then r.generation.value else 1;
            exists k :: 0 <= k < |db.agents| && db.agents[k].session == r.session && db.agents[k].role == r.role
              && Report(db, r, env).acks == db.acks + [Ack(env.ackId, id, db.agents[k].id, r.status, g, env.now)]
  {
    var k := RowFor(db.agents, r.session, r.role);
    assert db.agents[k].session == r.session && db.agents[k].role == r.role;
  }

  /** The card of a terminal report. */
  function CardId(r: StatusReport, now: nat): string
  {
    "card-" + (if r.task.Some? then r.task.value else "task") + "-" + r.role + "-" + Dec(now / 1_000_000)
  }

  predicate HasCard(cards: seq<Card>, id: string) { exists i | 0 <= i < |cards| :: cards[i].id == id }

  /** Complete, blocked and failed reports post one card each unless its id is taken; no other
      report does. */
  lemma CardLeaves(db: Store, r: StatusReport, env: Env)
    requires ReportReply(db, r) == Done
    ensures r.status !in {SComplete, SBlocked, SFailed} ==> Report(db, r, env).cards == db.cards
    ensures HasCard(db.cards, CardId(r, env.now)) ==> Report(db, r, env).cards == db.cards
    ensures r.status in {SComplete, SBlocked, SFailed} && !HasCard(db.cards, CardId(r, env.now)) ==>
              Report(db, r, env).cards == db.cards
                + [Card(CardId(r, env.now), r.session, r.role,
                        if r.status == SBlocked then TypeScriptCard else EnvironmentCard,
                        CardText(r.status, if r.summary.Some? then r.summary.value else ""), r.validation, env.now)]
  {
    assert CardOf(r, env).id == CardId(r, env.now);
  }

  /** A blocker about a task with an open item leaves one of its open items blocked. */
  lemma BlockerBlocksItem(db: Store, r: StatusReport, env: Env, task: string)
    requires ReportReply(db, r) == Done && UniqueItems(db.items) && r.task == Some(task) && r.assignment.None?
    requires HasUnfinished(db.items, task, Reporter(db, r).id)
    ensures exists k :: 0 <= k < |db.items| && Unfinished(db.items[k], task, Reporter(db, r).id)
              && Report(db, BlockerReport(r), env).items == db.items[k := db.items[k].(status := Blocked)]
  {
    var b := BlockerReport(r);
    assert ReportReply(db, b) == Done && Reporter(db, b) == Reporter(db, r);
    BlockedReportItems(db, b, env);
    BlockedItem(db, b, env, task);
  }

  lemma BlockedItem(db: Store, r: StatusReport, env: Env, task: string)
    requires ReportReply(db, r) == Done && UniqueItems(db.items) && r.task == Some(task) && r.assignment.None?
    requires r.status == SBlocked && HasUnfinished(db.items, task, Reporter(db, r).id)
    ensures exists k :: 0 <= k < |db.items| && Unfinished(db.items[k], task, Reporter(db, r).id)
              && ReportItems(db, r, env) == db.items[k := db.items[k].(status := Blocked)]
  {
    var k := OpenItem(db.items, task, Reporter(db, r).id, env.openHint);
    OpenIsUnfinished(db.items, task, Reporter(db, r).id, env.openHint);
    OneItemUpdated(db.items, k, Blocked, env.now);
    assert ReportItems(db, r, env) == db.items[k := db.items[k].(status := Blocked)];
  }

  lemma BlockedReportItems(db: Store, r: StatusReport, env: Env)
    requires ReportReply(db, r) == Done && r.status == SBlocked
    ensures Report(db, r, env).items == ReportItems(db, r, env)
  {
    assert !Decision(db, r, env).Resume?;
  }

  /** And is read back as blocked, with a summary of its own when none was given. */
  lemma BlockerIsReadBack(db: Store, r: StatusReport, env: Env, rows: seq<Message>)
    requires Housed(db) && ReportReply(db, r) == Done
    requires IsReading(rows, Report(db, BlockerReport(r), env).inbox, r.session)
    ensures exists m :: m in rows && m.role == r.role && m.task == r.task && m.status == SBlocked
              && (r.summary.Some? ==> m.summary == Some(Plain(r.summary.value)))
              && (r.summary.None? ==> m.summary == Some(Plain("Encountered a blocker")))
  {
    var b := BlockerReport(r);
    assert ReportReply(db, b) == Done;
    ReportIsReadBack(db, b, env, rows);
    var m :| m in rows && Tells(m, b, env);
  }

  lemma ActiveTextNames(it: WorkItem)
    ensures OccursAt(ActiveText(it), it.task, |ACTIVE_ON|)
  {
    var t := ActiveText(it);
    assert t == ACTIVE_ON + it.task + (" (" + it.summary + ")");
    assert t[|ACTIVE_ON|..|ACTIVE_ON| + |it.task|] == it.task;
  }

  /** The item is the agent's and not closed; blocked ones count. */
  predicate AtWork(it: WorkItem, agent: string)
  {
    it.agent == agent && it.status in {Leased, Delivered, Acked, InProgress, Blocked}
  }

  predicate NewestAtWork(items: seq<WorkItem>, agent: string, i: nat)
  {
    && i < |items| && AtWork(items[i], agent)
    && forall j :: 0 <= j < |items| && AtWork(items[j], agent) ==> items[j].createdAt <= items[i].createdAt
  }

  lemma ActiveIsAtWork(items: seq<WorkItem>, agent: string, i: nat)
    ensures IsNewestActive(items, agent, i) <==> NewestAtWork(items, agent, i)
  {
    assert forall j :: 0 <= j < |items| ==> (ActiveFor(items[j], agent) <==> AtWork(items[j], agent));
  }

  /** An ack without a summary is read back naming the task of the agent's newest active item. */
  lemma AckNamesNewestTask(db: Store, r: StatusReport, env: Env, hint: nat, rows: seq<Message>)
    requires Housed(db) && ReportReply(db, r) == Done && r.summary.None? && r.session != "" && r.role != ""
    requires exists i :: 0 <= i < |db.items| && AtWork(db.items[i], Reporter(db, r).id)
    requires IsReading(rows, Report(db, AckReport(db, r, hint), env).inbox, r.session)
    ensures exists m, i: nat, text, at: nat :: m in rows && m.role == r.role && m.status == SAck
              && NewestAtWork(db.items, Reporter(db, r).id, i)
              && m.summary == Some(Plain(text)) && OccursAt(text, db.items[i].task, at)
  {
    var a, i := AckReport(db, r, hint), NewestActive(db.items, Reporter(db, r).id, hint);
    assert exists j :: 0 <= j < |db.items| && ActiveFor(db.items[j], Reporter(db, r).id);
    ActiveIsAtWork(db.items, Reporter(db, r).id, i);
    assert Trim("") == "";
    assert a.summary == Some(ActiveText(db.items[i]));
    assert ReportReply(db, a) == Done;
    ReportIsReadBack(db, a, env, rows);
    var m :| m in rows && Tells(m, a, env);
    ActiveTextNames(db.items[i]);
  }

  // ---------------------------------------------------------------- subscriptions

  predicate Subscribes(s: Step, session: string, event: string, role: string)
  {
    s.DoSubscribe? && s.sub == Subscription(session, event, role) && session != "" && event != "" && role != ""
  }

  lemma SubscriptionStep(db: Store, s: Step, session: string, event: string, role: string)
    requires Fresh(db, s)
    ensures Subscription(session, event, role) in Apply(db, s).subs
       <==> Subscription(session, event, role) in db.subs || Subscribes(s, session, event, role)
  {
    if !s.DoSubscribe? { OtherStepsKeepSubs(db, s); }
  }

  lemma OtherStepsKeepSubs(db: Store, s: Step)
    requires Fresh(db, s) && !s.DoSubscribe?
    ensures Apply(db, s).subs == db.subs
  {
  }

  predicate SubscribedIn(run: seq<Step>, session: string, event: string, role: string)
  {
    exists k | 0 <= k < |run| :: Subscribes(run[k], session, event, role)
  }

  lemma {:induction false} SubscriptionsInRun(db: Store, run: seq<Step>, session: string, event: string, role: string)
    requires FreshRun(db, run)
    ensures Subscription(session, event, role) in Run(db, run).subs
       <==> Subscription(session, event, role) in db.subs || SubscribedIn(run, session, event, role)
    decreases |run|
  {
    if run != [] {
      SubscriptionStep(db, run[0], session, event, role);
      SubscriptionsInRun(Apply(db, run[0]), run[1..], session, event, role);
      assert forall k :: 0 < k < |run| ==> run[k] == run[1..][k - 1];
      assert forall k :: 0 <= k < |run| - 1 ==> run[1..][k] == run[k + 1];
    }
  }

  predicate BusyNow(agents: seq<Agent>, session: string, role: string)
  {
    exists i | 0 <= i < |agents| :: agents[i].session == session && agents[i].role == role && agents[i].status == Busy
  }

  /** A publication after any run reaches exactly the roles subscribed to the event in the run
      whose agent is busy by then. */
  lemma ReachedAfterRun(run: seq<Step>, session: string, event: string, role: string)
    requires FreshRun(EMPTY, run)
    ensures role in Reached(Run(EMPTY, run).subs, Run(EMPTY, run).agents, session, event)
       <==> SubscribedIn(run, session, event, role) && BusyNow(Run(EMPTY, run).agents, session, role)
  {
    var end := Run(EMPTY, run);
    AgentRowsInEveryRun(EMPTY, run);
    ReachedExactly(end.subs, end.agents, session, event, role);
    SubscriptionsInRun(EMPTY, run, session, event, role);
    BusyByLookup(end.agents, session, role);
  }

  lemma BusyByLookup(agents: seq<Agent>, session: string, role: string)
    requires UniqueAgents(agents)
    ensures IsBusyRole(agents, session, role) <==> BusyNow(agents, session, role)
  {
    var k := RowFor(agents, session, role);
    if BusyNow(agents, session, role) {
      var i :| 0 <= i < |agents| && agents[i].session == session && agents[i].role == role && agents[i].status == Busy;
      assert Holds(agents[i], session, role);
    }
  }

  // ---------------------------------------------------------------- launch

  /** Role of pane `i`. */
  function PaneRole(i: nat): string
    requires i < 9
  {
    ["orchestrator", "ai", "dat", "sec", "ops", "plt", "ui", "doc", "qa"][i]
  }

  /** Name of pane `i`, which is also its branch. */
  function PaneBranch(name: string, number: nat, i: nat): string
    requires i < 9
  {
    if i == 0 then name + "-" + Dec(number) else name + "-" + PaneRole(i) + "-" + Dec(number)
  }

  lemma PaneColumns(repo: string, name: string, number: nat, i: nat)
    requires i < 9
    ensures |Launch.Panes(repo, name, number)| == 9
    ensures Launch.Panes(repo, name, number)[i]
         == Launch.Window(PaneRole(i), PaneBranch(name, number, i),
                          repo + "/.claude/worktrees/" + (name + "-" + Dec(number)) + "/" + PaneBranch(name, number, i))
  {
  }

  /** The input pane works in the orchestrator's directory and gets no worktree of its own. */
  lemma InputPane(repo: string, name: string, number: nat)
    ensures |Launch.Windows(repo, name, number)| == 10
    ensures Launch.Windows(repo, name, number)[9]
         == Launch.Window("input", name + "-inp-" + Dec(number), Launch.Panes(repo, name, number)[0].dir)
  {
  }

  /** The row of pane `i` after a launch. */
  function LaunchedRow(c: Launch.LaunchCall, i: nat): Agent
    requires i < 9 && i < |c.ids|
  {
    var session, branch := c.name + "-" + Dec(c.number), PaneBranch(c.name, c.number, i);
    Agent(c.ids[i], session, PaneRole(i), c.repo + "/.claude/worktrees/" + session + "/" + branch, branch,
          Idle, Some(c.now), false, None, None, None)
  }

  lemma NewSessionIsUnregistered(db: Store, c: Launch.LaunchCall)
    requires Fresh(db, DoLaunch(c)) && Housed(db) && !Launch.SessionExists(db.sessions, Launch.SessionOf(c))
    ensures Launch.Unregistered(db.agents, c)
  {
    forall i | 0 <= i < |db.agents| ensures db.agents[i].session != Launch.SessionOf(c) {
      assert Launch.SessionExists(db.sessions, db.agents[i].session);
    }
  }

  lemma RowColumns(c: Launch.LaunchCall, i: nat)
    requires Launch.WellFormed(c) && i < Launch.PaneCount(c)
    ensures Launch.AgentRow(c, i) == LaunchedRow(c, i)
  {
    PaneColumns(c.repo, c.name, c.number, i);
  }

  /** A launch of a new session adds an active session row and, pane by pane, idle agents with
      their roles, directories and branches: nine, or one when it is solo. */
  lemma LaunchLeaves(db: Store, c: Launch.LaunchCall)
    requires Fresh(db, DoLaunch(c)) && Housed(db) && !Launch.SessionExists(db.sessions, Launch.SessionOf(c))
    ensures Launch.Register(db, c).sessions
         == db.sessions + [Session(c.name + "-" + Dec(c.number), c.name, c.number, Active, c.now)]
    ensures |Launch.Register(db, c).agents| == |db.agents| + (if c.solo then 1 else 9)
    ensures Launch.Register(db, c).agents[..|db.agents|] == db.agents
    ensures forall i :: 0 <= i < (if c.solo then 1 else 9) ==>
              Launch.Register(db, c).agents[|db.agents| + i] == LaunchedRow(c, i)
  {
    NewSessionIsUnregistered(db, c);
    var n := Launch.PaneCount(c);
    Launch.EveryPaneRegistered(db.agents, c, n);
    forall i | 0 <= i < n ensures Launch.Rows(c, n)[i] == LaunchedRow(c, i) { RowColumns(c, i); }
  }

  lemma WorkerPane(role: string) returns (i: nat)
    requires role in {"ai", "dat", "sec", "ops", "plt", "ui", "doc", "qa"}
    ensures 1 <= i < 9 && PaneRole(i) == role
  {
    i := if role == "ai" then 1 else if role == "dat" then 2 else if role == "sec" then 3
         else if role == "ops" then 4 else if role == "plt" then 5 else if role == "ui" then 6
         else if role == "doc" then 7 else 8;
  }

  /** After a full launch, however the run goes on, every accepted dispatch to the session
      finds an agent and adds a work item. */
  lemma FullLaunchServesWorkers(db: Store, c: Launch.LaunchCall, run: seq<Step>, d: DispatchCall, env: Env)
    requires Fresh(db, DoLaunch(c)) && Housed(db) && UniqueAgents(db.agents) && RowsOk(db.agents)
    requires !c.solo && !Launch.SessionExists(db.sessions, Launch.SessionOf(c))
    requires FreshRun(Launch.Register(db, c), run)
    requires DispatchAccepted(d) && d.session == c.name + "-" + Dec(c.number)
    ensures var mid := Run(Launch.Register(db, c), run);
            |Dispatch(mid, d, env).items| == |mid.items| + 1
  {
    var next := Launch.Register(db, c);
    AcceptedExactly(d);
    LaunchedWorker(db, c, d.to);
    assert next == Apply(db, DoLaunch(c));
    AgentsStep(db, DoLaunch(c));
    LookupLasts(next, run, d.session, d.to);
  }

  lemma LaunchedWorker(db: Store, c: Launch.LaunchCall, role: string)
    requires Fresh(db, DoLaunch(c)) && Housed(db)
    requires !c.solo && !Launch.SessionExists(db.sessions, Launch.SessionOf(c))
    requires role in {"ai", "dat", "sec", "ops", "plt", "ui", "doc", "qa"}
    ensures RowFor(Launch.Register(db, c).agents, c.name + "-" + Dec(c.number), role) < |Launch.Register(db, c).agents|
  {
    var i := WorkerPane(role);
    LaunchLeaves(db, c);
    assert Launch.Register(db, c).agents[|db.agents| + i] == LaunchedRow(c, i);
    assert Holds(LaunchedRow(c, i), c.name + "-" + Dec(c.number), role);
  }

  /** An agent found for a role is found after any run. */
  lemma LookupLasts(db: Store, run: seq<Step>, session: string, role: string)
    requires FreshRun(db, run) && UniqueAgents(db.agents) && RowsOk(db.agents)
    requires RowFor(db.agents, session, role) < |db.agents|
    ensures RowFor(Run(db, run).agents, session, role) < |Run(db, run).agents|
  {
    var k, mid := RowFor(db.agents, session, role), Run(db, run);
    AgentRowsInEveryRun(db, run);
    assert SameKey(db.agents[k], mid.agents[k]);
    assert Holds(mid.agents[k], session, role);
  }

  // ---------------------------------------------------------------- stop

  lemma {:induction false} SessionAgentsExact(agents: seq<Agent>, session: string, a: Agent)
    ensures a in Launch.SessionAgents(agents, session) <==> a in agents && a.session == session
  {
    if agents != [] {
      var n := |agents| - 1;
      SessionAgentsExact(agents[..n], session, a);
      assert agents == agents[..n] + [agents[n]];
    }
  }

  predicate HeldIn(l: Lease, agents: seq<Agent>, session: string)
  {
    exists a | a in agents :: a.session == session && a.id == l.agent
  }

  lemma HeldInSession(l: Lease, agents: seq<Agent>, session: string)
    ensures Launch.LeasedTo(l, Launch.SessionAgents(agents, session)) <==> HeldIn(l, agents, session)
  {
    var rows := Launch.SessionAgents(agents, session);
    if Launch.LeasedTo(l, rows) {
      var i :| 0 <= i < |rows| && rows[i].id == l.agent;
      SessionAgentsExact(agents, session, rows[i]);
    }
    if HeldIn(l, agents, session) {
      var a :| a in agents && a.session == session && a.id == l.agent;
      SessionAgentsExact(agents, session, a);
    }
  }

  lemma {:induction false} LeasesLeft(leases: seq<Lease>, agents: seq<Agent>, l: Lease)
    ensures l in Launch.RemoveLeases(leases, agents) <==> l in leases && !Launch.LeasedTo(l, agents)
  {
    if leases != [] {
      var n := |leases| - 1;
      LeasesLeft(leases[..n], agents, l);
      assert leases == leases[..n] + [leases[n]];
    }
  }

  /** Stopping a session marks it stopped, deletes exactly the leases its agents hold, and
      touches nothing else; stopping an unknown one touches nothing. */
  lemma StopLeaves(db: Store, session: string)
    ensures !Launch.SessionExists(db.sessions, session) ==> Launch.StopSession(db, session) == db
    ensures Launch.StopSession(db, session)
         == db.(sessions := Launch.StopSession(db, session).sessions, leases := Launch.StopSession(db, session).leases)
    ensures |Launch.StopSession(db, session).sessions| == |db.sessions|
    ensures forall i :: 0 <= i < |db.sessions| ==>
              Launch.StopSession(db, session).sessions[i]
              == if db.sessions[i].id == session then db.sessions[i].(status := Stopped) else db.sessions[i]
    ensures Launch.SessionExists(db.sessions, session) ==>
              forall l ::
                l in Launch.StopSession(db, session).leases <==> l in db.leases && !HeldIn(l, db.agents, session)
  {
    if Launch.SessionExists(db.sessions, session) {
      forall l
        ensures l in Launch.StopSession(db, session).leases <==> l in db.leases && !HeldIn(l, db.agents, session)
      {
        LeasesLeft(db.leases, Launch.SessionAgents(db.agents, session), l);
        HeldInSession(l, db.agents, session);
      }
    }
  }
}
