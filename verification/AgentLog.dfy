/** The changing columns of the agent rows as a replay: what each call does to an agent is
    written out here column by column, and over every run the rows are the fold of it. */
module AgentLog {
  import opened Base
  import opened Tables
  import opened Squad
  import opened Runs
  import opened NudgeInbox
  import Doctor
  import Launch

  /** What happens to an agent. */
  datatype Event =
    | Created(at: nat)
    | Reports(status: Status, task: Option<string>, at: nat)
    | Dispatched(to: string, at: nat)
    | Messaged(at: nat)
    | RunMissing(at: nat)
    | LaunchFailed(at: nat)
    | NudgedAt(at: nat)

  datatype AgentState = AgentState(status: AgentStatus, seenAt: Option<nat>, busy: bool, task: Option<string>,
                                   signalAt: Option<nat>, nudgeAt: Option<nat>)

  function StateOf(a: Agent): AgentState
  {
    AgentState(a.status, a.seenAt, a.busy, a.activeTask, a.signalAt, a.nudgeAt)
  }

  function Entered(st: AgentState, e: Event): AgentState
  {
    match e
    case Created(at) => AgentState(Idle, Some(at), false, None, None, None)
    case Reports(SComplete, _, at) => AgentState(Idle, Some(at), false, None, Some(at), st.nudgeAt)
    case Reports(SFailed, _, at) => AgentState(Failed, Some(at), false, None, Some(at), st.nudgeAt)
    case Reports(s, task, at) =>
      AgentState(if s == SBlocked || s == SDegraded then Degraded else Busy, Some(at), true,
                 if task.Some? then task else st.task, Some(at), st.nudgeAt)
    case Dispatched(task, at) => AgentState(Busy, Some(at), true, Some(task), Some(at), st.nudgeAt)
    case Messaged(at) => st.(busy := true, signalAt := Some(at))
    case RunMissing(at) => st.(status := Degraded, seenAt := Some(at))
    case LaunchFailed(at) => st.(status := Failed, seenAt := Some(at))
    case NudgedAt(at) => st.(nudgeAt := Some(at))
  }

  function Folded(st: AgentState, events: seq<Event>): AgentState
    decreases |events|
  {
    if events == [] then st else Folded(Entered(st, events[0]), events[1..])
  }

  lemma {:induction false} FoldedJoin(st: AgentState, a: seq<Event>, b: seq<Event>)
    ensures Folded(st, a + b) == Folded(Folded(st, a), b)
    decreases |a|
  {
    if a == [] {
      assert a + b == b;
    } else {
      assert (a + b)[0] == a[0] && (a + b)[1..] == a[1..] + b;
      FoldedJoin(Entered(st, a[0]), a[1..], b);
    }
  }

  lemma FoldedOne(st: AgentState, e: Event)
    ensures Folded(st, [e]) == Entered(st, e) && Folded(st, []) == st
  {
    assert [e][1..] == [];
  }

  // ---------------------------------------------------------------- what a call does to a row

  /** The event of a dispatch row for the agent it is addressed to. */
  function ByDispatch(rows: seq<DispatchRow>, a: Agent): seq<Event>
  {
    if rows != [] && a.session == rows[0].session && a.role == rows[0].to
    then [Dispatched(rows[0].task, rows[0].at)] else []
  }

  function NewDispatches(db: Store, r: StatusReport, env: Env): seq<DispatchRow>
  {
    var after := Report(db, r, env).dispatches;
    if |db.dispatches| <= |after| then after[|db.dispatches|..] else []
  }

  predicate ActiveSession(sessions: seq<Session>, id: string)
  {
    exists i | 0 <= i < |sessions| :: sessions[i].id == id && sessions[i].status == Active
  }

  /** The events of one call for one agent row, in order. */
  function EventsFor(db: Store, s: Step, a: Agent): seq<Event>
  {
    match s
    case DoReport(r, env) =>
      if ReportReply(db, r) != Done then []
      else (if a.session == r.session && a.role == r.role then [Reports(r.status, r.task, env.now)] else [])
           + ByDispatch(NewDispatches(db, r, env), a)
    case DoDispatch(d, env) =>
      if DispatchAccepted(d) && a.session == d.session && a.role == d.to then [Dispatched(d.task, env.now)] else []
    case DoPeer(m, env) =>
      if m.to != "orchestrator" && a.session == m.session && a.role == m.to then [Messaged(env.now)] else []
    case DoNudge(now, _) => if IsDue(a, now) then [NudgedAt(now)] else []
    case DoDoctor(env) =>
      if ActiveSession(db.sessions, a.session) && a.session !in env.discovered then [RunMissing(env.now)] else []
    case DoLaunchError(session, role, now) =>
      if a.session == session && a.role == role then [LaunchFailed(now)] else []
    case _ => []
  }

  /** With unique lease keys the row found for (session, role) is the only one. */
  lemma OnlyHolder(agents: seq<Agent>, session: string, role: string, i: nat)
    requires UniqueAgents(agents) && i < |agents|
    ensures Holds(agents[i], session, role) <==> RowFor(agents, session, role) == i
  {
  }

  lemma PatchedAt(agents: seq<Agent>, session: string, role: string, p: Patch, i: nat)
    requires UniqueAgents(agents) && i < |agents| && RowFor(agents, session, role) < |agents|
    ensures PatchAgents(agents, agents[RowFor(agents, session, role)].id, p)[i]
         == if Holds(agents[i], session, role) then Patched(agents[i], p) else agents[i]
  {
    OnlyHolder(agents, session, role, i);
  }

  lemma AssignedAt(agents: seq<Agent>, session: string, role: string, task: string, now: nat, i: nat)
    requires UniqueAgents(agents) && i < |agents|
    ensures StateOf(Assigned(agents, session, role, task, now)[i])
         == if Holds(agents[i], session, role) then Entered(StateOf(agents[i]), Dispatched(task, now))
            else StateOf(agents[i])
  {
    OnlyHolder(agents, session, role, i);
  }

  lemma ReporterAt(db: Store, r: StatusReport, env: Env, i: nat)
    requires ReportReply(db, r) == Done && UniqueAgents(db.agents) && i < |db.agents|
    ensures |ReportAgents(db, r, env)| == |db.agents|
    ensures StateOf(ReportAgents(db, r, env)[i])
         == if Holds(db.agents[i], r.session, r.role)
            then Entered(StateOf(db.agents[i]), Reports(r.status, r.task, env.now)) else StateOf(db.agents[i])
  {
    OnlyHolder(db.agents, r.session, r.role, i);
    ReportAgentsAt(db, r, env, i);
    ReportedColumns(db.agents[i], r, env.now);
  }

  lemma ReportedColumns(a: Agent, r: StatusReport, now: nat)
    ensures StateOf(ReportedRow(a, r, now)) == Entered(StateOf(a), Reports(r.status, r.task, now))
  {
  }

  lemma HealedAt(agents: seq<Agent>, r: StatusReport, heal: Heal, env: Env, i: nat)
    requires UniqueAgents(agents) && i < |agents|
    ensures StateOf(HealAgents(agents, r.session, heal, env.now)[i])
         == Folded(StateOf(agents[i]), ByDispatch(HealRows(r, heal, env), agents[i]))
  {
    match heal {
      case NoHeal =>
      case Redecompose(task) =>
        AssignedAt(agents, r.session, REPAIR_ROLE, task, env.now, i);
        FoldedOne(StateOf(agents[i]), Dispatched(task, env.now));
      case Resume(parent, role) =>
        AssignedAt(agents, r.session, role, parent, env.now, i);
        FoldedOne(StateOf(agents[i]), Dispatched(parent, env.now));
    }
  }

  lemma DispatchesAdded(db: Store, r: StatusReport, env: Env)
    requires ReportReply(db, r) == Done
    ensures NewDispatches(db, r, env) == HealRows(r, Decision(db, r, env), env)
  {
    assert Report(db, r, env).dispatches == db.dispatches + HealRows(r, Decision(db, r, env), env);
  }

  lemma ReportEvents(db: Store, r: StatusReport, env: Env, heal: Heal, i: nat)
    requires ReportReply(db, r) == Done && UniqueAgents(db.agents) && RowsOk(db.agents) && i < |db.agents|
    ensures |Reported(db, r, env, heal).agents| == |db.agents|
    ensures var a := db.agents[i];
            var own := if a.session == r.session && a.role == r.role then [Reports(r.status, r.task, env.now)] else [];
            StateOf(Reported(db, r, env, heal).agents[i])
            == Folded(StateOf(a), own + ByDispatch(HealRows(r, heal, env), a))
  {
    var a, mid := db.agents[i], ReportAgents(db, r, env);
    var own := if a.session == r.session && a.role == r.role then [Reports(r.status, r.task, env.now)] else [];
    ReportAgentRows(db, r, env);
    UniqueFromKeys(db.agents, mid);
    ReporterAt(db, r, env, i);
    FoldedOne(StateOf(a), Reports(r.status, r.task, env.now));
    HealedAt(mid, r, heal, env, i);
    assert SameKey(a, mid[i]);
    FoldedJoin(StateOf(a), own, ByDispatch(HealRows(r, heal, env), a));
  }

  lemma PeerEvents(db: Store, m: PeerMessage, env: Env, i: nat)
    requires UniqueAgents(db.agents) && i < |db.agents|
    ensures |Peer(db, m, env).agents| == |db.agents|
    ensures StateOf(Peer(db, m, env).agents[i])
         == Folded(StateOf(db.agents[i]), EventsFor(db, DoPeer(m, env), db.agents[i]))
  {
    OnlyHolder(db.agents, m.session, m.to, i);
    if PeerAccepted(db, m) { PatchedAt(db.agents, m.session, m.to, Signal(None, true, env.now), i); }
    FoldedOne(StateOf(db.agents[i]), Messaged(env.now));
  }

  lemma NudgeEvents(agents: seq<Agent>, now: nat, i: nat)
    requires i < |agents|
    ensures StateOf(NudgedRows(agents, now)[i])
         == Folded(StateOf(agents[i]), if IsDue(agents[i], now) then [NudgedAt(now)] else [])
  {
    DueIsNudged(agents[i], now);
    FoldedOne(StateOf(agents[i]), NudgedAt(now));
  }

  lemma DoctorEvents(db: Store, env: Doctor.DoctorEnv, i: nat)
    requires i < |db.agents|
    ensures StateOf(Doctor.PassAgents(db, env)[i])
         == Folded(StateOf(db.agents[i]), EventsFor(db, DoDoctor(env), db.agents[i]))
  {
    FoldedOne(StateOf(db.agents[i]), RunMissing(env.now));
  }

  lemma LaunchErrorEvents(db: Store, session: string, role: string, now: nat, i: nat)
    requires UniqueAgents(db.agents) && i < |db.agents|
    ensures |Launch.LaunchError(db, session, role, now).agents| == |db.agents|
    ensures StateOf(Launch.LaunchError(db, session, role, now).agents[i])
         == Folded(StateOf(db.agents[i]), EventsFor(db, DoLaunchError(session, role, now), db.agents[i]))
  {
    OnlyHolder(db.agents, session, role, i);
    if RowFor(db.agents, session, role) < |db.agents| {
      PatchedAt(db.agents, session, role, SetStatus(Failed, now), i);
    }
    FoldedOne(StateOf(db.agents[i]), LaunchFailed(now));
  }

  lemma DispatchEvents(db: Store, d: DispatchCall, env: Env, i: nat)
    requires UniqueAgents(db.agents) && i < |db.agents|
    ensures |Dispatch(db, d, env).agents| == |db.agents|
    ensures StateOf(Dispatch(db, d, env).agents[i])
         == Folded(StateOf(db.agents[i]), EventsFor(db, DoDispatch(d, env), db.agents[i]))
  {
    AssignedAt(db.agents, d.session, d.to, d.task, env.now, i);
    FoldedOne(StateOf(db.agents[i]), Dispatched(d.task, env.now));
  }

  lemma LaunchKeepsRows(db: Store, c: Launch.LaunchCall, i: nat)
    requires Launch.WellFormed(c) && UniqueAgents(db.agents) && RowsOk(db.agents) && i < |db.agents|
    ensures i < |Launch.Register(db, c).agents| && Launch.Register(db, c).agents[i] == db.agents[i]
  {
    InsertKeepsUnique(db.agents, c, Launch.PaneCount(c));
    var r := Launch.InsertAgents(db.agents, c, Launch.PaneCount(c));
    assert r[i] == r[..|db.agents|][i];
  }

  /** One call does to each row exactly its events. */
  lemma StepEvents(db: Store, s: Step, i: nat)
    requires Fresh(db, s) && UniqueAgents(db.agents) && RowsOk(db.agents) && i < |db.agents|
    ensures i < |Apply(db, s).agents|
    ensures StateOf(Apply(db, s).agents[i]) == Folded(StateOf(db.agents[i]), EventsFor(db, s, db.agents[i]))
  {
    match s {
      case DoLaunch(c) => LaunchKeepsRows(db, c, i);
      case DoDispatch(d, env) => DispatchEvents(db, d, env, i);
      case DoReport(r, env) =>
        if ReportReply(db, r) == Done {
          DispatchesAdded(db, r, env);
          ReportEvents(db, r, env, Decision(db, r, env), i);
        }
      case DoPeer(m, env) => PeerEvents(db, m, env, i);
      case DoNudge(now, _) => NudgeEvents(db.agents, now, i);
      case DoDoctor(env) => DoctorEvents(db, env, i);
      case DoLaunchError(session, role, now) => LaunchErrorEvents(db, session, role, now, i);
      case _ =>
    }
  }

  // ---------------------------------------------------------------- over runs

  /** The events of one call for row `i`, its creation included. */
  function EventsAt(db: Store, s: Step, i: nat): seq<Event>
    requires Fresh(db, s)
  {
    if i < |db.agents| then EventsFor(db, s, db.agents[i])
    else if s.DoLaunch? && i < |Apply(db, s).agents| then [Created(s.launch.now)]
    else []
  }

  function History(db: Store, run: seq<Step>, i: nat): seq<Event>
    requires FreshRun(db, run)
    decreases |run|
  {
    if run == [] then [] else EventsAt(db, run[0], i) + History(Apply(db, run[0]), run[1..], i)
  }

  lemma {:induction false} CreatedRows(agents: seq<Agent>, c: Launch.LaunchCall, n: nat, i: nat)
    requires Launch.WellFormed(c) && n <= Launch.PaneCount(c) && |agents| <= i < |Launch.InsertAgents(agents, c, n)|
    ensures StateOf(Launch.InsertAgents(agents, c, n)[i]) == AgentState(Idle, Some(c.now), false, None, None, None)
  {
    if n > 0 && i < |Launch.InsertAgents(agents, c, n - 1)| { CreatedRows(agents, c, n - 1, i); }
  }

  lemma NewRowEvents(db: Store, s: Step, i: nat, st: AgentState)
    requires Fresh(db, s) && UniqueAgents(db.agents) && RowsOk(db.agents) && |db.agents| <= i < |Apply(db, s).agents|
    ensures StateOf(Apply(db, s).agents[i]) == Folded(st, EventsAt(db, s, i))
  {
    if s.DoLaunch? {
      CreatedRows(db.agents, s.launch, Launch.PaneCount(s.launch), i);
      FoldedOne(st, Created(s.launch.now));
    } else {
      RowsKeptUnlessLaunch(db, s);
    }
  }

  /** In every run each agent row is the fold of what happened to it: its creation, its
      reports, dispatches to it by hand or by auto-heal, messages, nudges, doctor passes that
      missed its run, and launch errors. `st` is the row at the start, if it was there. */
  lemma {:induction false} AgentLogReplay(db: Store, run: seq<Step>, i: nat, st: AgentState)
    requires FreshRun(db, run) && UniqueAgents(db.agents) && RowsOk(db.agents)
    requires i < |db.agents| ==> st == StateOf(db.agents[i])
    requires i < |Run(db, run).agents|
    ensures StateOf(Run(db, run).agents[i]) == Folded(st, History(db, run, i))
    decreases |run|
  {
    if run == [] {
      assert Run(db, run) == db;
    } else {
      var next := Apply(db, run[0]);
      AgentsStep(db, run[0]);
      var events := EventsAt(db, run[0], i);
      if i < |db.agents| { StepEvents(db, run[0], i); }
      else if i < |next.agents| { NewRowEvents(db, run[0], i, st); }
      AgentLogReplay(next, run[1..], i, Folded(st, events));
      FoldedJoin(st, events, History(next, run[1..], i));
    }
  }

  /** One accepted report, column by column. `k` is the reporter's row, and no dispatch that
      auto-heal adds is for that row. */
  lemma ReportSetsColumns(db: Store, r: StatusReport, env: Env, k: nat)
    requires ReportReply(db, r) == Done && UniqueAgents(db.agents) && RowsOk(db.agents)
    requires k < |db.agents| && db.agents[k].session == r.session && db.agents[k].role == r.role
    requires ByDispatch(NewDispatches(db, r, env), db.agents[k]) == []
    ensures k < |Report(db, r, env).agents|
    ensures var was, now := db.agents[k], Report(db, r, env).agents[k];
            && (r.status == SComplete ==> now.status == Idle && !now.busy && now.activeTask == None)
            && (r.status == SFailed ==> now.status == Failed && !now.busy && now.activeTask == None)
            && (r.status == SBlocked || r.status == SDegraded ==> now.status == Degraded)
            && (r.status !in {SComplete, SFailed, SBlocked, SDegraded} ==> now.status == Busy)
            && (r.status !in {SComplete, SFailed} ==>
                 now.busy && now.activeTask == if r.task.Some? then r.task else was.activeTask)
            && now.signalAt == Some(env.now) && now.seenAt == Some(env.now) && now.nudgeAt == was.nudgeAt
  {
    var own := [Reports(r.status, r.task, env.now)];
    StepEventsOfReport(db, r, env, k);
    assert own + [] == own;
    FoldedOne(StateOf(db.agents[k]), own[0]);
  }

  lemma StepEventsOfReport(db: Store, r: StatusReport, env: Env, k: nat)
    requires ReportReply(db, r) == Done && UniqueAgents(db.agents) && RowsOk(db.agents) && k < |db.agents|
    ensures k < |Report(db, r, env).agents|
    ensures StateOf(Report(db, r, env).agents[k])
         == Folded(StateOf(db.agents[k]), EventsFor(db, DoReport(r, env), db.agents[k]))
  {
    DispatchesAdded(db, r, env);
    ReportEvents(db, r, env, Decision(db, r, env), k);
  }
}
