/** Coarse runs: any sequence of accepted or refused calls, each one atomic step. */
module Runs {
  import opened Base
  import opened Codecs
  import opened Tables
  import opened Squad
  import Doctor
  import Launch

  datatype Step =
    | DoLaunch(launch: Launch.LaunchCall)
    | DoDispatch(dispatch: DispatchCall, env: Env)
    | DoReport(report: StatusReport, env: Env)
    | DoPeer(peer: PeerMessage, env: Env)
    | DoClear(ids: seq<string>)
    | DoSubscribe(sub: Subscription)
    | DoNudge(now: nat, messageIds: seq<string>)
    | DoDoctor(doctor: Doctor.DoctorEnv)
    | DoStop(session: string)
    | DoLaunchError(session: string, role: string, now: nat)

  predicate NewAgentIds(agents: seq<Agent>, ids: seq<string>)
  {
    && (forall i :: 0 <= i < |agents| ==> agents[i].id !in ids)
    && (forall i, j :: 0 <= i < j < |ids| ==> ids[i] != ids[j])
  }

  predicate NewTargetIds(db: Store, ids: seq<string>)
  {
    && (forall i :: 0 <= i < |db.targets| ==> db.targets[i].agent !in ids)
    && (forall i :: 0 <= i < |db.quarantine| ==> db.quarantine[i].agent !in ids)
  }

  predicate NewItemId(db: Store, id: string)
  {
    && (forall i :: 0 <= i < |db.items| ==> db.items[i].id != id)
    && (forall i :: 0 <= i < |db.acks| ==> db.acks[i].item != id)
  }

  predicate NewMessageId(inbox: seq<Message>, id: string)
  {
    forall i :: 0 <= i < |inbox| ==> inbox[i].id != id
  }

  predicate NewMessageIds(inbox: seq<Message>, ids: seq<string>)
  {
    && (forall i, j :: 0 <= i < j < |ids| ==> ids[i] != ids[j])
    && (forall i :: 0 <= i < |ids| ==> NewMessageId(inbox, ids[i]))
  }

  /** What the outside owes a step: generated ids not seen before. */
  predicate Fresh(db: Store, s: Step)
  {
    match s
    case DoLaunch(c) => Launch.WellFormed(c) && NewAgentIds(db.agents, c.ids) && NewTargetIds(db, c.ids)
    case DoDispatch(_, env) => NewItemId(db, env.itemId)
    case DoReport(_, env) => NewMessageId(db.inbox, env.messageId)
    case DoPeer(_, env) => NewMessageId(db.inbox, env.messageId)
    case DoNudge(_, ids) => |ids| == |db.agents| && NewMessageIds(db.inbox, ids)
    case _ => true
  }

  function Apply(db: Store, s: Step): Store
    requires Fresh(db, s)
  {
    match s
    case DoLaunch(c) => Launch.Register(db, c)
    case DoDispatch(d, env) => Dispatch(db, d, env)
    case DoReport(r, env) => Report(db, r, env)
    case DoPeer(m, env) => Peer(db, m, env)
    case DoClear(ids) => Clear(db, ids)
    case DoSubscribe(sub) => Subscribe(db, sub)
    case DoNudge(now, ids) => NudgeScan(db, now, ids)
    case DoDoctor(env) => Doctor.Pass(db, env)
    case DoStop(session) => Launch.StopSession(db, session)
    case DoLaunchError(session, role, now) => Launch.LaunchError(db, session, role, now)
  }

  predicate FreshRun(db: Store, run: seq<Step>)
    decreases |run|
  {
    run == [] || (Fresh(db, run[0]) && FreshRun(Apply(db, run[0]), run[1..]))
  }

  function Run(db: Store, run: seq<Step>): Store
    requires FreshRun(db, run)
    decreases |run|
  {
    if run == [] then db else Run(Apply(db, run[0]), run[1..])
  }

  // ---------------------------------------------------------------- agent rows

  predicate SameKey(a: Agent, b: Agent) { a.id == b.id && a.session == b.session && a.role == b.role }

  /** The (id) key and the (session, role) lease key are both unique. */
  predicate UniqueAgents(agents: seq<Agent>)
  {
    forall i, j :: 0 <= i < j < |agents| ==>
      agents[i].id != agents[j].id && !Holds(agents[i], agents[j].session, agents[j].role)
  }

  /** Status 'busy' or an active task means the busy flag, and the flag means a signal. */
  predicate RowOk(a: Agent)
  {
    && (a.status == Busy || a.activeTask.Some? ==> a.busy)
    && (a.busy ==> a.signalAt.Some?)
  }

  predicate RowsOk(agents: seq<Agent>) { forall i :: 0 <= i < |agents| ==> RowOk(agents[i]) }

  /** `u` continues `t`: the same rows by key, then new ones. */
  predicate Continues(t: seq<Agent>, u: seq<Agent>)
  {
    |t| <= |u| && forall i :: 0 <= i < |t| ==> SameKey(t[i], u[i])
  }

  lemma {:induction false} InsertKeepsUnique(agents: seq<Agent>, c: Launch.LaunchCall, n: nat)
    requires Launch.WellFormed(c) && n <= Launch.PaneCount(c)
    requires UniqueAgents(agents) && RowsOk(agents)
    ensures var r := Launch.InsertAgents(agents, c, n);
            UniqueAgents(r) && RowsOk(r) && |agents| <= |r| && r[..|agents|] == agents
    ensures var r := Launch.InsertAgents(agents, c, n);
            forall i :: |agents| <= i < |r| ==> r[i].session == Launch.SessionOf(c)
  {
    if n > 0 {
      InsertKeepsUnique(agents, c, n - 1);
    }
  }

  /** The reporter's row after a report. */
  function ReportedRow(a: Agent, r: StatusReport, now: nat): Agent
  {
    var s := Patched(a, SetStatus(AgentStatusOf(r.status), now));
    if r.status == SComplete || r.status == SFailed then Patched(Patched(s, ClearTask), Signal(None, false, now))
    else Patched(s, Signal(r.task, true, now))
  }

  lemma ReportedRowOk(a: Agent, r: StatusReport, now: nat)
    ensures RowOk(a) ==> RowOk(ReportedRow(a, r, now))
    ensures SameKey(a, ReportedRow(a, r, now))
  {
  }

  lemma ReportAgentsAt(db: Store, r: StatusReport, env: Env, i: nat)
    requires ReportReply(db, r) == Done && i < |db.agents|
    ensures |ReportAgents(db, r, env)| == |db.agents|
    ensures ReportAgents(db, r, env)[i]
         == if db.agents[i].id == Reporter(db, r).id then ReportedRow(db.agents[i], r, env.now) else db.agents[i]
  {
  }

  lemma ReportAgentRows(db: Store, r: StatusReport, env: Env)
    requires ReportReply(db, r) == Done && RowsOk(db.agents)
    ensures Continues(db.agents, ReportAgents(db, r, env)) && |ReportAgents(db, r, env)| == |db.agents|
    ensures RowsOk(ReportAgents(db, r, env))
  {
    var u := ReportAgents(db, r, env);
    ReportAgentsAt(db, r, env, RowFor(db.agents, r.session, r.role));
    forall i | 0 <= i < |u| ensures SameKey(db.agents[i], u[i]) && RowOk(u[i]) {
      ReportAgentsAt(db, r, env, i);
      ReportedRowOk(db.agents[i], r, env.now);
    }
  }

  lemma AssignedRows(agents: seq<Agent>, session: string, role: string, task: string, now: nat)
    requires RowsOk(agents)
    ensures Continues(agents, Assigned(agents, session, role, task, now))
    ensures RowsOk(Assigned(agents, session, role, task, now))
  {
  }

  /** The row facts a step keeps, when it adds no rows. */
  predicate RowsKept(t: seq<Agent>, u: seq<Agent>)
  {
    |u| == |t| && Continues(t, u) && RowsOk(u)
  }

  lemma DispatchRows(db: Store, d: DispatchCall, env: Env)
    requires RowsOk(db.agents)
    ensures RowsKept(db.agents, Dispatch(db, d, env).agents)
  {
    AssignedRows(db.agents, d.session, d.to, d.task, env.now);
  }

  lemma HealRowsKept(agents: seq<Agent>, session: string, heal: Heal, now: nat)
    requires RowsOk(agents)
    ensures RowsKept(agents, HealAgents(agents, session, heal, now))
  {
    match heal {
      case NoHeal =>
      case Redecompose(task) => AssignedRows(agents, session, REPAIR_ROLE, task, now);
      case Resume(parent, role) => AssignedRows(agents, session, role, parent, now);
    }
  }

  lemma ReportRows(db: Store, r: StatusReport, env: Env, heal: Heal)
    requires ReportReply(db, r) == Done && RowsOk(db.agents)
    ensures RowsKept(db.agents, Reported(db, r, env, heal).agents)
  {
    ReportAgentRows(db, r, env);
    HealRowsKept(ReportAgents(db, r, env), r.session, heal, env.now);
  }

  lemma PeerRows(db: Store, m: PeerMessage, env: Env)
    requires RowsOk(db.agents)
    ensures RowsKept(db.agents, Peer(db, m, env).agents)
  {
  }

  lemma NudgeRows(agents: seq<Agent>, now: nat)
    requires RowsOk(agents)
    ensures RowsKept(agents, NudgedRows(agents, now))
  {
  }

  lemma DoctorRows(db: Store, env: Doctor.DoctorEnv)
    requires RowsOk(db.agents)
    ensures RowsKept(db.agents, Doctor.PassAgents(db, env))
  {
  }

  lemma LaunchErrorRows(db: Store, session: string, role: string, now: nat)
    requires RowsOk(db.agents)
    ensures RowsKept(db.agents, Launch.LaunchError(db, session, role, now).agents)
  {
  }

  lemma UniqueFromKeys(t: seq<Agent>, u: seq<Agent>)
    requires UniqueAgents(t) && RowsKept(t, u)
    ensures UniqueAgents(u)
  {
    forall i, j | 0 <= i < j < |u| ensures u[i].id != u[j].id && !Holds(u[i], u[j].session, u[j].role) {
      assert SameKey(t[i], u[i]) && SameKey(t[j], u[j]);
    }
  }

  /** Every step but a launch keeps the rows it finds, by key. */
  lemma RowsKeptUnlessLaunch(db: Store, s: Step)
    requires Fresh(db, s) && RowsOk(db.agents) && !s.DoLaunch?
    ensures RowsKept(db.agents, Apply(db, s).agents)
  {
    match s {
      case DoDispatch(d, env) => DispatchRows(db, d, env);
      case DoReport(r, env) => if ReportReply(db, r) == Done { ReportRows(db, r, env, Decision(db, r, env)); }
      case DoPeer(m, env) => PeerRows(db, m, env);
      case DoNudge(now, _) => NudgeRows(db.agents, now);
      case DoDoctor(env) => DoctorRows(db, env);
      case DoLaunchError(session, role, now) => LaunchErrorRows(db, session, role, now);
      case _ =>
    }
  }

  /** What every step does to the agent rows. */
  lemma AgentsStep(db: Store, s: Step)
    requires Fresh(db, s) && UniqueAgents(db.agents) && RowsOk(db.agents)
    ensures Continues(db.agents, Apply(db, s).agents)
    ensures UniqueAgents(Apply(db, s).agents) && RowsOk(Apply(db, s).agents)
  {
    if s.DoLaunch? {
      InsertKeepsUnique(db.agents, s.launch, Launch.PaneCount(s.launch));
    } else {
      RowsKeptUnlessLaunch(db, s);
      UniqueFromKeys(db.agents, Apply(db, s).agents);
    }
  }

  /** The agent-row invariant over every run. */
  lemma {:induction false} AgentRowsInEveryRun(db: Store, run: seq<Step>)
    requires FreshRun(db, run) && UniqueAgents(db.agents) && RowsOk(db.agents)
    ensures UniqueAgents(Run(db, run).agents) && RowsOk(Run(db, run).agents)
    ensures Continues(db.agents, Run(db, run).agents)
    decreases |run|
  {
    if run != [] {
      AgentsStep(db, run[0]);
      AgentRowsInEveryRun(Apply(db, run[0]), run[1..]);
    }
  }

  /** So the `i64::MAX` fallback for a missing signal is never taken for a candidate. */
  lemma SilenceIsMeasured(db: Store, run: seq<Step>, i: nat, now: nat)
    requires FreshRun(db, run) && UniqueAgents(db.agents) && RowsOk(db.agents)
    requires i < |Run(db, run).agents| && Candidate(Run(db, run).agents[i])
    ensures Run(db, run).agents[i].signalAt.Some?
    ensures Since(now, Run(db, run).agents[i].signalAt) <= Milliseconds(now)
  {
    AgentRowsInEveryRun(db, run);
  }

  /** With unique lease keys, finding an agent by role does not depend on row order. */
  lemma FindByRoleIgnoresRowOrder(t: seq<Agent>, u: seq<Agent>, session: string, role: string)
    requires UniqueAgents(t) && UniqueAgents(u) && forall a :: a in t <==> a in u
    ensures RowFor(t, session, role) < |t| <==> RowFor(u, session, role) < |u|
    ensures RowFor(t, session, role) < |t| ==> t[RowFor(t, session, role)] == u[RowFor(u, session, role)]
  {
    var i, j := RowFor(t, session, role), RowFor(u, session, role);
    if i < |t| {
      assert t[i] in u;
      var k :| 0 <= k < |u| && u[k] == t[i];
    }
    if j < |u| {
      assert u[j] in t;
      var k :| 0 <= k < |t| && t[k] == u[j];
    }
  }
}
