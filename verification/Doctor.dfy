/** `doctor-state --fix quarantine`: classify the terminal targets of active sessions, then
    repair sessions, agents and targets. Clock, process liveness and discovered runs are
    given by the environment. The event log is not part of the store. */
module Doctor {
  import opened Base
  import opened Tables

  datatype DoctorEnv = DoctorEnv(now: nat, thresholdSecs: nat, alive: set<int>, discovered: set<string>)

  predicate PidDead(t: Target, env: DoctorEnv)
  {
    t.pane.Some? && ParseI32(t.pane.value).Some? && ParseI32(t.pane.value).value !in env.alive
  }

  function PaneText(t: Target): string { match t.pane case Some(p) => p case None => "" }

  predicate LegacyShaped(t: Target)
  {
    var iterm := AsciiLower(t.iterm);
    StartsWith(iterm, "legacy") || Contains(iterm, "tmux") || StartsWith(AsciiLower(PaneText(t)), "%")
  }

  predicate Legacy(t: Target) { t.transport != Quarantined && LegacyShaped(t) }

  /** Never seen, or last seen longer ago than the threshold. */
  predicate Silent(t: Target, env: DoctorEnv)
  {
    t.seenAt.None? || env.now - t.seenAt.value > env.thresholdSecs * 1_000_000_000
  }

  predicate StaleTarget(t: Target, env: DoctorEnv)
  {
    if t.transport == Quarantined || t.transport == TargetStale then t.transport != Quarantined
    else Silent(t, env)
  }

  datatype Verdict = Keep | MarkDegraded | MarkQuarantined | MarkStale

  /** The prioritised classification of one target. */
  function Judge(t: Target, env: DoctorEnv): Verdict
  {
    if t.transport == Ready && PidDead(t, env) then MarkDegraded
    else if Legacy(t) then MarkQuarantined
    else if StaleTarget(t, env) then MarkStale
    else Keep
  }

  function Marked(t: Target, v: Verdict): Target
  {
    match v
    case Keep => t
    case MarkDegraded => t.(transport := TargetDegraded)
    case MarkQuarantined => t.(transport := Quarantined)
    case MarkStale => t.(transport := TargetStale)
  }

  function Repaired(t: Target, env: DoctorEnv): Target { Marked(t, Judge(t, env)) }

  // ---------------------------------------------------------------- scope

  predicate IsActive(sessions: seq<Session>, id: string)
  {
    exists i | 0 <= i < |sessions| :: sessions[i].id == id && sessions[i].status == Active
  }

  /** The target belongs to an agent of an active session. */
  predicate InScope(sessions: seq<Session>, agents: seq<Agent>, agent: string)
  {
    exists i | 0 <= i < |agents| :: agents[i].id == agent && IsActive(sessions, agents[i].session)
  }

  function AgentsOf(agents: seq<Agent>, session: string): seq<string>
  {
    if agents == [] then []
    else
      var n := |agents| - 1;
      AgentsOf(agents[..n], session) + if agents[n].session == session then [agents[n].id] else []
  }

  /** Ids of the agents of active sessions, session by session. */
  function ScopedIds(sessions: seq<Session>, agents: seq<Agent>): seq<string>
  {
    if sessions == [] then []
    else
      var n := |sessions| - 1;
      ScopedIds(sessions[..n], agents)
      + if sessions[n].status == Active then AgentsOf(agents, sessions[n].id) else []
  }

  lemma {:induction false} AgentsOfExact(agents: seq<Agent>, session: string, a: string)
    ensures a in AgentsOf(agents, session)
       <==> exists i :: 0 <= i < |agents| && agents[i].id == a && agents[i].session == session
  {
    if agents != [] {
      var n := |agents| - 1;
      AgentsOfExact(agents[..n], session, a);
      assert forall i :: 0 <= i < n ==> agents[..n][i] == agents[i];
    }
  }

  lemma {:induction false} ScopedIdsExact(sessions: seq<Session>, agents: seq<Agent>, a: string)
    ensures a in ScopedIds(sessions, agents) <==> InScope(sessions, agents, a)
  {
    if sessions != [] {
      var n := |sessions| - 1;
      ScopedIdsExact(sessions[..n], agents, a);
      AgentsOfExact(agents, sessions[n].id, a);
      assert forall i :: 0 <= i < n ==> sessions[..n][i] == sessions[i];
      assert forall id :: (IsActive(sessions, id)
        <==> IsActive(sessions[..n], id) || (sessions[n].id == id && sessions[n].status == Active));
    }
  }

  // ---------------------------------------------------------------- the pass

  /** Row of `agent` in `terminal_targets`, or `|targets|`. */
  function TargetRow(targets: seq<Target>, agent: string): (i: nat)
    ensures i <= |targets|
    ensures i < |targets| ==> targets[i].agent == agent
    ensures forall j :: 0 <= j < i ==> targets[j].agent != agent
  {
    if targets == [] || targets[0].agent == agent then 0 else 1 + TargetRow(targets[1..], agent)
  }

  function LogCount(log: seq<QuarantineRow>, agent: string): nat
  {
    if log == [] then 0
    else LogCount(log[..|log| - 1], agent) + if log[|log| - 1].agent == agent then 1 else 0
  }

  function LogRow(t: Target): QuarantineRow
  {
    QuarantineRow(t.agent, t.iterm, "legacy-window", PaneText(t), "legacy_tmux", t.seenAt, "legacy_tmux_target")
  }

  /** The agent's target is to be quarantined. */
  predicate Condemned(targets: seq<Target>, agent: string, env: DoctorEnv)
  {
    var i := TargetRow(targets, agent);
    i < |targets| && Judge(targets[i], env) == MarkQuarantined
  }

  /** The quarantine log after the condemned targets among `ids` were entered once each. */
  function Logged(targets: seq<Target>, log: seq<QuarantineRow>, ids: seq<string>, env: DoctorEnv): seq<QuarantineRow>
  {
    if ids == [] then log
    else
      var a := ids[|ids| - 1];
      var before := Logged(targets, log, ids[..|ids| - 1], env);
      if Condemned(targets, a, env) && LogCount(before, a) == 0
      then before + [LogRow(targets[TargetRow(targets, a)])] else before
  }

  predicate MissingRun(sessions: seq<Session>, env: DoctorEnv, id: string)
  {
    IsActive(sessions, id) && id !in env.discovered
  }

  function StoppedRow(s: Session, env: DoctorEnv): Session
  {
    if s.status == Active && s.id !in env.discovered then s.(status := Stopped) else s
  }

  function PassSessions(db: Store, env: DoctorEnv): (r: seq<Session>)
    ensures |r| == |db.sessions|
    ensures forall i :: 0 <= i < |r| ==> r[i] == StoppedRow(db.sessions[i], env)
  {
    seq(|db.sessions|, i requires 0 <= i < |db.sessions| => StoppedRow(db.sessions[i], env))
  }

  function PassAgents(db: Store, env: DoctorEnv): (r: seq<Agent>)
    ensures |r| == |db.agents|
    ensures forall i :: 0 <= i < |r| ==>
              r[i] == if MissingRun(db.sessions, env, db.agents[i].session)
                      then Patched(db.agents[i], SetStatus(Degraded, env.now)) else db.agents[i]
  {
    seq(|db.agents|, i requires 0 <= i < |db.agents| =>
      if MissingRun(db.sessions, env, db.agents[i].session)
      then Patched(db.agents[i], SetStatus(Degraded, env.now)) else db.agents[i])
  }

  function PassTargets(db: Store, env: DoctorEnv): (r: seq<Target>)
    ensures |r| == |db.targets|
    ensures forall i :: 0 <= i < |r| ==>
              r[i] == if InScope(db.sessions, db.agents, db.targets[i].agent)
                      then Repaired(db.targets[i], env) else db.targets[i]
  {
    seq(|db.targets|, i requires 0 <= i < |db.targets| =>
      if InScope(db.sessions, db.agents, db.targets[i].agent) then Repaired(db.targets[i], env) else db.targets[i])
  }

  /** One `doctor-state --fix quarantine` run. */
  function Pass(db: Store, env: DoctorEnv): Store
  {
    db.(sessions := PassSessions(db, env), agents := PassAgents(db, env), targets := PassTargets(db, env),
        quarantine := Logged(db.targets, db.quarantine, ScopedIds(db.sessions, db.agents), env))
  }

  predicate UniqueSessions(sessions: seq<Session>)
  {
    forall i, j :: 0 <= i < j < |sessions| ==> sessions[i].id != sessions[j].id
  }

  // ---------------------------------------------------------------- the verdict, by columns

  /** The pane text is the number of a process that is not alive. */
  predicate RunnerGone(t: Target, alive: set<int>)
  {
    t.pane.Some? && match ParseI32(t.pane.value) case Some(pid) => pid !in alive case None => false
  }

  /** The iTerm id starts with "legacy" or has "tmux" in it, in any letter case, or the pane
      starts with a percent sign. */
  ghost predicate LooksLegacy(t: Target)
  {
    || OccursAt(AsciiLower(t.iterm), "legacy", 0)
    || (exists i: nat :: OccursAt(AsciiLower(t.iterm), "tmux", i))
    || (t.pane.Some? && t.pane.value != [] && t.pane.value[0] == '%')
  }

  /** Never seen, or last seen longer ago than the threshold. */
  predicate LongUnseen(t: Target, env: DoctorEnv)
  {
    t.seenAt.None? || env.now > t.seenAt.value + env.thresholdSecs * 1_000_000_000
  }

  lemma VerdictColumns(t: Target, env: DoctorEnv)
    ensures RunnerGone(t, env.alive) <==> PidDead(t, env)
    ensures LooksLegacy(t) <==> LegacyShaped(t)
    ensures LongUnseen(t, env) <==> Silent(t, env)
  {
    var low := AsciiLower(t.iterm);
    ContainsExact(low, "tmux");
    OccursFirst(low, "legacy");
    if t.pane.Some? && t.pane.value != [] {
      assert AsciiLower(t.pane.value)[0] == '%' <==> t.pane.value[0] == '%';
    }
  }

  /** A pass, outcome by outcome: degraded takes a ready target whose process is gone before
      anything else, then quarantine takes what looks legacy, then stale what is long unseen;
      a quarantined target stays, a degraded or ready one stays when nothing applies. */
  lemma PassOutcomes(db: Store, env: DoctorEnv, i: nat)
    requires i < |db.targets| && InScope(db.sessions, db.agents, db.targets[i].agent)
    ensures i < |Pass(db, env).targets|
    ensures var t, after := db.targets[i], Pass(db, env).targets[i].transport;
            var gone := t.transport == Ready && RunnerGone(t, env.alive);
            && (after == Quarantined <==> t.transport == Quarantined || (!gone && LooksLegacy(t)))
            && (after == TargetStale <==>
                 !gone && !LooksLegacy(t)
                 && (t.transport == TargetStale || (t.transport != Quarantined && LongUnseen(t, env))))
            && (after == TargetDegraded <==>
                 gone || (t.transport == TargetDegraded && !LooksLegacy(t) && !LongUnseen(t, env)))
            && (after == Ready <==>
                 t.transport == Ready && !gone && !LooksLegacy(t) && !LongUnseen(t, env))
  {
    VerdictColumns(db.targets[i], env);
  }

  /** "tmux" in any mix of letter cases, anywhere in the id, is enough. */
  lemma AnyCaseLooksLegacy(t: Target, before: string, u: string, after: string)
    requires t.iterm == before + u + after && Spells(u, "tmux")
    ensures LooksLegacy(t)
  {
    SpelledOccursAscii(before, u, after, "tmux");
  }

  /** What a pass leaves in the other columns and tables. */
  lemma PassColumns(db: Store, env: DoctorEnv)
    ensures |Pass(db, env).sessions| == |db.sessions| && |Pass(db, env).targets| == |db.targets|
    ensures forall i :: 0 <= i < |db.sessions| ==>
              Pass(db, env).sessions[i]
              == if db.sessions[i].status == Active && db.sessions[i].id !in env.discovered
                 then db.sessions[i].(status := Stopped) else db.sessions[i]
    ensures forall i :: 0 <= i < |db.targets| ==>
              && Pass(db, env).targets[i] == db.targets[i].(transport := Pass(db, env).targets[i].transport)
              && (!InScope(db.sessions, db.agents, db.targets[i].agent) ==> Pass(db, env).targets[i] == db.targets[i])
  {
    forall i | 0 <= i < |db.targets| { RepairOfOne(db.targets[i], env); }
  }

  /** A new log row tells of a target that looked legacy, by its columns. */
  predicate Tells(row: QuarantineRow, t: Target)
  {
    && row.agent == t.agent && row.session == t.iterm && row.window == "legacy-window" && row.inject == "legacy_tmux"
    && row.pane == (match t.pane case Some(p) => p case None => "")
    && row.lastInjected == t.seenAt && row.reason == "legacy_tmux_target"
  }

  ghost predicate TellsOfLegacy(row: QuarantineRow, targets: seq<Target>, ids: seq<string>)
  {
    exists i :: 0 <= i < |targets| && targets[i].agent in ids && LooksLegacy(targets[i]) && Tells(row, targets[i])
  }

  lemma TellsStill(row: QuarantineRow, targets: seq<Target>, ids: seq<string>, last: string)
    requires TellsOfLegacy(row, targets, ids)
    ensures TellsOfLegacy(row, targets, ids + [last])
  {
    var i :| 0 <= i < |targets| && targets[i].agent in ids && LooksLegacy(targets[i]) && Tells(row, targets[i]);
    assert targets[i].agent in ids + [last];
  }

  lemma LoggedRowTells(targets: seq<Target>, ids: seq<string>, env: DoctorEnv, i: nat)
    requires i < |targets| && targets[i].agent in ids && Judge(targets[i], env) == MarkQuarantined
    ensures TellsOfLegacy(LogRow(targets[i]), targets, ids)
  {
    VerdictColumns(targets[i], env);
    assert Tells(LogRow(targets[i]), targets[i]);
  }

  /** A pass only appends to the log, and each new row tells of an examined target that looked
      legacy. */
  lemma {:induction false} LoggedRows(targets: seq<Target>, log: seq<QuarantineRow>, ids: seq<string>, env: DoctorEnv)
    ensures log <= Logged(targets, log, ids, env)
    ensures forall k :: |log| <= k < |Logged(targets, log, ids, env)| ==>
              TellsOfLegacy(Logged(targets, log, ids, env)[k], targets, ids)
  {
    if ids != [] {
      var init, last := ids[..|ids| - 1], ids[|ids| - 1];
      var before, after := Logged(targets, log, init, env), Logged(targets, log, ids, env);
      LoggedRows(targets, log, init, env);
      assert ids == init + [last];
      forall k | |log| <= k < |after| ensures TellsOfLegacy(after[k], targets, ids) {
        if k < |before| {
          TellsStill(before[k], targets, init, last);
        } else {
          LoggedRowTells(targets, ids, env, TargetRow(targets, last));
        }
      }
    }
  }

  // ---------------------------------------------------------------- the log and the table

  predicate DistinctTargets(targets: seq<Target>)
  {
    forall i, j :: 0 <= i < j < |targets| ==> targets[i].agent != targets[j].agent
  }

  /** A target is quarantined iff it has exactly one log row, and has none otherwise; a
      stale target is not legacy-shaped. */
  predicate LogAgrees(targets: seq<Target>, log: seq<QuarantineRow>)
  {
    && DistinctTargets(targets)
    && forall i :: 0 <= i < |targets| ==>
         && LogCount(log, targets[i].agent) == (if targets[i].transport == Quarantined then 1 else 0)
         && (targets[i].transport == TargetStale ==> !LegacyShaped(targets[i]))
  }

  lemma LogCountAppend(log: seq<QuarantineRow>, r: QuarantineRow, a: string)
    ensures LogCount(log + [r], a) == LogCount(log, a) + if r.agent == a then 1 else 0
  {
    assert (log + [r])[..|log|] == log;
  }

  lemma {:induction false} LoggedCount(targets: seq<Target>, log: seq<QuarantineRow>, ids: seq<string>,
                                       env: DoctorEnv, a: string)
    ensures LogCount(Logged(targets, log, ids, env), a)
         == LogCount(log, a) + if a in ids && Condemned(targets, a, env) && LogCount(log, a) == 0 then 1 else 0
  {
    if ids != [] {
      var n := |ids| - 1;
      LoggedCount(targets, log, ids[..n], env, a);
      assert ids == ids[..n] + [ids[n]];
      var before := Logged(targets, log, ids[..n], env);
      if Condemned(targets, ids[n], env) && LogCount(before, ids[n]) == 0 {
        LogCountAppend(before, LogRow(targets[TargetRow(targets, ids[n])]), a);
      }
    }
  }

  /** Repair keeps everything but the transport, condemns only legacy-shaped targets not
      yet quarantined, and marks stale only what is not legacy-shaped. */
  lemma RepairOfOne(t: Target, env: DoctorEnv)
    ensures var u := Repaired(t, env);
            && u == t.(transport := u.transport)
            && LegacyShaped(u) == LegacyShaped(t)
            && Rank(u.transport) >= Rank(t.transport)
            && (Judge(t, env) == MarkQuarantined ==> t.transport != Quarantined && u.transport == Quarantined)
            && (Judge(t, env) != MarkQuarantined ==> (u.transport == Quarantined <==> t.transport == Quarantined))
            && (Judge(t, env) == MarkStale ==> !LegacyShaped(t))
            && (Rank(t.transport) == 2 && !(t.transport == TargetStale && LegacyShaped(t)) ==> u == t)
  {
  }

  lemma PassKeepsLogAgreement(db: Store, env: DoctorEnv)
    requires LogAgrees(db.targets, db.quarantine)
    ensures LogAgrees(PassTargets(db, env), Pass(db, env).quarantine)
  {
    var ids := ScopedIds(db.sessions, db.agents);
    var r, log := PassTargets(db, env), Pass(db, env).quarantine;
    forall i | 0 <= i < |r|
      ensures LogCount(log, r[i].agent) == (if r[i].transport == Quarantined then 1 else 0)
      ensures r[i].agent == db.targets[i].agent
      ensures r[i].transport == TargetStale ==> !LegacyShaped(r[i])
    {
      var t := db.targets[i];
      RepairOfOne(t, env);
      ScopedIdsExact(db.sessions, db.agents, t.agent);
      LoggedCount(db.targets, db.quarantine, ids, env, t.agent);
      assert TargetRow(db.targets, t.agent) == i;
    }
  }

  /** Over any number of doctor runs, each with its own clock, liveness and discovery. */
  function Passes(db: Store, envs: seq<DoctorEnv>): Store
    decreases |envs|
  {
    if envs == [] then db else Passes(Pass(db, envs[0]), envs[1..])
  }

  /** How far a target is along ready, degraded, then stale or quarantined. */
  function Rank(t: Transport): nat
  {
    match t case Ready => 0 case TargetDegraded => 1 case _ => 2
  }

  /** Doctor runs keep the log in step with the table, move every target only forward, and
      never change one that is stale or quarantined. */
  lemma {:induction false} DoctorRunsAreMonotone(db: Store, envs: seq<DoctorEnv>)
    requires LogAgrees(db.targets, db.quarantine)
    ensures var end := Passes(db, envs);
            && LogAgrees(end.targets, end.quarantine)
            && |end.targets| == |db.targets|
            && forall i :: 0 <= i < |db.targets| ==>
                 && end.targets[i] == db.targets[i].(transport := end.targets[i].transport)
                 && Rank(end.targets[i].transport) >= Rank(db.targets[i].transport)
                 && (Rank(db.targets[i].transport) == 2 ==> end.targets[i] == db.targets[i])
    decreases |envs|
  {
    if envs != [] {
      PassKeepsLogAgreement(db, envs[0]);
      forall i | 0 <= i < |db.targets| { RepairOfOne(db.targets[i], envs[0]); }
      DoctorRunsAreMonotone(Pass(db, envs[0]), envs[1..]);
    }
  }

  // ---------------------------------------------------------------- convergence

  lemma ActiveAfterPass(db: Store, env: DoctorEnv, id: string)
    ensures IsActive(PassSessions(db, env), id) <==> IsActive(db.sessions, id) && id in env.discovered
  {
    var r := PassSessions(db, env);
    if IsActive(db.sessions, id) && id in env.discovered {
      var i :| 0 <= i < |db.sessions| && db.sessions[i].id == id && db.sessions[i].status == Active;
      assert r[i] == db.sessions[i];
    }
  }

  lemma SecondPassFrame(db: Store, env: DoctorEnv)
    ensures var one := Pass(db, env);
            && PassSessions(one, env) == one.sessions
            && PassAgents(one, env) == one.agents
            && Pass(one, env).sessions == one.sessions && Pass(one, env).agents == one.agents
  {
    var one := Pass(db, env);
    forall id ensures !MissingRun(one.sessions, env, id) { ActiveAfterPass(db, env, id); }
  }

  lemma ScopeShrinks(db: Store, env: DoctorEnv, a: string)
    ensures InScope(Pass(db, env).sessions, Pass(db, env).agents, a) ==> InScope(db.sessions, db.agents, a)
  {
    var one := Pass(db, env);
    if InScope(one.sessions, one.agents, a) {
      var i :| 0 <= i < |one.agents| && one.agents[i].id == a && IsActive(one.sessions, one.agents[i].session);
      ActiveAfterPass(db, env, one.agents[i].session);
      assert db.agents[i].id == a && IsActive(db.sessions, db.agents[i].session);
    }
  }

  /** A pass that condemns no target in its scope leaves the log alone. */
  lemma {:induction false} NothingLogged(targets: seq<Target>, log: seq<QuarantineRow>, ids: seq<string>,
                                         env: DoctorEnv)
    requires forall a :: a in ids ==> !Condemned(targets, a, env)
    ensures Logged(targets, log, ids, env) == log
  {
    if ids != [] {
      var n := |ids| - 1;
      assert ids[n] in ids;
      NothingLogged(targets, log, ids[..n], env);
    }
  }

  /** A pass with no session left to stop, and no target in scope that the classification
      would change, changes nothing. */
  lemma SettledPass(db: Store, env: DoctorEnv)
    requires PassSessions(db, env) == db.sessions && PassAgents(db, env) == db.agents
    requires forall i :: 0 <= i < |db.targets| && InScope(db.sessions, db.agents, db.targets[i].agent)
               ==> Repaired(db.targets[i], env) == db.targets[i]
    ensures Pass(db, env) == db
  {
    var ids := ScopedIds(db.sessions, db.agents);
    forall a | a in ids ensures !Condemned(db.targets, a, env) {
      ScopedIdsExact(db.sessions, db.agents, a);
      var i := TargetRow(db.targets, a);
      if i < |db.targets| { assert Repaired(db.targets[i], env) == db.targets[i]; }
    }
    NothingLogged(db.targets, db.quarantine, ids, env);
    assert PassTargets(db, env) == db.targets;
  }

  /** Three repairs of one target end where two do; two end where one does unless the first
      only degraded a target that is also legacy-shaped or silent. */
  lemma RepairSettles(t: Target, env: DoctorEnv)
    ensures Repaired(Repaired(Repaired(t, env), env), env) == Repaired(Repaired(t, env), env)
    ensures Repaired(Repaired(t, env), env) == Repaired(t, env)
       <==> !(t.transport == Ready && PidDead(t, env) && (LegacyShaped(t) || Silent(t, env)))
  {
    var u := Repaired(t, env);
    assert LegacyShaped(u) == LegacyShaped(t) && Silent(u, env) == Silent(t, env) && PidDead(u, env) == PidDead(t, env);
    var v := Repaired(u, env);
    assert LegacyShaped(v) == LegacyShaped(t) && Silent(v, env) == Silent(t, env);
  }

  /** With clock, liveness and discovery held fixed, a third pass changes nothing. */
  lemma DoctorConverges(db: Store, env: DoctorEnv)
    ensures Pass(Pass(Pass(db, env), env), env) == Pass(Pass(db, env), env)
  {
    var one := Pass(db, env);
    var two := Pass(one, env);
    SecondPassFrame(db, env);
    SecondPassFrame(one, env);
    forall i | 0 <= i < |two.targets| && InScope(two.sessions, two.agents, two.targets[i].agent)
      ensures Repaired(two.targets[i], env) == two.targets[i]
    {
      ScopeShrinks(db, env, two.targets[i].agent);
      RepairSettles(db.targets[i], env);
      assert one.targets[i] == Repaired(db.targets[i], env);
      assert two.targets[i] == Repaired(one.targets[i], env);
    }
    SettledPass(two, env);
  }

  /** What a second pass still changes: a target, in a session that stays active, whose
      runner had died and that is also legacy-shaped or silent. */
  predicate NeedsSecondPass(db: Store, env: DoctorEnv, i: nat)
  {
    && i < |db.targets|
    && InScope(PassSessions(db, env), db.agents, db.targets[i].agent)
    && db.targets[i].transport == Ready && PidDead(db.targets[i], env)
    && (LegacyShaped(db.targets[i]) || Silent(db.targets[i], env))
  }

  lemma ScopeIgnoresAgentStatus(db: Store, env: DoctorEnv, a: string)
    ensures InScope(PassSessions(db, env), PassAgents(db, env), a) == InScope(PassSessions(db, env), db.agents, a)
  {
    var s, u := PassSessions(db, env), PassAgents(db, env);
    assert forall i :: 0 <= i < |u| ==> u[i].id == db.agents[i].id && u[i].session == db.agents[i].session;
    if InScope(s, db.agents, a) {
      var i :| 0 <= i < |db.agents| && db.agents[i].id == a && IsActive(s, db.agents[i].session);
      assert u[i].id == a && IsActive(s, u[i].session);
    }
  }

  lemma OnePassSufficesExactly(db: Store, env: DoctorEnv)
    ensures Pass(Pass(db, env), env) == Pass(db, env)
       <==> forall i :: 0 <= i < |db.targets| ==> !NeedsSecondPass(db, env, i)
  {
    var one := Pass(db, env);
    SecondPassFrame(db, env);
    forall i | 0 <= i < |one.targets| && InScope(one.sessions, one.agents, one.targets[i].agent)
      ensures Repaired(one.targets[i], env) == one.targets[i] <==> !NeedsSecondPass(db, env, i)
    {
      ScopeShrinks(db, env, one.targets[i].agent);
      ScopeIgnoresAgentStatus(db, env, one.targets[i].agent);
      RepairSettles(db.targets[i], env);
    }
    if forall i :: 0 <= i < |db.targets| ==> !NeedsSecondPass(db, env, i) {
      SettledPass(one, env);
    } else {
      var i :| 0 <= i < |db.targets| && NeedsSecondPass(db, env, i);
      ScopeIgnoresAgentStatus(db, env, one.targets[i].agent);
      assert Pass(one, env).targets[i] != one.targets[i];
    }
  }

  /** After any pass the active sessions are exactly the active ones that were discovered. */
  lemma ActiveSessionsAreDiscovered(db: Store, env: DoctorEnv)
    ensures forall id :: IsActive(Pass(db, env).sessions, id) <==> IsActive(db.sessions, id) && id in env.discovered
  {
    forall id { ActiveAfterPass(db, env, id); }
  }

  /** Run discovery as shipped finds nothing, and then one pass is final. */
  lemma WithoutDiscoveryOnePassSuffices(db: Store, env: DoctorEnv)
    requires env.discovered == {}
    ensures Pass(Pass(db, env), env) == Pass(db, env)
  {
    ActiveSessionsAreDiscovered(db, env);
    OnePassSufficesExactly(db, env);
  }

  /** A silent target whose runner died: degraded by the first pass, stale by the second. */
  lemma SecondPassCanMatter()
    ensures exists db: Store, env: DoctorEnv :: Pass(Pass(db, env), env) != Pass(db, env)
  {
    var env := DoctorEnv(0, 300, {}, {"s-1"});
    var t := Target("a", "w0", Some("7"), Ready, None);
    var a := Agent("a", "s-1", "ai", "", "", Idle, None, false, None, None, None);
    var db := EMPTY.(sessions := [Session("s-1", "s", 1, Active, 0)], agents := [a], targets := [t]);
    assert "7"[..0] == [];
    assert ParseI32("7") == Some(7);
    assert PidDead(t, env) && Silent(t, env);
    assert PassSessions(db, env)[0] == db.sessions[0];
    assert IsActive(PassSessions(db, env), db.agents[0].session);
    assert InScope(PassSessions(db, env), db.agents, db.targets[0].agent);
    assert NeedsSecondPass(db, env, 0);
    OnePassSufficesExactly(db, env);
  }
}
