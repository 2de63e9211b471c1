/** `doctor-state --fix quarantine` as it runs: loops that sort agents into lists, then loops
    that repair list by list. Proved to be the one-step repair the doctor lemmas are about. */
module DoctorState {
  import opened Base
  import opened Tables
  import opened Runs
  import opened Doctor
  import opened Relay

  /** What a run finds: sessions without a run, and agents by what is wrong with their target. */
  datatype Findings = Findings(missing: seq<string>, stale: seq<string>, degraded: seq<string>,
                               quarantined: seq<string>)

  predicate Judged(targets: seq<Target>, agent: string, env: DoctorEnv, v: Verdict)
  {
    var i := TargetRow(targets, agent);
    i < |targets| && Judge(targets[i], env) == v
  }

  /** The agents among `ids` whose target gets this verdict, in order. */
  function Picked(targets: seq<Target>, ids: seq<string>, env: DoctorEnv, v: Verdict): seq<string>
  {
    if ids == [] then []
    else
      var n := |ids| - 1;
      Picked(targets, ids[..n], env, v) + if Judged(targets, ids[n], env, v) then [ids[n]] else []
  }

  function MissingIds(sessions: seq<Session>, env: DoctorEnv): seq<string>
  {
    if sessions == [] then []
    else
      var n := |sessions| - 1;
      MissingIds(sessions[..n], env)
      + if sessions[n].status == Active && sessions[n].id !in env.discovered then [sessions[n].id] else []
  }

  lemma {:induction false} PickedExact(targets: seq<Target>, ids: seq<string>, env: DoctorEnv, v: Verdict, a: string)
    ensures a in Picked(targets, ids, env, v) <==> a in ids && Judged(targets, a, env, v)
  {
    if ids != [] {
      var n := |ids| - 1;
      PickedExact(targets, ids[..n], env, v, a);
      assert ids == ids[..n] + [ids[n]];
    }
  }

  lemma {:induction false} MissingIdsExact(sessions: seq<Session>, env: DoctorEnv, id: string)
    ensures id in MissingIds(sessions, env) <==> MissingRun(sessions, env, id)
  {
    if sessions != [] {
      var n := |sessions| - 1;
      MissingIdsExact(sessions[..n], env, id);
      assert forall i :: 0 <= i < n ==> sessions[..n][i] == sessions[i];
    }
  }

  lemma PickedNext(targets: seq<Target>, ids: seq<string>, a: string, env: DoctorEnv, v: Verdict)
    ensures Picked(targets, ids + [a], env, v)
         == Picked(targets, ids, env, v) + if Judged(targets, a, env, v) then [a] else []
  {
    assert (ids + [a])[..|ids|] == ids;
  }

  predicate FoundIn(f: Findings, targets: seq<Target>, ids: seq<string>, env: DoctorEnv)
  {
    && f.stale == Picked(targets, ids, env, MarkStale)
    && f.degraded == Picked(targets, ids, env, MarkDegraded)
    && f.quarantined == Picked(targets, ids, env, MarkQuarantined)
  }

  // ---------------------------------------------------------------- classify

  method MissingSessions(sessions: seq<Session>, env: DoctorEnv) returns (missing: seq<string>)
    ensures missing == MissingIds(sessions, env)
  {
    missing := [];
    for i := 0 to |sessions|
      invariant missing == MissingIds(sessions[..i], env)
    {
      assert sessions[..i + 1][..i] == sessions[..i];
      if sessions[i].status == Active && sessions[i].id !in env.discovered {
        missing := missing + [sessions[i].id];
      }
    }
    assert sessions[..|sessions|] == sessions;
  }

  /** One agent goes to at most one list: dead runner first, then legacy, then stale. */
  method ClassifyOne(f: Findings, targets: seq<Target>, ghost ids: seq<string>, a: string, env: DoctorEnv)
    returns (r: Findings)
    requires FoundIn(f, targets, ids, env)
    ensures FoundIn(r, targets, ids + [a], env) && r.missing == f.missing
  {
    PickedNext(targets, ids, a, env, MarkStale);
    PickedNext(targets, ids, a, env, MarkDegraded);
    PickedNext(targets, ids, a, env, MarkQuarantined);
    r := f;
    var i := TargetRow(targets, a);
    if i == |targets| { return; }
    var t := targets[i];
    if t.transport == Ready && PidDead(t, env) {
      r := r.(degraded := r.degraded + [a]);
      return;
    }
    if Legacy(t) {
      r := r.(quarantined := r.quarantined + [a]);
      return;
    }
    if StaleTarget(t, env) {
      r := r.(stale := r.stale + [a]);
    }
  }

  method ClassifySession(f: Findings, targets: seq<Target>, ghost before: seq<string>, ids: seq<string>,
                         env: DoctorEnv) returns (r: Findings)
    requires FoundIn(f, targets, before, env)
    ensures FoundIn(r, targets, before + ids, env) && r.missing == f.missing
  {
    r := f;
    assert before + ids[..0] == before;
    for k := 0 to |ids|
      invariant r.missing == f.missing && FoundIn(r, targets, before + ids[..k], env)
    {
      assert before + ids[..k + 1] == before + ids[..k] + [ids[k]];
      r := ClassifyOne(r, targets, before + ids[..k], ids[k], env);
    }
    assert ids[..|ids|] == ids;
  }

  method Classify(sessions: seq<Session>, agents: seq<Agent>, targets: seq<Target>, env: DoctorEnv)
    returns (f: Findings)
    ensures f.missing == MissingIds(sessions, env) && FoundIn(f, targets, ScopedIds(sessions, agents), env)
  {
    var missing := MissingSessions(sessions, env);
    f := Findings(missing, [], [], []);
    for i := 0 to |sessions|
      invariant f.missing == missing && FoundIn(f, targets, ScopedIds(sessions[..i], agents), env)
    {
      assert sessions[..i + 1][..i] == sessions[..i];
      ghost var before := ScopedIds(sessions[..i], agents);
      if sessions[i].status == Active {
        f := ClassifySession(f, targets, before, AgentsOf(agents, sessions[i].id), env);
      } else {
        assert before + [] == before;
      }
    }
    assert sessions[..|sessions|] == sessions;
  }

  // ---------------------------------------------------------------- fix

  /** Agents in `ids` have their targets in this transport status, the others as before. */
  function MarkedAll(targets: seq<Target>, ids: seq<string>, t: Transport): (r: seq<Target>)
    ensures |r| == |targets|
    ensures forall i :: 0 <= i < |r| ==>
              r[i] == if targets[i].agent in ids then targets[i].(transport := t) else targets[i]
  {
    seq(|targets|, i requires 0 <= i < |targets| =>
      if targets[i].agent in ids then targets[i].(transport := t) else targets[i])
  }

  lemma MarkedNext(targets: seq<Target>, ids: seq<string>, a: string, t: Transport)
    ensures MarkedAll(MarkedAll(targets, ids, t), [a], t) == MarkedAll(targets, ids + [a], t)
  {
  }

  method MarkTargets(db: Db, ids: seq<string>, t: Transport)
    modifies db`targets
    ensures db.targets == MarkedAll(old(db.targets), ids, t)
  {
    for i := 0 to |ids|
      invariant db.targets == MarkedAll(old(db.targets), ids[..i], t)
    {
      assert ids[..i + 1] == ids[..i] + [ids[i]];
      MarkedNext(old(db.targets), ids[..i], ids[i], t);
      db.targets := MarkedAll(db.targets, [ids[i]], t);
    }
    assert ids[..|ids|] == ids;
  }

  /** One log row for each of `ids` that has a target and is not in the log yet. */
  function Entered(targets: seq<Target>, log: seq<QuarantineRow>, ids: seq<string>): seq<QuarantineRow>
  {
    if ids == [] then log
    else
      var n := |ids| - 1;
      var before := Entered(targets, log, ids[..n]);
      var k := TargetRow(targets, ids[n]);
      if k < |targets| && LogCount(before, ids[n]) == 0 then before + [LogRow(targets[k])] else before
  }

  /** The same targets but for the transport status. */
  predicate SameTargets(a: seq<Target>, b: seq<Target>)
  {
    |a| == |b| && forall i :: 0 <= i < |a| ==> b[i] == a[i].(transport := b[i].transport)
  }

  lemma SameTargetRow(a: seq<Target>, b: seq<Target>, agent: string)
    requires SameTargets(a, b)
    ensures TargetRow(a, agent) == TargetRow(b, agent)
  {
    var i, j := TargetRow(a, agent), TargetRow(b, agent);
    if i < |a| { assert b[i].agent == agent; }
    if j < |b| { assert a[j].agent == agent; }
  }

  lemma EnteredNext(targets: seq<Target>, log: seq<QuarantineRow>, ids: seq<string>, a: string)
    ensures Entered(targets, log, ids + [a])
         == if TargetRow(targets, a) < |targets| && LogCount(Entered(targets, log, ids), a) == 0
            then Entered(targets, log, ids) + [LogRow(targets[TargetRow(targets, a)])] else Entered(targets, log, ids)
  {
    assert (ids + [a])[..|ids|] == ids;
  }

  lemma SameLogRow(a: seq<Target>, b: seq<Target>, agent: string)
    requires SameTargets(a, b)
    ensures TargetRow(a, agent) == TargetRow(b, agent)
    ensures TargetRow(a, agent) < |a| ==> LogRow(a[TargetRow(a, agent)]) == LogRow(b[TargetRow(b, agent)])
  {
    SameTargetRow(a, b, agent);
  }

  lemma LoggedNext(targets: seq<Target>, log: seq<QuarantineRow>, ids: seq<string>, a: string, env: DoctorEnv)
    ensures Logged(targets, log, ids + [a], env)
         == if Judged(targets, a, env, MarkQuarantined) && LogCount(Logged(targets, log, ids, env), a) == 0
            then Logged(targets, log, ids, env) + [LogRow(targets[TargetRow(targets, a)])]
            else Logged(targets, log, ids, env)
    ensures Picked(targets, ids, env, MarkQuarantined) + [] == Picked(targets, ids, env, MarkQuarantined)
  {
    assert (ids + [a])[..|ids|] == ids;
  }

  lemma EnteredAndLoggedNext(targets: seq<Target>, now: seq<Target>, log: seq<QuarantineRow>, init: seq<string>,
                             last: string, env: DoctorEnv)
    requires SameTargets(targets, now)
    requires Entered(now, log, Picked(targets, init, env, MarkQuarantined)) == Logged(targets, log, init, env)
    ensures Entered(now, log, Picked(targets, init + [last], env, MarkQuarantined))
         == Logged(targets, log, init + [last], env)
  {
    var picked := Picked(targets, init, env, MarkQuarantined);
    PickedNext(targets, init, last, env, MarkQuarantined);
    LoggedNext(targets, log, init, last, env);
    if Judged(targets, last, env, MarkQuarantined) {
      EnteredNext(now, log, picked, last);
      SameLogRow(targets, now, last);
    }
  }

  /** Entering the picked agents one by one is what the specification of a pass logs. */
  lemma {:induction false} EnteredIsLogged(targets: seq<Target>, now: seq<Target>, log: seq<QuarantineRow>,
                                           ids: seq<string>, env: DoctorEnv)
    requires SameTargets(targets, now)
    ensures Entered(now, log, Picked(targets, ids, env, MarkQuarantined)) == Logged(targets, log, ids, env)
  {
    if ids != [] {
      var init, last := ids[..|ids| - 1], ids[|ids| - 1];
      EnteredIsLogged(targets, now, log, init, env);
      EnteredAndLoggedNext(targets, now, log, init, last, env);
      assert init + [last] == ids;
    }
  }

  method QuarantineTargets(db: Db, ids: seq<string>)
    modifies db`targets, db`quarantine
    ensures db.targets == MarkedAll(old(db.targets), ids, Quarantined)
    ensures db.quarantine == Entered(old(db.targets), old(db.quarantine), ids)
  {
    ghost var was := db.targets;
    for i := 0 to |ids|
      invariant db.targets == MarkedAll(was, ids[..i], Quarantined)
      invariant db.quarantine == Entered(was, old(db.quarantine), ids[..i])
    {
      assert ids[..i + 1] == ids[..i] + [ids[i]];
      EnteredNext(was, old(db.quarantine), ids[..i], ids[i]);
      MarkedNext(was, ids[..i], ids[i], Quarantined);
      SameLogRow(was, db.targets, ids[i]);
      var k := TargetRow(db.targets, ids[i]);
      if k < |db.targets| && LogCount(db.quarantine, ids[i]) == 0 {
        db.quarantine := db.quarantine + [LogRow(db.targets[k])];
      }
      db.targets := MarkedAll(db.targets, [ids[i]], Quarantined);
    }
    assert ids[..|ids|] == ids;
  }

  predicate StoppedRows(now: seq<Session>, was: seq<Session>, missing: seq<string>)
  {
    && |now| == |was|
    && forall j :: 0 <= j < |was| ==> now[j] == if was[j].id in missing then was[j].(status := Stopped) else was[j]
  }

  /** Rows of agents in `ids`, and of the sessions in `done`, are degraded. */
  predicate DegradedRows(now: seq<Agent>, was: seq<Agent>, done: seq<string>, ids: seq<string>, env: DoctorEnv)
  {
    && |now| == |was|
    && forall j :: 0 <= j < |was| ==>
         now[j] == if was[j].session in done || was[j].id in ids
                   then Patched(was[j], SetStatus(Degraded, env.now)) else was[j]
  }

  lemma DegradedOneMore(now: seq<Agent>, was: seq<Agent>, done: seq<string>, ids: seq<string>, a: string,
                        env: DoctorEnv)
    requires DegradedRows(now, was, done, ids, env)
    ensures DegradedRows(PatchAgents(now, a, SetStatus(Degraded, env.now)), was, done, ids + [a], env)
  {
  }

  lemma DegradedSession(now: seq<Agent>, was: seq<Agent>, done: seq<string>, session: string, env: DoctorEnv)
    requires UniqueAgents(was) && DegradedRows(now, was, done, AgentsOf(was, session), env)
    ensures DegradedRows(now, was, done + [session], [], env)
  {
    forall j | 0 <= j < |was| ensures was[j].id in AgentsOf(was, session) <==> was[j].session == session {
      AgentsOfExact(was, session, was[j].id);
    }
  }

  method DegradeAgents(db: Db, ghost was: seq<Agent>, ghost done: seq<string>, ids: seq<string>, env: DoctorEnv)
    requires DegradedRows(db.agents, was, done, [], env)
    modifies db`agents
    ensures DegradedRows(db.agents, was, done, ids, env)
  {
    for k := 0 to |ids|
      invariant DegradedRows(db.agents, was, done, ids[..k], env)
    {
      assert ids[..k + 1] == ids[..k] + [ids[k]];
      DegradedOneMore(db.agents, was, done, ids[..k], ids[k], env);
      db.UpdateAgentStatus(ids[k], Degraded, env.now);
    }
    assert ids[..|ids|] == ids;
  }

  /** For each session without a run: degrade its agents, then stop it. */
  method StopMissing(db: Db, missing: seq<string>, env: DoctorEnv)
    requires UniqueAgents(db.agents)
    modifies db`agents, db`sessions
    ensures DegradedRows(db.agents, old(db.agents), missing, [], env)
    ensures StoppedRows(db.sessions, old(db.sessions), missing)
  {
    var was := db.agents;
    for i := 0 to |missing|
      invariant DegradedRows(db.agents, was, missing[..i], [], env)
      invariant StoppedRows(db.sessions, old(db.sessions), missing[..i])
    {
      var ids := AgentsOf(was, missing[i]);
      DegradeAgents(db, was, missing[..i], ids, env);
      DegradedSession(db.agents, was, missing[..i], missing[i], env);
      assert missing[..i + 1] == missing[..i] + [missing[i]];
      db.sessions := SetSessionStatus(db.sessions, missing[i], Stopped);
    }
    assert missing[..|missing|] == missing;
  }

  /** The three lists applied one after the other are the repair of each target in scope. */
  lemma ListsAreRepair(db: Store, f: Findings, env: DoctorEnv)
    requires DistinctTargets(db.targets) && FoundIn(f, db.targets, ScopedIds(db.sessions, db.agents), env)
    ensures var marked := MarkedAll(MarkedAll(db.targets, f.stale, TargetStale), f.degraded, TargetDegraded);
            MarkedAll(marked, f.quarantined, Quarantined) == PassTargets(db, env)
  {
    var ids := ScopedIds(db.sessions, db.agents);
    forall i | 0 <= i < |db.targets|
      ensures var a, v := db.targets[i].agent, Judge(db.targets[i], env);
              && (a in f.stale <==> InScope(db.sessions, db.agents, a) && v == MarkStale)
              && (a in f.degraded <==> InScope(db.sessions, db.agents, a) && v == MarkDegraded)
              && (a in f.quarantined <==> InScope(db.sessions, db.agents, a) && v == MarkQuarantined)
    {
      var a := db.targets[i].agent;
      assert TargetRow(db.targets, a) == i;
      ScopedIdsExact(db.sessions, db.agents, a);
      PickedExact(db.targets, ids, env, MarkStale, a);
      PickedExact(db.targets, ids, env, MarkDegraded, a);
      PickedExact(db.targets, ids, env, MarkQuarantined, a);
    }
  }

  lemma StoppedAreMissing(sessions: seq<Session>, env: DoctorEnv, j: nat)
    requires UniqueSessions(sessions) && j < |sessions|
    ensures sessions[j].id in MissingIds(sessions, env)
       <==> sessions[j].status == Active && sessions[j].id !in env.discovered
  {
    MissingIdsExact(sessions, env, sessions[j].id);
    if sessions[j].status == Active { assert IsActive(sessions, sessions[j].id); }
    if IsActive(sessions, sessions[j].id) {
      var i :| 0 <= i < |sessions| && sessions[i].id == sessions[j].id && sessions[i].status == Active;
      assert i == j;
    }
  }

  lemma StoppedIsPass(db: Store, now: seq<Session>, env: DoctorEnv)
    requires UniqueSessions(db.sessions) && StoppedRows(now, db.sessions, MissingIds(db.sessions, env))
    ensures now == PassSessions(db, env)
  {
    forall j | 0 <= j < |now| ensures now[j] == PassSessions(db, env)[j] { StoppedAreMissing(db.sessions, env, j); }
  }

  lemma DegradedIsPass(db: Store, now: seq<Agent>, env: DoctorEnv)
    requires DegradedRows(now, db.agents, MissingIds(db.sessions, env), [], env)
    ensures now == PassAgents(db, env)
  {
    forall j | 0 <= j < |now| ensures now[j] == PassAgents(db, env)[j] {
      MissingIdsExact(db.sessions, env, db.agents[j].session);
    }
  }

  /** When nothing is found there is nothing to repair. */
  lemma NothingFound(db: Store, env: DoctorEnv)
    requires DistinctTargets(db.targets) && UniqueSessions(db.sessions) && MissingIds(db.sessions, env) == []
    requires FoundIn(Findings([], [], [], []), db.targets, ScopedIds(db.sessions, db.agents), env)
    ensures Pass(db, env) == db
  {
    StoppedIsPass(db, db.sessions, env);
    DegradedIsPass(db, db.agents, env);
    ListsAreRepair(db, Findings([], [], [], []), env);
    MarkNone(db.targets, TargetStale);
    MarkNone(db.targets, TargetDegraded);
    MarkNone(db.targets, Quarantined);
    EnteredIsLogged(db.targets, db.targets, db.quarantine, ScopedIds(db.sessions, db.agents), env);
  }

  lemma MarkNone(targets: seq<Target>, t: Transport)
    ensures MarkedAll(targets, [], t) == targets
  {
  }

  method RepairTargets(db: Db, f: Findings, ghost was: Store, env: DoctorEnv)
    requires db.targets == was.targets && db.quarantine == was.quarantine && DistinctTargets(was.targets)
    requires FoundIn(f, was.targets, ScopedIds(was.sessions, was.agents), env)
    modifies db`targets, db`quarantine
    ensures db.targets == PassTargets(was, env)
    ensures db.quarantine == Logged(was.targets, was.quarantine, ScopedIds(was.sessions, was.agents), env)
  {
    MarkTargets(db, f.stale, TargetStale);
    MarkTargets(db, f.degraded, TargetDegraded);
    EnteredIsLogged(was.targets, db.targets, was.quarantine, ScopedIds(was.sessions, was.agents), env);
    QuarantineTargets(db, f.quarantined);
    ListsAreRepair(was, f, env);
  }

  /** `doctor_state::run` with the quarantine fix. */
  method DoctorRun(db: Db, env: DoctorEnv)
    requires DistinctTargets(db.targets) && UniqueAgents(db.agents) && UniqueSessions(db.sessions)
    modifies db
    ensures db.Snap() == Pass(old(db.Snap()), env)
  {
    ghost var was := db.Snap();
    var f := Classify(db.sessions, db.agents, db.targets, env);
    if f == Findings([], [], [], []) {
      NothingFound(was, env);
      return;
    }
    StopMissing(db, f.missing, env);
    StoppedIsPass(was, db.sessions, env);
    DegradedIsPass(was, db.agents, env);
    RepairTargets(db, f, was, env);
  }
}
