/** How soon a silent agent is nudged: bounds over a schedule of scans, and the same bounds
    over coarse runs. Every handler step is a list of the statements of the fine model. */
module Latency {
  import opened Base
  import opened Tables
  import opened Squad
  import opened Runs
  import opened NudgeClock
  import Doctor
  import Launch

  // ---------------------------------------------------------------- one silent agent

  /** Scan times at which an agent silent since `sig` is nudged, its last nudge being `last`. */
  function NudgeTimes(sig: nat, last: Option<nat>, scans: seq<nat>): seq<nat>
    decreases |scans|
  {
    if scans == [] then []
    else if Overdue(scans[0], Some(sig), last) then [scans[0]] + NudgeTimes(sig, Some(scans[0]), scans[1..])
    else NudgeTimes(sig, last, scans[1..])
  }

  /** From `prev` on, scans come in order and at most `p` apart. */
  predicate Schedule(prev: nat, scans: seq<nat>, p: nat)
    decreases |scans|
  {
    scans == [] || (0 <= scans[0] - prev <= p && Schedule(scans[0], scans[1..], p))
  }

  function LastOr(s: seq<nat>, default: nat): nat
    decreases |s|
  {
    if s == [] then default else LastOr(s[1..], s[0])
  }

  /** The first scan at or after `t`. */
  function FirstPast(scans: seq<nat>, t: nat): Option<nat>
  {
    if scans == [] then None else if scans[0] >= t then Some(scans[0]) else FirstPast(scans[1..], t)
  }

  /** The first nudge is at the first scan past the silence threshold: the throttle, whose
      stamp is no later than the signal, never delays it. So it comes within a scan period. */
  lemma {:induction false} FirstNudge(sig: nat, last: Option<nat>, prev: nat, scans: seq<nat>, p: nat)
    requires Schedule(prev, scans, p) && prev < sig + SILENCE_NANOS <= LastOr(scans, prev)
    requires last.Some? ==> last.value <= sig
    ensures var s := NudgeTimes(sig, last, scans);
            && s != [] && SILENCE_NANOS <= s[0] - sig < SILENCE_NANOS + p
            && Some(s[0]) == FirstPast(scans, sig + SILENCE_NANOS)
    decreases |scans|
  {
    OverdueInNanos(scans[0], sig, last);
    if scans[0] < sig + SILENCE_NANOS { FirstNudge(sig, last, scans[0], scans[1..], p); }
  }

  /** Consecutive differences, from `prev` on, lie in `lo..hi`. */
  predicate Gaps(prev: nat, s: seq<nat>, lo: nat, hi: nat)
    decreases |s|
  {
    s == [] || (lo <= s[0] - prev < hi && Gaps(s[0], s[1..], lo, hi))
  }

  /** After a nudge at `prev`, with the latest scan at `at`: every further gap is at least the
      throttle and less than a scan period more, and no nudge is left out. */
  lemma {:induction false} LaterNudges(sig: nat, prev: nat, at: nat, scans: seq<nat>, p: nat)
    requires Schedule(at, scans, p)
    requires prev - sig >= SILENCE_NANOS && 0 <= at - prev < THROTTLE_NANOS
    ensures var s := NudgeTimes(sig, Some(prev), scans);
            && Gaps(prev, s, THROTTLE_NANOS, THROTTLE_NANOS + p)
            && LastOr(scans, at) - LastOr(s, prev) < THROTTLE_NANOS
    decreases |scans|
  {
    if scans != [] {
      OverdueInNanos(scans[0], sig, Some(prev));
      if scans[0] - prev >= THROTTLE_NANOS {
        LaterNudges(sig, scans[0], scans[0], scans[1..], p);
      } else {
        LaterNudges(sig, prev, scans[0], scans[1..], p);
      }
    }
  }

  const SCAN_NANOS: nat := 30_000_000_000

  /** Scans exactly 30 s apart. */
  predicate Grid(prev: nat, scans: seq<nat>)
    decreases |scans|
  {
    scans == [] || (scans[0] == prev + SCAN_NANOS && Grid(scans[0], scans[1..]))
  }

  /** On an exact 30 s grid the gap between nudges is exactly 120 s: after a nudge at `prev`
      and `k` further scans, fewer than four, the next nudge is at the fourth. */
  lemma {:induction false} GridGapIsTwoMinutes(sig: nat, prev: nat, at: nat, k: nat, scans: seq<nat>)
    requires Grid(at, scans) && prev - sig >= SILENCE_NANOS
    requires k < 4 && at == prev + k * SCAN_NANOS
    ensures Gaps(prev, NudgeTimes(sig, Some(prev), scans), 120_000_000_000, 120_000_000_001)
    decreases |scans|
  {
    if scans != [] {
      OverdueInNanos(scans[0], sig, Some(prev));
      if k == 3 {
        GridGapIsTwoMinutes(sig, scans[0], scans[0], 0, scans[1..]);
      } else {
        GridGapIsTwoMinutes(sig, prev, scans[0], k + 1, scans[1..]);
      }
    }
  }

  /** The bounds as the millisecond clock measures them. */
  lemma MillisecondBounds(d: nat, lo: int, p: nat)
    requires lo >= 0 && (lo + 1) * NANOS_PER_MILLI <= d < (lo + 1) * NANOS_PER_MILLI + p * NANOS_PER_MILLI
    ensures lo < Milliseconds(d) <= lo + p
  {
  }

  // ---------------------------------------------------------------- handlers as statements

  function Assigning(agents: seq<Agent>, session: string, role: string, task: string, now: nat): seq<Stmt>
  {
    var i := RowFor(agents, session, role);
    if i == |agents| then []
    else [Update(agents[i].id, Signal(Some(task), true, now)), Update(agents[i].id, SetStatus(Busy, now))]
  }

  function Reporting(id: string, r: StatusReport, now: nat): seq<Stmt>
  {
    [Update(id, SetStatus(AgentStatusOf(r.status), now))]
    + if r.status == SComplete || r.status == SFailed then [Update(id, ClearTask), Update(id, Signal(None, false, now))]
      else [Update(id, Signal(r.task, true, now))]
  }

  function Healing(agents: seq<Agent>, session: string, heal: Heal, now: nat): seq<Stmt>
  {
    match heal
    case NoHeal => []
    case Redecompose(task) => Assigning(agents, session, REPAIR_ROLE, task, now)
    case Resume(parent, role) => Assigning(agents, session, role, parent, now)
  }

  function OfMissingRuns(db: Store, env: Doctor.DoctorEnv): seq<bool>
  {
    seq(|db.agents|, i requires 0 <= i < |db.agents| => Doctor.MissingRun(db.sessions, env, db.agents[i].session))
  }

  function Messaging(db: Store, m: PeerMessage, now: nat): seq<Stmt>
  {
    if PeerAccepted(db, m) && m.to != ORCHESTRATOR
    then [Update(db.agents[RowFor(db.agents, m.session, m.to)].id, Signal(None, true, now))] else []
  }

  predicate AllFromHandlers(stmts: seq<Stmt>) { forall k :: 0 <= k < |stmts| ==> FromHandler(stmts[k]) }

  lemma {:induction false} ExecuteJoin(agents: seq<Agent>, s: seq<Stmt>, t: seq<Stmt>)
    ensures Execute(agents, s + t) == Execute(Execute(agents, s), t)
  {
    if t == [] {
      assert s + t == s;
    } else {
      var n := |t| - 1;
      assert (s + t)[..|s + t| - 1] == s + t[..n];
      ExecuteJoin(agents, s, t[..n]);
    }
  }

  lemma ExecuteOneMore(agents: seq<Agent>, s: seq<Stmt>, a: Stmt)
    ensures Execute(agents, s + [a]) == Do(Execute(agents, s), a)
    ensures AllFromHandlers(s + [a]) <==> AllFromHandlers(s) && FromHandler(a)
  {
    assert (s + [a])[..|s|] == s && (s + [a])[|s|] == a;
    assert forall k :: 0 <= k < |s| ==> (s + [a])[k] == s[k];
  }

  lemma ExecuteOne(agents: seq<Agent>, a: Stmt)
    ensures Execute(agents, [a]) == Do(agents, a)
  {
    assert [a][..0] == [];
  }

  lemma ExecuteTwo(agents: seq<Agent>, a: Stmt, b: Stmt)
    ensures Execute(agents, [a, b]) == Do(Do(agents, a), b)
  {
    assert [a, b] == [a] + [b];
    ExecuteJoin(agents, [a], [b]);
    ExecuteOne(agents, a);
    ExecuteOne(Do(agents, a), b);
  }

  lemma AssignedByStatements(agents: seq<Agent>, session: string, role: string, task: string, now: nat)
    ensures AllFromHandlers(Assigning(agents, session, role, task, now))
    ensures Execute(agents, Assigning(agents, session, role, task, now)) == Assigned(agents, session, role, task, now)
  {
    var i := RowFor(agents, session, role);
    if i < |agents| {
      var id := agents[i].id;
      ExecuteTwo(agents, Update(id, Signal(Some(task), true, now)), Update(id, SetStatus(Busy, now)));
    }
  }

  lemma ReportedByStatements(db: Store, r: StatusReport, env: Env)
    requires ReportReply(db, r) == Done
    ensures AllFromHandlers(Reporting(Reporter(db, r).id, r, env.now))
    ensures Execute(db.agents, Reporting(Reporter(db, r).id, r, env.now)) == ReportAgents(db, r, env)
  {
    var id := Reporter(db, r).id;
    var first := Update(id, SetStatus(AgentStatusOf(r.status), env.now));
    ExecuteOne(db.agents, first);
    var mid := Do(db.agents, first);
    if r.status == SComplete || r.status == SFailed {
      ExecuteJoin(db.agents, [first], [Update(id, ClearTask), Update(id, Signal(None, false, env.now))]);
      ExecuteTwo(mid, Update(id, ClearTask), Update(id, Signal(None, false, env.now)));
    } else {
      ExecuteJoin(db.agents, [first], [Update(id, Signal(r.task, true, env.now))]);
      ExecuteOne(mid, Update(id, Signal(r.task, true, env.now)));
    }
  }

  lemma HealedByStatements(agents: seq<Agent>, session: string, heal: Heal, now: nat)
    ensures AllFromHandlers(Healing(agents, session, heal, now))
    ensures Execute(agents, Healing(agents, session, heal, now)) == HealAgents(agents, session, heal, now)
  {
    match heal {
      case NoHeal =>
      case Redecompose(task) => AssignedByStatements(agents, session, REPAIR_ROLE, task, now);
      case Resume(parent, role) => AssignedByStatements(agents, session, role, parent, now);
    }
  }

  lemma {:induction false} RegisteredByStatements(agents: seq<Agent>, c: Launch.LaunchCall, n: nat)
    returns (stmts: seq<Stmt>)
    requires Launch.WellFormed(c) && n <= Launch.PaneCount(c)
    ensures AllFromHandlers(stmts) && Execute(agents, stmts) == Launch.InsertAgents(agents, c, n)
  {
    stmts := [];
    if n > 0 {
      var before := RegisteredByStatements(agents, c, n - 1);
      var last := Insert(Launch.AgentRow(c, n - 1));
      ExecuteOneMore(agents, before, last);
      stmts := before + [last];
    }
  }

  /** The marked ones among the first `n` rows are patched, the others as before. */
  predicate Updated(r: seq<Agent>, rows: seq<Agent>, marked: seq<bool>, p: Patch, n: nat)
    requires |rows| == |marked|
  {
    && |r| == |rows|
    && forall i :: 0 <= i < |r| ==> r[i] == if i < n && marked[i] then Patched(rows[i], p) else rows[i]
  }

  lemma UpdatedNext(r: seq<Agent>, rows: seq<Agent>, marked: seq<bool>, p: Patch, k: nat)
    requires |rows| == |marked| && Updated(r, rows, marked, p, k) && k < |rows| && DistinctIds(rows)
    ensures Updated(if marked[k] then PatchAgents(r, rows[k].id, p) else r, rows, marked, p, k + 1)
  {
    forall i | 0 <= i < |r| && i != k ensures r[i].id != rows[k].id { }
  }

  lemma UpdatedByOneMore(rows: seq<Agent>, stmts: seq<Stmt>, marked: seq<bool>, p: Patch, k: nat)
    returns (next: seq<Stmt>)
    requires |rows| == |marked| && k < |rows| && DistinctIds(rows) && !p.Nudged?
    requires AllFromHandlers(stmts) && Updated(Execute(rows, stmts), rows, marked, p, k)
    ensures AllFromHandlers(next) && Updated(Execute(rows, next), rows, marked, p, k + 1)
  {
    UpdatedNext(Execute(rows, stmts), rows, marked, p, k);
    if marked[k] {
      ExecuteOneMore(rows, stmts, Update(rows[k].id, p));
      next := stmts + [Update(rows[k].id, p)];
    } else {
      next := stmts;
    }
  }

  lemma UpdatedByNone(rows: seq<Agent>, marked: seq<bool>, p: Patch)
    requires |rows| == |marked|
    ensures AllFromHandlers([]) && Updated(Execute(rows, []), rows, marked, p, 0)
  {
  }

  /** One update for each of the first `n` rows that is marked. */
  lemma {:induction false} UpdatedByStatements(rows: seq<Agent>, marked: seq<bool>, p: Patch, n: nat)
    returns (stmts: seq<Stmt>)
    requires n <= |rows| == |marked| && DistinctIds(rows) && !p.Nudged?
    ensures AllFromHandlers(stmts) && Updated(Execute(rows, stmts), rows, marked, p, n)
  {
    if n == 0 {
      UpdatedByNone(rows, marked, p);
      stmts := [];
    } else {
      var before := UpdatedByStatements(rows, marked, p, n - 1);
      stmts := UpdatedByOneMore(rows, before, marked, p, n - 1);
    }
  }

  lemma DegradedByStatements(db: Store, env: Doctor.DoctorEnv) returns (stmts: seq<Stmt>)
    requires UniqueAgents(db.agents)
    ensures AllFromHandlers(stmts) && Execute(db.agents, stmts) == Doctor.PassAgents(db, env)
  {
    stmts := UpdatedByStatements(db.agents, OfMissingRuns(db, env), SetStatus(Degraded, env.now), |db.agents|);
  }

  lemma LaunchErrorByStatements(db: Store, session: string, role: string, now: nat) returns (stmts: seq<Stmt>)
    ensures AllFromHandlers(stmts) && Execute(db.agents, stmts) == Launch.LaunchError(db, session, role, now).agents
  {
    var i := RowFor(db.agents, session, role);
    stmts := [];
    if i < |db.agents| {
      stmts := [Update(db.agents[i].id, SetStatus(Failed, now))];
      ExecuteOne(db.agents, stmts[0]);
    }
  }

  lemma PeerIsStatements(db: Store, m: PeerMessage, env: Env)
    ensures AllFromHandlers(Messaging(db, m, env.now))
    ensures Execute(db.agents, Messaging(db, m, env.now)) == Peer(db, m, env).agents
  {
    if PeerAccepted(db, m) {
      ExecuteOne(db.agents, Update(db.agents[RowFor(db.agents, m.session, m.to)].id, Signal(None, true, env.now)));
    }
  }

  lemma ReportIsStatements(db: Store, r: StatusReport, env: Env, heal: Heal) returns (stmts: seq<Stmt>)
    requires ReportReply(db, r) == Done
    ensures AllFromHandlers(stmts) && Execute(db.agents, stmts) == Reported(db, r, env, heal).agents
  {
    stmts := Reporting(Reporter(db, r).id, r, env.now) + Healing(ReportAgents(db, r, env), r.session, heal, env.now);
    ReportedByStatements(db, r, env);
    HealedByStatements(ReportAgents(db, r, env), r.session, heal, env.now);
    ExecuteJoin(db.agents, Reporting(Reporter(db, r).id, r, env.now),
                Healing(ReportAgents(db, r, env), r.session, heal, env.now));
  }

  /** Every coarse step but the scan is, on `agents`, some list of handler statements: the
      coarse machine is the fine one with nobody in between. */
  lemma HandlersAreStatements(db: Store, s: Step) returns (stmts: seq<Stmt>)
    requires Fresh(db, s) && UniqueAgents(db.agents) && !s.DoNudge?
    ensures AllFromHandlers(stmts) && Execute(db.agents, stmts) == Apply(db, s).agents
  {
    stmts := [];
    match s {
      case DoLaunch(c) =>
        if !Launch.SessionExists(db.sessions, Launch.SessionOf(c)) {
          stmts := RegisteredByStatements(db.agents, c, Launch.PaneCount(c));
        }
      case DoDispatch(d, env) =>
        if DispatchAccepted(d) {
          stmts := Assigning(db.agents, d.session, d.to, d.task, env.now);
          AssignedByStatements(db.agents, d.session, d.to, d.task, env.now);
        }
      case DoReport(r, env) =>
        if ReportReply(db, r) == Done { stmts := ReportIsStatements(db, r, env, Decision(db, r, env)); }
      case DoPeer(m, env) =>
        stmts := Messaging(db, m, env.now);
        PeerIsStatements(db, m, env);
      case DoDoctor(env) => stmts := DegradedByStatements(db, env);
      case DoLaunchError(session, role, now) => stmts := LaunchErrorByStatements(db, session, role, now);
      case _ =>
    }
  }

  lemma {:induction false} StatementsKeepNudgeAt(agents: seq<Agent>, stmts: seq<Stmt>)
    requires AllFromHandlers(stmts)
    ensures |agents| <= |Execute(agents, stmts)|
    ensures forall i :: 0 <= i < |agents| ==> Execute(agents, stmts)[i].nudgeAt == agents[i].nudgeAt
  {
    if stmts != [] { StatementsKeepNudgeAt(agents, stmts[..|stmts| - 1]); }
  }

  // ---------------------------------------------------------------- over runs

  function ScanTimes(run: seq<Step>): seq<nat>
  {
    if run == [] then [] else (if run[0].DoNudge? then [run[0].now] else []) + ScanTimes(run[1..])
  }

  /** Row `i` is a candidate with its last signal at `sig`, from here to the end of the run. */
  predicate StaysSilent(db: Store, run: seq<Step>, i: nat, sig: nat)
    requires FreshRun(db, run)
    decreases |run|
  {
    && i < |db.agents| && Candidate(db.agents[i]) && db.agents[i].signalAt == Some(sig)
    && (run == [] || StaysSilent(Apply(db, run[0]), run[1..], i, sig))
  }

  /** The times at which the run nudges row `i`. */
  function NudgesOf(db: Store, run: seq<Step>, i: nat): seq<nat>
    requires FreshRun(db, run)
    decreases |run|
  {
    if run == [] then []
    else (if run[0].DoNudge? && i < |db.agents| && ToNudge(db.agents[i], run[0].now) then [run[0].now] else [])
         + NudgesOf(Apply(db, run[0]), run[1..], i)
  }

  lemma StepNudges(db: Store, s: Step, i: nat)
    requires Fresh(db, s) && UniqueAgents(db.agents) && i < |db.agents|
    ensures i < |Apply(db, s).agents|
    ensures Apply(db, s).agents[i].nudgeAt
         == if s.DoNudge? && ToNudge(db.agents[i], s.now) then Some(s.now) else db.agents[i].nudgeAt
  {
    if !s.DoNudge? {
      var stmts := HandlersAreStatements(db, s);
      StatementsKeepNudgeAt(db.agents, stmts);
    }
  }

  lemma {:induction false} SilentRunNudges(db: Store, run: seq<Step>, i: nat, sig: nat)
    requires FreshRun(db, run) && UniqueAgents(db.agents) && RowsOk(db.agents) && StaysSilent(db, run, i, sig)
    ensures NudgesOf(db, run, i) == NudgeTimes(sig, db.agents[i].nudgeAt, ScanTimes(run))
    decreases |run|
  {
    if run != [] {
      var rest := ScanTimes(run[1..]);
      StepNudges(db, run[0], i);
      AgentsStep(db, run[0]);
      SilentRunNudges(Apply(db, run[0]), run[1..], i, sig);
      if run[0].DoNudge? {
        assert ScanTimes(run) == [run[0].now] + rest && ([run[0].now] + rest)[1..] == rest;
      } else {
        assert ScanTimes(run) == [] + rest == rest;
      }
    }
  }

  /** In any run with scans at most `p` milliseconds apart in which an agent stays silent
      from `sig` on, its first nudge is measured in (900 000, 900 000 + p] ms. */
  lemma FirstNudgeInRun(db: Store, run: seq<Step>, i: nat, sig: nat, prev: nat, p: nat)
    requires FreshRun(db, run) && UniqueAgents(db.agents) && RowsOk(db.agents) && StaysSilent(db, run, i, sig)
    requires Schedule(prev, ScanTimes(run), p * NANOS_PER_MILLI)
    requires prev < sig + SILENCE_NANOS <= LastOr(ScanTimes(run), prev)
    requires db.agents[i].nudgeAt.Some? ==> db.agents[i].nudgeAt.value <= sig
    ensures var s := NudgesOf(db, run, i);
            s != [] && NUDGE_SILENCE_MS < Milliseconds(s[0] - sig) <= NUDGE_SILENCE_MS + p
  {
    SilentRunNudges(db, run, i, sig);
    FirstNudge(sig, db.agents[i].nudgeAt, prev, ScanTimes(run), p * NANOS_PER_MILLI);
    MillisecondBounds(NudgesOf(db, run, i)[0] - sig, NUDGE_SILENCE_MS, p);
  }

  /** Consecutive distances as the millisecond clock measures them. */
  predicate MeasuredGaps(prev: nat, s: seq<nat>, lo: int, hi: int)
    decreases |s|
  {
    s == [] || (lo < Milliseconds(s[0] - prev) <= hi && MeasuredGaps(s[0], s[1..], lo, hi))
  }

  lemma {:induction false} GapsMeasured(prev: nat, s: seq<nat>, p: nat)
    requires Gaps(prev, s, THROTTLE_NANOS, THROTTLE_NANOS + p * NANOS_PER_MILLI)
    ensures MeasuredGaps(prev, s, NUDGE_THROTTLE_MS, NUDGE_THROTTLE_MS + p)
    decreases |s|
  {
    if s != [] {
      MillisecondBounds(s[0] - prev, NUDGE_THROTTLE_MS, p);
      GapsMeasured(s[0], s[1..], p);
    }
  }

  /** From a state just after a nudge at `prev`, every later nudge is measured in
      (90 000, 90 000 + p] ms after the one before it, as long as scans go on. */
  lemma LaterNudgesInRun(db: Store, run: seq<Step>, i: nat, sig: nat, prev: nat, p: nat)
    requires FreshRun(db, run) && UniqueAgents(db.agents) && RowsOk(db.agents) && StaysSilent(db, run, i, sig)
    requires db.agents[i].nudgeAt == Some(prev) && prev - sig >= SILENCE_NANOS
    requires Schedule(prev, ScanTimes(run), p * NANOS_PER_MILLI)
    ensures MeasuredGaps(prev, NudgesOf(db, run, i), NUDGE_THROTTLE_MS, NUDGE_THROTTLE_MS + p)
    ensures LastOr(ScanTimes(run), prev) - LastOr(NudgesOf(db, run, i), prev) < THROTTLE_NANOS
  {
    SilentRunNudges(db, run, i, sig);
    LaterNudges(sig, prev, prev, ScanTimes(run), p * NANOS_PER_MILLI);
    GapsMeasured(prev, NudgesOf(db, run, i), p);
  }

  /** The agent row whose silence clock a call restarts, if the call is accepted. */
  function Restarted(db: Store, s: Step): nat
  {
    match s
    case DoReport(r, _) => if ReportReply(db, r) == Done then RowFor(db.agents, r.session, r.role) else |db.agents|
    case DoDispatch(d, _) => if DispatchAccepted(d) then RowFor(db.agents, d.session, d.to) else |db.agents|
    case DoPeer(m, _) => if m.to != ORCHESTRATOR then RowFor(db.agents, m.session, m.to) else |db.agents|
    case _ => |db.agents|
  }

  lemma ReporterSignals(db: Store, r: StatusReport, env: Env)
    requires ReportReply(db, r) == Done
    ensures ReportAgents(db, r, env)[RowFor(db.agents, r.session, r.role)].signalAt == Some(env.now)
  {
  }

  lemma AssignedSignals(agents: seq<Agent>, session: string, role: string, task: string, now: nat, i: nat)
    requires i < |agents| && agents[i].signalAt == Some(now)
    ensures Assigned(agents, session, role, task, now)[i].signalAt == Some(now)
  {
  }

  lemma ReportRestarts(db: Store, r: StatusReport, env: Env, heal: Heal)
    requires ReportReply(db, r) == Done
    ensures Reported(db, r, env, heal).agents[RowFor(db.agents, r.session, r.role)].signalAt == Some(env.now)
  {
    var k, mid := RowFor(db.agents, r.session, r.role), ReportAgents(db, r, env);
    ReporterSignals(db, r, env);
    match heal {
      case NoHeal =>
      case Redecompose(task) => AssignedSignals(mid, r.session, REPAIR_ROLE, task, env.now, k);
      case Resume(parent, role) => AssignedSignals(mid, r.session, role, parent, env.now, k);
    }
  }

  /** A report, a dispatch and a peer message to a worker restart the silence clock: no scan
      within 900 001 ms of one nudges the agent it concerns. */
  lemma SignalSilencesNudges(db: Store, s: Step, now: nat)
    requires Fresh(db, s) && Restarted(db, s) < |db.agents|
    requires (s.DoReport? || s.DoDispatch? || s.DoPeer?) && now < s.env.now + SILENCE_NANOS
    ensures Restarted(db, s) < |Apply(db, s).agents|
    ensures Apply(db, s).agents[Restarted(db, s)].signalAt == Some(s.env.now)
    ensures !ToNudge(Apply(db, s).agents[Restarted(db, s)], now)
  {
    var k := Restarted(db, s);
    match s {
      case DoReport(r, env) => ReportRestarts(db, r, env, Decision(db, r, env));
      case _ =>
    }
    assert Apply(db, s).agents[k].signalAt == Some(s.env.now);
    OverdueInNanos(now, s.env.now, Apply(db, s).agents[k].nudgeAt);
  }
}
