/** The nudge loop at statement granularity: the relay's scan interleaved with single SQL
    statements of any number of handlers, each running in a process of its own. */
module NudgeClock {
  import opened Base
  import opened Tables
  import opened Squad
  import opened Runs

  /** One statement on `agents`, as `queries.rs` issues it. */
  datatype Stmt = Insert(row: Agent) | Update(id: string, patch: Patch)

  function Do(agents: seq<Agent>, s: Stmt): seq<Agent>
  {
    match s
    case Insert(a) => InsertAgent(agents, a)
    case Update(id, p) => PatchAgents(agents, id, p)
  }

  /** Handlers insert idle rows and never stamp a nudge. */
  predicate FromHandler(s: Stmt)
  {
    match s
    case Insert(a) => !a.busy && a.activeTask.None? && a.nudgeAt.None?
    case Update(_, p) => !p.Nudged?
  }

  /** Where the scan is: between ticks, clock read, rows read and some still to look at, or
      about to stamp the first of them. */
  datatype Nudger =
    | Waiting
    | Clocked(now: nat)
    | Scanning(now: nat, queue: seq<Agent>)
    | Stamping(now: nat, queue: seq<Agent>, stamp: nat)

  /** A nudge as it happened: the stamp stored, the scan's clock, the signal it read. */
  datatype Nudge = Nudge(agent: string, stamp: nat, scan: nat, signal: Option<nat>)

  datatype Fine = Fine(clock: nat, agents: seq<Agent>, nudger: Nudger, log: seq<Nudge>)

  datatype FineStep =
    | Tick(to: nat)
    | Handler(stmt: Stmt)
    | ReadClock
    | ReadRows(rows: seq<Agent>)
    | Skip
    | TakeStamp
    | WriteStamp
    | EndScan

  predicate DistinctIds(rows: seq<Agent>)
  {
    forall i, j :: 0 <= i < j < |rows| ==> rows[i].id != rows[j].id
  }

  /** `rows` are the candidate rows, in whatever order the query returns them. */
  predicate IsScanOf(agents: seq<Agent>, rows: seq<Agent>)
  {
    && DistinctIds(rows)
    && (forall k :: 0 <= k < |rows| ==> rows[k] in agents && Candidate(rows[k]))
    && (forall i :: 0 <= i < |agents| && Candidate(agents[i]) ==> agents[i] in rows)
  }

  predicate Due(n: Nudger)
  {
    n.Scanning? && n.queue != [] && Overdue(n.now, n.queue[0].signalAt, n.queue[0].nudgeAt)
  }

  /** When a step can happen; a scan may be cut short at any time. */
  predicate Enabled(st: Fine, s: FineStep)
  {
    match s
    case Tick(to) => st.clock <= to
    case Handler(stmt) => FromHandler(stmt)
    case ReadClock => st.nudger.Waiting?
    case ReadRows(rows) => st.nudger.Clocked? && IsScanOf(st.agents, rows)
    case Skip => st.nudger.Scanning? && st.nudger.queue != [] && !Due(st.nudger)
    case TakeStamp => Due(st.nudger)
    case WriteStamp => st.nudger.Stamping? && st.nudger.queue != []
    case EndScan => true
  }

  function Move(st: Fine, s: FineStep): Fine
    requires Enabled(st, s)
  {
    match s
    case Tick(to) => st.(clock := to)
    case Handler(stmt) => st.(agents := Do(st.agents, stmt))
    case ReadClock => st.(nudger := Clocked(st.clock))
    case ReadRows(rows) => st.(nudger := Scanning(st.nudger.now, rows))
    case Skip => st.(nudger := Scanning(st.nudger.now, st.nudger.queue[1..]))
    case TakeStamp => st.(nudger := Stamping(st.nudger.now, st.nudger.queue, st.clock))
    case WriteStamp =>
      var n := st.nudger;
      st.(agents := PatchAgents(st.agents, n.queue[0].id, Nudged(n.stamp)),
          log := st.log + [Nudge(n.queue[0].id, n.stamp, n.now, n.queue[0].signalAt)],
          nudger := Scanning(n.now, n.queue[1..]))
    case EndScan => st.(nudger := Waiting)
  }

  predicate EnabledRun(st: Fine, run: seq<FineStep>)
    decreases |run|
  {
    run == [] || (Enabled(st, run[0]) && EnabledRun(Move(st, run[0]), run[1..]))
  }

  function Moves(st: Fine, run: seq<FineStep>): Fine
    requires EnabledRun(st, run)
    decreases |run|
  {
    if run == [] then st else Moves(Move(st, run[0]), run[1..])
  }

  // ---------------------------------------------------------------- the throttle

  function Stamps(log: seq<Nudge>, a: string): seq<nat>
  {
    if log == [] then []
    else
      var n := |log| - 1;
      Stamps(log[..n], a) + if log[n].agent == a then [log[n].stamp] else []
  }

  lemma StampsAppend(log: seq<Nudge>, e: Nudge, a: string)
    ensures Stamps(log + [e], a) == Stamps(log, a) + if e.agent == a then [e.stamp] else []
  {
    assert (log + [e])[..|log|] == log;
  }

  const THROTTLE_NANOS: nat := 90_001_000_000
  const SILENCE_NANOS: nat := 900_001_000_000

  /** The millisecond comparisons, in nanoseconds. */
  lemma OverdueInNanos(now: nat, signal: nat, nudge: Option<nat>)
    ensures Overdue(now, Some(signal), nudge)
       <==> now - signal >= SILENCE_NANOS && (nudge.None? || now - nudge.value >= THROTTLE_NANOS)
  {
  }

  predicate Apart(s: seq<nat>) { forall i :: 0 < i < |s| ==> s[i] - s[i - 1] >= THROTTLE_NANOS }

  /** The nudge stamp of agent `a`, if it has a row. */
  function StampOf(agents: seq<Agent>, a: string): Option<Option<nat>>
  {
    if agents == [] then None
    else if agents[0].id == a then Some(agents[0].nudgeAt)
    else StampOf(agents[1..], a)
  }

  /** The log and the table agree about the last nudge of agent `a`. */
  predicate LogInv(agents: seq<Agent>, log: seq<Nudge>, a: string)
  {
    var s := Stamps(log, a);
    Apart(s) && (s != [] ==> StampOf(agents, a) == Some(Some(s[|s| - 1])))
  }

  /** The rows a scan still holds are as the table has them, in the column the scan uses. */
  predicate Held(agents: seq<Agent>, rows: seq<Agent>, a: string)
  {
    && DistinctIds(rows)
    && forall k :: 0 <= k < |rows| && rows[k].id == a ==> StampOf(agents, a) == Some(rows[k].nudgeAt)
  }

  predicate NudgerInv(st: Fine, a: string)
  {
    match st.nudger
    case Waiting => true
    case Clocked(now) => now <= st.clock
    case Scanning(now, queue) => now <= st.clock && Held(st.agents, queue, a)
    case Stamping(now, queue, stamp) =>
      && now <= stamp <= st.clock && Held(st.agents, queue, a)
      && queue != [] && Overdue(now, queue[0].signalAt, queue[0].nudgeAt)
  }

  /** What is known of agent `a` at every point of a fine run. */
  predicate ThrottleInv(st: Fine, a: string)
  {
    DistinctIds(st.agents) && LogInv(st.agents, st.log, a) && NudgerInv(st, a)
  }

  lemma {:induction false} StampOfRow(agents: seq<Agent>, i: nat)
    requires i < |agents| && DistinctIds(agents)
    ensures StampOf(agents, agents[i].id) == Some(agents[i].nudgeAt)
  {
    if i > 0 { StampOfRow(agents[1..], i - 1); }
  }

  /** `u` has the rows of `t`, with the same ids and nudge stamps, then perhaps more. */
  lemma {:induction false} StampOfExtension(t: seq<Agent>, u: seq<Agent>, a: string)
    requires |t| <= |u| && forall i :: 0 <= i < |t| ==> u[i].id == t[i].id && u[i].nudgeAt == t[i].nudgeAt
    requires StampOf(t, a).Some?
    ensures StampOf(u, a) == StampOf(t, a)
  {
    if t[0].id != a { StampOfExtension(t[1..], u[1..], a); }
  }

  lemma {:induction false} StampOfNudged(agents: seq<Agent>, id: string, stamp: nat, a: string)
    requires StampOf(agents, a).Some?
    ensures StampOf(PatchAgents(agents, id, Nudged(stamp)), a)
         == if id == a then Some(Some(stamp)) else StampOf(agents, a)
  {
    if agents[0].id != a {
      StampOfNudged(agents[1..], id, stamp, a);
      assert PatchAgents(agents, id, Nudged(stamp))[1..] == PatchAgents(agents[1..], id, Nudged(stamp));
    }
  }

  /** A handler's statement leaves the nudge stamps alone and keeps every row. */
  lemma HandlerFrame(agents: seq<Agent>, s: Stmt)
    requires FromHandler(s) && DistinctIds(agents)
    ensures DistinctIds(Do(agents, s)) && |agents| <= |Do(agents, s)|
    ensures forall i :: 0 <= i < |agents| ==>
              Do(agents, s)[i].id == agents[i].id && Do(agents, s)[i].nudgeAt == agents[i].nudgeAt
  {
  }

  lemma HandlerKeepsThrottle(st: Fine, s: Stmt, a: string)
    requires FromHandler(s) && ThrottleInv(st, a)
    ensures ThrottleInv(Move(st, Handler(s)), a)
  {
    HandlerFrame(st.agents, s);
    if StampOf(st.agents, a).Some? { StampOfExtension(st.agents, Do(st.agents, s), a); }
  }

  lemma HeldRest(agents: seq<Agent>, rows: seq<Agent>, a: string)
    requires Held(agents, rows, a) && rows != []
    ensures Held(agents, rows[1..], a)
    ensures rows[0].id == a ==> forall k :: 0 <= k < |rows| - 1 ==> rows[1..][k].id != a
  {
    forall k | 0 <= k < |rows| - 1 ensures rows[1..][k] == rows[k + 1] { }
  }

  lemma ApartAppend(s: seq<nat>, stamp: nat)
    requires Apart(s) && (s != [] ==> stamp - s[|s| - 1] >= THROTTLE_NANOS)
    ensures Apart(s + [stamp])
  {
  }

  lemma LogWritten(agents: seq<Agent>, log: seq<Nudge>, e: Nudge, a: string)
    requires LogInv(agents, log, a)
    requires var last := StampOf(agents, a);
             e.agent == a ==> last.Some? && (last.value.Some? ==> e.stamp - last.value.value >= THROTTLE_NANOS)
    ensures LogInv(PatchAgents(agents, e.agent, Nudged(e.stamp)), log + [e], a)
  {
    StampsAppend(log, e, a);
    if e.agent == a { ApartAppend(Stamps(log, a), e.stamp); }
    if StampOf(agents, a).Some? { StampOfNudged(agents, e.agent, e.stamp, a); }
  }

  lemma HeldAfterWrite(agents: seq<Agent>, queue: seq<Agent>, stamp: nat, a: string)
    requires Held(agents, queue, a) && queue != []
    ensures Held(PatchAgents(agents, queue[0].id, Nudged(stamp)), queue[1..], a)
  {
    HeldRest(agents, queue, a);
    if StampOf(agents, a).Some? { StampOfNudged(agents, queue[0].id, stamp, a); }
  }

  lemma PatchKeepsIds(agents: seq<Agent>, id: string, p: Patch)
    requires DistinctIds(agents)
    ensures DistinctIds(PatchAgents(agents, id, p))
  {
  }

  lemma WriteKeepsThrottle(st: Fine, a: string)
    requires st.nudger.Stamping? && st.nudger.queue != [] && ThrottleInv(st, a)
    ensures ThrottleInv(Move(st, WriteStamp), a)
  {
    var n := st.nudger;
    var q := n.queue[0];
    PatchKeepsIds(st.agents, q.id, Nudged(n.stamp));
    HeldAfterWrite(st.agents, n.queue, n.stamp, a);
    LogWritten(st.agents, st.log, Nudge(q.id, n.stamp, n.now, q.signalAt), a);
  }

  lemma ReadKeepsThrottle(st: Fine, rows: seq<Agent>, a: string)
    requires Enabled(st, ReadRows(rows)) && ThrottleInv(st, a)
    ensures ThrottleInv(Move(st, ReadRows(rows)), a)
  {
    forall k | 0 <= k < |rows| && rows[k].id == a ensures StampOf(st.agents, a) == Some(rows[k].nudgeAt) {
      assert rows[k] in st.agents;
      var i :| 0 <= i < |st.agents| && st.agents[i] == rows[k];
      StampOfRow(st.agents, i);
    }
  }

  lemma StepKeepsThrottle(st: Fine, s: FineStep, a: string)
    requires Enabled(st, s) && ThrottleInv(st, a)
    ensures ThrottleInv(Move(st, s), a)
  {
    match s {
      case Handler(stmt) => HandlerKeepsThrottle(st, stmt, a);
      case ReadRows(rows) => ReadKeepsThrottle(st, rows, a);
      case Skip => HeldRest(st.agents, st.nudger.queue, a);
      case WriteStamp => WriteKeepsThrottle(st, a);
      case _ =>
    }
  }

  lemma {:induction false} ThrottleInRun(st: Fine, run: seq<FineStep>, a: string)
    requires EnabledRun(st, run) && ThrottleInv(st, a)
    ensures ThrottleInv(Moves(st, run), a)
    decreases |run|
  {
    if run != [] {
      StepKeepsThrottle(st, run[0], a);
      ThrottleInRun(Move(st, run[0]), run[1..], a);
    }
  }

  lemma {:induction false} ApartSpreads(s: seq<nat>, i: nat, j: nat)
    requires Apart(s) && i <= j < |s|
    ensures s[j] - s[i] >= (j - i) * THROTTLE_NANOS
    decreases j
  {
    if i < j { ApartSpreads(s, i, j - 1); }
  }

  predicate Quiet(st: Fine) { st.nudger.Waiting? && st.log == [] && DistinctIds(st.agents) }

  /** Under any interleaving with any handlers, the i-th and j-th nudge of one agent are at
      least (j-i)·90 001 ms apart. */
  lemma NudgesAreThrottled(st: Fine, run: seq<FineStep>, a: string, i: nat, j: nat)
    requires Quiet(st) && EnabledRun(st, run)
    requires i <= j < |Stamps(Moves(st, run).log, a)|
    ensures Stamps(Moves(st, run).log, a)[j] - Stamps(Moves(st, run).log, a)[i] >= (j - i) * THROTTLE_NANOS
  {
    ThrottleInRun(st, run, a);
    ApartSpreads(Stamps(Moves(st, run).log, a), i, j);
  }

  /** So `k` nudges of one agent inside `w` milliseconds satisfy (k-1)·90 001 <= w. */
  lemma NudgesInWindow(st: Fine, run: seq<FineStep>, a: string, first: nat, k: nat, w: nat)
    requires Quiet(st) && EnabledRun(st, run)
    requires k > 0 && first + k <= |Stamps(Moves(st, run).log, a)|
    requires var s := Stamps(Moves(st, run).log, a); s[first + k - 1] - s[first] <= w * NANOS_PER_MILLI
    ensures (k - 1) * (NUDGE_THROTTLE_MS + 1) <= w
  {
    NudgesAreThrottled(st, run, a, first, first + k - 1);
  }

  // ---------------------------------------------------------------- silence

  predicate Signalled(rows: seq<Agent>) { forall i :: 0 <= i < |rows| ==> (rows[i].busy ==> rows[i].signalAt.Some?) }

  predicate SilentEnough(e: Nudge) { e.signal.Some? && e.stamp - e.signal.value >= SILENCE_NANOS }

  predicate SignalInv(st: Fine)
  {
    && Signalled(st.agents)
    && (forall k :: 0 <= k < |st.log| ==> SilentEnough(st.log[k]))
    && match st.nudger
       case Waiting => true
       case Clocked(now) => now <= st.clock
       case Scanning(now, queue) =>
         now <= st.clock && Signalled(queue) && forall k :: 0 <= k < |queue| ==> queue[k].busy
       case Stamping(now, queue, stamp) =>
         && now <= stamp <= st.clock && Signalled(queue) && (forall k :: 0 <= k < |queue| ==> queue[k].busy)
         && queue != [] && Overdue(now, queue[0].signalAt, queue[0].nudgeAt)
  }

  /** The busy flag implies a signal time after every single statement. */
  lemma StatementKeepsSignalled(agents: seq<Agent>, s: Stmt)
    requires Signalled(agents) && (s.Insert? ==> !s.row.busy)
    ensures Signalled(Do(agents, s))
  {
  }

  lemma StepKeepsSignals(st: Fine, s: FineStep)
    requires Enabled(st, s) && SignalInv(st)
    ensures SignalInv(Move(st, s))
  {
    match s {
      case Handler(stmt) => StatementKeepsSignalled(st.agents, stmt);
      case ReadRows(rows) =>
        forall k | 0 <= k < |rows| ensures rows[k].busy && rows[k].signalAt.Some? { assert rows[k] in st.agents; }
      case WriteStamp => StatementKeepsSignalled(st.agents, Update(st.nudger.queue[0].id, Nudged(st.nudger.stamp)));
      case _ =>
    }
  }

  /** Every nudge is at least 900 001 ms after the signal it read, which was never missing;
      and no reachable row is busy without a signal time. */
  lemma {:induction false} NudgesFollowSilence(st: Fine, run: seq<FineStep>)
    requires EnabledRun(st, run) && SignalInv(st)
    ensures Signalled(Moves(st, run).agents)
    ensures forall k :: 0 <= k < |Moves(st, run).log| ==> SilentEnough(Moves(st, run).log[k])
    decreases |run|
  {
    if run != [] {
      StepKeepsSignals(st, run[0]);
      NudgesFollowSilence(Move(st, run[0]), run[1..]);
    }
  }

  // ---------------------------------------------------------------- lists of statements

  function Execute(agents: seq<Agent>, stmts: seq<Stmt>): seq<Agent>
  {
    if stmts == [] then agents else Do(Execute(agents, stmts[..|stmts| - 1]), stmts[|stmts| - 1])
  }
}
