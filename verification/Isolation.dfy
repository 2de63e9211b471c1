/** Isolation: a call made for one session leaves the rows of every other session alone,
    except through the two ids that are not session-checked. */
module Isolation {
  import opened Base
  import opened Codecs
  import opened Tables
  import opened Squad
  import opened Runs
  import opened Items
  import opened Inbox
  import Launch

  // ---------------------------------------------------------------- a session's view

  /** The rows that belong to session `t`, in order. */
  function Rows<T>(rows: seq<T>, of: T -> string, t: string): seq<T>
  {
    if rows == [] then []
    else Rows(rows[..|rows| - 1], of, t) + if of(rows[|rows| - 1]) == t then [rows[|rows| - 1]] else []
  }

  function OfSession(s: Session): string { s.id }
  function OfAgent(a: Agent): string { a.session }
  function OfItem(it: WorkItem): string { it.session }
  function OfDispatch(d: DispatchRow): string { d.session }
  function OfMessage(m: Message): string { m.session }
  function OfCard(c: Card): string { c.session }
  function OfSub(s: Subscription): string { s.session }

  datatype View = View(sessions: seq<Session>, agents: seq<Agent>, items: seq<WorkItem>, dispatches: seq<DispatchRow>,
                       inbox: seq<Message>, cards: seq<Card>, subs: seq<Subscription>)

  /** Everything the tables hold for session `t`. */
  function ViewOf(db: Store, t: string): View
  {
    View(Rows(db.sessions, OfSession, t), Rows(db.agents, OfAgent, t), Rows(db.items, OfItem, t),
         Rows(db.dispatches, OfDispatch, t), Rows(db.inbox, OfMessage, t), Rows(db.cards, OfCard, t),
         Rows(db.subs, OfSub, t))
  }

  /** From `a` to `b`, only rows of other sessions than `t` are changed or added. */
  predicate Spares<T(==)>(a: seq<T>, b: seq<T>, of: T -> string, t: string)
  {
    && |a| <= |b|
    && (forall i :: 0 <= i < |a| ==> a[i] == b[i] || (of(a[i]) != t && of(b[i]) != t))
    && (forall i :: |a| <= i < |b| ==> of(b[i]) != t)
  }

  lemma {:induction false} SparedRows<T>(a: seq<T>, b: seq<T>, of: T -> string, t: string)
    requires Spares(a, b, of, t)
    ensures Rows(a, of, t) == Rows(b, of, t)
    decreases |b|
  {
    if |b| > |a| {
      SparedRows(a, b[..|b| - 1], of, t);
    } else if b != [] {
      SparedRows(a[..|a| - 1], b[..|b| - 1], of, t);
    }
  }

  predicate SparesAll(a: Store, b: Store, t: string)
  {
    && Spares(a.sessions, b.sessions, OfSession, t) && Spares(a.agents, b.agents, OfAgent, t)
    && Spares(a.items, b.items, OfItem, t) && Spares(a.dispatches, b.dispatches, OfDispatch, t)
    && Spares(a.inbox, b.inbox, OfMessage, t) && Spares(a.cards, b.cards, OfCard, t)
    && Spares(a.subs, b.subs, OfSub, t)
  }

  lemma SparedView(a: Store, b: Store, t: string)
    requires SparesAll(a, b, t)
    ensures ViewOf(a, t) == ViewOf(b, t)
  {
    SparedRows(a.sessions, b.sessions, OfSession, t);
    SparedRows(a.agents, b.agents, OfAgent, t);
    SparedRows(a.items, b.items, OfItem, t);
    SparedRows(a.dispatches, b.dispatches, OfDispatch, t);
    SparedRows(a.inbox, b.inbox, OfMessage, t);
    SparedRows(a.cards, b.cards, OfCard, t);
    SparedRows(a.subs, b.subs, OfSub, t);
  }

  // ---------------------------------------------------------------- steps for a session

  /** The invariants isolation rests on. */
  predicate Sound(db: Store)
  {
    UniqueAgents(db.agents) && RowsOk(db.agents) && UniqueItems(db.items) && ItemsOwned(db) && Housed(db)
  }

  /** The step is a call for another session than `t`, naming no assignment id and clearing
      no message. */
  predicate Foreign(s: Step, t: string)
  {
    match s
    case DoLaunch(c) => Launch.SessionOf(c) != t
    case DoDispatch(d, _) => d.session != t
    case DoReport(r, _) => r.session != t && r.assignment.None?
    case DoPeer(m, _) => m.session != t
    case DoClear(ids) => ids == []
    case DoSubscribe(sub) => sub.session != t
    case DoStop(session) => session != t
    case DoLaunchError(session, _, _) => session != t
    case DoNudge(_, _) => false
    case DoDoctor(_) => false
  }

  /** A statement on one agent row spares the sessions that row is not in. */
  lemma PatchSpares(agents: seq<Agent>, k: nat, p: Patch, t: string)
    requires UniqueAgents(agents) && k < |agents| && agents[k].session != t
    ensures Spares(agents, PatchAgents(agents, agents[k].id, p), OfAgent, t)
    ensures UniqueAgents(PatchAgents(agents, agents[k].id, p))
    ensures PatchAgents(agents, agents[k].id, p)[k].id == agents[k].id
    ensures PatchAgents(agents, agents[k].id, p)[k].session == agents[k].session
  {
    var r := PatchAgents(agents, agents[k].id, p);
    forall i | 0 <= i < |agents| && i != k ensures r[i] == agents[i] {
      assert agents[i].id != agents[k].id;
    }
  }

  lemma SparesTwice<T>(a: seq<T>, b: seq<T>, c: seq<T>, of: T -> string, t: string)
    requires Spares(a, b, of, t) && Spares(b, c, of, t)
    ensures Spares(a, c, of, t)
  {
  }

  lemma AssignedSpares(agents: seq<Agent>, session: string, role: string, task: string, now: nat, t: string)
    requires UniqueAgents(agents) && session != t
    ensures Spares(agents, Assigned(agents, session, role, task, now), OfAgent, t)
  {
    var k := RowFor(agents, session, role);
    if k < |agents| {
      var id := agents[k].id;
      PatchSpares(agents, k, Signal(Some(task), true, now), t);
      var mid := PatchAgents(agents, id, Signal(Some(task), true, now));
      PatchSpares(mid, k, SetStatus(Busy, now), t);
      SparesTwice(agents, mid, PatchAgents(mid, id, SetStatus(Busy, now)), OfAgent, t);
    }
  }

  lemma ReportAgentsSpare(db: Store, r: StatusReport, env: Env, t: string)
    requires ReportReply(db, r) == Done && UniqueAgents(db.agents) && r.session != t
    ensures Spares(db.agents, ReportAgents(db, r, env), OfAgent, t)
    ensures UniqueAgents(ReportAgents(db, r, env))
  {
    var k := RowFor(db.agents, r.session, r.role);
    var id := db.agents[k].id;
    var p1 := SetStatus(AgentStatusOf(r.status), env.now);
    PatchSpares(db.agents, k, p1, t);
    var a1 := PatchAgents(db.agents, id, p1);
    var p2 := if r.status == SComplete || r.status == SFailed then ClearTask else Signal(r.task, true, env.now);
    PatchSpares(a1, k, p2, t);
    var a2 := PatchAgents(a1, id, p2);
    SparesTwice(db.agents, a1, a2, OfAgent, t);
    if r.status == SComplete || r.status == SFailed {
      PatchSpares(a2, k, Signal(None, false, env.now), t);
      SparesTwice(db.agents, a2, PatchAgents(a2, id, Signal(None, false, env.now)), OfAgent, t);
    }
  }

  lemma HealAgentsSpare(agents: seq<Agent>, session: string, heal: Heal, now: nat, t: string)
    requires UniqueAgents(agents) && session != t
    ensures Spares(agents, HealAgents(agents, session, heal, now), OfAgent, t)
  {
    match heal {
      case NoHeal =>
      case Redecompose(task) => AssignedSpares(agents, session, REPAIR_ROLE, task, now, t);
      case Resume(parent, role) => AssignedSpares(agents, session, role, parent, now, t);
    }
  }

  /** The open item a report resolves to lies in the report's own session: its target agent
      does, and an agent id belongs to one session. */
  lemma ResolvedItemIsOwn(db: Store, r: StatusReport, env: Env, i: nat)
    requires Sound(db) && ReportReply(db, r) == Done && r.assignment.None?
    requires i < |db.items| && ReportItem(db, r, env) == Some(db.items[i].id)
    ensures db.items[i].session == r.session
  {
    var k := OpenItem(db.items, r.task.value, Reporter(db, r).id, env.openHint);
    assert k == i by { assert db.items[k].id == db.items[i].id; }
    var a :| 0 <= a < |db.agents| && Owns(db.agents[a], db.items[i]);
    var b := RowFor(db.agents, r.session, r.role);
    assert a == b by { assert db.agents[a].id == db.agents[b].id; }
  }

  lemma ReportItemsSpare(db: Store, r: StatusReport, env: Env, heal: Heal, t: string)
    requires Sound(db) && ReportReply(db, r) == Done && r.assignment.None? && r.session != t
    ensures Spares(db.items, HealItems(ReportItems(db, r, env), r.session, heal), OfItem, t)
  {
    var mid := ReportItems(db, r, env);
    forall i | 0 <= i < |db.items| && mid[i] != db.items[i] ensures db.items[i].session == r.session == mid[i].session {
      ResolvedItemIsOwn(db, r, env, i);
    }
    SparesTwice(db.items, mid, HealItems(mid, r.session, heal), OfItem, t);
  }

  lemma ReportInboxSpares(db: Store, r: StatusReport, env: Env, t: string)
    requires Housed(db) && ReportReply(db, r) == Done && r.session != t
    ensures Spares(db.inbox, ReportInbox(db, r, env), OfMessage, t)
  {
    NamedSessionResolves(db, r.session, r.role);
  }

  lemma ReportSpares(db: Store, r: StatusReport, env: Env, heal: Heal, t: string)
    requires Sound(db) && ReportReply(db, r) == Done && r.assignment.None? && r.session != t
    ensures SparesAll(db, Reported(db, r, env, heal), t)
  {
    ReportAgentsSpare(db, r, env, t);
    var mid := ReportAgents(db, r, env);
    HealAgentsSpare(mid, r.session, heal, env.now, t);
    SparesTwice(db.agents, mid, HealAgents(mid, r.session, heal, env.now), OfAgent, t);
    ReportItemsSpare(db, r, env, heal, t);
    ReportInboxSpares(db, r, env, t);
    CardsSpared(db, r, env, t);
  }

  lemma CardsSpared(db: Store, r: StatusReport, env: Env, t: string)
    requires r.session != t
    ensures Spares(db.cards, ReportCards(db, r, env), OfCard, t)
  {
  }

  lemma DispatchSpares(db: Store, d: DispatchCall, env: Env, t: string)
    requires Sound(db) && d.session != t
    ensures SparesAll(db, Dispatch(db, d, env), t)
  {
    AssignedSpares(db.agents, d.session, d.to, d.task, env.now, t);
  }

  lemma PeerSpares(db: Store, m: PeerMessage, env: Env, t: string)
    requires Sound(db) && m.session != t
    ensures SparesAll(db, Peer(db, m, env), t)
  {
    if PeerAccepted(db, m) {
      NamedSessionResolves(db, m.session, m.to);
      PatchSpares(db.agents, RowFor(db.agents, m.session, m.to), Signal(None, true, env.now), t);
    }
  }

  lemma LaunchSpares(db: Store, c: Launch.LaunchCall, t: string)
    requires Launch.WellFormed(c) && Sound(db) && Launch.SessionOf(c) != t
    ensures SparesAll(db, Launch.Register(db, c), t)
  {
    InsertKeepsUnique(db.agents, c, Launch.PaneCount(c));
    var r := Launch.InsertAgents(db.agents, c, Launch.PaneCount(c));
    forall i | 0 <= i < |db.agents| ensures r[i] == db.agents[i] { assert r[i] == r[..|db.agents|][i]; }
  }

  lemma LaunchErrorSpares(db: Store, session: string, role: string, now: nat, t: string)
    requires Sound(db) && session != t
    ensures SparesAll(db, Launch.LaunchError(db, session, role, now), t)
  {
    var k := RowFor(db.agents, session, role);
    if k < |db.agents| { PatchSpares(db.agents, k, SetStatus(Failed, now), t); }
  }

  lemma OtherStepsSpare(db: Store, s: Step, t: string)
    requires Fresh(db, s) && Foreign(s, t) && (s.DoClear? || s.DoSubscribe? || s.DoStop?)
    ensures SparesAll(db, Apply(db, s), t)
  {
    if s.DoClear? { assert ClearMessages(db.inbox, []) == db.inbox; }
  }

  /** A step for another session changes nothing `t` can see. */
  lemma IsolatedStep(db: Store, s: Step, t: string)
    requires Fresh(db, s) && Sound(db) && Foreign(s, t)
    ensures ViewOf(Apply(db, s), t) == ViewOf(db, t)
  {
    match s {
      case DoLaunch(c) => LaunchSpares(db, c, t);
      case DoDispatch(d, env) => DispatchSpares(db, d, env, t);
      case DoReport(r, env) => if ReportReply(db, r) == Done { ReportSpares(db, r, env, Decision(db, r, env), t); }
      case DoPeer(m, env) => PeerSpares(db, m, env, t);
      case DoLaunchError(session, role, now) => LaunchErrorSpares(db, session, role, now, t);
      case _ => OtherStepsSpare(db, s, t);
    }
    if !(s.DoReport? && ReportReply(db, s.report) != Done) { SparedView(db, Apply(db, s), t); }
  }

  predicate AllForeign(run: seq<Step>, t: string) { forall k :: 0 <= k < |run| ==> Foreign(run[k], t) }

  lemma SoundStep(db: Store, s: Step)
    requires Fresh(db, s) && Sound(db)
    ensures Sound(Apply(db, s))
  {
    AgentsStep(db, s);
    ItemsStep(db, s);
    HousedStep(db, s);
  }

  /** Whatever other sessions do, in any number of calls, a session's own rows stay as they
      are. */
  lemma {:induction false} IsolatedRun(db: Store, run: seq<Step>, t: string)
    requires FreshRun(db, run) && Sound(db) && AllForeign(run, t)
    ensures ViewOf(Run(db, run), t) == ViewOf(db, t)
    decreases |run|
  {
    if run != [] {
      assert Foreign(run[0], t);
      IsolatedStep(db, run[0], t);
      SoundStep(db, run[0]);
      IsolatedRun(Apply(db, run[0]), run[1..], t);
    }
  }

  /** The invariants hold in every reachable state. */
  lemma {:induction false} SoundInEveryRun(db: Store, run: seq<Step>)
    requires FreshRun(db, run) && Sound(db)
    ensures Sound(Run(db, run))
    decreases |run|
  {
    if run != [] {
      SoundStep(db, run[0]);
      SoundInEveryRun(Apply(db, run[0]), run[1..]);
    }
  }

  // ---------------------------------------------------------------- the two exceptions

  lemma {:induction false} RowsDiffer<T>(a: seq<T>, b: seq<T>, of: T -> string, t: string, k: nat)
    requires |a| == |b| && k < |a| && of(a[k]) == t && b[k] != a[k]
    requires forall i :: 0 <= i < |a| ==> of(b[i]) == of(a[i])
    ensures Rows(a, of, t) != Rows(b, of, t)
    ensures |Rows(a, of, t)| == |Rows(b, of, t)|
    decreases |a|
  {
    var n := |a| - 1;
    SameLength(a[..n], b[..n], of, t);
    if k < n {
      RowsDiffer(a[..n], b[..n], of, t, k);
      assert Rows(a, of, t)[..|Rows(a[..n], of, t)|] == Rows(a[..n], of, t);
      assert Rows(b, of, t)[..|Rows(b[..n], of, t)|] == Rows(b[..n], of, t);
    } else {
      assert Rows(a, of, t)[|Rows(a[..n], of, t)|] == a[n];
      assert Rows(b, of, t)[|Rows(b[..n], of, t)|] == b[n];
    }
  }

  lemma {:induction false} SameLength<T>(a: seq<T>, b: seq<T>, of: T -> string, t: string)
    requires |a| == |b| && forall i :: 0 <= i < |a| ==> of(b[i]) == of(a[i])
    ensures |Rows(a, of, t)| == |Rows(b, of, t)|
  {
    if a != [] { SameLength(a[..|a| - 1], b[..|b| - 1], of, t); }
  }

  /** Clearing by id reaches into session `t` exactly when it names an unread message of `t`,
      whoever asks. */
  lemma ClearReachesExactly(db: Store, ids: seq<string>, t: string)
    ensures ViewOf(Clear(db, ids), t) != ViewOf(db, t)
       <==> exists i :: 0 <= i < |db.inbox| && Unread(db.inbox[i], t) && db.inbox[i].id in ids
  {
    var b := ClearMessages(db.inbox, ids);
    if exists i :: 0 <= i < |db.inbox| && Unread(db.inbox[i], t) && db.inbox[i].id in ids {
      var i :| 0 <= i < |db.inbox| && Unread(db.inbox[i], t) && db.inbox[i].id in ids;
      RowsDiffer(db.inbox, b, OfMessage, t, i);
    } else {
      SparedRows(db.inbox, b, OfMessage, t);
    }
  }

  /** The item with this id is one of session `t`, and the update alters it. */
  predicate Altered(it: WorkItem, w: string, status: WorkStatus, now: nat, t: string)
  {
    it.session == t && it.id == w && Stamped(it, status, now) != it
  }

  lemma UpdateReaches(items: seq<WorkItem>, w: string, status: WorkStatus, now: nat, t: string)
    ensures Rows(UpdateItem(items, w, status, now), OfItem, t) != Rows(items, OfItem, t)
       <==> exists i :: 0 <= i < |items| && Altered(items[i], w, status, now, t)
  {
    var b := UpdateItem(items, w, status, now);
    if exists i :: 0 <= i < |items| && Altered(items[i], w, status, now, t) {
      var i :| 0 <= i < |items| && Altered(items[i], w, status, now, t);
      RowsDiffer(items, b, OfItem, t, i);
    } else {
      SparedRows(items, b, OfItem, t);
    }
  }

  lemma HealItemsSpare(items: seq<WorkItem>, session: string, heal: Heal, t: string)
    requires session != t
    ensures Rows(HealItems(items, session, heal), OfItem, t) == Rows(items, OfItem, t)
  {
    SparedRows(items, HealItems(items, session, heal), OfItem, t);
  }

  /** A report with an assignment id reaches the work items of another session exactly when
      the id names an item there that the update alters. */
  lemma AssignmentReachesExactly(db: Store, r: StatusReport, env: Env, w: string, t: string)
    requires ReportReply(db, r) == Done && r.assignment == Some(w) && r.session != t
    ensures Rows(Report(db, r, env).items, OfItem, t) != Rows(db.items, OfItem, t)
       <==> exists i :: 0 <= i < |db.items| && Altered(db.items[i], w, WorkStatusOf(r.status), env.now, t)
  {
    UpdateReaches(db.items, w, WorkStatusOf(r.status), env.now, t);
    HealItemsSpare(ReportItems(db, r, env), r.session, Decision(db, r, env), t);
  }

  /** Two sessions, and a finished item `w` of the second one. */
  function TwoSessions(n: string, k: nat, m: string, l: nat, role: string, a: string, b: string, w: string): Store
  {
    var s, t := SessionId(n, k), SessionId(m, l);
    var mine := Agent(a, s, role, "", "", Idle, None, false, None, None, None);
    var theirs := Agent(b, t, role, "", "", Idle, None, false, None, None, None);
    EMPTY.(sessions := [Session(s, n, k, Active, 0), Session(t, m, l, Active, 0)], agents := [mine, theirs],
           items := [WorkItem(w, t, role, b, w, w, URGENT, DoneClaimed, 0, None, Some(0))])
  }

  lemma TwoSessionsAreSound(n: string, k: nat, m: string, l: nat, role: string, a: string, b: string, w: string)
    requires SessionId(n, k) != SessionId(m, l) && a != b && k <= U32_MAX && l <= U32_MAX
    ensures Sound(TwoSessions(n, k, m, l, role, a, b, w)) && Finished(TwoSessions(n, k, m, l, role, a, b, w).items[0])
  {
    var db := TwoSessions(n, k, m, l, role, a, b, w);
    assert Owns(db.agents[1], db.items[0]);
    assert db.sessions[0].id == db.agents[0].session && db.sessions[1].id == db.agents[1].session;
  }

  lemma NamedInTwoSessions(db: Store, r: StatusReport, env: Env, k: nat)
    requires k < |db.agents| && Holds(db.agents[k], r.session, r.role) && r.generation.None?
    requires |db.items| == 1 && Finished(db.items[0]) && r.assignment == Some(db.items[0].id)
    ensures Report(db, r, env).items[0].status == WorkStatusOf(r.status)
  {
    NamedItemIsStamped(db, r, env, 0);
  }

  /** In a sound state both sessions can reopen the finished item by its id: a recovery report
      of the other session, and an acknowledgement of the item's own. */
  lemma AssignmentReopensItem(n: string, k: nat, m: string, l: nat, role: string, a: string, b: string, w: string,
                              env: Env)
    requires SessionId(n, k) != SessionId(m, l) && a != b && k <= U32_MAX && l <= U32_MAX
    ensures var db := TwoSessions(n, k, m, l, role, a, b, w);
            var foreign := StatusReport(SessionId(n, k), role, SRecovered, None, None, None, None, Some(w), None);
            var own := StatusReport(SessionId(m, l), role, SAck, None, None, None, None, Some(w), None);
            && Sound(db) && Finished(db.items[0])
            && Report(db, foreign, env).items[0].status == InProgress
            && Report(db, own, env).items[0].status == Acked
  {
    var db := TwoSessions(n, k, m, l, role, a, b, w);
    TwoSessionsAreSound(n, k, m, l, role, a, b, w);
    var foreign := StatusReport(SessionId(n, k), role, SRecovered, None, None, None, None, Some(w), None);
    var own := StatusReport(SessionId(m, l), role, SAck, None, None, None, None, Some(w), None);
    NamedInTwoSessions(db, foreign, env, 0);
    NamedInTwoSessions(db, own, env, 1);
  }
}
