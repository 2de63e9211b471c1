/** The orchestrator inbox over runs: which calls add a message to which session's inbox, and
    which messages a read returns. */
module Inbox {
  import opened Base
  import opened Codecs
  import opened Tables
  import opened Squad
  import opened Runs
  import opened Slots
  import Launch

  // ---------------------------------------------------------------- the session lookup

  /** Session ids are those launch gave, and every agent row's session has a session row. */
  predicate Housed(db: Store)
  {
    && CanonicalIds(db.sessions)
    && forall i :: 0 <= i < |db.agents| ==> Launch.SessionExists(db.sessions, db.agents[i].session)
  }

  /** Looking a session up by the slug and slot in its id gives back that very id. */
  lemma ResolveOwn(sessions: seq<Session>, sid: string)
    requires CanonicalIds(sessions) && Launch.SessionExists(sessions, sid)
    ensures ResolveSession(sessions, sid) == Some(sid)
  {
    var i :| 0 <= i < |sessions| && sessions[i].id == sid;
    SessionRoundTrip(sessions[i].slug, sessions[i].slot);
    assert ParseSession(sid) == Some((sessions[i].slug, sessions[i].slot));
    var k := SessionRow(sessions, sessions[i].slug, sessions[i].slot);
    assert k < |sessions| && sessions[k].id == SessionId(sessions[i].slug, sessions[i].slot);
  }

  predicate SameSessions(s: seq<Session>, t: seq<Session>)
  {
    |s| == |t| && forall i :: 0 <= i < |s| ==> t[i].id == s[i].id && t[i].slug == s[i].slug && t[i].slot == s[i].slot
  }

  lemma SameSessionsExist(s: seq<Session>, t: seq<Session>, id: string)
    requires SameSessions(s, t)
    ensures Launch.SessionExists(s, id) <==> Launch.SessionExists(t, id)
  {
    if Launch.SessionExists(s, id) {
      var i :| 0 <= i < |s| && s[i].id == id;
      assert t[i].id == id;
    }
  }

  lemma SessionsStep(db: Store, s: Step)
    requires Fresh(db, s) && !s.DoLaunch?
    ensures SameSessions(db.sessions, Apply(db, s).sessions)
  {
  }

  lemma HousedUnlessLaunch(db: Store, s: Step)
    requires Fresh(db, s) && Housed(db) && RowsOk(db.agents) && !s.DoLaunch?
    ensures Housed(Apply(db, s))
  {
    var next := Apply(db, s);
    SessionsStep(db, s);
    RowsKeptUnlessLaunch(db, s);
    forall i | 0 <= i < |next.agents| ensures Launch.SessionExists(next.sessions, next.agents[i].session) {
      assert SameKey(db.agents[i], next.agents[i]);
      SameSessionsExist(db.sessions, next.sessions, db.agents[i].session);
    }
  }

  lemma HousedAfterLaunch(db: Store, c: Launch.LaunchCall)
    requires Launch.WellFormed(c) && NewAgentIds(db.agents, c.ids)
    requires Housed(db) && UniqueAgents(db.agents) && RowsOk(db.agents)
    ensures Housed(Launch.Register(db, c))
  {
    var next := Launch.Register(db, c);
    InsertKeepsUnique(db.agents, c, Launch.PaneCount(c));
    if !Launch.SessionExists(db.sessions, Launch.SessionOf(c)) {
      var n := |db.sessions|;
      assert next.sessions[n].id == Launch.SessionOf(c);
      forall i | 0 <= i < |next.agents| ensures Launch.SessionExists(next.sessions, next.agents[i].session) {
        if i < |db.agents| {
          assert next.agents[i] == next.agents[..|db.agents|][i];
          var k :| 0 <= k < n && db.sessions[k].id == db.agents[i].session;
          assert next.sessions[k].id == next.agents[i].session;
        } else {
          assert next.sessions[n].id == next.agents[i].session;
        }
      }
    }
  }

  lemma HousedStep(db: Store, s: Step)
    requires Fresh(db, s) && Housed(db) && UniqueAgents(db.agents) && RowsOk(db.agents)
    ensures Housed(Apply(db, s))
  {
    if s.DoLaunch? { HousedAfterLaunch(db, s.launch); } else { HousedUnlessLaunch(db, s); }
  }

  // ---------------------------------------------------------------- conservation

  function Count(inbox: seq<Message>, sid: string): nat
  {
    if inbox == [] then 0
    else Count(inbox[..|inbox| - 1], sid) + if inbox[|inbox| - 1].session == sid then 1 else 0
  }

  function CountNudged(agents: seq<Agent>, now: nat, sid: string): nat
  {
    if agents == [] then 0
    else CountNudged(agents[..|agents| - 1], now, sid)
         + if ToNudge(agents[|agents| - 1], now) && agents[|agents| - 1].session == sid then 1 else 0
  }

  /** Messages a step owes session `sid`, told from the call alone: an accepted report of the
      session, an accepted peer message to its orchestrator, and each of its nudged agents. */
  function Owed(db: Store, s: Step, sid: string): nat
  {
    match s
    case DoReport(r, _) => if ReportReply(db, r) == Done && r.session == sid then 1 else 0
    case DoPeer(m, _) => if PeerAccepted(db, m) && m.to == ORCHESTRATOR && m.session == sid then 1 else 0
    case DoNudge(now, _) => CountNudged(db.agents, now, sid)
    case _ => 0
  }

  function TotalOwed(db: Store, run: seq<Step>, sid: string): nat
    requires FreshRun(db, run)
    decreases |run|
  {
    if run == [] then 0 else Owed(db, run[0], sid) + TotalOwed(Apply(db, run[0]), run[1..], sid)
  }

  lemma CountAppend(inbox: seq<Message>, m: Message, sid: string)
    ensures Count(inbox + [m], sid) == Count(inbox, sid) + if m.session == sid then 1 else 0
  {
    assert (inbox + [m])[..|inbox|] == inbox;
  }

  lemma {:induction false} CountJoin(a: seq<Message>, b: seq<Message>, sid: string)
    ensures Count(a + b, sid) == Count(a, sid) + Count(b, sid)
  {
    if b == [] {
      assert a + b == a;
    } else {
      var n := |b| - 1;
      assert (a + b)[..|a + b| - 1] == a + b[..n];
      CountJoin(a, b[..n], sid);
    }
  }

  lemma {:induction false} CountCleared(inbox: seq<Message>, ids: seq<string>, sid: string)
    ensures Count(ClearMessages(inbox, ids), sid) == Count(inbox, sid)
  {
    if inbox != [] {
      var n := |inbox| - 1;
      CountCleared(inbox[..n], ids, sid);
      assert ClearMessages(inbox, ids)[..n] == ClearMessages(inbox[..n], ids);
    }
  }

  lemma {:induction false} CountNudges(agents: seq<Agent>, now: nat, ids: seq<string>, sid: string)
    requires |ids| == |agents|
    ensures Count(NudgeMessages(agents, now, ids), sid) == CountNudged(agents, now, sid)
  {
    if agents != [] {
      var n := |agents| - 1;
      var before := NudgeMessages(agents[..n], now, ids[..n]);
      CountNudges(agents[..n], now, ids[..n], sid);
      if ToNudge(agents[n], now) {
        CountAppend(before, NudgeMessage(agents[n], now, ids[n]), sid);
      } else {
        assert before + [] == before;
      }
    }
  }

  /** The agent that a call names lives in a session with a row of its own. */
  lemma NamedSessionResolves(db: Store, session: string, role: string)
    requires Housed(db) && RowFor(db.agents, session, role) < |db.agents|
    ensures ResolveSession(db.sessions, session) == Some(session)
  {
    assert db.agents[RowFor(db.agents, session, role)].session == session;
    ResolveOwn(db.sessions, session);
  }

  lemma ReportAdds(db: Store, r: StatusReport, env: Env, sid: string)
    requires Housed(db)
    ensures Count(Report(db, r, env).inbox, sid)
         == Count(db.inbox, sid) + if ReportReply(db, r) == Done && r.session == sid then 1 else 0
  {
    if ReportReply(db, r) == Done {
      NamedSessionResolves(db, r.session, r.role);
      CountAppend(db.inbox, ReportMessage(r.session, r, env), sid);
    }
  }

  lemma PeerAdds(db: Store, m: PeerMessage, env: Env, sid: string)
    requires Housed(db)
    ensures Count(Peer(db, m, env).inbox, sid)
         == Count(db.inbox, sid) + if PeerAccepted(db, m) && m.to == ORCHESTRATOR && m.session == sid then 1 else 0
  {
    if PeerAccepted(db, m) {
      NamedSessionResolves(db, m.session, m.to);
      CountAppend(db.inbox, PeerRow(m.session, m, env), sid);
    }
  }

  lemma InboxStep(db: Store, s: Step, sid: string)
    requires Fresh(db, s) && Housed(db)
    ensures Count(Apply(db, s).inbox, sid) == Count(db.inbox, sid) + Owed(db, s, sid)
  {
    match s {
      case DoReport(r, env) => ReportAdds(db, r, env, sid);
      case DoPeer(m, env) => PeerAdds(db, m, env, sid);
      case DoNudge(now, ids) =>
        CountNudges(db.agents, now, ids, sid);
        CountJoin(db.inbox, NudgeMessages(db.agents, now, ids), sid);
      case DoClear(ids) => CountCleared(db.inbox, ids, sid);
      case _ =>
    }
  }

  /** Over every run a session's inbox grows by exactly what the calls owe it: nothing is
      lost, doubled or filed under another session. */
  lemma {:induction false} InboxConservation(db: Store, run: seq<Step>, sid: string)
    requires FreshRun(db, run) && Housed(db) && UniqueAgents(db.agents) && RowsOk(db.agents)
    ensures Count(Run(db, run).inbox, sid) == Count(db.inbox, sid) + TotalOwed(db, run, sid)
    ensures Housed(Run(db, run))
    decreases |run|
  {
    if run != [] {
      InboxStep(db, run[0], sid);
      HousedStep(db, run[0]);
      AgentsStep(db, run[0]);
      InboxConservation(Apply(db, run[0]), run[1..], sid);
    }
  }

  // ---------------------------------------------------------------- what a read returns

  /** The rows a read of session `sid` returns, before sorting. */
  function UnreadOf(inbox: seq<Message>, sid: string): seq<Message>
  {
    if inbox == [] then []
    else UnreadOf(inbox[..|inbox| - 1], sid) + if Unread(inbox[|inbox| - 1], sid) then [inbox[|inbox| - 1]] else []
  }

  /** `rows` is an answer to the inbox query: those rows, by time of arrival. */
  predicate IsReading(rows: seq<Message>, inbox: seq<Message>, sid: string)
  {
    && multiset(rows) == multiset(UnreadOf(inbox, sid))
    && forall i, j :: 0 <= i < j < |rows| ==> rows[i].at <= rows[j].at
  }

  lemma {:induction false} UnreadExact(inbox: seq<Message>, sid: string, m: Message)
    ensures m in UnreadOf(inbox, sid) <==> m in inbox && Unread(m, sid)
  {
    if inbox != [] {
      var n := |inbox| - 1;
      UnreadExact(inbox[..n], sid, m);
      assert inbox == inbox[..n] + [inbox[n]];
    }
  }

  /** Whether a clear request named message `i` while it was stored. */
  predicate ClearedSince(db: Store, run: seq<Step>, i: nat)
    requires FreshRun(db, run)
    decreases |run|
  {
    run != []
    && ((i < |db.inbox| && run[0].DoClear? && db.inbox[i].id in run[0].ids)
        || ClearedSince(Apply(db, run[0]), run[1..], i))
  }

  /** The message is stored as it was, but for the flag. */
  predicate SameMessage(a: Message, b: Message) { b == a.(cleared := b.cleared) }

  lemma {:induction false} NudgesUncleared(agents: seq<Agent>, now: nat, ids: seq<string>)
    requires |ids| == |agents|
    ensures forall i :: 0 <= i < |NudgeMessages(agents, now, ids)| ==> !NudgeMessages(agents, now, ids)[i].cleared
  {
    if agents != [] { NudgesUncleared(agents[..|agents| - 1], now, ids[..|agents| - 1]); }
  }

  lemma ReportInboxGrows(db: Store, r: StatusReport, env: Env)
    ensures db.inbox <= Report(db, r, env).inbox
    ensures forall i :: |db.inbox| <= i < |Report(db, r, env).inbox| ==> !Report(db, r, env).inbox[i].cleared
  {
  }

  /** Messages are never dropped or altered; they arrive unread, and only a clear request
      that names their id sets the flag. */
  lemma MessageStep(db: Store, s: Step, i: nat)
    requires Fresh(db, s) && i < |Apply(db, s).inbox|
    ensures |db.inbox| <= |Apply(db, s).inbox|
    ensures i < |db.inbox| ==> SameMessage(db.inbox[i], Apply(db, s).inbox[i])
    ensures Apply(db, s).inbox[i].cleared
       <==> i < |db.inbox| && (db.inbox[i].cleared || (s.DoClear? && db.inbox[i].id in s.ids))
  {
    match s {
      case DoReport(r, env) => ReportInboxGrows(db, r, env);
      case DoNudge(now, ids) => NudgesUncleared(db.agents, now, ids);
      case _ =>
    }
  }

  lemma {:induction false} MessageFate(db: Store, run: seq<Step>, i: nat)
    requires FreshRun(db, run) && i < |Run(db, run).inbox|
    ensures |db.inbox| <= |Run(db, run).inbox|
    ensures i < |db.inbox| ==> SameMessage(db.inbox[i], Run(db, run).inbox[i])
    ensures Run(db, run).inbox[i].cleared <==> (i < |db.inbox| && db.inbox[i].cleared) || ClearedSince(db, run, i)
    decreases |run|
  {
    if run != [] {
      var next := Apply(db, run[0]);
      MessageFate(next, run[1..], i);
      InboxGrows(db, run[0]);
      if i < |next.inbox| { MessageStep(db, run[0], i); }
    }
  }

  lemma InboxGrows(db: Store, s: Step)
    requires Fresh(db, s)
    ensures |db.inbox| <= |Apply(db, s).inbox|
  {
    if s.DoReport? { ReportInboxGrows(db, s.report, s.env); }
  }

  /** A read after any run returns, in order of arrival time, exactly the session's messages
      that no clear request has named since they arrived. */
  lemma ReadReturnsUncleared(db: Store, run: seq<Step>, sid: string, rows: seq<Message>)
    requires FreshRun(db, run) && db.inbox == [] && IsReading(rows, Run(db, run).inbox, sid)
    ensures forall m :: m in rows <==>
              exists i :: 0 <= i < |Run(db, run).inbox| && Run(db, run).inbox[i] == m
                       && m.session == sid && !ClearedSince(db, run, i)
  {
    var inbox := Run(db, run).inbox;
    forall i | 0 <= i < |inbox| ensures inbox[i].cleared <==> ClearedSince(db, run, i) { MessageFate(db, run, i); }
    forall m ensures m in rows <==> m in inbox && Unread(m, sid) {
      UnreadExact(inbox, sid, m);
      assert m in rows <==> m in multiset(rows);
    }
  }

  /** What the reporter said, as the orchestrator reads it. */
  predicate Tells(m: Message, r: StatusReport, env: Env)
  {
    && m.id == env.messageId && m.session == r.session && m.role == r.role && m.status == r.status && m.task == r.task
    && m.evidence == r.validation && m.nextAction == r.nextAction && m.at == env.now && !m.cleared
    && (m.summary == if r.summary.Some? then Some(Plain(r.summary.value)) else None)
  }

  lemma MessageTells(r: StatusReport, env: Env)
    ensures Tells(ReportMessage(r.session, r, env), r, env)
  {
  }

  lemma ReadHas(rows: seq<Message>, inbox: seq<Message>, m: Message)
    requires IsReading(rows, inbox, m.session) && m in inbox && !m.cleared
    ensures m in rows
  {
    UnreadExact(inbox, m.session, m);
    assert m in multiset(rows);
  }

  lemma ReportIsStored(db: Store, r: StatusReport, env: Env)
    requires Housed(db) && ReportReply(db, r) == Done
    ensures ReportMessage(r.session, r, env) in Report(db, r, env).inbox
  {
    NamedSessionResolves(db, r.session, r.role);
    var inbox := Report(db, r, env).inbox;
    assert inbox[|db.inbox|] == ReportMessage(r.session, r, env);
  }

  /** Every accepted report can be read back, whole, from the reporter's own session. */
  lemma ReportIsReadBack(db: Store, r: StatusReport, env: Env, rows: seq<Message>)
    requires Housed(db) && ReportReply(db, r) == Done && IsReading(rows, Report(db, r, env).inbox, r.session)
    ensures exists m :: m in rows && Tells(m, r, env)
  {
    ReportIsStored(db, r, env);
    MessageTells(r, env);
    ReadHas(rows, Report(db, r, env).inbox, ReportMessage(r.session, r, env));
  }

  /** What a peer told the orchestrator. */
  predicate TellsOf(x: Message, m: PeerMessage, env: Env)
  {
    && x.id == env.messageId && x.session == m.session && x.role == m.from && x.status == SInfo && x.task == m.task
    && x.summary == Some(PeerText(m.from, m.info)) && x.nextAction == m.requested && x.at == env.now && !x.cleared
  }

  lemma PeerIsStored(db: Store, m: PeerMessage, env: Env)
    requires Housed(db) && PeerAccepted(db, m) && m.to == ORCHESTRATOR
    ensures PeerRow(m.session, m, env) in Peer(db, m, env).inbox && TellsOf(PeerRow(m.session, m, env), m, env)
  {
    NamedSessionResolves(db, m.session, m.to);
    var inbox := Peer(db, m, env).inbox;
    assert inbox[|db.inbox|] == PeerRow(m.session, m, env);
  }

  /** So can every accepted peer message to the orchestrator, under its sender's role. */
  lemma PeerIsReadBack(db: Store, m: PeerMessage, env: Env, rows: seq<Message>)
    requires Housed(db) && PeerAccepted(db, m) && m.to == ORCHESTRATOR
    requires IsReading(rows, Peer(db, m, env).inbox, m.session)
    ensures exists x :: x in rows && TellsOf(x, m, env)
  {
    PeerIsStored(db, m, env);
    ReadHas(rows, Peer(db, m, env).inbox, PeerRow(m.session, m, env));
  }
}
