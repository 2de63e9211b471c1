/** Which sessions are active, told from the calls alone, and what stopwork makes of it. */
module ActiveSessions {
  import opened Base
  import opened Codecs
  import opened Tables
  import opened Runs
  import opened Doctor
  import opened Inbox
  import Cwd
  import Launch

  /** The step launches the session of this id. */
  predicate Launches(s: Step, id: string) { s.DoLaunch? && s.launch.name + "-" + Dec(s.launch.number) == id }

  /** The step stops the session, or is a doctor pass that did not discover its run. */
  predicate Ends(s: Step, id: string)
  {
    (s.DoStop? && s.session == id) || (s.DoDoctor? && id !in s.doctor.discovered)
  }

  predicate NeverEnded(run: seq<Step>, from: nat, id: string)
  {
    forall j :: from <= j < |run| ==> !Ends(run[j], id)
  }

  /** Step `k` is the first launch of the session, and nothing ends it afterwards. */
  predicate LastsFrom(run: seq<Step>, k: nat, id: string)
  {
    && k < |run| && Launches(run[k], id)
    && (forall j :: 0 <= j < k ==> !Launches(run[j], id))
    && NeverEnded(run, k + 1, id)
  }

  lemma SessionIdText(c: Launch.LaunchCall, id: string)
    ensures Launch.SessionOf(c) == id <==> c.name + "-" + Dec(c.number) == id
  {
  }

  // ---------------------------------------------------------------- one step

  lemma LaunchedSession(db: Store, c: Launch.LaunchCall, id: string)
    requires Launch.WellFormed(c)
    ensures Launch.SessionExists(Launch.Register(db, c).sessions, id)
       <==> Launch.SessionExists(db.sessions, id) || Launch.SessionOf(c) == id
    ensures IsActive(Launch.Register(db, c).sessions, id)
       <==> IsActive(db.sessions, id) || (Launch.SessionOf(c) == id && !Launch.SessionExists(db.sessions, id))
  {
    var next, n := Launch.Register(db, c), |db.sessions|;
    if !Launch.SessionExists(db.sessions, Launch.SessionOf(c)) {
      assert forall i :: 0 <= i < n ==> next.sessions[i] == db.sessions[i];
      assert next.sessions[n].id == Launch.SessionOf(c) && next.sessions[n].status == Active;
      if IsActive(db.sessions, id) {
        var i :| 0 <= i < n && db.sessions[i].id == id && db.sessions[i].status == Active;
        assert next.sessions[i].id == id && next.sessions[i].status == Active;
      }
      if Launch.SessionExists(db.sessions, id) {
        var i :| 0 <= i < n && db.sessions[i].id == id;
        assert next.sessions[i].id == id;
      }
    }
  }

  lemma StoppedSession(db: Store, session: string, id: string)
    ensures IsActive(Launch.StopSession(db, session).sessions, id) <==> IsActive(db.sessions, id) && session != id
  {
    var next := Launch.StopSession(db, session);
    if Launch.SessionExists(db.sessions, session) {
      assert forall i :: 0 <= i < |db.sessions| ==>
        next.sessions[i] == if db.sessions[i].id == session then db.sessions[i].(status := Stopped) else db.sessions[i];
      if IsActive(db.sessions, id) && session != id {
        var i :| 0 <= i < |db.sessions| && db.sessions[i].id == id && db.sessions[i].status == Active;
        assert next.sessions[i] == db.sessions[i];
      }
    }
  }

  lemma OtherStepsKeepSessions(db: Store, s: Step)
    requires Fresh(db, s) && !s.DoLaunch? && !s.DoStop? && !s.DoDoctor?
    ensures Apply(db, s).sessions == db.sessions
  {
  }

  /** One call: a session becomes active by its first launch and stops being so by an end. */
  lemma ActiveStep(db: Store, s: Step, id: string)
    requires Fresh(db, s)
    ensures Launch.SessionExists(Apply(db, s).sessions, id)
       <==> Launch.SessionExists(db.sessions, id) || Launches(s, id)
    ensures IsActive(Apply(db, s).sessions, id)
       <==> (IsActive(db.sessions, id) && !Ends(s, id)) || (Launches(s, id) && !Launch.SessionExists(db.sessions, id))
  {
    match s {
      case DoLaunch(c) => LaunchedSession(db, c, id);
      case DoStop(session) =>
        StoppedSession(db, session, id);
        SessionsStep(db, s);
        SameSessionsExist(db.sessions, Apply(db, s).sessions, id);
      case DoDoctor(env) =>
        ActiveAfterPass(db, env, id);
        SessionsStep(db, s);
        SameSessionsExist(db.sessions, Apply(db, s).sessions, id);
      case _ => OtherStepsKeepSessions(db, s);
    }
  }

  // ---------------------------------------------------------------- over runs

  lemma NeverEndedFirst(run: seq<Step>, id: string)
    requires run != []
    ensures NeverEnded(run, 0, id) <==> !Ends(run[0], id) && NeverEnded(run[1..], 0, id)
    ensures NeverEnded(run, 1, id) <==> NeverEnded(run[1..], 0, id)
  {
    assert forall j :: 0 < j < |run| ==> run[j] == run[1..][j - 1];
    assert forall j :: 0 <= j < |run| - 1 ==> run[1..][j] == run[j + 1];
  }

  lemma {:induction false} KnownSessionInRun(db: Store, run: seq<Step>, id: string)
    requires FreshRun(db, run) && Launch.SessionExists(db.sessions, id)
    ensures IsActive(Run(db, run).sessions, id) <==> IsActive(db.sessions, id) && NeverEnded(run, 0, id)
    decreases |run|
  {
    if run != [] {
      ActiveStep(db, run[0], id);
      KnownSessionInRun(Apply(db, run[0]), run[1..], id);
      NeverEndedFirst(run, id);
    }
  }

  lemma LastsNext(run: seq<Step>, k: nat, id: string)
    requires run != [] && !Launches(run[0], id)
    ensures LastsFrom(run, k + 1, id) <==> LastsFrom(run[1..], k, id)
  {
    var rest := run[1..];
    assert forall j :: 0 <= j < |rest| ==> rest[j] == run[j + 1];
    assert forall j :: 0 < j < |run| ==> run[j] == rest[j - 1];
  }

  /** Over every run a session that had no row before is active in the end iff its first launch
      is followed neither by a stop of it nor by a doctor pass that did not discover it. */
  lemma {:induction false} ActiveExactly(db: Store, run: seq<Step>, id: string)
    requires FreshRun(db, run) && !Launch.SessionExists(db.sessions, id) && !IsActive(db.sessions, id)
    ensures IsActive(Run(db, run).sessions, id) <==> exists k: nat :: LastsFrom(run, k, id)
    decreases |run|
  {
    if run != [] {
      var next, rest := Apply(db, run[0]), run[1..];
      ActiveStep(db, run[0], id);
      if Launches(run[0], id) {
        KnownSessionInRun(next, rest, id);
        NeverEndedFirst(run, id);
        assert LastsFrom(run, 0, id) <==> NeverEnded(run, 1, id);
        assert forall k: nat :: LastsFrom(run, k, id) ==> k == 0;
      } else {
        ActiveExactly(next, rest, id);
        if k: nat :| LastsFrom(run, k, id) {
          if k > 0 { LastsNext(run, k - 1, id); }
        }
        if k: nat :| LastsFrom(rest, k, id) { LastsNext(run, k, id); }
      }
    }
  }

  // ---------------------------------------------------------------- every row's status

  /** Sessions are active or stopped: no call leaves one paused or stopping. */
  predicate OnOrOff(sessions: seq<Session>)
  {
    forall i :: 0 <= i < |sessions| ==> sessions[i].status == Active || sessions[i].status == Stopped
  }

  lemma {:induction false} SessionStatusInEveryRun(db: Store, run: seq<Step>)
    requires FreshRun(db, run) && OnOrOff(db.sessions)
    ensures OnOrOff(Run(db, run).sessions)
    decreases |run|
  {
    if run != [] {
      var s := run[0];
      if !s.DoLaunch? && !s.DoStop? && !s.DoDoctor? { OtherStepsKeepSessions(db, s); }
      if s.DoDoctor? { PassColumns(db, s.doctor); }
      SessionStatusInEveryRun(Apply(db, s), run[1..]);
    }
  }

  // ---------------------------------------------------------------- the list stopwork sees

  /** `SELECT id FROM sessions WHERE status = 'active'`. */
  function ActiveIds(sessions: seq<Session>): seq<string>
  {
    if sessions == [] then []
    else
      var n := |sessions| - 1;
      ActiveIds(sessions[..n]) + if sessions[n].status == Active then [sessions[n].id] else []
  }

  lemma {:induction false} ActiveIdsExact(sessions: seq<Session>, id: string)
    ensures id in ActiveIds(sessions) <==> IsActive(sessions, id)
  {
    if sessions != [] {
      var n := |sessions| - 1;
      ActiveIdsExact(sessions[..n], id);
      assert forall i :: 0 <= i < n ==> sessions[..n][i] == sessions[i];
      assert IsActive(sessions, id)
        <==> IsActive(sessions[..n], id) || (sessions[n].id == id && sessions[n].status == Active);
    }
  }

  lemma {:induction false} ActiveIdsDistinct(sessions: seq<Session>)
    requires UniqueSessions(sessions)
    ensures forall i, j :: 0 <= i < j < |ActiveIds(sessions)| ==> ActiveIds(sessions)[i] != ActiveIds(sessions)[j]
  {
    if sessions != [] {
      var n := |sessions| - 1;
      var before := ActiveIds(sessions[..n]);
      ActiveIdsDistinct(sessions[..n]);
      forall i | 0 <= i < |before| ensures before[i] != sessions[n].id {
        ActiveIdsExact(sessions[..n], before[i]);
      }
    }
  }

  /** The session is the one and only active one. */
  predicate OnlyActive(sessions: seq<Session>, id: string)
  {
    IsActive(sessions, id) && forall i :: 0 <= i < |sessions| && sessions[i].status == Active ==> sessions[i].id == id
  }

  lemma OnlyOne(ids: seq<string>, id: string)
    requires forall i, j :: 0 <= i < j < |ids| ==> ids[i] != ids[j]
    ensures ids == [id] <==> id in ids && forall k :: 0 <= k < |ids| ==> ids[k] == id
  {
    if |ids| >= 2 { assert ids[0] != ids[1]; }
  }

  lemma OnlyActiveIds(sessions: seq<Session>, id: string)
    requires UniqueSessions(sessions)
    ensures ActiveIds(sessions) == [id] <==> OnlyActive(sessions, id)
  {
    var ids := ActiveIds(sessions);
    ActiveIdsDistinct(sessions);
    OnlyOne(ids, id);
    ActiveIdsExact(sessions, id);
    forall i | 0 <= i < |sessions| && sessions[i].status == Active ensures sessions[i].id in ids {
      ActiveIdsExact(sessions, sessions[i].id);
    }
    forall k | 0 <= k < |ids| ensures IsActive(sessions, ids[k]) { ActiveIdsExact(sessions, ids[k]); }
  }

  /** Without argument, environment or working directory to go by, stopwork picks a session
      exactly when it is the only active one. */
  lemma StopworkPicksExactly(sessions: seq<Session>, id: string)
    requires UniqueSessions(sessions)
    ensures Cwd.ResolveSessionForStopwork(None, None, None, ActiveIds(sessions)) == Cwd.Chosen(id)
       <==> OnlyActive(sessions, id)
  {
    OnlyActiveIds(sessions, id);
  }

  lemma OneLaunchSessions(c: Launch.LaunchCall)
    requires Launch.WellFormed(c)
    ensures Launch.Register(EMPTY, c).sessions == [Session(Launch.SessionOf(c), c.name, c.number, Active, c.now)]
  {
  }

  lemma OneStepRun(db: Store, s: Step)
    requires FreshRun(db, [s])
    ensures Run(db, [s]) == Apply(db, s)
  {
    assert [s][1..] == [];
    assert Run(Apply(db, s), []) == Apply(db, s);
  }

  /** After one launch and nothing else stopwork picks that session. */
  lemma StopworkAfterOneLaunch(c: Launch.LaunchCall)
    requires FreshRun(EMPTY, [DoLaunch(c)])
    ensures Cwd.ResolveSessionForStopwork(None, None, None, ActiveIds(Run(EMPTY, [DoLaunch(c)]).sessions))
         == Cwd.Chosen(c.name + "-" + Dec(c.number))
  {
    OneStepRun(EMPTY, DoLaunch(c));
    OneLaunchSessions(c);
    SessionIdText(c, Launch.SessionOf(c));
    StopworkPicksExactly(Run(EMPTY, [DoLaunch(c)]).sessions, Launch.SessionOf(c));
  }
}
