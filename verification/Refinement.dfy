/** Coarse runs are fine runs: what the fine model proves of every interleaving holds of the
    atomic machine, and the atomic machine's agent rows are reachable in the fine one. */
module Refinement {
  import opened Base
  import opened Tables
  import opened Squad
  import opened Runs
  import opened NudgeClock
  import opened Latency

  lemma {:induction false} MovesJoin(st: Fine, a: seq<FineStep>, b: seq<FineStep>)
    requires EnabledRun(st, a) && EnabledRun(Moves(st, a), b)
    ensures EnabledRun(st, a + b) && Moves(st, a + b) == Moves(Moves(st, a), b)
    decreases |a|
  {
    if a == [] {
      assert a + b == b;
    } else {
      assert (a + b)[0] == a[0] && (a + b)[1..] == a[1..] + b;
      MovesJoin(Move(st, a[0]), a[1..], b);
    }
  }

  lemma MovesOne(st: Fine, s: FineStep)
    requires Enabled(st, s)
    ensures EnabledRun(st, [s]) && Moves(st, [s]) == Move(st, s)
  {
    assert [s][1..] == [];
    assert Moves(Move(st, s), []) == Move(st, s);
  }

  /** Handler statements one after the other. */
  lemma {:induction false} StatementsRun(st: Fine, stmts: seq<Stmt>) returns (run: seq<FineStep>)
    requires AllFromHandlers(stmts)
    ensures EnabledRun(st, run) && Moves(st, run) == st.(agents := Execute(st.agents, stmts))
  {
    run := [];
    if stmts != [] {
      var n := |stmts| - 1;
      var before := StatementsRun(st, stmts[..n]);
      MovesOne(Moves(st, before), Handler(stmts[n]));
      MovesJoin(st, before, [Handler(stmts[n])]);
      run := before + [Handler(stmts[n])];
    }
  }

  /** The rows a scan has still to look at, unchanged in the table. */
  predicate Pending(agents: seq<Agent>, queue: seq<Agent>)
  {
    && DistinctIds(agents) && DistinctIds(queue)
    && forall k :: 0 <= k < |queue| ==> queue[k] in agents && Candidate(queue[k])
  }

  /** The table after the rest of the scan. */
  predicate Scanned(before: seq<Agent>, after: seq<Agent>, queue: seq<Agent>, now: nat)
  {
    && |after| == |before|
    && forall i :: 0 <= i < |before| ==> after[i] == if before[i] in queue then NudgedRow(before[i], now) else before[i]
  }

  lemma PendingRest(agents: seq<Agent>, queue: seq<Agent>)
    requires Pending(agents, queue) && queue != []
    ensures Pending(agents, queue[1..]) && queue[0] !in queue[1..]
    ensures forall a :: a in queue <==> a == queue[0] || a in queue[1..]
  {
    forall k | 0 <= k < |queue| - 1 ensures queue[1..][k] == queue[k + 1] { }
    assert queue == [queue[0]] + queue[1..];
  }

  lemma PendingAfterNudge(agents: seq<Agent>, queue: seq<Agent>, now: nat)
    requires Pending(agents, queue) && queue != [] && ToNudge(queue[0], now)
    ensures var next := PatchAgents(agents, queue[0].id, Nudged(now));
            && Pending(next, queue[1..])
            && (forall i :: 0 <= i < |agents| ==>
                 next[i] == if agents[i] == queue[0] then NudgedRow(agents[i], now) else agents[i])
  {
    var next := PatchAgents(agents, queue[0].id, Nudged(now));
    PendingRest(agents, queue);
    var m :| 0 <= m < |agents| && agents[m] == queue[0];
    forall i | 0 <= i < |agents| ensures agents[i].id == queue[0].id <==> agents[i] == queue[0] {
      assert i != m ==> agents[i].id != agents[m].id;
    }
    forall k | 0 <= k < |queue| - 1 ensures queue[1..][k] in next {
      assert queue[1..][k] == queue[k + 1] && queue[k + 1].id != queue[0].id;
      var i :| 0 <= i < |agents| && agents[i] == queue[k + 1];
      assert next[i] == agents[i];
    }
  }

  lemma ScannedSkip(before: seq<Agent>, after: seq<Agent>, queue: seq<Agent>, now: nat)
    requires Pending(before, queue) && queue != [] && !ToNudge(queue[0], now) && Scanned(before, after, queue[1..], now)
    ensures Scanned(before, after, queue, now)
  {
    PendingRest(before, queue);
  }

  lemma ScannedNudge(before: seq<Agent>, after: seq<Agent>, queue: seq<Agent>, now: nat)
    requires Pending(before, queue) && queue != [] && ToNudge(queue[0], now)
    requires Scanned(PatchAgents(before, queue[0].id, Nudged(now)), after, queue[1..], now)
    ensures Scanned(before, after, queue, now)
  {
    PendingRest(before, queue);
    PendingAfterNudge(before, queue, now);
    forall k | 0 <= k < |queue| - 1 ensures queue[1..][k].id != queue[0].id { assert queue[1..][k] == queue[k + 1]; }
  }

  /** The scan, with nothing in between and the clock standing still. */
  lemma {:induction false} RestOfScan(st: Fine) returns (run: seq<FineStep>)
    requires st.nudger.Scanning? && st.nudger.now == st.clock && Pending(st.agents, st.nudger.queue)
    ensures EnabledRun(st, run)
    ensures var end := Moves(st, run);
            end.nudger == Waiting && end.clock == st.clock && Scanned(st.agents, end.agents, st.nudger.queue, st.clock)
    decreases |st.nudger.queue|
  {
    var queue := st.nudger.queue;
    if queue == [] {
      run := [EndScan];
      MovesOne(st, EndScan);
    } else if Due(st.nudger) {
      var mid := Move(st, TakeStamp);
      var next := Move(mid, WriteStamp);
      PendingAfterNudge(st.agents, queue, st.clock);
      var rest := RestOfScan(next);
      MovesOne(st, TakeStamp);
      MovesOne(mid, WriteStamp);
      MovesJoin(st, [TakeStamp], [WriteStamp]);
      MovesJoin(st, [TakeStamp] + [WriteStamp], rest);
      run := [TakeStamp] + [WriteStamp] + rest;
      ScannedNudge(st.agents, Moves(st, run).agents, queue, st.clock);
    } else {
      PendingRest(st.agents, queue);
      var rest := RestOfScan(Move(st, Skip));
      MovesOne(st, Skip);
      MovesJoin(st, [Skip], rest);
      run := [Skip] + rest;
      ScannedSkip(st.agents, Moves(st, run).agents, queue, st.clock);
    }
  }

  function Candidates(agents: seq<Agent>): seq<Agent>
  {
    if agents == [] then []
    else Candidates(agents[..|agents| - 1]) + if Candidate(agents[|agents| - 1]) then [agents[|agents| - 1]] else []
  }

  lemma {:induction false} CandidatesAreAScan(agents: seq<Agent>)
    requires DistinctIds(agents)
    ensures IsScanOf(agents, Candidates(agents)) && Pending(agents, Candidates(agents))
  {
    if agents != [] {
      var n := |agents| - 1;
      CandidatesAreAScan(agents[..n]);
      var before := Candidates(agents[..n]);
      forall k | 0 <= k < |before| ensures before[k].id != agents[n].id && before[k] in agents {
        assert before[k] in agents[..n];
      }
      forall i | 0 <= i < n && Candidate(agents[i]) ensures agents[i] in before { assert agents[..n][i] == agents[i]; }
    }
  }

  lemma ScanRun(st: Fine) returns (run: seq<FineStep>)
    requires st.nudger.Waiting? && DistinctIds(st.agents)
    ensures EnabledRun(st, run)
    ensures Moves(st, run).nudger == Waiting && Moves(st, run).clock == st.clock
    ensures Moves(st, run).agents == NudgedRows(st.agents, st.clock)
  {
    var rows := Candidates(st.agents);
    CandidatesAreAScan(st.agents);
    var s1 := Move(st, ReadClock);
    var s2 := Move(s1, ReadRows(rows));
    var rest := RestOfScan(s2);
    MovesOne(st, ReadClock);
    MovesOne(s1, ReadRows(rows));
    MovesJoin(st, [ReadClock], [ReadRows(rows)]);
    MovesJoin(st, [ReadClock] + [ReadRows(rows)], rest);
    run := [ReadClock] + [ReadRows(rows)] + rest;
  }

  /** Scan times are in order, from `clock` on. */
  predicate Monotone(clock: nat, run: seq<Step>)
    decreases |run|
  {
    run == []
    || (if run[0].DoNudge? then clock <= run[0].now && Monotone(run[0].now, run[1..]) else Monotone(clock, run[1..]))
  }

  lemma StepRun(db: Store, s: Step, st: Fine) returns (run: seq<FineStep>)
    requires Fresh(db, s) && UniqueAgents(db.agents) && st.agents == db.agents && st.nudger.Waiting?
    requires s.DoNudge? ==> st.clock <= s.now
    ensures EnabledRun(st, run)
    ensures Moves(st, run).nudger == Waiting && Moves(st, run).agents == Apply(db, s).agents
    ensures Moves(st, run).clock == if s.DoNudge? then s.now else st.clock
  {
    if s.DoNudge? {
      var scan := ScanRun(Move(st, Tick(s.now)));
      MovesOne(st, Tick(s.now));
      MovesJoin(st, [Tick(s.now)], scan);
      run := [Tick(s.now)] + scan;
    } else {
      var stmts := HandlersAreStatements(db, s);
      run := StatementsRun(st, stmts);
    }
  }

  /** Every coarse run with a monotone clock has the same agent rows as some fine run. */
  lemma {:induction false} CoarseRunIsFineRun(db: Store, run: seq<Step>, st: Fine) returns (fine: seq<FineStep>)
    requires FreshRun(db, run) && UniqueAgents(db.agents) && RowsOk(db.agents)
    requires st.agents == db.agents && st.nudger.Waiting? && Monotone(st.clock, run)
    ensures EnabledRun(st, fine) && Moves(st, fine).agents == Run(db, run).agents
    decreases |run|
  {
    fine := [];
    if run != [] {
      var first := StepRun(db, run[0], st);
      AgentsStep(db, run[0]);
      var rest := CoarseRunIsFineRun(Apply(db, run[0]), run[1..], Moves(st, first));
      MovesJoin(st, first, rest);
      fine := first + rest;
    }
  }
}
