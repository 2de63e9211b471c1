/** The busy flag at statement granularity. "Status 'busy' or an active task implies the busy
    flag" holds after every coarse step; between single statements it fails, and this module
    says exactly when: step by step, over whole runs, and for each pair of statements that a
    handler issues with others in between. */
module Flags {
  import opened Base
  import opened Tables
  import opened Squad
  import opened Runs
  import opened NudgeClock

  // ---------------------------------------------------------------- one statement

  predicate TaskFlag(agents: seq<Agent>)
  {
    forall i :: 0 <= i < |agents| ==> (agents[i].activeTask.Some? ==> agents[i].busy)
  }

  predicate StatusFlag(agents: seq<Agent>)
  {
    forall i :: 0 <= i < |agents| ==> (agents[i].status == Busy ==> agents[i].busy)
  }

  /** The patch lowers the flag of a row that holds a task, or gives it one. */
  predicate StrandsTask(a: Agent, p: Patch) { p.Signal? && !p.busy && (p.task.Some? || a.activeTask.Some?) }

  /** The patch makes an unflagged row 'busy', or lowers the flag of a 'busy' one. */
  predicate StrandsStatus(a: Agent, p: Patch)
  {
    match p
    case SetStatus(status, _) => status == Busy && !a.busy
    case Signal(_, busy, _) => !busy && a.status == Busy
    case ClearTask => a.status == Busy
    case Nudged(_) => false
  }

  predicate StrandsATask(agents: seq<Agent>, s: Stmt)
  {
    s.Update? && exists i :: 0 <= i < |agents| && agents[i].id == s.id && StrandsTask(agents[i], s.patch)
  }

  /** An insert counts when the row is 'busy' and not ignored. */
  predicate StrandsAStatus(agents: seq<Agent>, s: Stmt)
  {
    match s
    case Insert(a) => a.status == Busy && InsertAgent(agents, a) != agents
    case Update(id, p) => exists i :: 0 <= i < |agents| && agents[i].id == id && StrandsStatus(agents[i], p)
  }

  lemma PatchedTaskFlag(a: Agent, p: Patch)
    requires a.activeTask.Some? ==> a.busy
    ensures (Patched(a, p).activeTask.Some? ==> Patched(a, p).busy) <==> !StrandsTask(a, p)
  {
  }

  lemma PatchedStatusFlag(a: Agent, p: Patch)
    requires a.status == Busy ==> a.busy
    ensures (Patched(a, p).status == Busy ==> Patched(a, p).busy) <==> !StrandsStatus(a, p)
  {
  }

  /** A task without the flag arises from one statement exactly when it lowers the flag of a
      row that holds a task. */
  lemma TaskFlagStep(agents: seq<Agent>, s: Stmt)
    requires TaskFlag(agents) && (s.Insert? ==> FromHandler(s))
    ensures TaskFlag(Do(agents, s)) <==> !StrandsATask(agents, s)
  {
    if s.Update? {
      var r := Do(agents, s);
      forall i | 0 <= i < |agents| { PatchedTaskFlag(agents[i], s.patch); }
      if StrandsATask(agents, s) {
        var i :| 0 <= i < |agents| && agents[i].id == s.id && StrandsTask(agents[i], s.patch);
        assert r[i] == Patched(agents[i], s.patch);
      }
    }
  }

  /** Status 'busy' without the flag arises from one statement exactly when it makes an
      unflagged row 'busy' or lowers the flag of a 'busy' row. */
  lemma StatusFlagStep(agents: seq<Agent>, s: Stmt)
    requires StatusFlag(agents) && (s.Insert? ==> FromHandler(s))
    ensures StatusFlag(Do(agents, s)) <==> !StrandsAStatus(agents, s)
  {
    var r := Do(agents, s);
    if s.Update? {
      forall i | 0 <= i < |agents| { PatchedStatusFlag(agents[i], s.patch); }
      if StrandsAStatus(agents, s) {
        var i :| 0 <= i < |agents| && agents[i].id == s.id && StrandsStatus(agents[i], s.patch);
        assert r[i] == Patched(agents[i], s.patch);
      }
    } else if r != agents {
      assert r == agents + [s.row] && r[|agents|] == s.row && !s.row.busy;
    }
  }

  // ---------------------------------------------------------------- whole runs

  predicate Always(st: Fine, run: seq<FineStep>, holds: seq<Agent> -> bool)
    requires EnabledRun(st, run)
    decreases |run|
  {
    holds(st.agents) && (run == [] || Always(Move(st, run[0]), run[1..], holds))
  }

  /** Some statement of a handler is `bad` for the rows it finds. */
  predicate Ever(st: Fine, run: seq<FineStep>, bad: (seq<Agent>, Stmt) -> bool)
    requires EnabledRun(st, run)
    decreases |run|
  {
    run != [] && ((run[0].Handler? && bad(st.agents, run[0].stmt)) || Ever(Move(st, run[0]), run[1..], bad))
  }

  lemma NudgeKeepsFlags(agents: seq<Agent>, id: string, stamp: nat)
    ensures TaskFlag(PatchAgents(agents, id, Nudged(stamp))) <==> TaskFlag(agents)
    ensures StatusFlag(PatchAgents(agents, id, Nudged(stamp))) <==> StatusFlag(agents)
  {
    var r := PatchAgents(agents, id, Nudged(stamp));
    forall i | 0 <= i < |agents| ensures r[i] == agents[i].(nudgeAt := r[i].nudgeAt) { }
  }

  lemma FlagsAfterMove(st: Fine, s: FineStep)
    requires Enabled(st, s)
    ensures TaskFlag(st.agents) ==> (TaskFlag(Move(st, s).agents) <==> !(s.Handler? && StrandsATask(st.agents, s.stmt)))
    ensures StatusFlag(st.agents) ==>
              (StatusFlag(Move(st, s).agents) <==> !(s.Handler? && StrandsAStatus(st.agents, s.stmt)))
  {
    match s {
      case Handler(stmt) =>
        if TaskFlag(st.agents) { TaskFlagStep(st.agents, stmt); }
        if StatusFlag(st.agents) { StatusFlagStep(st.agents, stmt); }
      case WriteStamp => NudgeKeepsFlags(st.agents, st.nudger.queue[0].id, st.nudger.stamp);
      case _ =>
    }
  }

  /** Over every interleaved run: each row with a task is flagged in every state iff no
      statement ever lowers the flag of a row that holds a task. */
  lemma {:induction false} TasksFlaggedThroughout(st: Fine, run: seq<FineStep>)
    requires EnabledRun(st, run) && TaskFlag(st.agents)
    ensures Always(st, run, TaskFlag) <==> !Ever(st, run, StrandsATask)
    decreases |run|
  {
    if run != [] {
      var next := Move(st, run[0]);
      FlagsAfterMove(st, run[0]);
      if TaskFlag(next.agents) { TasksFlaggedThroughout(next, run[1..]); }
    }
  }

  /** And each 'busy' row is flagged in every state iff no statement ever makes an unflagged
      row 'busy' or lowers the flag of a 'busy' one. */
  lemma {:induction false} BusyFlaggedThroughout(st: Fine, run: seq<FineStep>)
    requires EnabledRun(st, run) && StatusFlag(st.agents)
    ensures Always(st, run, StatusFlag) <==> !Ever(st, run, StrandsAStatus)
    decreases |run|
  {
    if run != [] {
      var next := Move(st, run[0]);
      FlagsAfterMove(st, run[0]);
      if StatusFlag(next.agents) { BusyFlaggedThroughout(next, run[1..]); }
    }
  }

  // ---------------------------------------------------------------- one row, many statements

  /** The row after the statements that address it. */
  function RowAfter(a: Agent, stmts: seq<Stmt>): Agent
  {
    if stmts == [] then a
    else
      var before, s := RowAfter(a, stmts[..|stmts| - 1]), stmts[|stmts| - 1];
      if s.Update? && s.id == a.id then Patched(before, s.patch) else before
  }

  lemma {:induction false} RowAfterKeepsKey(a: Agent, stmts: seq<Stmt>)
    ensures SameKey(a, RowAfter(a, stmts))
  {
    if stmts != [] { RowAfterKeepsKey(a, stmts[..|stmts| - 1]); }
  }

  /** Executing statements on the table does this to each of its rows. */
  lemma {:induction false} ExecutedRow(agents: seq<Agent>, stmts: seq<Stmt>, i: nat)
    requires i < |agents|
    ensures |agents| <= |Execute(agents, stmts)| && Execute(agents, stmts)[i] == RowAfter(agents[i], stmts)
  {
    if stmts != [] {
      ExecutedRow(agents, stmts[..|stmts| - 1], i);
      RowAfterKeepsKey(agents[i], stmts[..|stmts| - 1]);
    }
  }

  predicate For(s: Stmt, id: string) { s.Update? && s.id == id }

  predicate Raises(s: Stmt, id: string) { For(s, id) && s.patch.Signal? && s.patch.busy }
  predicate Lowers(s: Stmt, id: string) { For(s, id) && (s.patch.ClearTask? || (s.patch.Signal? && !s.patch.busy)) }
  predicate GivesTask(s: Stmt, id: string) { For(s, id) && s.patch.Signal? && s.patch.task.Some? }
  predicate TakesTask(s: Stmt, id: string) { For(s, id) && s.patch.ClearTask? }
  predicate MakesBusy(s: Stmt, id: string) { For(s, id) && s.patch.SetStatus? && s.patch.status == Busy }
  predicate MakesOther(s: Stmt, id: string) { For(s, id) && s.patch.SetStatus? && s.patch.status != Busy }

  type Kind = (Stmt, string) -> bool

  /** A statement of kind `on` comes and none of kind `off` after it; with `initially`, also
      when neither comes at all. */
  ghost predicate LastIs(stmts: seq<Stmt>, id: string, on: Kind, off: Kind, initially: bool)
  {
    || (exists k :: 0 <= k < |stmts| && on(stmts[k], id) && NoneFrom(stmts, k + 1, id, off))
    || (initially && NoneFrom(stmts, 0, id, off))
  }

  ghost predicate NoneFrom(stmts: seq<Stmt>, k: nat, id: string, kind: Kind)
  {
    forall j :: k <= j < |stmts| ==> !kind(stmts[j], id)
  }

  lemma LastOneMore(stmts: seq<Stmt>, s: Stmt, id: string, on: Kind, off: Kind, initially: bool)
    requires !(on(s, id) && off(s, id))
    ensures LastIs(stmts + [s], id, on, off, initially)
       <==> on(s, id) || (!off(s, id) && LastIs(stmts, id, on, off, initially))
  {
    var all, n := stmts + [s], |stmts|;
    assert all[n] == s && forall k :: 0 <= k < n ==> all[k] == stmts[k];
    if on(s, id) { assert NoneFrom(all, n + 1, id, off); }
    if !off(s, id) && LastIs(stmts, id, on, off, initially) {
      if k :| 0 <= k < n && on(stmts[k], id) && NoneFrom(stmts, k + 1, id, off) {
        assert on(all[k], id) && NoneFrom(all, k + 1, id, off);
      } else {
        assert NoneFrom(all, 0, id, off);
      }
    }
    if LastIs(all, id, on, off, initially) && !on(s, id) {
      if k :| 0 <= k < |all| && on(all[k], id) && NoneFrom(all, k + 1, id, off) {
        assert k < n && !off(all[n], id);
        assert on(stmts[k], id) && NoneFrom(stmts, k + 1, id, off);
      } else {
        assert !off(all[n], id) && NoneFrom(stmts, 0, id, off);
      }
    }
  }

  ghost predicate FlagUp(a: Agent, stmts: seq<Stmt>) { LastIs(stmts, a.id, Raises, Lowers, a.busy) }
  ghost predicate TaskHeld(a: Agent, stmts: seq<Stmt>) { LastIs(stmts, a.id, GivesTask, TakesTask, a.activeTask.Some?) }
  ghost predicate StatusBusy(a: Agent, stmts: seq<Stmt>)
  {
    LastIs(stmts, a.id, MakesBusy, MakesOther, a.status == Busy)
  }

  /** Flag, task and status of a row are each decided by which statement came last. */
  lemma {:induction false} RowByLast(a: Agent, stmts: seq<Stmt>)
    ensures RowAfter(a, stmts).busy <==> FlagUp(a, stmts)
    ensures RowAfter(a, stmts).activeTask.Some? <==> TaskHeld(a, stmts)
    ensures RowAfter(a, stmts).status == Busy <==> StatusBusy(a, stmts)
  {
    if stmts != [] {
      var init, s := stmts[..|stmts| - 1], stmts[|stmts| - 1];
      assert stmts == init + [s];
      RowByLast(a, init);
      RowAfterKeepsKey(a, init);
      LastOneMore(init, s, a.id, Raises, Lowers, a.busy);
      LastOneMore(init, s, a.id, GivesTask, TakesTask, a.activeTask.Some?);
      LastOneMore(init, s, a.id, MakesBusy, MakesOther, a.status == Busy);
    }
  }

  // ---------------------------------------------------------------- the pairs

  /** Status 'busy' or a task implies the flag. */
  predicate FlagOk(a: Agent) { a.status == Busy || a.activeTask.Some? ==> a.busy }

  /** Two statements on a row with others in between. */
  function Around(id: string, first: Patch, between: seq<Stmt>, last: Patch): seq<Stmt>
  {
    [Update(id, first)] + between + [Update(id, last)]
  }

  lemma RowAfterLast(a: Agent, stmts: seq<Stmt>, p: Patch)
    ensures RowAfter(a, stmts + [Update(a.id, p)]) == Patched(RowAfter(a, stmts), p)
  {
    assert (stmts + [Update(a.id, p)])[..|stmts|] == stmts;
  }

  lemma {:induction false} RowAfterFirst(a: Agent, p: Patch, stmts: seq<Stmt>)
    ensures RowAfter(a, [Update(a.id, p)] + stmts) == RowAfter(Patched(a, p), stmts)
  {
    var all := [Update(a.id, p)] + stmts;
    if stmts == [] {
      assert all[..0] == [];
    } else {
      assert all[..|all| - 1] == [Update(a.id, p)] + stmts[..|stmts| - 1];
      RowAfterFirst(a, p, stmts[..|stmts| - 1]);
    }
  }

  lemma RowAround(a: Agent, first: Patch, between: seq<Stmt>, last: Patch)
    ensures RowAfter(a, Around(a.id, first, between, last)) == Patched(RowAfter(Patched(a, first), between), last)
  {
    RowAfterLast(a, [Update(a.id, first)] + between, last);
    RowAfterFirst(a, first, between);
  }

  /** The two statements of a completion, with anything in between: the row ends well exactly
      when no task given in between outlives its clearing there, and the last status set
      there, or the one before, is not 'busy'. */
  lemma CompletionPairExactly(a: Agent, between: seq<Stmt>, at: nat)
    ensures FlagOk(RowAfter(a, Around(a.id, ClearTask, between, Signal(None, false, at))))
       <==> !LastIs(between, a.id, GivesTask, TakesTask, false) && !StatusBusy(a, between)
  {
    RowAround(a, ClearTask, between, Signal(None, false, at));
    RowByLast(Patched(a, ClearTask), between);
  }

  /** The two statements of a dispatch, with anything in between: the row ends well exactly
      when no lowering of the flag in between is left without a raising after it. */
  lemma DispatchPairExactly(a: Agent, task: string, t1: nat, between: seq<Stmt>, t2: nat)
    ensures FlagOk(RowAfter(a, Around(a.id, Signal(Some(task), true, t1), between, SetStatus(Busy, t2))))
       <==> LastIs(between, a.id, Raises, Lowers, true)
  {
    var p := Signal(Some(task), true, t1);
    RowAround(a, p, between, SetStatus(Busy, t2));
    RowByLast(Patched(a, p), between);
  }

  /** The two statements of any other report, with anything in between: the row ends well, and
      before the second statement it is well exactly when it is flagged by then, or neither
      'busy' nor holding a task. */
  lemma ReportPairExactly(a: Agent, status: AgentStatus, t1: nat, between: seq<Stmt>, task: Option<string>, t2: nat)
    ensures FlagOk(RowAfter(a, Around(a.id, SetStatus(status, t1), between, Signal(task, true, t2))))
    ensures FlagOk(RowAfter(a, [Update(a.id, SetStatus(status, t1))] + between))
       <==> FlagUp(a, between)
            || (!TaskHeld(a, between) && !LastIs(between, a.id, MakesBusy, MakesOther, status == Busy))
  {
    var p := SetStatus(status, t1);
    RowAround(a, p, between, Signal(task, true, t2));
    RowAfterFirst(a, p, between);
    RowByLast(Patched(a, p), between);
  }

  // ---------------------------------------------------------------- failing interleavings

  /** The statements of a dispatch, and of a completion, on an agent. */
  function DispatchOn(id: string, task: string, t: nat): seq<Stmt>
  {
    [Update(id, Signal(Some(task), true, t)), Update(id, SetStatus(Busy, t))]
  }

  function CompletionOn(id: string, t: nat): seq<Stmt>
  {
    [Update(id, SetStatus(Idle, t)), Update(id, ClearTask), Update(id, Signal(None, false, t))]
  }

  /** A dispatch inside a completion leaves a task and status 'busy' without the flag. */
  lemma DispatchInsideCompletion(a: Agent, task: string, t1: nat, t2: nat)
    ensures var after := RowAfter(a, Around(a.id, ClearTask, DispatchOn(a.id, task, t1), Signal(None, false, t2)));
            !FlagOk(after) && !Candidate(after)
  {
    var dispatch := DispatchOn(a.id, task, t1);
    CompletionPairExactly(a, dispatch, t2);
    RowAround(a, ClearTask, dispatch, Signal(None, false, t2));
    assert GivesTask(dispatch[0], a.id) && NoneFrom(dispatch, 1, a.id, TakesTask);
  }

  /** A whole completion inside a dispatch leaves status 'busy' without flag or task. */
  lemma CompletionInsideDispatch(a: Agent, task: string, t1: nat, t2: nat, t3: nat)
    ensures var first, last := Signal(Some(task), true, t1), SetStatus(Busy, t3);
            !FlagOk(RowAfter(a, Around(a.id, first, CompletionOn(a.id, t2), last)))
  {
    var completion := CompletionOn(a.id, t2);
    DispatchPairExactly(a, task, t1, completion, t3);
    assert Lowers(completion[1], a.id) && Lowers(completion[2], a.id);
    assert forall k :: 0 <= k < 3 ==> !Raises(completion[k], a.id);
  }

  /** With nobody in between, the first statement of an idle agent's acknowledgement does so
      until the second one. */
  lemma AckFromIdle(a: Agent, task: Option<string>, t1: nat, t2: nat)
    requires !a.busy
    ensures !FlagOk(RowAfter(a, [Update(a.id, SetStatus(Busy, t1))]))
    ensures FlagOk(RowAfter(a, Around(a.id, SetStatus(Busy, t1), [], Signal(task, true, t2))))
  {
    var first := [Update(a.id, SetStatus(Busy, t1))];
    ReportPairExactly(a, Busy, t1, [], task, t2);
    assert first + [] == first;
  }
}
