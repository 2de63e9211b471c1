/** Auto-heal closes its loop: a TypeScript-shaped blocker spawns a repair task, and its
    completion un-blocks the parent and puts the parent's agent back to work. */
module HealLoop {
  import opened Base
  import opened Codecs
  import opened Tables
  import opened Squad
  import opened Runs
  import opened Items

  // ---------------------------------------------------------------- the two decisions

  /** A blocked report spawns a repair dispatch iff it names a task and its evidence has the
      shape; then exactly one row is added, for the role `ai`. */
  lemma BlockedSpawnsRepair(db: Store, r: StatusReport, env: Env)
    requires ReportReply(db, r) == Done && r.status == SBlocked
    ensures |Report(db, r, env).dispatches| == |db.dispatches| + 1 <==> r.task.Some? && TypeScriptShaped(Evidence(r))
    ensures |Report(db, r, env).dispatches| != |db.dispatches| ==>
              Report(db, r, env).dispatches == db.dispatches
                + [DispatchRow(env.dispatchId, r.session, AutoFixId(r.task.value, MillisOf(env.now)), ORCHESTRATOR,
                               REPAIR_ROLE, RepairText(r.role, r.task.value, Evidence(r)), URGENT, env.now)]
  {
  }

  /** The words that mark a blocker as one of types. */
  predicate TypeWord(w: string) { w == "typescript" || w == "typecheck" || w == "exactoptional" }

  /** One of the words stands somewhere in the lower-cased text. */
  ghost predicate HasTypeWord(text: string) { exists i: nat, w :: TypeWord(w) && OccursAt(Lower(text), w, i) }

  lemma ShapeIsAWord(text: string)
    ensures TypeScriptShaped(text) <==> HasTypeWord(text)
  {
    var low := Lower(text);
    ContainsExact(low, "typescript");
    ContainsExact(low, "typecheck");
    ContainsExact(low, "exactoptional");
    if HasTypeWord(text) {
      var i: nat, w :| TypeWord(w) && OccursAt(low, w, i);
    }
    if i: nat :| OccursAt(low, "typescript", i) { assert TypeWord("typescript"); }
    if i: nat :| OccursAt(low, "typecheck", i) { assert TypeWord("typecheck"); }
    if i: nat :| OccursAt(low, "exactoptional", i) { assert TypeWord("exactoptional"); }
  }

  /** The text a blocked report is judged by: its evidence, else its summary, else nothing. */
  predicate JudgedBy(r: StatusReport, text: string)
  {
    && (r.validation.Some? ==> text == r.validation.value)
    && (r.validation.None? && r.summary.Some? ==> text == r.summary.value)
    && (r.validation.None? && r.summary.None? ==> text == "")
  }

  /** An accepted blocked report adds a dispatch iff it names a task and one of the words
      stands, in any letter case, anywhere in the text it is judged by; and then one row, from
      the orchestrator to the role `ai`, on the task that the time and the task's name give. */
  lemma BlockedDispatchExactly(db: Store, r: StatusReport, env: Env, text: string)
    requires ReportReply(db, r) == Done && r.status == SBlocked && JudgedBy(r, text)
    ensures Report(db, r, env).dispatches != db.dispatches <==> r.task.Some? && HasTypeWord(text)
    ensures Report(db, r, env).dispatches != db.dispatches ==>
              Report(db, r, env).dispatches == db.dispatches
                + [DispatchRow(env.dispatchId, r.session, "auto-fix-" + r.task.value + "-" + Dec(env.now / 1_000_000),
                               "orchestrator", "ai", RepairText(r.role, r.task.value, text),
                               Detail([], None, "high"), env.now)]
  {
    assert Evidence(r) == text;
    ShapeIsAWord(text);
    BlockedSpawnsRepair(db, r, env);
  }

  lemma AnyCaseHasTypeWord(before: string, u: string, after: string, w: string)
    requires TypeWord(w) && Spells(u, w)
    ensures HasTypeWord(before + u + after)
  {
    SpelledOccurs(before, u, after, w);
  }

  /** A blocked item of the task that the report does not itself move. */
  predicate StillBlocked(db: Store, r: StatusReport, task: string, i: nat)
  {
    i < |db.items| && BlockedOn(db.items[i], task, r.session) && r.assignment != Some(db.items[i].id)
  }

  lemma CompleteKeepsBlocked(db: Store, r: StatusReport, env: Env, task: string, i: nat)
    requires ReportReply(db, r) == Done && r.status == SComplete && UniqueItems(db.items) && i < |db.items|
    ensures BlockedOn(ReportItems(db, r, env)[i], task, r.session) <==> StillBlocked(db, r, task, i)
  {
    if r.assignment.None? && db.items[i].status == Blocked { ReportTouchesOpenOnly(db, r, env, i); }
    if r.assignment.None? && r.task.Some? {
      var k := OpenItem(db.items, r.task.value, Reporter(db, r).id, env.openHint);
    }
  }

  /** A completed report resumes iff it is the repair of a parent that still has a blocked
      item in the session, other than one the report's own assignment id names. */
  lemma CompleteResumesExactly(db: Store, r: StatusReport, env: Env, task: string)
    requires ReportReply(db, r) == Done && r.status == SComplete && UniqueItems(db.items)
    ensures (exists role :: Decision(db, r, env) == Resume(task, role))
       <==> r.task.Some? && AutoFixParent(r.task.value) == Some(task) && exists i :: StillBlocked(db, r, task, i)
    ensures Decision(db, r, env).NoHeal? || Decision(db, r, env).Resume?
  {
    var items := ReportItems(db, r, env);
    forall i | 0 <= i < |items|
      ensures BlockedOn(items[i], task, r.session) <==> StillBlocked(db, r, task, i)
    {
      CompleteKeepsBlocked(db, r, env, task, i);
    }
    if r.task.Some? && AutoFixParent(r.task.value) == Some(task) {
      var k := NewestBlocked(items, task, r.session, env.newestHint);
      if k < |items| {
        assert StillBlocked(db, r, task, k);
        assert Decision(db, r, env) == Resume(task, items[k].role);
      }
    }
  }

  // ---------------------------------------------------------------- the second half

  lemma OnlyRowFor(agents: seq<Agent>, session: string, role: string, k: nat)
    requires UniqueAgents(agents) && k < |agents| && Holds(agents[k], session, role)
    ensures RowFor(agents, session, role) == k
  {
  }

  lemma RowOfOwner(agents: seq<Agent>, it: WorkItem)
    requires UniqueAgents(agents) && Owned(agents, it)
    ensures RowFor(agents, it.session, it.role) < |agents|
    ensures Owns(agents[RowFor(agents, it.session, it.role)], it)
  {
    var k :| 0 <= k < |agents| && Owns(agents[k], it);
    OnlyRowFor(agents, it.session, it.role, k);
  }

  /** The agent is at work on the task. */
  predicate WorksOn(a: Agent, task: string) { a.busy && a.activeTask == Some(task) && a.status == Busy }

  lemma AssignedOwnerWorks(agents: seq<Agent>, it: WorkItem, now: nat)
    requires UniqueAgents(agents) && Owned(agents, it)
    ensures exists k :: 0 <= k < |agents| && Owns(Assigned(agents, it.session, it.role, it.task, now)[k], it)
                     && WorksOn(Assigned(agents, it.session, it.role, it.task, now)[k], it.task)
  {
    RowOfOwner(agents, it);
    var k := RowFor(agents, it.session, it.role);
    assert Owns(Assigned(agents, it.session, it.role, it.task, now)[k], it);
  }

  /** The loop is closed for a task: nothing of it is blocked any more, the owner of its
      newest blocked item works on it, and one dispatch to that role was added. */
  ghost predicate LoopClosed(before: seq<WorkItem>, added: seq<DispatchRow>, after: Store, session: string,
                             task: string)
  {
    && (forall i :: 0 <= i < |after.items| ==> !BlockedOn(after.items[i], task, session))
    && exists n: nat :: IsNewestBlocked(before, task, session, n)
         && (exists k :: 0 <= k < |after.agents| && Owns(after.agents[k], before[n]) && WorksOn(after.agents[k], task))
         && |added| == 1 && added[0].task == task && added[0].to == before[n].role && added[0].session == session
  }

  lemma ResumedOwnerWorks(db: Store, r: StatusReport, env: Env, n: nat)
    requires ReportReply(db, r) == Done && RowsOk(db.agents) && UniqueAgents(db.agents) && ItemsOwned(db)
    requires n < |db.items| && ReportItems(db, r, env)[n].session == r.session
    ensures var it := ReportItems(db, r, env)[n];
            var agents := Assigned(ReportAgents(db, r, env), r.session, it.role, it.task, env.now);
            exists k :: 0 <= k < |agents| && Owns(agents[k], it) && WorksOn(agents[k], it.task)
  {
    var items, agents := ReportItems(db, r, env), ReportAgents(db, r, env);
    ReportAgentRows(db, r, env);
    UniqueFromKeys(db.agents, agents);
    ReportKeepsItems(db, r, env, NoHeal);
    assert SameItem(db.items[n], items[n]);
    OwnedContinues(db.agents, agents, db.items[n], items[n]);
    AssignedOwnerWorks(agents, items[n], env.now);
  }

  lemma ResumeCloses(db: Store, r: StatusReport, env: Env, task: string, n: nat)
    requires ReportReply(db, r) == Done && RowsOk(db.agents) && UniqueAgents(db.agents) && ItemsOwned(db)
    requires IsNewestBlocked(ReportItems(db, r, env), task, r.session, n)
    ensures var heal := Resume(task, ReportItems(db, r, env)[n].role);
            LoopClosed(ReportItems(db, r, env), HealRows(r, heal, env), Reported(db, r, env, heal), r.session, task)
  {
    ResumedOwnerWorks(db, r, env, n);
  }

  /** Completing the repair of `task` while one of its items is still blocked. */
  lemma RepairDoneCloses(db: Store, r: StatusReport, env: Env, task: string, millis: nat)
    requires ReportReply(db, r) == Done && r.status == SComplete
    requires r.task == Some(AutoFixId(task, millis)) && task != []
    requires RowsOk(db.agents) && UniqueAgents(db.agents) && UniqueItems(db.items) && ItemsOwned(db)
    requires exists i :: StillBlocked(db, r, task, i)
    ensures var after := Report(db, r, env);
            && |after.dispatches| == |db.dispatches| + 1 && db.dispatches <= after.dispatches
            && LoopClosed(ReportItems(db, r, env), after.dispatches[|db.dispatches|..], after, r.session, task)
  {
    AutoFixRoundTrip(task, millis);
    CompleteResumesExactly(db, r, env, task);
    var n := NewestBlocked(ReportItems(db, r, env), task, r.session, env.newestHint);
    var role :| Decision(db, r, env) == Resume(task, role);
    ResumeCloses(db, r, env, task, n);
    var after := Report(db, r, env);
    assert after.dispatches[|db.dispatches|..] == HealRows(r, Decision(db, r, env), env);
  }

  /** A run of the loop: `r1.role` (even `ai`) reports a task blocked with TypeScript-shaped
      evidence, anything happens, then the generated repair task is reported complete while
      an item of the first task is still blocked. */
  ghost predicate LoopRuns(db: Store, r1: StatusReport, env1: Env, run: seq<Step>, r2: StatusReport)
  {
    && ReportReply(db, r1) == Done && r1.status == SBlocked
    && r1.task.Some? && r1.task.value != [] && TypeScriptShaped(Evidence(r1))
    && FreshRun(Report(db, r1, env1), run)
    && var mid := Run(Report(db, r1, env1), run);
       && ReportReply(mid, r2) == Done && r2.status == SComplete && r2.session == r1.session
       && r2.task == Some(AutoFixId(r1.task.value, MillisOf(env1.now)))
       && exists i :: StillBlocked(mid, r2, r1.task.value, i)
  }

  /** The whole loop closes, and its two reports add one dispatch each. */
  lemma LoopCloses(db: Store, r1: StatusReport, env1: Env, run: seq<Step>, r2: StatusReport, env2: Env)
    requires RowsOk(db.agents) && UniqueAgents(db.agents) && UniqueItems(db.items) && ItemsOwned(db)
    requires NewMessageId(db.inbox, env1.messageId) && LoopRuns(db, r1, env1, run, r2)
    ensures var mid := Run(Report(db, r1, env1), run);
            var after := Report(mid, r2, env2);
            && |Report(db, r1, env1).dispatches| == |db.dispatches| + 1
            && |after.dispatches| == |mid.dispatches| + 1
            && LoopClosed(ReportItems(mid, r2, env2), after.dispatches[|mid.dispatches|..], after,
                          r1.session, r1.task.value)
  {
    var first, task := Report(db, r1, env1), r1.task.value;
    BlockedSpawnsRepair(db, r1, env1);
    assert Apply(db, DoReport(r1, env1)) == first;
    AgentsStep(db, DoReport(r1, env1));
    ItemsStep(db, DoReport(r1, env1));
    AgentRowsInEveryRun(first, run);
    ItemsInEveryRun(first, run);
    RepairDoneCloses(Run(first, run), r2, env2, task, MillisOf(env1.now));
  }

  /** One agent with one delivered item. */
  function OneItem(s: string, role: string, a: string, w: string, task: string): Store
  {
    EMPTY.(agents := [Agent(a, s, role, "", "", Idle, None, false, None, None, None)],
           items := [WorkItem(w, s, role, a, task, "", URGENT, Delivered, 0, None, None)])
  }

  /** Such runs exist for every session, role, non-empty task and evidence with one of the
      words in it, with the same role reporting twice and nothing in between. */
  lemma LoopCanRun(s: string, role: string, a: string, w: string, task: string,
                   before: string, spelled: string, after: string, word: string, env: Env)
    requires task != [] && TypeWord(word) && Spells(spelled, word)
    ensures var evidence := before + spelled + after;
            var r1 := StatusReport(s, role, SBlocked, Some(task), None, Some(evidence), None, None, None);
            var repair := AutoFixId(task, MillisOf(env.now));
            var r2 := StatusReport(s, role, SComplete, Some(repair), None, None, None, None, None);
            LoopRuns(OneItem(s, role, a, w, task), r1, env, [], r2)
  {
    var db := OneItem(s, role, a, w, task);
    var r1 := StatusReport(s, role, SBlocked, Some(task), None, Some(before + spelled + after), None, None, None);
    var r2 := StatusReport(s, role, SComplete, Some(AutoFixId(task, MillisOf(env.now))), None, None, None, None, None);
    AnyCaseHasTypeWord(before, spelled, after, word);
    ShapeIsAWord(before + spelled + after);
    OnlyRowFor(db.agents, s, role, 0);
    BlockedOnceReported(db, r1, env, Decision(db, r1, env));
    var mid := Report(db, r1, env);
    ReportRows(db, r1, env, Decision(db, r1, env));
    assert SameKey(db.agents[0], mid.agents[0]);
    assert RowFor(mid.agents, s, role) == 0;
    assert StillBlocked(mid, r2, task, 0);
  }

  lemma BlockedOnceReported(db: Store, r: StatusReport, env: Env, heal: Heal)
    requires ReportReply(db, r) == Done && r.status == SBlocked && r.task.Some? && r.assignment.None? && !heal.Resume?
    requires |db.items| == 1 && OpenFor(db.items[0], r.task.value, Reporter(db, r).id)
    requires db.items[0].session == r.session
    ensures |Reported(db, r, env, heal).items| == 1
    ensures BlockedOn(Reported(db, r, env, heal).items[0], r.task.value, r.session)
  {
    var items := ReportItems(db, r, env);
    assert OpenItem(db.items, r.task.value, Reporter(db, r).id, env.openHint) == 0;
    assert items == UpdateItem(db.items, db.items[0].id, Blocked, env.now);
    HealedItem(items, r.session, heal, 0);
    assert Reported(db, r, env, heal).items == HealItems(items, r.session, heal);
  }

  // ---------------------------------------------------------------- nested repairs

  predicate NoRepairItems(items: seq<WorkItem>)
  {
    forall i :: 0 <= i < |items| ==> !StartsWith(items[i].task, AUTO_FIX)
  }

  predicate NoRepairDispatched(run: seq<Step>)
  {
    forall k :: 0 <= k < |run| && run[k].DoDispatch? ==> !StartsWith(run[k].dispatch.task, AUTO_FIX)
  }

  lemma {:induction false} RepairItemsComeFromDispatch(db: Store, run: seq<Step>)
    requires FreshRun(db, run) && NoRepairItems(db.items) && NoRepairDispatched(run)
    ensures NoRepairItems(Run(db, run).items)
    decreases |run|
  {
    if run != [] {
      var next := Apply(db, run[0]);
      ItemsContinue(db, run[0]);
      forall i | 0 <= i < |next.items| ensures !StartsWith(next.items[i].task, AUTO_FIX) {
        if i < |db.items| { assert SameItem(db.items[i], next.items[i]); }
        else { assert run[0].DoDispatch?; }
      }
      RepairItemsComeFromDispatch(next, run[1..]);
    }
  }

  /** Repair tasks have no work item, so completing the repair of a repair resumes nothing,
      in every run in which nobody dispatches an auto-fix id by hand. */
  lemma NestedRepairResumesNothing(db: Store, run: seq<Step>, r: StatusReport, env: Env, task: string, m1: nat, m2: nat)
    requires FreshRun(db, run) && db.items == [] && NoRepairDispatched(run)
    requires ReportReply(Run(db, run), r) == Done && r.status == SComplete
    requires r.task == Some(AutoFixId(AutoFixId(task, m1), m2))
    ensures Decision(Run(db, run), r, env) == NoHeal
  {
    var mid, parent := Run(db, run), AutoFixId(task, m1);
    RepairItemsComeFromDispatch(db, run);
    AutoFixRoundTrip(parent, m2);
    assert parent != [] && StartsWith(parent, AUTO_FIX);
    ReportKeepsItems(mid, r, env, NoHeal);
    var items := ReportItems(mid, r, env);
    forall i | 0 <= i < |items| ensures !BlockedOn(items[i], parent, r.session) {
      assert SameItem(mid.items[i], items[i]);
    }
  }
}
