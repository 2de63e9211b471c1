/** Work items over runs: the status column is a replay of the acknowledgement log, and
    finished items are absorbing. */
module Items {
  import opened Base
  import opened Tables
  import opened Squad
  import opened Runs

  // ---------------------------------------------------------------- the journal

  /** What happened to work items: acknowledgement rows, and auto-resume updates. */
  datatype Entry = AckEntry(ack: Ack) | ResumeEntry(task: string, session: string)

  function AckPart(db: Store, r: StatusReport, env: Env): seq<Entry>
    requires ReportReply(db, r) == Done
  {
    if |ReportAcks(db, r, env)| > |db.acks| then [AckEntry(ReportAcks(db, r, env)[|db.acks|])] else []
  }

  function ResumePart(session: string, heal: Heal): seq<Entry>
  {
    match heal case Resume(parent, _) => [ResumeEntry(parent, session)] case _ => []
  }

  /** The entries a step writes, in order. */
  function Journal(db: Store, s: Step): seq<Entry>
  {
    if s.DoReport? && ReportReply(db, s.report) == Done
    then AckPart(db, s.report, s.env) + ResumePart(s.report.session, Decision(db, s.report, s.env))
    else []
  }

  function JournalOf(db: Store, run: seq<Step>): seq<Entry>
    requires FreshRun(db, run)
    decreases |run|
  {
    if run == [] then [] else Journal(db, run[0]) + JournalOf(Apply(db, run[0]), run[1..])
  }

  // ---------------------------------------------------------------- replay

  datatype ItemState = ItemState(status: WorkStatus, acceptedAt: Option<nat>, completedAt: Option<nat>)

  function StateOf(it: WorkItem): ItemState { ItemState(it.status, it.acceptedAt, it.completedAt) }

  const CREATED: ItemState := ItemState(Delivered, None, None)

  /** The effect of one journal entry on the row with this id, task and session. */
  function Entered(st: ItemState, e: Entry, it: WorkItem): ItemState
  {
    match e
    case AckEntry(a) =>
      if a.item != it.id then st
      else if a.kind == SAck then ItemState(Acked, Some(a.at), st.completedAt)
      else if a.kind == SComplete then ItemState(DoneClaimed, st.acceptedAt, Some(a.at))
      else if a.kind == SFailed then ItemState(Stale, st.acceptedAt, Some(a.at))
      else if a.kind == SBlocked then st.(status := Blocked)
      else st.(status := InProgress)
    case ResumeEntry(task, session) =>
      if it.task == task && it.session == session && st.status == Blocked then st.(status := InProgress) else st
  }

  function Replay(j: seq<Entry>, it: WorkItem): ItemState
  {
    if j == [] then CREATED else Entered(Replay(j[..|j| - 1], it), j[|j| - 1], it)
  }

  function AcksIn(j: seq<Entry>): seq<Ack>
  {
    if j == [] then []
    else AcksIn(j[..|j| - 1]) + match j[|j| - 1] case AckEntry(a) => [a] case _ => []
  }

  /** The tables agree with the journal kept so far. */
  predicate Agrees(db: Store, j: seq<Entry>)
  {
    && db.acks == AcksIn(j)
    && forall i :: 0 <= i < |db.items| ==> StateOf(db.items[i]) == Replay(j, db.items[i])
  }

  lemma ReplayAppend(j: seq<Entry>, e: Entry, it: WorkItem)
    ensures Replay(j + [e], it) == Entered(Replay(j, it), e, it)
  {
    assert (j + [e])[..|j|] == j;
  }

  lemma AcksAppend(j: seq<Entry>, e: Entry)
    ensures AcksIn(j + [e]) == AcksIn(j) + match e case AckEntry(a) => [a] case _ => []
  {
    assert (j + [e])[..|j|] == j;
  }

  predicate SameItem(a: WorkItem, b: WorkItem)
  {
    && a.id == b.id && a.session == b.session && a.role == b.role && a.agent == b.agent
    && a.task == b.task && a.createdAt == b.createdAt
  }

  lemma {:induction false} ReplayByIdentity(j: seq<Entry>, a: WorkItem, b: WorkItem)
    requires SameItem(a, b)
    ensures Replay(j, a) == Replay(j, b)
  {
    if j != [] { ReplayByIdentity(j[..|j| - 1], a, b); }
  }

  /** No earlier entry touches a row whose id is new. */
  lemma {:induction false} ReplayOfNewItem(j: seq<Entry>, it: WorkItem)
    requires forall i :: 0 <= i < |AcksIn(j)| ==> AcksIn(j)[i].item != it.id
    ensures Replay(j, it) == CREATED
  {
    if j != [] {
      var n := |j| - 1;
      assert forall i :: 0 <= i < |AcksIn(j[..n])| ==> AcksIn(j)[i] == AcksIn(j[..n])[i];
      ReplayOfNewItem(j[..n], it);
      if j[n].AckEntry? { assert AcksIn(j)[|AcksIn(j)| - 1] == j[n].ack; }
    }
  }

  predicate Replayed(items: seq<WorkItem>, j: seq<Entry>)
  {
    forall i :: 0 <= i < |items| ==> StateOf(items[i]) == Replay(j, items[i])
  }

  /** The update a status stands for is the journal entry of its acknowledgement. */
  lemma StampedAsEntered(it: WorkItem, a: Ack)
    ensures var after := if it.id == a.item then Stamped(it, WorkStatusOf(a.kind), a.at) else it;
            SameItem(it, after) && StateOf(after) == Entered(StateOf(it), AckEntry(a), it)
  {
  }

  lemma AckedItems(items: seq<WorkItem>, j: seq<Entry>, a: Ack)
    requires Replayed(items, j)
    ensures Replayed(UpdateItem(items, a.item, WorkStatusOf(a.kind), a.at), j + [AckEntry(a)])
  {
    var after := UpdateItem(items, a.item, WorkStatusOf(a.kind), a.at);
    forall i | 0 <= i < |after| ensures StateOf(after[i]) == Replay(j + [AckEntry(a)], after[i]) {
      StampedAsEntered(items[i], a);
      ReplayAppend(j, AckEntry(a), items[i]);
      ReplayByIdentity(j + [AckEntry(a)], items[i], after[i]);
    }
  }

  /** First half of a report: the acknowledgement and the update it stands for. */
  lemma AckAgrees(db: Store, j: seq<Entry>, r: StatusReport, env: Env)
    requires Agrees(db, j) && ReportReply(db, r) == Done
    ensures ReportAcks(db, r, env) == AcksIn(j + AckPart(db, r, env))
    ensures Replayed(ReportItems(db, r, env), j + AckPart(db, r, env))
  {
    match ReportItem(db, r, env) {
      case None => assert j + [] == j;
      case Some(id) =>
        var a := ReportAcks(db, r, env)[|db.acks|];
        AckedItems(db.items, j, a);
        AcksAppend(j, AckEntry(a));
    }
  }

  /** Second half: the resume, if there is one. */
  lemma ResumeAgrees(db: Store, j: seq<Entry>, parent: string, session: string)
    requires Agrees(db, j)
    ensures Agrees(db.(items := Unblock(db.items, parent, session)), j + [ResumeEntry(parent, session)])
  {
    var items, e := Unblock(db.items, parent, session), ResumeEntry(parent, session);
    forall i | 0 <= i < |items| ensures StateOf(items[i]) == Replay(j + [e], items[i]) {
      ReplayByIdentity(j, db.items[i], items[i]);
      ReplayAppend(j, e, items[i]);
    }
    assert (j + [e])[..|j|] == j;
  }

  lemma ReportAgrees(db: Store, j: seq<Entry>, r: StatusReport, env: Env, heal: Heal)
    requires Agrees(db, j) && ReportReply(db, r) == Done
    ensures Agrees(Reported(db, r, env, heal), j + (AckPart(db, r, env) + ResumePart(r.session, heal)))
  {
    AckAgrees(db, j, r, env);
    var mid := db.(items := ReportItems(db, r, env), acks := ReportAcks(db, r, env));
    var k := j + AckPart(db, r, env);
    assert j + (AckPart(db, r, env) + ResumePart(r.session, heal)) == k + ResumePart(r.session, heal);
    match heal {
      case Resume(parent, _) => ResumeAgrees(mid, k, parent, r.session);
      case _ => assert k + [] == k;
    }
  }

  lemma DispatchAgrees(db: Store, j: seq<Entry>, d: DispatchCall, env: Env)
    requires Agrees(db, j) && NewItemId(db, env.itemId)
    ensures Agrees(Dispatch(db, d, env), j)
  {
    var i := RowFor(db.agents, d.session, d.to);
    if i < |db.agents| { ReplayOfNewItem(j, NewItem(db.agents[i], d, env)); }
  }

  lemma StepAgrees(db: Store, s: Step, j: seq<Entry>)
    requires Fresh(db, s) && Agrees(db, j)
    ensures Agrees(Apply(db, s), j + Journal(db, s))
  {
    assert j + [] == j;
    match s {
      case DoDispatch(d, env) => DispatchAgrees(db, j, d, env);
      case DoReport(r, env) => if ReportReply(db, r) == Done { ReportAgrees(db, j, r, env, Decision(db, r, env)); }
      case _ =>
    }
  }

  lemma {:induction false} RunAgrees(db: Store, run: seq<Step>, j: seq<Entry>)
    requires FreshRun(db, run) && Agrees(db, j)
    ensures Agrees(Run(db, run), j + JournalOf(db, run))
    decreases |run|
  {
    if run == [] {
      assert j + [] == j;
    } else {
      var next, rest := Apply(db, run[0]), run[1..];
      StepAgrees(db, run[0], j);
      RunAgrees(next, rest, j + Journal(db, run[0]));
      AgreesRegrouped(Run(next, rest), j, Journal(db, run[0]), JournalOf(next, rest));
    }
  }

  lemma AgreesRegrouped(db: Store, j: seq<Entry>, a: seq<Entry>, b: seq<Entry>)
    requires Agrees(db, j + a + b)
    ensures Agrees(db, j + (a + b))
  {
    assert j + a + b == j + (a + b);
  }

  lemma NothingAgrees(db: Store)
    requires db.items == [] && db.acks == []
    ensures Agrees(db, [])
  {
  }

  lemma AgreesAlone(db: Store, j: seq<Entry>)
    requires Agrees(db, [] + j)
    ensures db.acks == AcksIn(j)
    ensures forall i :: 0 <= i < |db.items| ==> StateOf(db.items[i]) == Replay(j, db.items[i])
  {
    assert [] + j == j;
  }

  /** In every run, folding the acknowledgements and auto-resumes in order over rows created
      as delivered gives exactly the status and stamp columns, and the acknowledgement
      entries are exactly the acknowledgement table. */
  lemma LogReplay(db: Store, run: seq<Step>)
    requires FreshRun(db, run) && db.items == [] && db.acks == []
    ensures Run(db, run).acks == AcksIn(JournalOf(db, run))
    ensures forall i :: 0 <= i < |Run(db, run).items| ==>
              StateOf(Run(db, run).items[i]) == Replay(JournalOf(db, run), Run(db, run).items[i])
  {
    NothingAgrees(db);
    RunAgrees(db, run, []);
    AgreesAlone(Run(db, run), JournalOf(db, run));
  }

  // ---------------------------------------------------------------- stale generations

  predicate NewestLease(leases: seq<Lease>, item: string, i: nat)
  {
    && i < |leases| && leases[i].item == item
    && forall j :: 0 <= j < |leases| && leases[j].item == item ==> leases[j].createdAt <= leases[i].createdAt
  }

  /** A report whose generation is not that of the item's newest lease changes nothing, and
      one whose generation is passes the check, or any does when there is no lease at all. */
  lemma GenerationGuard(db: Store, r: StatusReport, env: Env, w: string, g: int)
    requires r.assignment == Some(w) && r.generation == Some(g) && RowFor(db.agents, r.session, r.role) < |db.agents|
    ensures (exists i: nat :: NewestLease(db.leases, w, i))
            && (forall i: nat :: NewestLease(db.leases, w, i) ==> db.leases[i].generation != g)
            ==> ReportReply(db, r) == StaleGeneration && Report(db, r, env) == db
    ensures (forall i: nat :: NewestLease(db.leases, w, i) ==> db.leases[i].generation == g) ==>
              ReportReply(db, r) == Done
  {
    var l := LatestLease(db.leases, w);
    if l < |db.leases| { assert NewestLease(db.leases, w, l); }
  }

  // ---------------------------------------------------------------- ownership

  predicate Owns(a: Agent, it: WorkItem) { a.id == it.agent && Holds(a, it.session, it.role) }

  /** The item's target agent exists, in the item's session and with its target role. */
  predicate Owned(agents: seq<Agent>, it: WorkItem) { exists k :: 0 <= k < |agents| && Owns(agents[k], it) }

  predicate UniqueItems(items: seq<WorkItem>)
  {
    forall i, j :: 0 <= i < j < |items| ==> items[i].id != items[j].id
  }

  predicate ItemsOwned(db: Store) { forall i :: 0 <= i < |db.items| ==> Owned(db.agents, db.items[i]) }

  lemma OwnedContinues(t: seq<Agent>, u: seq<Agent>, a: WorkItem, b: WorkItem)
    requires Continues(t, u) && Owned(t, a) && SameItem(a, b)
    ensures Owned(u, b)
  {
    var k :| 0 <= k < |t| && Owns(t[k], a);
    assert SameKey(t[k], u[k]) && Owns(u[k], b);
  }

  predicate SameItems(t: seq<WorkItem>, u: seq<WorkItem>)
  {
    |t| == |u| && forall i :: 0 <= i < |t| ==> SameItem(t[i], u[i])
  }

  lemma UpdateKeepsItems(items: seq<WorkItem>, id: string, status: WorkStatus, now: nat, task: string, session: string)
    ensures SameItems(items, UpdateItem(items, id, status, now))
    ensures SameItems(items, Unblock(items, task, session))
  {
  }

  lemma ReportKeepsItems(db: Store, r: StatusReport, env: Env, heal: Heal)
    requires ReportReply(db, r) == Done
    ensures SameItems(db.items, Reported(db, r, env, heal).items)
  {
    var items := ReportItems(db, r, env);
    var id := match ReportItem(db, r, env) case Some(id) => id case None => "";
    UpdateKeepsItems(db.items, id, WorkStatusOf(r.status), env.now, "", "");
    assert SameItems(db.items, items);
    match heal {
      case Resume(parent, _) => UpdateKeepsItems(items, "", Blocked, 0, parent, r.session);
      case _ =>
    }
  }

  lemma OtherStepsKeepItems(db: Store, s: Step)
    requires Fresh(db, s) && !s.DoReport? && !s.DoDispatch?
    ensures Apply(db, s).items == db.items
  {
  }

  /** Items keep their identity; only a dispatch adds one. */
  lemma ItemsContinue(db: Store, s: Step)
    requires Fresh(db, s)
    ensures |db.items| <= |Apply(db, s).items|
    ensures forall i :: 0 <= i < |db.items| ==> SameItem(db.items[i], Apply(db, s).items[i])
    ensures |Apply(db, s).items| > |db.items| ==>
              && s.DoDispatch? && RowFor(db.agents, s.dispatch.session, s.dispatch.to) < |db.agents|
              && var a := db.agents[RowFor(db.agents, s.dispatch.session, s.dispatch.to)];
                 Apply(db, s).items == db.items + [NewItem(a, s.dispatch, s.env)]
  {
    if s.DoReport? {
      if ReportReply(db, s.report) == Done {
        ReportKeepsItems(db, s.report, s.env, Decision(db, s.report, s.env));
      }
    } else if !s.DoDispatch? {
      OtherStepsKeepItems(db, s);
    }
  }

  /** Every item of the next state was there before or is the one a dispatch added. */
  lemma ItemsOwnedStep(db: Store, s: Step)
    requires Fresh(db, s) && UniqueAgents(db.agents) && RowsOk(db.agents) && ItemsOwned(db)
    ensures ItemsOwned(Apply(db, s))
  {
    AgentsStep(db, s);
    ItemsContinue(db, s);
    var next := Apply(db, s);
    forall i | 0 <= i < |next.items| ensures Owned(next.agents, next.items[i]) {
      if i < |db.items| {
        OwnedContinues(db.agents, next.agents, db.items[i], next.items[i]);
      } else {
        var k := RowFor(db.agents, s.dispatch.session, s.dispatch.to);
        assert Owns(db.agents[k], next.items[i]);
        OwnedContinues(db.agents, next.agents, next.items[i], next.items[i]);
      }
    }
  }

  lemma UniqueItemsStep(db: Store, s: Step)
    requires Fresh(db, s) && UniqueItems(db.items)
    ensures UniqueItems(Apply(db, s).items)
  {
    ItemsContinue(db, s);
    var next := Apply(db, s);
    if |next.items| > |db.items| { assert s.DoDispatch? && NewItemId(db, s.env.itemId); }
    forall i, j | 0 <= i < j < |next.items| ensures next.items[i].id != next.items[j].id {
      assert SameItem(db.items[i], next.items[i]);
      if j < |db.items| { assert SameItem(db.items[j], next.items[j]); }
    }
  }

  lemma ItemsStep(db: Store, s: Step)
    requires Fresh(db, s) && UniqueAgents(db.agents) && RowsOk(db.agents)
    requires UniqueItems(db.items) && ItemsOwned(db)
    ensures UniqueItems(Apply(db, s).items) && ItemsOwned(Apply(db, s))
  {
    ItemsOwnedStep(db, s);
    UniqueItemsStep(db, s);
  }

  lemma {:induction false} ItemsInEveryRun(db: Store, run: seq<Step>)
    requires FreshRun(db, run) && UniqueAgents(db.agents) && RowsOk(db.agents)
    requires UniqueItems(db.items) && ItemsOwned(db)
    ensures UniqueItems(Run(db, run).items) && ItemsOwned(Run(db, run))
    decreases |run|
  {
    if run != [] {
      AgentsStep(db, run[0]);
      ItemsStep(db, run[0]);
      ItemsInEveryRun(Apply(db, run[0]), run[1..]);
    }
  }

  // ---------------------------------------------------------------- from dispatch to report

  predicate NothingOpen(db: Store, d: DispatchCall)
  {
    var k := RowFor(db.agents, d.session, d.to);
    k < |db.agents| && forall i :: 0 <= i < |db.items| ==> !OpenFor(db.items[i], d.task, db.agents[k].id)
  }

  lemma AssignedKeepsLookup(agents: seq<Agent>, session: string, role: string, task: string, now: nat)
    ensures RowFor(Assigned(agents, session, role, task, now), session, role) == RowFor(agents, session, role)
    ensures forall i :: 0 <= i < |agents| ==> Assigned(agents, session, role, task, now)[i].id == agents[i].id
  {
    var k, u := RowFor(agents, session, role), Assigned(agents, session, role, task, now);
    assert forall i :: 0 <= i < |agents| ==> (Holds(u[i], session, role) <==> Holds(agents[i], session, role));
    var j := RowFor(u, session, role);
  }

  lemma OnlyOpenItem(items: seq<WorkItem>, it: WorkItem, task: string, agent: string, hint: nat)
    requires OpenFor(it, task, agent) && forall i :: 0 <= i < |items| ==> !OpenFor(items[i], task, agent)
    ensures OpenItem(items + [it], task, agent, hint) == |items|
  {
    assert (items + [it])[|items|] == it;
    assert forall i :: 0 <= i < |items| ==> (items + [it])[i] == items[i];
  }

  lemma DispatchedRow(db: Store, d: DispatchCall, env: Env)
    requires DispatchAccepted(d) && RowFor(db.agents, d.session, d.to) < |db.agents|
    ensures var mid, k := Dispatch(db, d, env), RowFor(db.agents, d.session, d.to);
            && mid.items == db.items + [NewItem(db.agents[k], d, env)]
            && RowFor(mid.agents, d.session, d.to) == k < |mid.agents| && mid.agents[k].id == db.agents[k].id
  {
    AssignedKeepsLookup(db.agents, d.session, d.to, d.task, env.now);
  }

  /** The item of this id is updated, the others are as before. */
  lemma OneItemUpdated(items: seq<WorkItem>, k: nat, status: WorkStatus, now: nat)
    requires UniqueItems(items) && k < |items|
    ensures UpdateItem(items, items[k].id, status, now) == items[k := Stamped(items[k], status, now)]
    ensures Stamped(items[k], status, now).status == status
  {
    assert forall i :: 0 <= i < |items| && items[i].id == items[k].id ==> i == k;
  }

  /** The target's report on a dispatched task finds an open item of that task and agent, the
      new one or an earlier one, moves it as the status says and leaves all others alone. */
  lemma ReportFindsOpenItem(db: Store, d: DispatchCall, env1: Env, r: StatusReport, env2: Env)
    requires DispatchAccepted(d) && NewItemId(db, env1.itemId) && UniqueItems(db.items)
    requires RowFor(db.agents, d.session, d.to) < |db.agents|
    requires r.session == d.session && r.role == d.to && r.task == Some(d.task) && r.assignment.None?
    ensures ReportReply(Dispatch(db, d, env1), r) == Done
    ensures exists k :: 0 <= k < |Dispatch(db, d, env1).items|
              && var it := Dispatch(db, d, env1).items[k];
                 && OpenFor(it, d.task, db.agents[RowFor(db.agents, d.session, d.to)].id)
                 && ReportItem(Dispatch(db, d, env1), r, env2) == Some(it.id)
                 && ReportItems(Dispatch(db, d, env1), r, env2)
                    == Dispatch(db, d, env1).items[k := Stamped(it, WorkStatusOf(r.status), env2.now)]
  {
    DispatchedRow(db, d, env1);
    var mid, a := Dispatch(db, d, env1), db.agents[RowFor(db.agents, d.session, d.to)];
    assert OpenFor(mid.items[|db.items|], d.task, a.id);
    var k := OpenItem(mid.items, d.task, a.id, env2.openHint);
    OneItemUpdated(mid.items, k, WorkStatusOf(r.status), env2.now);
  }

  /** It is the new item, whichever row the query returns, exactly when no earlier item of
      the task was open for the agent. */
  lemma ReportFindsNewItemExactly(db: Store, d: DispatchCall, env1: Env, r: StatusReport, env2: Env)
    requires DispatchAccepted(d) && NewItemId(db, env1.itemId)
    requires RowFor(db.agents, d.session, d.to) < |db.agents|
    requires r.session == d.session && r.role == d.to && r.task == Some(d.task) && r.assignment.None?
    ensures (forall h: nat :: ReportItem(Dispatch(db, d, env1), r, env2.(openHint := h)) == Some(env1.itemId))
       <==> NothingOpen(db, d)
  {
    DispatchedRow(db, d, env1);
    var mid, n := Dispatch(db, d, env1), |db.items|;
    var k := RowFor(db.agents, d.session, d.to);
    var id := db.agents[k].id;
    if NothingOpen(db, d) {
      forall h: nat ensures ReportItem(mid, r, env2.(openHint := h)) == Some(env1.itemId) {
        OnlyOpenItem(db.items, NewItem(db.agents[k], d, env1), d.task, id, h);
      }
    } else {
      var i :| 0 <= i < n && OpenFor(db.items[i], d.task, id);
      assert mid.items[i] == db.items[i];
      assert ReportItem(mid, r, env2.(openHint := i)) == Some(db.items[i].id);
    }
  }

  // ---------------------------------------------------------------- absorption

  predicate Finished(it: WorkItem) { it.status == DoneClaimed || it.status == Stale }

  /** Finished or blocked: not among the statuses a report's own lookup accepts. */
  predicate Closed(it: WorkItem) { Finished(it) || it.status == Blocked }

  /** A report without an assignment id changes only an item that was open. */
  lemma ReportTouchesOpenOnly(db: Store, r: StatusReport, env: Env, i: nat)
    requires ReportReply(db, r) == Done && r.assignment.None? && UniqueItems(db.items) && i < |db.items|
    requires Closed(db.items[i])
    ensures ReportItems(db, r, env)[i] == db.items[i]
  {
    if r.task.Some? {
      var k := OpenItem(db.items, r.task.value, Reporter(db, r).id, env.openHint);
      if k < |db.items| { assert db.items[k].id == db.items[i].id ==> k == i; }
    }
  }

  /** A report changes an item that is not open only by naming it. */
  lemma ReportOnClosedItem(db: Store, r: StatusReport, env: Env, i: nat)
    requires ReportReply(db, r) == Done && UniqueItems(db.items) && i < |db.items| && Closed(db.items[i])
    ensures ReportItems(db, r, env)[i]
         == if r.assignment == Some(db.items[i].id) then Stamped(db.items[i], WorkStatusOf(r.status), env.now)
            else db.items[i]
  {
    if r.assignment.None? { ReportTouchesOpenOnly(db, r, env, i); }
  }

  /** The step is an accepted report whose assignment id is the item's and whose stamp alters
      the row. */
  predicate Alters(s: Step, db: Store, i: nat)
    requires i < |db.items|
  {
    && s.DoReport? && ReportReply(db, s.report) == Done && s.report.assignment == Some(db.items[i].id)
    && Stamped(db.items[i], WorkStatusOf(s.report.status), s.env.now) != db.items[i]
  }

  /** The step's auto-heal resumes the item's task in its session. */
  predicate Resumes(s: Step, db: Store, i: nat)
    requires i < |db.items|
  {
    ResumeEntry(db.items[i].task, db.items[i].session) in Journal(db, s)
  }

  lemma HealedItem(items: seq<WorkItem>, session: string, heal: Heal, i: nat)
    requires i < |items|
    ensures HealItems(items, session, heal)[i]
         == if heal.Resume? && BlockedOn(items[i], heal.parent, session) then items[i].(status := InProgress)
             else items[i]
  {
  }

  /** What a completion or a finished item leaves is never blocked. */
  lemma StampedIsUnblocked(it: WorkItem, s: Status, now: nat)
    ensures Stamped(it, WorkStatusOf(s), now).status == WorkStatusOf(s)
    ensures WorkStatusOf(s) == Blocked <==> s == SBlocked
  {
  }

  lemma ReportedClosedItem(db: Store, r: StatusReport, env: Env, heal: Heal, i: nat)
    requires ReportReply(db, r) == Done && UniqueItems(db.items) && i < |db.items| && Closed(db.items[i])
    requires heal.Resume? ==> r.status == SComplete
    ensures Reported(db, r, env, heal).items[i]
         == if r.assignment == Some(db.items[i].id) then Stamped(db.items[i], WorkStatusOf(r.status), env.now)
            else if heal.Resume? && BlockedOn(db.items[i], heal.parent, r.session)
            then db.items[i].(status := InProgress)
            else db.items[i]
  {
    ReportOnClosedItem(db, r, env, i);
    StampedIsUnblocked(db.items[i], r.status, env.now);
    HealedItem(ReportItems(db, r, env), r.session, heal, i);
    assert Reported(db, r, env, heal).items == HealItems(ReportItems(db, r, env), r.session, heal);
  }

  /** A named finished item takes the reported status. */
  lemma NamedItemIsStamped(db: Store, r: StatusReport, env: Env, i: nat)
    requires ReportReply(db, r) == Done && UniqueItems(db.items) && i < |db.items| && Finished(db.items[i])
    requires r.assignment == Some(db.items[i].id)
    ensures Report(db, r, env).items[i].status == WorkStatusOf(r.status)
  {
    ReportedClosedItem(db, r, env, Decision(db, r, env), i);
  }

  /** One step: a finished item changes iff a report names it and alters it, and a blocked one
      iff a report does so or auto-heal resumes its own task in its session. */
  lemma ItemStep(db: Store, s: Step, i: nat)
    requires Fresh(db, s) && UniqueItems(db.items) && i < |db.items|
    ensures i < |Apply(db, s).items|
    ensures Finished(db.items[i]) ==> (Apply(db, s).items[i] != db.items[i] <==> Alters(s, db, i))
    ensures db.items[i].status == Blocked ==>
              (Apply(db, s).items[i] != db.items[i] <==> Alters(s, db, i) || Resumes(s, db, i))
    ensures db.items[i].status == Blocked && Resumes(s, db, i) && !Alters(s, db, i) ==>
              Apply(db, s).items[i] == db.items[i].(status := InProgress)
  {
    ItemsContinue(db, s);
    if s.DoReport? {
      if ReportReply(db, s.report) == Done && Closed(db.items[i]) {
        ClosedItemStep(db, s.report, s.env, i);
      }
    } else {
      NonReportKeepsItems(db, s, i);
    }
  }

  lemma NonReportKeepsItems(db: Store, s: Step, i: nat)
    requires Fresh(db, s) && !s.DoReport? && i < |db.items| <= |Apply(db, s).items|
    ensures Apply(db, s).items[i] == db.items[i] && !Alters(s, db, i) && !Resumes(s, db, i)
  {
  }

  lemma JournalResumes(db: Store, r: StatusReport, env: Env, task: string, session: string)
    requires ReportReply(db, r) == Done
    ensures ResumeEntry(task, session) in Journal(db, DoReport(r, env))
       <==> Decision(db, r, env).Resume? && Decision(db, r, env).parent == task && r.session == session
  {
    var heal := Decision(db, r, env);
    assert forall e :: e in AckPart(db, r, env) ==> e.AckEntry?;
    assert ResumeEntry(task, session) in ResumePart(r.session, heal)
      <==> heal.Resume? && heal.parent == task && r.session == session;
  }

  lemma ClosedItemStep(db: Store, r: StatusReport, env: Env, i: nat)
    requires ReportReply(db, r) == Done && UniqueItems(db.items) && i < |db.items| && Closed(db.items[i])
    ensures var s, after := DoReport(r, env), Report(db, r, env).items[i];
            && (Finished(db.items[i]) ==> (after != db.items[i] <==> Alters(s, db, i)))
            && (!Finished(db.items[i]) ==> (after != db.items[i] <==> Alters(s, db, i) || Resumes(s, db, i)))
            && (!Finished(db.items[i]) && Resumes(s, db, i) && !Alters(s, db, i)
                ==> after == db.items[i].(status := InProgress))
  {
    ReportedClosedItem(db, r, env, Decision(db, r, env), i);
    JournalResumes(db, r, env, db.items[i].task, db.items[i].session);
  }

  /** Item `i` is the same row in every state of the run. */
  predicate Steady(db: Store, run: seq<Step>, i: nat)
    requires FreshRun(db, run)
    decreases |run|
  {
    run == [] || (&& i < |db.items| && i < |Apply(db, run[0]).items| && Apply(db, run[0]).items[i] == db.items[i]
                  && Steady(Apply(db, run[0]), run[1..], i))
  }

  /** Some step of the run alters item `i`, or, where `resumed` counts too, resumes it. */
  predicate Disturbed(db: Store, run: seq<Step>, i: nat, resumed: bool)
    requires FreshRun(db, run) && i < |db.items|
    decreases |run|
  {
    run != [] && (Alters(run[0], db, i) || (resumed && Resumes(run[0], db, i))
                  || (i < |Apply(db, run[0]).items| && Disturbed(Apply(db, run[0]), run[1..], i, resumed)))
  }

  /** Over any run a finished item stays as it is iff no accepted report names it and alters
      it; a blocked one iff that holds and auto-heal never resumes its task. */
  lemma {:induction false} ClosedItemsInRun(db: Store, run: seq<Step>, i: nat)
    requires FreshRun(db, run) && i < |db.items| && Closed(db.items[i])
    requires UniqueAgents(db.agents) && RowsOk(db.agents) && UniqueItems(db.items) && ItemsOwned(db)
    ensures Steady(db, run, i) <==> !Disturbed(db, run, i, !Finished(db.items[i]))
    ensures i < |Run(db, run).items|
    ensures Steady(db, run, i) ==> Run(db, run).items[i] == db.items[i]
    decreases |run|
  {
    if run != [] {
      var next := Apply(db, run[0]);
      ItemStep(db, run[0], i);
      AgentsStep(db, run[0]);
      ItemsStep(db, run[0]);
      if next.items[i] == db.items[i] {
        ClosedItemsInRun(next, run[1..], i);
      } else {
        ItemsStay(next, run[1..]);
      }
    }
  }

  lemma {:induction false} ItemsStay(db: Store, run: seq<Step>)
    requires FreshRun(db, run)
    ensures |db.items| <= |Run(db, run).items|
    decreases |run|
  {
    if run != [] {
      ItemsContinue(db, run[0]);
      ItemsStay(Apply(db, run[0]), run[1..]);
    }
  }

  /** The status text of a report comes back from the acknowledgement it files. */
  lemma AckKeepsText(db: Store, r: StatusReport, env: Env, text: string)
    requires ReportReply(db, r) == Done && ReportItem(db, r, env).Some? && r.status == ReadStatus(text)
    ensures |ReportAcks(db, r, env)| == |db.acks| + 1
    ensures StatusText(ReportAcks(db, r, env)[|db.acks|].kind) == text
  {
    StatusRoundTrip(text);
  }
}
