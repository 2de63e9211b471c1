/** The SQLite tables as rows, and the row-level effect of each SQL statement. Times are
    nanoseconds since the epoch; a column's CHECK set is a datatype. */
module Tables {
  import opened Base
  import opened Codecs

  datatype SessionStatus = Active | SessionPaused | Stopping | Stopped

  datatype AgentStatus = Idle | Busy | Degraded | Dead | AgentPaused | Recovering | Failed

  datatype WorkStatus = Pending | Leased | Delivered | Acked | InProgress | Blocked
                      | DoneClaimed | Accepted | Stale | Cancelled

  datatype Transport = Ready | TargetStale | TargetDegraded | Quarantined

  datatype Session = Session(id: string, slug: string, slot: int, status: SessionStatus, createdAt: nat)

  datatype Agent = Agent(
    id: string, session: string, role: string, dir: string, branch: string,
    status: AgentStatus, seenAt: Option<nat>,
    busy: bool, activeTask: Option<string>, signalAt: Option<nat>, nudgeAt: Option<nat>)

  /** What a dispatch carries beside its summary. */
  datatype Detail = Detail(files: seq<string>, nextAction: Option<string>, priority: string)

  datatype WorkItem = WorkItem(
    id: string, session: string, role: string, agent: string, task: string, summary: string, detail: Detail,
    status: WorkStatus, createdAt: nat, acceptedAt: Option<nat>, completedAt: Option<nat>)

  /** A report status: the vocabulary word, or any other text. */
  datatype Status = SAck | SComplete | SBlocked | SFailed | SDegraded | SRecovered | SInfo | Unlisted(text: string)

  function ReadStatus(s: string): Status
  {
    if s == "ack" then SAck
    else if s == "complete" then SComplete
    else if s == "blocked" then SBlocked
    else if s == "failed" then SFailed
    else if s == "degraded" then SDegraded
    else if s == "recovered" then SRecovered
    else if s == "info" then SInfo
    else Unlisted(s)
  }

  function StatusText(s: Status): string
  {
    match s
    case SAck => "ack"
    case SComplete => "complete"
    case SBlocked => "blocked"
    case SFailed => "failed"
    case SDegraded => "degraded"
    case SRecovered => "recovered"
    case SInfo => "info"
    case Unlisted(text) => text
  }

  /** Composed text, by its parts: the wording itself is not modelled. */
  datatype Text =
    | Plain(s: string)
    | RepairText(role: string, task: string, evidence: string)
    | ResumeText
    | PeerText(from: string, info: string)
    | NudgeText(minutes: int)
    | CardText(status: Status, summary: string)

  datatype Ack = Ack(id: string, item: string, agent: string, kind: Status, generation: int, at: nat)

  datatype DispatchRow = DispatchRow(
    id: string, session: string, task: string, from: string, to: string, summary: Text, detail: Detail, at: nat)

  datatype Message = Message(
    id: string, session: string, task: Option<string>, role: string, status: Status,
    summary: Option<Text>, evidence: Option<string>, nextAction: Option<string>,
    cleared: bool, at: nat)

  datatype CardCategory = TypeScriptCard | EnvironmentCard

  datatype Card = Card(id: string, session: string, role: string, category: CardCategory,
                       summary: Text, solution: Option<string>, at: nat)

  datatype Subscription = Subscription(session: string, event: string, role: string)

  datatype Lease = Lease(id: string, item: string, agent: string, generation: int, createdAt: nat)

  datatype Target = Target(agent: string, iterm: string, pane: Option<string>,
                           transport: Transport, seenAt: Option<nat>)

  datatype QuarantineRow = QuarantineRow(agent: string, session: string, window: string, pane: string,
                                         inject: string, lastInjected: Option<nat>, reason: string)

  datatype Store = Store(
    sessions: seq<Session>, agents: seq<Agent>, items: seq<WorkItem>, acks: seq<Ack>,
    dispatches: seq<DispatchRow>, inbox: seq<Message>, cards: seq<Card>,
    subs: seq<Subscription>, leases: seq<Lease>,
    targets: seq<Target>, quarantine: seq<QuarantineRow>)

  // ---------------------------------------------------------------- agents

  predicate Holds(a: Agent, session: string, role: string) { a.session == session && a.role == role }

  /** First row with this (session, role), or `|agents|`. */
  function RowFor(agents: seq<Agent>, session: string, role: string): (i: nat)
    ensures i <= |agents|
    ensures i < |agents| ==> Holds(agents[i], session, role)
    ensures forall j :: 0 <= j < i ==> !Holds(agents[j], session, role)
  {
    if agents == [] || Holds(agents[0], session, role) then 0
    else 1 + RowFor(agents[1..], session, role)
  }

  /** The UPDATE statements on `agents`. */
  datatype Patch =
    | SetStatus(status: AgentStatus, at: nat)
    | Signal(task: Option<string>, busy: bool, at: nat)
    | ClearTask
    | Nudged(at: nat)

  function Patched(a: Agent, p: Patch): Agent
  {
    match p
    case SetStatus(s, t) => a.(status := s, seenAt := Some(t))
    case Signal(Some(task), b, t) => a.(signalAt := Some(t), busy := b, activeTask := Some(task))
    case Signal(None, b, t) => a.(signalAt := Some(t), busy := b)
    case ClearTask => a.(busy := false, activeTask := None)
    case Nudged(t) => a.(nudgeAt := Some(t))
  }

  /** `UPDATE agents SET … WHERE id = ?`. */
  function PatchAgents(agents: seq<Agent>, id: string, p: Patch): (r: seq<Agent>)
    ensures |r| == |agents|
    ensures forall i :: 0 <= i < |agents| ==> r[i] == if agents[i].id == id then Patched(agents[i], p) else agents[i]
  {
    seq(|agents|, i requires 0 <= i < |agents| => if agents[i].id == id then Patched(agents[i], p) else agents[i])
  }

  /** `INSERT OR IGNORE INTO agents`: the primary key and the (session, role) index. */
  function InsertAgent(agents: seq<Agent>, a: Agent): seq<Agent>
  {
    if exists i | 0 <= i < |agents| :: agents[i].id == a.id || Holds(agents[i], a.session, a.role)
    then agents else agents + [a]
  }

  // ---------------------------------------------------------------- sessions

  /** First session row with this slug and slot, or `|sessions|`. */
  function SessionRow(sessions: seq<Session>, slug: string, slot: int): (i: nat)
    ensures i <= |sessions|
    ensures i < |sessions| ==> sessions[i].slug == slug && sessions[i].slot == slot
    ensures forall j :: 0 <= j < i ==> !(sessions[j].slug == slug && sessions[j].slot == slot)
  {
    if sessions == [] || (sessions[0].slug == slug && sessions[0].slot == slot) then 0
    else 1 + SessionRow(sessions[1..], slug, slot)
  }

  /** `resolve_session_id`: the id of the row found by the slug and slot in the text. */
  function ResolveSession(sessions: seq<Session>, session: string): Option<string>
  {
    match ParseSession(session)
    case None => None
    case Some((slug, slot)) =>
      var i := SessionRow(sessions, slug, slot);
      if i < |sessions| then Some(sessions[i].id) else None
  }

  function SetSessionStatus(sessions: seq<Session>, id: string, status: SessionStatus): (r: seq<Session>)
    ensures |r| == |sessions|
    ensures forall i :: 0 <= i < |sessions| ==>
              r[i] == if sessions[i].id == id then sessions[i].(status := status) else sessions[i]
  {
    seq(|sessions|, i requires 0 <= i < |sessions| =>
      if sessions[i].id == id then sessions[i].(status := status) else sessions[i])
  }

  // ---------------------------------------------------------------- work items

  /** `update_work_item_status` on the row it names. */
  function Stamped(it: WorkItem, status: WorkStatus, now: nat): WorkItem
  {
    match status
    case Acked => it.(status := status, acceptedAt := Some(now))
    case Accepted | DoneClaimed | Stale | Cancelled => it.(status := status, completedAt := Some(now))
    case _ => it.(status := status)
  }

  function UpdateItem(items: seq<WorkItem>, id: string, status: WorkStatus, now: nat): (r: seq<WorkItem>)
    ensures |r| == |items|
    ensures forall i :: 0 <= i < |items| ==>
              r[i] == if items[i].id == id then Stamped(items[i], status, now) else items[i]
  {
    seq(|items|, i requires 0 <= i < |items| =>
      if items[i].id == id then Stamped(items[i], status, now) else items[i])
  }

  predicate BlockedOn(it: WorkItem, task: string, session: string)
  {
    it.task == task && it.session == session && it.status == Blocked
  }

  /** The auto-resume update: every blocked item of the task becomes in-progress. */
  function Unblock(items: seq<WorkItem>, task: string, session: string): (r: seq<WorkItem>)
    ensures |r| == |items|
    ensures forall i :: 0 <= i < |items| ==>
              r[i] == if BlockedOn(items[i], task, session) then items[i].(status := InProgress) else items[i]
  {
    seq(|items|, i requires 0 <= i < |items| =>
      if BlockedOn(items[i], task, session) then items[i].(status := InProgress) else items[i])
  }

  predicate OpenFor(it: WorkItem, task: string, agent: string)
  {
    it.task == task && it.agent == agent
    && (it.status == Leased || it.status == Delivered || it.status == Acked || it.status == InProgress)
  }

  function FirstOpen(items: seq<WorkItem>, task: string, agent: string): (i: nat)
    ensures i <= |items|
    ensures i < |items| ==> OpenFor(items[i], task, agent)
    ensures forall j :: 0 <= j < i ==> !OpenFor(items[j], task, agent)
  {
    if items == [] || OpenFor(items[0], task, agent) then 0 else 1 + FirstOpen(items[1..], task, agent)
  }

  /** The item a report without an assignment id resolves to. SQL leaves open which of
      several matches is returned: any of them can be, named by `hint`. */
  function OpenItem(items: seq<WorkItem>, task: string, agent: string, hint: nat): (i: nat)
    ensures i <= |items|
    ensures i < |items| ==> OpenFor(items[i], task, agent)
    ensures i == |items| ==> forall j :: 0 <= j < |items| ==> !OpenFor(items[j], task, agent)
  {
    if hint < |items| && OpenFor(items[hint], task, agent) then hint else FirstOpen(items, task, agent)
  }

  predicate IsNewestBlocked(items: seq<WorkItem>, task: string, session: string, i: nat)
  {
    && i < |items|
    && BlockedOn(items[i], task, session)
    && forall j :: 0 <= j < |items| && BlockedOn(items[j], task, session) ==> items[j].createdAt <= items[i].createdAt
  }

  function LastNewest(items: seq<WorkItem>, task: string, session: string): (i: nat)
    ensures i <= |items|
    ensures i < |items| ==> IsNewestBlocked(items, task, session, i)
    ensures i == |items| ==> forall j :: 0 <= j < |items| ==> !BlockedOn(items[j], task, session)
  {
    if items == [] then 0
    else
      var n := |items| - 1;
      var k := LastNewest(items[..n], task, session);
      assert forall j :: 0 <= j < n ==> items[..n][j] == items[j];
      if BlockedOn(items[n], task, session) && (k == n || items[k].createdAt <= items[n].createdAt) then n
      else if k == n then |items|
      else k
  }

  /** `… status = 'blocked' ORDER BY created_at DESC LIMIT 1`, ties broken by `hint`. */
  function NewestBlocked(items: seq<WorkItem>, task: string, session: string, hint: nat): (i: nat)
    ensures i <= |items|
    ensures i < |items| ==> IsNewestBlocked(items, task, session, i)
    ensures i == |items| ==> forall j :: 0 <= j < |items| ==> !BlockedOn(items[j], task, session)
  {
    if IsNewestBlocked(items, task, session, hint) then hint else LastNewest(items, task, session)
  }

  /** The item is open for the agent, or blocked. */
  predicate ActiveFor(it: WorkItem, agent: string)
  {
    it.agent == agent
    && (it.status == Leased || it.status == Delivered || it.status == Acked || it.status == InProgress
        || it.status == Blocked)
  }

  predicate IsNewestActive(items: seq<WorkItem>, agent: string, i: nat)
  {
    && i < |items|
    && ActiveFor(items[i], agent)
    && forall j :: 0 <= j < |items| && ActiveFor(items[j], agent) ==> items[j].createdAt <= items[i].createdAt
  }

  function LastActive(items: seq<WorkItem>, agent: string): (i: nat)
    ensures i <= |items|
    ensures i < |items| ==> IsNewestActive(items, agent, i)
    ensures i == |items| ==> forall j :: 0 <= j < |items| ==> !ActiveFor(items[j], agent)
  {
    if items == [] then 0
    else
      var n := |items| - 1;
      var k := LastActive(items[..n], agent);
      assert forall j :: 0 <= j < n ==> items[..n][j] == items[j];
      if ActiveFor(items[n], agent) && (k == n || items[k].createdAt <= items[n].createdAt) then n
      else if k == n then |items|
      else k
  }

  /** The agent's newest active item, ties broken by `hint`. */
  function NewestActive(items: seq<WorkItem>, agent: string, hint: nat): (i: nat)
    ensures i <= |items|
    ensures i < |items| ==> IsNewestActive(items, agent, i)
    ensures i == |items| ==> forall j :: 0 <= j < |items| ==> !ActiveFor(items[j], agent)
  {
    if IsNewestActive(items, agent, hint) then hint else LastActive(items, agent)
  }

  // ---------------------------------------------------------------- leases, inbox, cards

  /** `… WHERE work_item_id = ? ORDER BY created_at DESC LIMIT 1`, or `|leases|`. */
  function LatestLease(leases: seq<Lease>, item: string): (i: nat)
    ensures i <= |leases|
    ensures i < |leases| ==> leases[i].item == item
    ensures forall j :: 0 <= j < |leases| && leases[j].item == item ==>
              i < |leases| && leases[j].createdAt <= leases[i].createdAt
  {
    if leases == [] then 0
    else
      var n := |leases| - 1;
      var k := LatestLease(leases[..n], item);
      assert forall j :: 0 <= j < n ==> leases[..n][j] == leases[j];
      if leases[n].item == item && (k == n || leases[k].createdAt <= leases[n].createdAt) then n
      else if k == n then |leases|
      else k
  }

  /** `UPDATE inbox_messages SET cleared = 1 WHERE message_id = ?`, for each id. */
  function ClearMessages(inbox: seq<Message>, ids: seq<string>): (r: seq<Message>)
    ensures |r| == |inbox|
    ensures forall i :: 0 <= i < |inbox| ==> r[i] == if inbox[i].id in ids then inbox[i].(cleared := true) else inbox[i]
  {
    seq(|inbox|, i requires 0 <= i < |inbox| =>
      if inbox[i].id in ids then inbox[i].(cleared := true) else inbox[i])
  }

  function InsertCard(cards: seq<Card>, c: Card): seq<Card>
  {
    if exists i | 0 <= i < |cards| :: cards[i].id == c.id then cards else cards + [c]
  }

  function InsertSubscription(subs: seq<Subscription>, s: Subscription): seq<Subscription>
  {
    if s in subs then subs else subs + [s]
  }

  const EMPTY: Store := Store([], [], [], [], [], [], [], [], [], [], [])
}
