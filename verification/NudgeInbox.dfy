/** What a nudge scan leaves behind, told from the columns of the rows it found: who is nudged,
    and what the orchestrator then reads about whom. */
module NudgeInbox {
  import opened Base
  import opened Tables
  import opened Squad
  import opened Runs
  import opened Inbox

  /** Busy on a task, silent for 900 001 ms and not nudged for 90 001 ms. */
  predicate IsDue(a: Agent, now: nat)
  {
    && a.busy && a.activeTask.Some?
    && (a.signalAt.None? || now - a.signalAt.value >= 900_001_000_000)
    && (a.nudgeAt.None? || now - a.nudgeAt.value >= 90_001_000_000)
  }

  lemma DueIsNudged(a: Agent, now: nat)
    ensures ToNudge(a, now) <==> IsDue(a, now)
  {
  }

  /** The message says that this agent has been silent on its task, and for how long. */
  predicate Blames(m: Message, a: Agent, now: nat, id: string)
  {
    && m.id == id && m.session == a.session && m.role == a.role && m.task == a.activeTask
    && m.status == SDegraded && m.at == now && !m.cleared && m.evidence.None? && m.nextAction.None?
    && (a.signalAt.Some? ==> m.summary == Some(NudgeText((now - a.signalAt.value) / 60_000_000_000)))
  }

  lemma WholeMinutes(nanos: nat)
    ensures Milliseconds(nanos) / 60_000 == nanos / 60_000_000_000
  {
  }

  lemma NudgeBlames(a: Agent, now: nat, id: string)
    requires IsDue(a, now)
    ensures Blames(NudgeMessage(a, now, id), a, now, id)
  {
    if a.signalAt.Some? { WholeMinutes(now - a.signalAt.value); }
  }

  /** The messages of a scan are one for each due row, about that row. */
  lemma {:induction false} ScanMessages(agents: seq<Agent>, now: nat, ids: seq<string>, m: Message)
    requires |ids| == |agents|
    ensures m in NudgeMessages(agents, now, ids)
       <==> exists i :: 0 <= i < |agents| && IsDue(agents[i], now) && m == NudgeMessage(agents[i], now, ids[i])
  {
    if agents != [] {
      var n := |agents| - 1;
      ScanMessages(agents[..n], now, ids[..n], m);
      DueIsNudged(agents[n], now);
      assert forall i :: 0 <= i < n ==> agents[..n][i] == agents[i] && ids[..n][i] == ids[i];
    }
  }

  lemma DueIsStored(db: Store, now: nat, ids: seq<string>, i: nat) returns (m: Message)
    requires |ids| == |db.agents| && i < |db.agents| && IsDue(db.agents[i], now)
    ensures m in NudgeScan(db, now, ids).inbox && Blames(m, db.agents[i], now, ids[i])
  {
    m := NudgeMessage(db.agents[i], now, ids[i]);
    ScanMessages(db.agents, now, ids, m);
    NudgeBlames(db.agents[i], now, ids[i]);
  }

  /** After a scan every due agent is blamed, by its own role and on its own task, in every
      reading of its session. */
  lemma NudgeIsReadBack(db: Store, now: nat, ids: seq<string>, i: nat, rows: seq<Message>)
    requires |ids| == |db.agents| && i < |db.agents| && IsDue(db.agents[i], now)
    requires IsReading(rows, NudgeScan(db, now, ids).inbox, db.agents[i].session)
    ensures exists m :: m in rows && Blames(m, db.agents[i], now, ids[i])
  {
    var m := DueIsStored(db, now, ids, i);
    ReadHas(rows, NudgeScan(db, now, ids).inbox, m);
  }

  /** Nobody else is: each new message blames a due row, and none has the id set aside for a
      row that is not due. */
  lemma OnlyDueAreBlamed(db: Store, now: nat, ids: seq<string>, m: Message)
    requires |ids| == |db.agents| && NewMessageIds(db.inbox, ids)
    requires m in NudgeScan(db, now, ids).inbox && m !in db.inbox
    ensures exists i :: 0 <= i < |db.agents| && IsDue(db.agents[i], now) && Blames(m, db.agents[i], now, ids[i])
    ensures forall i :: 0 <= i < |db.agents| && !IsDue(db.agents[i], now) ==> m.id != ids[i]
  {
    ScanMessages(db.agents, now, ids, m);
    var k :| 0 <= k < |db.agents| && IsDue(db.agents[k], now) && m == NudgeMessage(db.agents[k], now, ids[k]);
    NudgeBlames(db.agents[k], now, ids[k]);
    forall i | 0 <= i < |db.agents| && !IsDue(db.agents[i], now) ensures m.id != ids[i] {
      assert ids[i] != ids[k];
    }
  }

  /** Stamps taken later than the scan's own time change the stamps alone. */
  lemma StampedScanKeepsInbox(db: Store, now: nat, stamps: seq<nat>, ids: seq<string>)
    requires |ids| == |stamps| == |db.agents|
    ensures StampedScan(db, now, stamps, ids).inbox == NudgeScan(db, now, ids).inbox
    ensures forall i :: 0 <= i < |db.agents| ==>
              StampedScan(db, now, stamps, ids).agents[i]
              == if IsDue(db.agents[i], now) then db.agents[i].(nudgeAt := Some(stamps[i])) else db.agents[i]
  {
    forall i | 0 <= i < |db.agents| { DueIsNudged(db.agents[i], now); }
  }
}
