/** Migration 003 (legacy terminal targets) and migration 006 (one lease row per agent). */
module Migrations {
  import opened Base
  import opened Tables
  import opened Doctor

  // ---------------------------------------------------------------- migration 003

  /** A row of `terminal_targets` before migration 003. */
  datatype OldTarget = OldTarget(agent: string, session: string, window: string, pane: string,
                                 injectMethod: string, lastInjected: Option<nat>)

  predicate IsIterm(o: OldTarget) { o.injectMethod == "iterm_python_api" && o.window == "iterm" }

  predicate DistinctOld(legacy: seq<OldTarget>)
  {
    forall i, j :: 0 <= i < j < |legacy| ==> legacy[i].agent != legacy[j].agent
  }

  function NewTarget(o: OldTarget): Target
  {
    if IsIterm(o) then Target(o.agent, o.session, Some(o.pane), Ready, o.lastInjected)
    else Target(o.agent, o.session, None, Quarantined, o.lastInjected)
  }

  function OldLogRow(o: OldTarget): QuarantineRow
  {
    QuarantineRow(o.agent, o.session, o.window, o.pane, o.injectMethod, o.lastInjected, "legacy_terminal_transport")
  }

  function NewTargets(legacy: seq<OldTarget>): (r: seq<Target>)
    ensures |r| == |legacy| && forall i :: 0 <= i < |legacy| ==> r[i] == NewTarget(legacy[i])
  {
    seq(|legacy|, i requires 0 <= i < |legacy| => NewTarget(legacy[i]))
  }

  /** The `INSERT … SELECT … WHERE` into the quarantine table. */
  function QuarantinedRows(legacy: seq<OldTarget>): seq<QuarantineRow>
  {
    if legacy == [] then []
    else
      var n := |legacy| - 1;
      QuarantinedRows(legacy[..n]) + if IsIterm(legacy[n]) then [] else [OldLogRow(legacy[n])]
  }

  predicate NamesLegacy(o: OldTarget, a: string) { o.agent == a && !IsIterm(o) }

  /** Some legacy target of the agent is not an iTerm target. */
  predicate HasLegacy(legacy: seq<OldTarget>, a: string)
  {
    legacy != [] && (NamesLegacy(legacy[|legacy| - 1], a) || HasLegacy(legacy[..|legacy| - 1], a))
  }

  lemma {:induction false} HasLegacyExact(legacy: seq<OldTarget>, a: string)
    ensures HasLegacy(legacy, a) <==> exists i :: 0 <= i < |legacy| && NamesLegacy(legacy[i], a)
  {
    if legacy != [] {
      var n := |legacy| - 1;
      HasLegacyExact(legacy[..n], a);
      assert forall i :: 0 <= i < n ==> legacy[..n][i] == legacy[i];
    }
  }

  lemma CountOneMore(log: seq<QuarantineRow>, o: OldTarget, a: string)
    ensures LogCount(log + if IsIterm(o) then [] else [OldLogRow(o)], a)
         == LogCount(log, a) + if NamesLegacy(o, a) then 1 else 0
  {
    if IsIterm(o) { assert log + [] == log; } else { LogCountAppend(log, OldLogRow(o), a); }
  }

  lemma {:induction false} QuarantinedRowsCount(legacy: seq<OldTarget>, a: string)
    requires DistinctOld(legacy)
    ensures LogCount(QuarantinedRows(legacy), a) == if HasLegacy(legacy, a) then 1 else 0
  {
    if legacy != [] {
      var n := |legacy| - 1;
      QuarantinedRowsCount(legacy[..n], a);
      CountOneMore(QuarantinedRows(legacy[..n]), legacy[n], a);
      HasLegacyExact(legacy[..n], a);
    }
  }

  /** A legacy target that iTerm already drives becomes ready and keeps its pane; any other is
      quarantined without one. */
  lemma MigratedColumns(legacy: seq<OldTarget>, i: nat)
    requires i < |legacy|
    ensures var o, t := legacy[i], NewTargets(legacy)[i];
            && t.agent == o.agent && t.iterm == o.session && t.seenAt == o.lastInjected
            && (t.transport == Ready <==> o.injectMethod == "iterm_python_api" && o.window == "iterm")
            && (t.transport == Ready ==> t.pane == Some(o.pane))
            && (t.transport != Ready ==> t.transport == Quarantined && t.pane == None)
  {
  }

  /** The log rows are those of the targets that are not iTerm's, all columns kept. */
  lemma {:induction false} QuarantinedRowsExact(legacy: seq<OldTarget>, row: QuarantineRow)
    ensures row in QuarantinedRows(legacy)
       <==> exists i :: 0 <= i < |legacy| && KeptInLog(legacy[i], row)
  {
    if legacy != [] {
      var n := |legacy| - 1;
      QuarantinedRowsExact(legacy[..n], row);
      assert forall i :: 0 <= i < n ==> legacy[..n][i] == legacy[i];
      assert KeptInLog(legacy[n], row) <==> !IsIterm(legacy[n]) && row == OldLogRow(legacy[n]);
    }
  }

  predicate KeptInLog(o: OldTarget, row: QuarantineRow)
  {
    && (o.injectMethod != "iterm_python_api" || o.window != "iterm")
    && row.agent == o.agent && row.session == o.session && row.window == o.window && row.pane == o.pane
    && row.inject == o.injectMethod && row.lastInjected == o.lastInjected && row.reason == "legacy_terminal_transport"
  }

  class TargetTables {
    var legacy: seq<OldTarget>
    var targets: seq<Target>
    var quarantine: seq<QuarantineRow>

    constructor (legacy: seq<OldTarget>)
      ensures this.legacy == legacy && targets == [] && quarantine == []
    {
      this.legacy := legacy;
      targets, quarantine := [], [];
    }

    /** Fill the quarantine table and the new target table row by row, then drop the old. */
    method Migrate003()
      requires targets == [] && quarantine == []
      modifies this
      ensures legacy == [] && targets == NewTargets(old(legacy)) && quarantine == QuarantinedRows(old(legacy))
    {
      ghost var was := legacy;
      for i := 0 to |legacy|
        invariant legacy == was
        invariant targets == NewTargets(was[..i]) && quarantine == QuarantinedRows(was[..i])
      {
        assert was[..i + 1][..i] == was[..i] && was[..i + 1][i] == was[i];
        if !IsIterm(legacy[i]) {
          quarantine := quarantine + [OldLogRow(legacy[i])];
        }
        targets := targets + [NewTarget(legacy[i])];
        assert NewTargets(was[..i + 1]) == NewTargets(was[..i]) + [NewTarget(was[i])];
      }
      assert was[..|was|] == was;
      legacy := [];
    }
  }

  /** Migration 003 loses and invents no target, and leaves the quarantine log in the
      agreement with the table that every later doctor run keeps. */
  lemma MigrationStartsAgreement(legacy: seq<OldTarget>, sessions: seq<Session>, agents: seq<Agent>,
                                 envs: seq<DoctorEnv>)
    requires DistinctOld(legacy)
    ensures forall i :: 0 <= i < |legacy| ==>
              NewTargets(legacy)[i].agent == legacy[i].agent && NewTargets(legacy)[i].iterm == legacy[i].session
    ensures LogAgrees(NewTargets(legacy), QuarantinedRows(legacy))
    ensures var db := EMPTY.(sessions := sessions, agents := agents,
                             targets := NewTargets(legacy), quarantine := QuarantinedRows(legacy));
            LogAgrees(Passes(db, envs).targets, Passes(db, envs).quarantine)
  {
    forall i | 0 <= i < |legacy|
      ensures LogCount(QuarantinedRows(legacy), legacy[i].agent) == if IsIterm(legacy[i]) then 0 else 1
    {
      QuarantinedRowsCount(legacy, legacy[i].agent);
      HasLegacyExact(legacy, legacy[i].agent);
    }
    var db := EMPTY.(sessions := sessions, agents := agents,
                     targets := NewTargets(legacy), quarantine := QuarantinedRows(legacy));
    DoctorRunsAreMonotone(db, envs);
  }

  // ---------------------------------------------------------------- migration 006

  /** A row of `agents` before migration 006; `rowid` is SQLite's own row number. */
  datatype LeaseRow = LeaseRow(rowid: nat, id: string, session: string, role: string, heartbeat: Option<nat>)

  predicate SameLease(a: LeaseRow, b: LeaseRow) { a.session == b.session && a.role == b.role }

  /** `ORDER BY last_heartbeat_at DESC, rowid DESC`: `a` ranks before `b`. */
  predicate Outranks(a: LeaseRow, b: LeaseRow)
  {
    match (a.heartbeat, b.heartbeat)
    case (Some(s), Some(t)) => s > t || (s == t && a.rowid > b.rowid)
    case (Some(_), None) => true
    case (None, Some(_)) => false
    case (None, None) => a.rowid > b.rowid
  }

  predicate DistinctRowids(rows: seq<LeaseRow>)
  {
    forall i, j :: 0 <= i < j < |rows| ==> rows[i].rowid != rows[j].rowid
  }

  /** Row number 1 of its (session, role) partition. */
  predicate RanksFirst(rows: seq<LeaseRow>, r: LeaseRow)
  {
    forall i | 0 <= i < |rows| :: SameLease(rows[i], r) ==> !Outranks(rows[i], r)
  }

  /** The first `n` rows that survive, in order. */
  function Kept(rows: seq<LeaseRow>, n: nat): seq<LeaseRow>
    requires n <= |rows|
  {
    if n == 0 then [] else Kept(rows, n - 1) + if RanksFirst(rows, rows[n - 1]) then [rows[n - 1]] else []
  }

  function Deduped(rows: seq<LeaseRow>): seq<LeaseRow> { Kept(rows, |rows|) }

  class AgentLeases {
    var rows: seq<LeaseRow>

    constructor (rows: seq<LeaseRow>)
      ensures this.rows == rows
    {
      this.rows := rows;
    }

    /** Delete every row that is not first in its partition, keeping the others in place. */
    method Migrate006()
      modifies this
      ensures rows == Deduped(old(rows))
    {
      var was := rows;
      var kept := [];
      for i := 0 to |was|
        invariant kept == Kept(was, i)
      {
        if RanksFirst(was, was[i]) { kept := kept + [was[i]]; }
      }
      rows := kept;
    }
  }

  lemma {:induction false} KeptExact(rows: seq<LeaseRow>, n: nat, r: LeaseRow)
    requires n <= |rows|
    ensures r in Kept(rows, n) <==> exists i :: 0 <= i < n && rows[i] == r && RanksFirst(rows, r)
  {
    if n > 0 { KeptExact(rows, n - 1, r); }
  }

  lemma {:induction false} KeptDistinct(rows: seq<LeaseRow>, n: nat)
    requires n <= |rows| && DistinctRowids(rows)
    ensures DistinctRowids(Kept(rows, n))
  {
    if n > 0 {
      KeptDistinct(rows, n - 1);
      var k := Kept(rows, n - 1);
      forall i | 0 <= i < |k| ensures k[i].rowid != rows[n - 1].rowid {
        KeptExact(rows, n - 1, k[i]);
      }
    }
  }

  /** Every partition has a row no other outranks: `rows[best]`. */
  lemma {:induction false} FirstOfPartition(rows: seq<LeaseRow>, n: nat, r: LeaseRow) returns (best: nat)
    requires n <= |rows| && exists i :: 0 <= i < n && SameLease(rows[i], r)
    ensures best < n && SameLease(rows[best], r)
    ensures forall i :: 0 <= i < n && SameLease(rows[i], r) ==> !Outranks(rows[i], rows[best])
  {
    if exists i :: 0 <= i < n - 1 && SameLease(rows[i], r) {
      best := FirstOfPartition(rows, n - 1, r);
      if SameLease(rows[n - 1], r) && Outranks(rows[n - 1], rows[best]) { best := n - 1; }
    } else {
      best := n - 1;
    }
  }

  lemma DedupeExact(rows: seq<LeaseRow>, r: LeaseRow)
    ensures r in Deduped(rows) <==> r in rows && RanksFirst(rows, r)
  {
    KeptExact(rows, |rows|, r);
  }

  lemma DedupeCovers(rows: seq<LeaseRow>, r: LeaseRow) returns (k: LeaseRow)
    requires r in rows
    ensures k in Deduped(rows) && SameLease(k, r)
  {
    var best := FirstOfPartition(rows, |rows|, r);
    k := rows[best];
    assert RanksFirst(rows, k);
    DedupeExact(rows, k);
  }

  /** Exactly one row survives for each (session, role) that had any: the one with the
      greatest heartbeat (no heartbeat counts least), then the greatest rowid. */
  lemma DedupeKeepsOnePerLease(rows: seq<LeaseRow>)
    requires DistinctRowids(rows)
    ensures forall r :: r in Deduped(rows) <==> r in rows && RanksFirst(rows, r)
    ensures forall r :: r in rows ==> exists k :: k in Deduped(rows) && SameLease(k, r)
    ensures forall i, j :: 0 <= i < j < |Deduped(rows)| ==> !SameLease(Deduped(rows)[i], Deduped(rows)[j])
  {
    var d := Deduped(rows);
    forall r { DedupeExact(rows, r); }
    forall r | r in rows ensures exists k :: k in d && SameLease(k, r) {
      var k := DedupeCovers(rows, r);
    }
    DedupeHasNoPair(rows);
  }

  lemma DedupeHasNoPair(rows: seq<LeaseRow>)
    requires DistinctRowids(rows)
    ensures forall i, j :: 0 <= i < j < |Deduped(rows)| ==> !SameLease(Deduped(rows)[i], Deduped(rows)[j])
  {
    var d := Deduped(rows);
    KeptDistinct(rows, |rows|);
    forall i, j | 0 <= i < j < |d| ensures !SameLease(d[i], d[j]) {
      DedupeExact(rows, d[i]);
      DedupeExact(rows, d[j]);
      var a, b := d[i], d[j];
      assert a in d && b in d && a.rowid != b.rowid;
      assert a in rows && b in rows && !(SameLease(a, b) && (Outranks(a, b) || Outranks(b, a)));
    }
  }

  lemma {:induction false} KeepAll(rows: seq<LeaseRow>, n: nat)
    requires n <= |rows|
    requires forall i :: 0 <= i < |rows| ==> RanksFirst(rows, rows[i])
    ensures Kept(rows, n) == rows[..n]
  {
    if n > 0 { KeepAll(rows, n - 1); }
  }

  lemma DedupeIdempotent(rows: seq<LeaseRow>)
    requires DistinctRowids(rows)
    ensures Deduped(Deduped(rows)) == Deduped(rows)
  {
    var d := Deduped(rows);
    forall i | 0 <= i < |d| ensures RanksFirst(d, d[i]) {
      DedupeHasNoPair(rows);
      assert forall j :: 0 <= j < |d| && SameLease(d[j], d[i]) ==> j == i;
    }
    KeepAll(d, |d|);
    assert d[..|d|] == d;
  }

  /** `k` is no worse a lease than `r`: a greater heartbeat, any heartbeat before none, and for
      equal ones a rowid no smaller. */
  predicate NoWorse(k: LeaseRow, r: LeaseRow)
  {
    if k.heartbeat.Some? && r.heartbeat.Some? && k.heartbeat.value != r.heartbeat.value
    then k.heartbeat.value > r.heartbeat.value
    else if k.heartbeat.Some? != r.heartbeat.Some? then k.heartbeat.Some?
    else k.rowid >= r.rowid
  }

  /** A row survives exactly when it is no worse than any row of its session and role. */
  lemma SurvivorsExactly(rows: seq<LeaseRow>, k: LeaseRow)
    ensures k in Deduped(rows)
       <==> k in rows && forall r :: r in rows && r.session == k.session && r.role == k.role ==> NoWorse(k, r)
  {
    DedupeExact(rows, k);
    forall r ensures !Outranks(r, k) <==> NoWorse(k, r) { }
    if k in rows && forall r :: r in rows && r.session == k.session && r.role == k.role ==> NoWorse(k, r) {
      forall i | 0 <= i < |rows| && SameLease(rows[i], k) ensures !Outranks(rows[i], k) { assert rows[i] in rows; }
    }
    if RanksFirst(rows, k) {
      forall r | r in rows && r.session == k.session && r.role == k.role ensures NoWorse(k, r) {
        assert SameLease(r, k);
      }
    }
  }
}
