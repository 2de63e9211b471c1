/** What holds in every state reachable from the empty database, and the quarantine log over
    runs in which launches, doctor passes and every other call come in any order. */
module Reachable {
  import opened Base
  import opened Tables
  import opened Runs
  import opened Doctor
  import opened Isolation
  import opened Inbox
  import Launch

  // ---------------------------------------------------------------- targets and their log

  lemma {:induction false} WithoutNone(targets: seq<Target>, agent: string)
    requires forall i :: 0 <= i < |targets| ==> targets[i].agent != agent
    ensures Launch.Without(targets, agent) == targets
  {
    if targets != [] { WithoutNone(targets[1..], agent); }
  }

  function NewTargets(c: Launch.LaunchCall, n: nat): (r: seq<Target>)
    requires Launch.WellFormed(c) && n <= Launch.PaneCount(c)
    ensures |r| == n
    ensures forall i :: 0 <= i < n ==> r[i].agent == c.ids[i] && r[i].transport == Ready
  {
    if n == 0 then []
    else NewTargets(c, n - 1) + [Target(c.ids[n - 1], c.iterms[n - 1], Some(c.iterms[n - 1]), Ready, Some(c.now))]
  }

  predicate DistinctNames(ids: seq<string>) { forall i, j :: 0 <= i < j < |ids| ==> ids[i] != ids[j] }

  predicate TargetsElsewhere(targets: seq<Target>, ids: seq<string>)
  {
    forall i :: 0 <= i < |targets| ==> targets[i].agent !in ids
  }

  /** New agent ids replace no target: the launch only adds its own. */
  lemma {:induction false} TargetsAdded(targets: seq<Target>, c: Launch.LaunchCall, n: nat)
    requires Launch.WellFormed(c) && n <= Launch.PaneCount(c) && DistinctNames(c.ids)
         && TargetsElsewhere(targets, c.ids)
    ensures Launch.InsertTargets(targets, c, n) == targets + NewTargets(c, n)
  {
    if n > 0 {
      TargetsAdded(targets, c, n - 1);
      var before := targets + NewTargets(c, n - 1);
      forall i | 0 <= i < |before| ensures before[i].agent != c.ids[n - 1] {
        if i < |targets| { assert c.ids[n - 1] in c.ids; }
        else { assert before[i] == NewTargets(c, n - 1)[i - |targets|]; }
      }
      WithoutNone(before, c.ids[n - 1]);
    }
  }

  lemma {:induction false} NotInLog(log: seq<QuarantineRow>, agent: string)
    requires forall i :: 0 <= i < |log| ==> log[i].agent != agent
    ensures LogCount(log, agent) == 0
  {
    if log != [] { NotInLog(log[..|log| - 1], agent); }
  }

  lemma AddedTargetsAgree(targets: seq<Target>, added: seq<Target>, log: seq<QuarantineRow>)
    requires LogAgrees(targets, log) && DistinctTargets(added)
    requires forall i, j :: 0 <= i < |targets| && 0 <= j < |added| ==> targets[i].agent != added[j].agent
    requires forall j :: 0 <= j < |added| ==> added[j].transport == Ready && LogCount(log, added[j].agent) == 0
    ensures LogAgrees(targets + added, log)
  {
    var all := targets + added;
    assert forall i :: 0 <= i < |all| ==> all[i] == if i < |targets| then targets[i] else added[i - |targets|];
  }

  lemma LaunchKeepsAgreement(db: Store, c: Launch.LaunchCall)
    requires Fresh(db, DoLaunch(c)) && LogAgrees(db.targets, db.quarantine)
    ensures LogAgrees(Launch.Register(db, c).targets, db.quarantine) && db.targets <= Launch.Register(db, c).targets
  {
    var n := Launch.PaneCount(c);
    var added := NewTargets(c, n);
    TargetsAdded(db.targets, c, n);
    forall j | 0 <= j < n ensures LogCount(db.quarantine, added[j].agent) == 0 && added[j].agent in c.ids {
      assert added[j].agent == c.ids[j];
      NotInLog(db.quarantine, added[j].agent);
    }
    AddedTargetsAgree(db.targets, added, db.quarantine);
  }

  /** Only launches and doctor passes touch targets or the log. */
  lemma OtherStepsKeepTargets(db: Store, s: Step)
    requires Fresh(db, s) && !s.DoLaunch? && !s.DoDoctor?
    ensures Apply(db, s).targets == db.targets && Apply(db, s).quarantine == db.quarantine
  {
  }

  /** Each target is still there, no less far along, and as it was if it was final. */
  predicate TargetsAdvance(was: seq<Target>, now: seq<Target>)
  {
    && |was| <= |now|
    && forall i :: 0 <= i < |was| ==>
         && now[i] == was[i].(transport := now[i].transport)
         && Rank(now[i].transport) >= Rank(was[i].transport)
         && (Rank(was[i].transport) == 2 ==> now[i] == was[i])
  }

  lemma TargetsStep(db: Store, s: Step)
    requires Fresh(db, s) && LogAgrees(db.targets, db.quarantine)
    ensures LogAgrees(Apply(db, s).targets, Apply(db, s).quarantine) && TargetsAdvance(db.targets, Apply(db, s).targets)
  {
    match s {
      case DoLaunch(c) => LaunchKeepsAgreement(db, c);
      case DoDoctor(env) =>
        assert Passes(db, [env]) == Pass(db, env) by { assert [env][1..] == []; }
        DoctorRunsAreMonotone(db, [env]);
      case _ => OtherStepsKeepTargets(db, s);
    }
  }

  lemma AdvanceTwice(a: seq<Target>, b: seq<Target>, c: seq<Target>)
    requires TargetsAdvance(a, b) && TargetsAdvance(b, c)
    ensures TargetsAdvance(a, c)
  {
    forall i | 0 <= i < |a|
      ensures c[i] == a[i].(transport := c[i].transport) && Rank(c[i].transport) >= Rank(a[i].transport)
      ensures Rank(a[i].transport) == 2 ==> c[i] == a[i]
    {
      assert b[i] == a[i].(transport := b[i].transport);
    }
  }

  /** Over every run, launches between doctor passes included, a target is quarantined iff it
      has exactly one log row, targets only move forward, and final ones never change. */
  lemma {:induction false} QuarantineInEveryRun(db: Store, run: seq<Step>)
    requires FreshRun(db, run) && LogAgrees(db.targets, db.quarantine)
    ensures LogAgrees(Run(db, run).targets, Run(db, run).quarantine)
    ensures TargetsAdvance(db.targets, Run(db, run).targets)
    decreases |run|
  {
    if run != [] {
      var next := Apply(db, run[0]);
      TargetsStep(db, run[0]);
      QuarantineInEveryRun(next, run[1..]);
      AdvanceTwice(db.targets, next.targets, Run(next, run[1..]).targets);
    }
  }

  lemma NewTargetColumns(c: Launch.LaunchCall, n: nat)
    requires Launch.WellFormed(c) && n <= Launch.PaneCount(c)
    ensures forall i :: 0 <= i < n ==>
              NewTargets(c, n)[i] == Target(c.ids[i], c.iterms[i], Some(c.iterms[i]), Ready, Some(c.now))
  {
  }

  /** Each pane of a launch gets a target: ready, seen at the launch, its pane the iTerm id. */
  lemma LaunchedTargets(db: Store, c: Launch.LaunchCall, j: nat)
    requires Fresh(db, DoLaunch(c)) && j < Launch.PaneCount(c)
    requires !Launch.SessionExists(db.sessions, Launch.SessionOf(c))
    ensures |Launch.Register(db, c).targets| == |db.targets| + Launch.PaneCount(c)
    ensures Launch.Register(db, c).targets[|db.targets| + j]
         == Target(c.ids[j], c.iterms[j], Some(c.iterms[j]), Ready, Some(c.now))
  {
    TargetsAdded(db.targets, c, Launch.PaneCount(c));
    NewTargetColumns(c, Launch.PaneCount(c));
  }

  /** Targets of a launch whose pane is no dead process and does not look legacy are left
      ready by every doctor pass within the threshold of the launch. */
  lemma LaunchedTargetsStayReady(db: Store, c: Launch.LaunchCall, env: DoctorEnv, j: nat)
    requires Fresh(db, DoLaunch(c)) && j < Launch.PaneCount(c)
    requires !Launch.SessionExists(db.sessions, Launch.SessionOf(c))
    requires env.now <= c.now + env.thresholdSecs * 1_000_000_000
    requires var t := Target(c.ids[j], c.iterms[j], Some(c.iterms[j]), Ready, Some(c.now));
             !RunnerGone(t, env.alive) && !LooksLegacy(t)
    ensures |Pass(Launch.Register(db, c), env).targets| == |db.targets| + Launch.PaneCount(c)
    ensures Pass(Launch.Register(db, c), env).targets[|db.targets| + j].transport == Ready
  {
    LaunchedTargets(db, c, j);
    var next := Launch.Register(db, c);
    PassColumns(next, env);
    if InScope(next.sessions, next.agents, c.ids[j]) { PassOutcomes(next, env, |db.targets| + j); }
  }

  // ---------------------------------------------------------------- all invariants together

  predicate AllSound(db: Store)
  {
    Sound(db) && LogAgrees(db.targets, db.quarantine) && UniqueSessions(db.sessions)
  }

  lemma UniqueSessionsStep(db: Store, s: Step)
    requires Fresh(db, s) && UniqueSessions(db.sessions)
    ensures UniqueSessions(Apply(db, s).sessions)
  {
    if s.DoLaunch? {
      var id := Launch.SessionOf(s.launch);
      if !Launch.SessionExists(db.sessions, id) {
        forall i | 0 <= i < |db.sessions| ensures db.sessions[i].id != id { }
      }
    } else {
      SessionsStep(db, s);
    }
  }

  lemma {:induction false} AllSoundInEveryRun(db: Store, run: seq<Step>)
    requires FreshRun(db, run) && AllSound(db)
    ensures AllSound(Run(db, run))
    decreases |run|
  {
    if run != [] {
      SoundStep(db, run[0]);
      TargetsStep(db, run[0]);
      UniqueSessionsStep(db, run[0]);
      AllSoundInEveryRun(Apply(db, run[0]), run[1..]);
    }
  }

  /** Every state reachable from the empty database satisfies every invariant that a theorem
      or a method of this project asks of a store. */
  lemma ReachableIsSound(run: seq<Step>)
    requires FreshRun(EMPTY, run)
    ensures AllSound(Run(EMPTY, run))
  {
    AllSoundInEveryRun(EMPTY, run);
  }
}
