/** Launch and teardown: the pane layout, worktree and branch creation in an abstract git,
    registration of the agents, and the cleanup that must undo it all. */
module Launch {
  import opened Base
  import opened Codecs
  import opened Tables

  // ---------------------------------------------------------------- the pane layout

  const GRID: seq<string> := ["orch", "ai", "dat", "sec", "ops", "plt", "ui", "doc", "qa", "inp"]

  /** One pane: its role, its name (also its branch) and its directory. */
  datatype Window = Window(role: string, name: string, dir: string)

  const MARKER: string := "/.claude/worktrees/"

  function WorktreeRoot(repo: string, session: string): string { repo + MARKER + session }

  function PaneName(name: string, team: string, number: nat): string { name + "-" + team + "-" + Dec(number) }

  function WindowOf(repo: string, name: string, number: nat, team: string): Window
  {
    var session := SessionId(name, number);
    var root := WorktreeRoot(repo, session);
    if team == "orch" then Window("orchestrator", session, root + "/" + session)
    else if team == "inp" then Window("input", PaneName(name, "inp", number), root + "/" + session)
    else Window(team, PaneName(name, team, number), root + "/" + PaneName(name, team, number))
  }

  function Windows(repo: string, name: string, number: nat): (r: seq<Window>)
    ensures |r| == |GRID| && forall i :: 0 <= i < |GRID| ==> r[i] == WindowOf(repo, name, number, GRID[i])
  {
    seq(|GRID|, i requires 0 <= i < |GRID| => WindowOf(repo, name, number, GRID[i]))
  }

  method BuildWindowDefs(repo: string, name: string, number: nat) returns (defs: seq<Window>)
    ensures defs == Windows(repo, name, number)
  {
    defs := [];
    for i := 0 to |GRID|
      invariant |defs| == i
      invariant forall j :: 0 <= j < i ==> defs[j] == WindowOf(repo, name, number, GRID[j])
    {
      defs := defs + [WindowOf(repo, name, number, GRID[i])];
    }
  }

  /** The panes that get a worktree and an agent row: all but the input pane. */
  function Panes(repo: string, name: string, number: nat): seq<Window>
  {
    Windows(repo, name, number)[..|GRID| - 1]
  }

  // ---------------------------------------------------------------- abstract git

  /** Registered worktrees with the branch each has checked out, and all branches. */
  datatype Repo = Repo(worktrees: map<string, string>, branches: set<string>)

  predicate ValidRepo(g: Repo) { g.worktrees.Values <= g.branches }

  /** `create_one_worktree`: refused when the branch exists or the path is registered. */
  function AddWorktree(g: Repo, path: string, branch: string): Option<Repo>
  {
    if branch in g.branches || path in g.worktrees then None
    else Some(Repo(g.worktrees[path := branch], g.branches + {branch}))
  }

  function RemoveWorktree(g: Repo, path: string): Repo { g.(worktrees := g.worktrees - {path}) }

  /** `branch -D`: refused while some worktree has the branch checked out. */
  function DeleteBranch(g: Repo, branch: string): Repo
  {
    if branch in g.worktrees.Values then g else g.(branches := g.branches - {branch})
  }

  /** Worktrees of the panes, created in order; None as soon as one is refused. */
  function AddAll(g: Repo, panes: seq<Window>): Option<Repo>
  {
    if panes == [] then Some(g)
    else
      var n := |panes| - 1;
      match AddAll(g, panes[..n])
      case None => None
      case Some(h) => AddWorktree(h, panes[n].dir, panes[n].name)
  }

  /** First occurrence of the marker at or after `i`, or `|s|`. */
  function FindFrom(s: string, i: nat): (r: nat)
    requires i <= |s|
    ensures i <= r <= |s|
    ensures r < |s| ==> OccursAt(s, MARKER, r)
    ensures forall j: nat :: i <= j < r ==> !OccursAt(s, MARKER, j)
    decreases |s| - i
  {
    if i == |s| || OccursAt(s, MARKER, i) then i else FindFrom(s, i + 1)
  }

  function FindMarker(s: string): nat { FindFrom(s, 0) }

  /** Which repository each directory given to `git -C` belongs to. */
  type Owner = map<string, nat>

  function CleanRepo(g: Repo, path: string, branch: string): Repo
  {
    DeleteBranch(RemoveWorktree(g, path), branch)
  }

  /** Cleanup of one agent: nothing outside `.claude/worktrees/`, and git run from the part
      of the path before the first marker. */
  function CleanOne(repos: map<nat, Repo>, owner: Owner, a: Agent): map<nat, Repo>
  {
    var i := FindMarker(a.dir);
    if i == |a.dir| || a.dir[..i] !in owner || owner[a.dir[..i]] !in repos then repos
    else
      var o := owner[a.dir[..i]];
      repos[o := CleanRepo(repos[o], a.dir, a.branch)]
  }

  function CleanAll(repos: map<nat, Repo>, owner: Owner, agents: seq<Agent>): map<nat, Repo>
  {
    if agents == [] then repos
    else CleanOne(CleanAll(repos, owner, agents[..|agents| - 1]), owner, agents[|agents| - 1])
  }

  /** The directory is a registered worktree of the repository cleanup would run git in. */
  predicate TreeAt(repos: map<nat, Repo>, owner: Owner, dir: string)
  {
    var i := FindMarker(dir);
    i < |dir| && dir[..i] in owner && owner[dir[..i]] in repos && dir in repos[owner[dir[..i]]].worktrees
  }

  /** The directories cleanup reports as removed, in order. */
  function RemovedDirs(repos: map<nat, Repo>, owner: Owner, agents: seq<Agent>): seq<string>
  {
    if agents == [] then []
    else
      var n := |agents| - 1;
      RemovedDirs(repos, owner, agents[..n])
      + if TreeAt(CleanAll(repos, owner, agents[..n]), owner, agents[n].dir) then [agents[n].dir] else []
  }

  /** Whether pane `n` is not attempted: something was refused before, and either it was the
      first pane or the task of pane `n` was dropped before it ran. */
  predicate Dropped(g: Repo, panes: seq<Window>, goesOn: seq<bool>, n: nat)
    requires n < |panes| == |goesOn|
  {
    n > 0 && AddAll(g, panes[..n]).None? && (!goesOn[n] || AddAll(g, panes[..1]).None?)
  }

  /** The repository after the panes were attempted in this order, some after a refusal. */
  function AddSome(g: Repo, panes: seq<Window>, goesOn: seq<bool>): Repo
    requires |panes| == |goesOn|
  {
    if panes == [] then g
    else
      var n := |panes| - 1;
      var h := AddSome(g, panes[..n], goesOn[..n]);
      if Dropped(g, panes, goesOn, n) then h
      else match AddWorktree(h, panes[n].dir, panes[n].name)
        case None => h
        case Some(k) => k
  }

  class Git {
    const owner: Owner
    var repos: map<nat, Repo>

    constructor (owner: Owner, repos: map<nat, Repo>)
      ensures this.owner == owner && this.repos == repos
    {
      this.owner, this.repos := owner, repos;
    }

    /** Create the worktrees: the first pane, then the others in the order their tasks finish.
        A refused task does not undo the others, and those still running may go on. */
    method CreateWorktrees(root: string, panes: seq<Window>, goesOn: seq<bool>) returns (ok: bool)
      requires root in owner && owner[root] in repos && |panes| == |goesOn|
      modifies this
      ensures ok <==> AddAll(old(repos)[owner[root]], panes).Some?
      ensures ok ==> repos == old(repos)[owner[root] := AddAll(old(repos)[owner[root]], panes).value]
      ensures repos == old(repos)[owner[root] := AddSome(old(repos)[owner[root]], panes, goesOn)]
    {
      var o := owner[root];
      ghost var g := repos[o];
      ok := true;
      var first := true;
      for i := 0 to |panes|
        invariant ok <==> AddAll(g, panes[..i]).Some?
        invariant if i == 0 then first else first <==> AddAll(g, panes[..1]).Some?
        invariant o in repos && repos == old(repos)[o := AddSome(g, panes[..i], goesOn[..i])]
        invariant ok ==> AddSome(g, panes[..i], goesOn[..i]) == AddAll(g, panes[..i]).value
      {
        AttemptNext(g, panes, goesOn, i);
        assert i == 0 ==> panes[..i + 1] == panes[..1];
        if i > 0 && !ok && (!goesOn[i] || !first) { continue; }
        match AddWorktree(repos[o], panes[i].dir, panes[i].name) {
          case None =>
            ok := false;
            if i == 0 { first := false; }
          case Some(h) =>
            repos := repos[o := h];
        }
      }
      assert panes[..|panes|] == panes && goesOn[..|panes|] == goesOn;
    }

    /** `cleanup_agent_worktrees`: worktree first, then its branch, agent by agent. */
    method CleanupAgentWorktrees(agents: seq<Agent>, preserve: bool) returns (removed: seq<string>)
      modifies this
      ensures repos == if preserve then old(repos) else CleanAll(old(repos), owner, agents)
      ensures removed == if preserve then [] else RemovedDirs(old(repos), owner, agents)
    {
      removed := [];
      for i := 0 to |agents|
        invariant repos == if preserve then old(repos) else CleanAll(old(repos), owner, agents[..i])
        invariant removed == if preserve then [] else RemovedDirs(old(repos), owner, agents[..i])
      {
        assert agents[..i + 1][..i] == agents[..i];
        if preserve { continue; }
        var a := agents[i];
        var at := FindMarker(a.dir);
        if at == |a.dir| || a.dir[..at] !in owner || owner[a.dir[..at]] !in repos { continue; }
        var o := owner[a.dir[..at]];
        if a.dir in repos[o].worktrees {
          removed := removed + [a.dir];
        }
        repos := repos[o := RemoveWorktree(repos[o], a.dir)];
        repos := repos[o := DeleteBranch(repos[o], a.branch)];
      }
      assert agents[..|agents|] == agents;
    }
  }

  lemma AttemptNext(g: Repo, panes: seq<Window>, goesOn: seq<bool>, i: nat)
    requires i < |panes| == |goesOn|
    ensures AddAll(g, panes[..i + 1])
         == match AddAll(g, panes[..i]) case None => None case Some(h) => AddWorktree(h, panes[i].dir, panes[i].name)
    ensures AddSome(g, panes[..i + 1], goesOn[..i + 1])
         == if Dropped(g, panes, goesOn, i) then AddSome(g, panes[..i], goesOn[..i])
            else match AddWorktree(AddSome(g, panes[..i], goesOn[..i]), panes[i].dir, panes[i].name)
              case None => AddSome(g, panes[..i], goesOn[..i])
              case Some(h) => h
  {
    var p, t := panes[..i + 1], goesOn[..i + 1];
    assert p[..i] == panes[..i] && t[..i] == goesOn[..i] && p[..1] == panes[..1];
    assert p[i] == panes[i] && t[i] == goesOn[i];
  }

  predicate Named(agents: seq<Agent>, p: string) { exists i | 0 <= i < |agents| :: agents[i].dir == p }

  lemma NamedSoFar(agents: seq<Agent>, p: string)
    requires agents != []
    ensures Named(agents, p) <==> Named(agents[..|agents| - 1], p) || agents[|agents| - 1].dir == p
  {
    assert forall i :: 0 <= i < |agents| - 1 ==> agents[..|agents| - 1][i] == agents[i];
  }

  lemma TreeAfterOne(repos: map<nat, Repo>, owner: Owner, a: Agent, p: string)
    ensures TreeAt(CleanOne(repos, owner, a), owner, p) <==> TreeAt(repos, owner, p) && a.dir != p
  {
  }

  lemma {:induction false} TreeAfterAll(repos: map<nat, Repo>, owner: Owner, agents: seq<Agent>, p: string)
    ensures TreeAt(CleanAll(repos, owner, agents), owner, p)
       <==> TreeAt(repos, owner, p) && !Named(agents, p)
  {
    if agents != [] {
      var n := |agents| - 1;
      TreeAfterAll(repos, owner, agents[..n], p);
      TreeAfterOne(CleanAll(repos, owner, agents[..n]), owner, agents[n], p);
      NamedSoFar(agents, p);
    }
  }

  /** What cleanup reports removed is exactly what was a worktree before and some agent's. */
  lemma {:induction false} RemovedExactly(repos: map<nat, Repo>, owner: Owner, agents: seq<Agent>, p: string)
    ensures p in RemovedDirs(repos, owner, agents)
       <==> TreeAt(repos, owner, p) && Named(agents, p)
  {
    if agents != [] {
      var n := |agents| - 1;
      RemovedExactly(repos, owner, agents[..n], p);
      TreeAfterAll(repos, owner, agents[..n], p);
      NamedSoFar(agents, p);
      assert p in RemovedDirs(repos, owner, agents)
        <==> p in RemovedDirs(repos, owner, agents[..n])
             || (agents[n].dir == p && TreeAt(CleanAll(repos, owner, agents[..n]), owner, p));
    }
  }

  // ---------------------------------------------------------------- launch, then stop

  /** `g` with the worktrees of `m`, each on a branch of its own. */
  function With(g: Repo, m: map<string, string>): Repo { Repo(g.worktrees + m, g.branches + m.Values) }

  ghost predicate Fits(g: Repo, m: map<string, string>)
  {
    && ValidRepo(g)
    && (forall p :: p in m ==> p !in g.worktrees && m[p] !in g.branches)
    && (forall p, q :: p in m && q in m && m[p] == m[q] ==> p == q)
  }

  function TreeMap(panes: seq<Window>): map<string, string>
  {
    if panes == [] then map[]
    else TreeMap(panes[..|panes| - 1])[panes[|panes| - 1].dir := panes[|panes| - 1].name]
  }

  lemma AddOneAdds(g: Repo, m: map<string, string>, p: string, b: string)
    requires Fits(g, m) && AddWorktree(With(g, m), p, b).Some?
    ensures Fits(g, m[p := b]) && AddWorktree(With(g, m), p, b).value == With(g, m[p := b])
  {
    var m' := m[p := b];
    assert p !in m && b !in m.Values;
    assert g.worktrees + m' == (g.worktrees + m)[p := b];
    forall v | v in m.Values ensures v in m'.Values {
      var q :| q in m && m[q] == v;
      assert q in m' && m'[q] == v;
    }
    assert p in m' && m'[p] == b;
    assert m'.Values == m.Values + {b};
    assert g.branches + m'.Values == g.branches + m.Values + {b};
  }

  lemma {:induction false} AddAllAdds(g: Repo, panes: seq<Window>)
    requires ValidRepo(g) && AddAll(g, panes).Some?
    ensures Fits(g, TreeMap(panes)) && AddAll(g, panes).value == With(g, TreeMap(panes))
  {
    if panes == [] {
      assert With(g, map[]) == g;
    } else {
      var n := |panes| - 1;
      AddAllAdds(g, panes[..n]);
      AddOneAdds(g, TreeMap(panes[..n]), panes[n].dir, panes[n].name);
    }
  }

  /** Each worktree of `m` is that of one of the panes. */
  ghost predicate OfPanes(m: map<string, string>, panes: seq<Window>)
  {
    forall p :: p in m ==> exists i :: 0 <= i < |panes| && panes[i].dir == p && panes[i].name == m[p]
  }

  lemma OfMorePanes(m: map<string, string>, panes: seq<Window>)
    requires panes != [] && OfPanes(m, panes[..|panes| - 1])
    ensures OfPanes(m, panes) && OfPanes(m[panes[|panes| - 1].dir := panes[|panes| - 1].name], panes)
  {
    var n := |panes| - 1;
    assert forall i :: 0 <= i < n ==> panes[..n][i] == panes[i];
    assert panes[n].dir == panes[n].dir;
  }

  /** Whatever was refused and dropped, a launch only adds worktrees of its own panes, each on
      its own new branch. */
  lemma {:induction false} LeftoversAreOurs(g: Repo, panes: seq<Window>, goesOn: seq<bool>)
    returns (m: map<string, string>)
    requires ValidRepo(g) && |panes| == |goesOn|
    ensures Fits(g, m) && OfPanes(m, panes) && AddSome(g, panes, goesOn) == With(g, m)
  {
    if panes == [] {
      m := map[];
      assert With(g, m) == g;
    } else {
      var n := |panes| - 1;
      m := LeftoversAreOurs(g, panes[..n], goesOn[..n]);
      OfMorePanes(m, panes);
      if !Dropped(g, panes, goesOn, n) && AddWorktree(With(g, m), panes[n].dir, panes[n].name).Some? {
        AddOneAdds(g, m, panes[n].dir, panes[n].name);
        m := m[panes[n].dir := panes[n].name];
      }
    }
  }

  /** Cleaning one of the added worktrees takes it away and nothing else. */
  lemma CleanTakesAway(g: Repo, m: map<string, string>, p: string)
    requires Fits(g, m) && p in m
    ensures CleanRepo(With(g, m), p, m[p]) == With(g, m - {p}) && Fits(g, m - {p})
  {
    var h := RemoveWorktree(With(g, m), p);
    assert h.worktrees == g.worktrees + (m - {p});
    forall q | q in h.worktrees ensures h.worktrees[q] != m[p] {
      if q in m - {p} { assert m[q] != m[p]; }
      else { assert h.worktrees[q] == g.worktrees[q]; assert g.worktrees[q] in g.worktrees.Values; }
    }
    assert m[p] !in h.worktrees.Values;
    assert m.Values - {m[p]} == (m - {p}).Values by {
      forall v | v in m.Values - {m[p]} ensures v in (m - {p}).Values {
        var q :| q in m && m[q] == v;
        assert q in m - {p};
      }
      forall q | q in m - {p} ensures m[q] != m[p] && m[q] in m.Values { }
    }
    assert g.branches + m.Values - {m[p]} == g.branches + (m - {p}).Values;
  }

  lemma CleanAgainDoesNothing(g: Repo, m: map<string, string>, p: string, b: string)
    requires p !in With(g, m).worktrees && b !in With(g, m).branches
    ensures CleanRepo(With(g, m), p, b) == With(g, m)
  {
    assert With(g, m).worktrees - {p} == With(g, m).worktrees;
    assert With(g, m).branches - {b} == With(g, m).branches;
  }

  /** Directory git is run from when an agent of a launch from `repo` is cleaned up. */
  function CleanupRoot(repo: string): string { (repo + MARKER)[..FindMarker(repo + MARKER)] }

  /** The path lies under the worktree directory of the checkout. */
  predicate Under(repo: string, path: string) { repo + MARKER <= path }

  lemma CleanupRootOf(repo: string, path: string)
    requires Under(repo, path)
    ensures FindMarker(path) < |path| && path[..FindMarker(path)] == CleanupRoot(repo)
  {
    var s := repo + MARKER;
    var i, j := FindMarker(s), FindMarker(path);
    assert s[|repo|..|repo| + |MARKER|] == MARKER;
    assert OccursAt(s, MARKER, |repo|) && i <= |repo|;
    assert path[..|s|] == s;
    assert path[i..i + |MARKER|] == s[i..i + |MARKER|];
    assert OccursAt(path, MARKER, i) && j <= i;
    assert path[j..j + |MARKER|] == s[j..j + |MARKER|];
    assert OccursAt(s, MARKER, j);
    assert path[..i] == s[..i];
  }

  /** The agent's row names one of the added worktrees and its branch. */
  predicate Ours(a: Agent, m: map<string, string>, repo: string)
  {
    a.dir in m && m[a.dir] == a.branch && Under(repo, a.dir)
  }

  /** The agents registered for a launch: one for every pane, in any order. */
  ghost predicate Registered(agents: seq<Agent>, m: map<string, string>, repo: string)
  {
    && (forall i :: 0 <= i < |agents| ==> Ours(agents[i], m, repo))
    && (forall p :: p in m ==> p in Dirs(agents))
  }

  function Dirs(agents: seq<Agent>): set<string>
  {
    if agents == [] then {} else Dirs(agents[..|agents| - 1]) + {agents[|agents| - 1].dir}
  }

  /** Cleanup seen from the one repository it works on. */
  function CleanRepoAll(g: Repo, agents: seq<Agent>): Repo
  {
    if agents == [] then g
    else
      var a := agents[|agents| - 1];
      CleanRepo(CleanRepoAll(g, agents[..|agents| - 1]), a.dir, a.branch)
  }

  lemma {:induction false} CleanAllIsLocal(repos: map<nat, Repo>, owner: Owner, repo: string, agents: seq<Agent>,
                                           o: nat)
    requires CleanupRoot(repo) in owner && owner[CleanupRoot(repo)] == o && o in repos
    requires forall i :: 0 <= i < |agents| ==> Under(repo, agents[i].dir)
    ensures CleanAll(repos, owner, agents) == repos[o := CleanRepoAll(repos[o], agents)]
  {
    if agents == [] {
      assert repos[o := repos[o]] == repos;
    } else {
      var n := |agents| - 1;
      var a := agents[n];
      CleanAllIsLocal(repos, owner, repo, agents[..n], o);
      CleanupRootOf(repo, a.dir);
      var h := CleanRepoAll(repos[o], agents[..n]);
      assert repos[o := h][o := CleanRepo(h, a.dir, a.branch)] == repos[o := CleanRepo(h, a.dir, a.branch)];
    }
  }

  /** Cleaning up after one agent takes its worktree and branch away, or does nothing when
      they are gone already. */
  lemma CleanOneTakesAway(g: Repo, m: map<string, string>, left: map<string, string>, p: string)
    requires Fits(g, m) && Fits(g, left) && p in m
    requires forall q :: q in left ==> q in m && left[q] == m[q]
    ensures Fits(g, left - {p}) && CleanRepo(With(g, left), p, m[p]) == With(g, left - {p})
  {
    if p in left {
      CleanTakesAway(g, left, p);
    } else {
      assert left - {p} == left;
      CleanAgainDoesNothing(g, left, p, m[p]);
    }
  }

  lemma {:induction false} CleanRepoAllTakesAway(g: Repo, m: map<string, string>, agents: seq<Agent>)
    requires Fits(g, m)
    requires forall i :: 0 <= i < |agents| ==> agents[i].dir in m && m[agents[i].dir] == agents[i].branch
    ensures Fits(g, m - Dirs(agents)) && CleanRepoAll(With(g, m), agents) == With(g, m - Dirs(agents))
  {
    if agents == [] {
      assert m - Dirs(agents) == m;
    } else {
      var n := |agents| - 1;
      CleanRepoAllTakesAway(g, m, agents[..n]);
      CleanOneTakesAway(g, m, m - Dirs(agents[..n]), agents[n].dir);
      MinusMore(m, Dirs(agents[..n]), agents[n].dir);
    }
  }

  lemma MinusMore(m: map<string, string>, d: set<string>, p: string)
    ensures m - (d + {p}) == m - d - {p}
  {
  }

  /** Every repository is as it was before the launch. */
  predicate Restored(repos: map<nat, Repo>, owner: Owner, repo: string, panes: seq<Window>, agents: seq<Agent>)
    requires repo in owner && owner[repo] in repos && AddAll(repos[owner[repo]], panes).Some?
  {
    CleanAll(repos[owner[repo] := AddAll(repos[owner[repo]], panes).value], owner, agents) == repos
  }

  lemma CleanupFromOwnRepoRestores(repos: map<nat, Repo>, owner: Owner, repo: string, panes: seq<Window>,
                                   agents: seq<Agent>)
    requires repo in owner && owner[repo] in repos && ValidRepo(repos[owner[repo]])
    requires AddAll(repos[owner[repo]], panes).Some?
    requires Registered(agents, TreeMap(panes), repo)
    requires CleanupRoot(repo) in owner && owner[CleanupRoot(repo)] == owner[repo]
    ensures Restored(repos, owner, repo, panes, agents)
  {
    var o := owner[repo];
    var g, m := repos[o], TreeMap(panes);
    AddAllAdds(g, panes);
    CleanAllIsLocal(repos[o := With(g, m)], owner, repo, agents, o);
    CleanRepoAllTakesAway(g, m, agents);
    WithNothingLeft(g, m, Dirs(agents));
    OverwriteBack(repos, o, With(g, m));
  }

  lemma WithNothingLeft(g: Repo, m: map<string, string>, d: set<string>)
    requires forall p :: p in m ==> p in d
    ensures With(g, m - d) == g
  {
    assert m - d == map[];
    assert g.worktrees + (m - d) == g.worktrees && g.branches + (m - d).Values == g.branches;
  }

  lemma OverwriteBack(repos: map<nat, Repo>, o: nat, x: Repo)
    requires o in repos
    ensures repos[o := x][o := repos[o]] == repos
  {
  }

  lemma CleanupFromElsewhereDoesNot(repos: map<nat, Repo>, owner: Owner, repo: string, panes: seq<Window>,
                                    agents: seq<Agent>)
    requires repo in owner && owner[repo] in repos && ValidRepo(repos[owner[repo]])
    requires panes != [] && AddAll(repos[owner[repo]], panes).Some?
    requires Registered(agents, TreeMap(panes), repo)
    requires !(CleanupRoot(repo) in owner && owner[CleanupRoot(repo)] == owner[repo])
    ensures !Restored(repos, owner, repo, panes, agents)
  {
    var o := owner[repo];
    var g, m := repos[o], TreeMap(panes);
    AddAllAdds(g, panes);
    var launched := repos[o := With(g, m)];
    OthersUntouched(launched, owner, repo, agents, m);
    var p := panes[|panes| - 1].dir;
    assert p in m && p in launched[o].worktrees && p !in g.worktrees;
  }

  /** Launch then stop restores every repository's worktrees and branches exactly when the
      directory cleanup runs git from belongs to the launched repository. */
  lemma LaunchThenStopIsIdentity(repos: map<nat, Repo>, owner: Owner, repo: string, panes: seq<Window>,
                                 agents: seq<Agent>)
    requires repo in owner && owner[repo] in repos && ValidRepo(repos[owner[repo]])
    requires panes != [] && AddAll(repos[owner[repo]], panes).Some?
    requires Registered(agents, TreeMap(panes), repo)
    ensures Restored(repos, owner, repo, panes, agents)
       <==> CleanupRoot(repo) in owner && owner[CleanupRoot(repo)] == owner[repo]
  {
    if CleanupRoot(repo) in owner && owner[CleanupRoot(repo)] == owner[repo] {
      CleanupFromOwnRepoRestores(repos, owner, repo, panes, agents);
    } else {
      CleanupFromElsewhereDoesNot(repos, owner, repo, panes, agents);
    }
  }

  lemma {:induction false} OthersUntouched(repos: map<nat, Repo>, owner: Owner, repo: string, agents: seq<Agent>,
                                           m: map<string, string>)
    requires repo in owner && owner[repo] in repos
    requires !(CleanupRoot(repo) in owner && owner[CleanupRoot(repo)] == owner[repo])
    requires forall i :: 0 <= i < |agents| ==> Ours(agents[i], m, repo)
    ensures owner[repo] in CleanAll(repos, owner, agents) && CleanAll(repos, owner, agents)[owner[repo]]
         == repos[owner[repo]]
  {
    if agents != [] {
      var n := |agents| - 1;
      OthersUntouched(repos, owner, repo, agents[..n], m);
      CleanupRootOf(repo, agents[n].dir);
    }
  }

  /** Git is run from the checkout itself exactly when no earlier marker lies on its path. */
  lemma OrdinaryCheckoutQualifies(repo: string)
    ensures CleanupRoot(repo) == repo <==> !exists i: nat :: i < |repo| && OccursAt(repo + MARKER, MARKER, i)
  {
    var s := repo + MARKER;
    assert s[|repo|..|repo| + |MARKER|] == MARKER;
    assert OccursAt(s, MARKER, |repo|);
    assert s[..|repo|] == repo;
    assert |CleanupRoot(repo)| == FindMarker(s) <= |repo|;
  }

  /** The order matters: deleting the branch first is refused and the branch stays. */
  lemma BranchFirstLeavesTheBranch(g: Repo, m: map<string, string>, p: string)
    requires Fits(g, m) && p in m
    ensures m[p] in RemoveWorktree(DeleteBranch(With(g, m), m[p]), p).branches
  {
    assert With(g, m).worktrees[p] == m[p];
    assert m[p] in m.Values;
  }

  // ---------------------------------------------------------------- when a launch succeeds

  lemma PaneNamesDiffer(name: string, t1: string, t2: string, number: nat)
    requires t1 != t2
    ensures PaneName(name, t1, number) != PaneName(name, t2, number)
    ensures PaneName(name, t1, number) != SessionId(name, number)
  {
    var d := Dec(number);
    var a, b := PaneName(name, t1, number), PaneName(name, t2, number);
    assert a == (name + "-") + t1 + ("-" + d) && b == (name + "-") + t2 + ("-" + d);
    assert a[|name| + 1..|a| - 1 - |d|] == t1;
    assert b[|name| + 1..|b| - 1 - |d|] == t2;
    assert |a| == |SessionId(name, number)| + |t1| + 1;
  }

  lemma PanesAreDistinct(repo: string, name: string, number: nat)
    ensures var p := Panes(repo, name, number);
            forall i, j :: 0 <= i < j < |p| ==> p[i].name != p[j].name && p[i].dir != p[j].dir
    ensures forall i :: 0 <= i < |Panes(repo, name, number)| ==>
              Panes(repo, name, number)[i].dir
                  == WorktreeRoot(repo, SessionId(name, number)) + "/" + Panes(repo, name, number)[i].name
  {
    var p := Panes(repo, name, number);
    var root := WorktreeRoot(repo, SessionId(name, number)) + "/";
    forall i, j | 0 <= i < j < |p| ensures p[i].name != p[j].name && p[i].dir != p[j].dir {
      assert GRID[i] != GRID[j];
      PaneNamesDiffer(name, GRID[i], GRID[j], number);
      PaneNamesDiffer(name, GRID[j], GRID[i], number);
      assert p[i].dir == root + p[i].name && p[j].dir == root + p[j].name;
      assert p[i].dir[|root|..] == p[i].name && p[j].dir[|root|..] == p[j].name;
    }
  }

  function Names(panes: seq<Window>): set<string>
  {
    if panes == [] then {} else Names(panes[..|panes| - 1]) + {panes[|panes| - 1].name}
  }

  function Paths(panes: seq<Window>): set<string>
  {
    if panes == [] then {} else Paths(panes[..|panes| - 1]) + {panes[|panes| - 1].dir}
  }

  lemma {:induction false} NamesExact(panes: seq<Window>, x: string)
    ensures x in Names(panes) <==> exists i :: 0 <= i < |panes| && panes[i].name == x
    ensures x in Paths(panes) <==> exists i :: 0 <= i < |panes| && panes[i].dir == x
  {
    if panes != [] {
      var n := |panes| - 1;
      NamesExact(panes[..n], x);
      assert forall i :: 0 <= i < n ==> panes[..n][i] == panes[i];
    }
  }

  lemma {:induction false} AddAllResult(g: Repo, panes: seq<Window>)
    ensures AddAll(g, panes).Some? ==>
              && AddAll(g, panes).value.branches == g.branches + Names(panes)
              && AddAll(g, panes).value.worktrees.Keys == g.worktrees.Keys + Paths(panes)
  {
    if panes != [] { AddAllResult(g, panes[..|panes| - 1]); }
  }

  lemma {:induction false} AddAllSucceeds(g: Repo, panes: seq<Window>)
    requires forall i, j :: 0 <= i < j < |panes| ==> panes[i].name != panes[j].name && panes[i].dir != panes[j].dir
    ensures AddAll(g, panes).Some? <==> Names(panes) !! g.branches && Paths(panes) !! g.worktrees.Keys
  {
    if panes != [] {
      var n := |panes| - 1;
      var before := panes[..n];
      assert forall i :: 0 <= i < n ==> before[i] == panes[i];
      AddAllSucceeds(g, before);
      AddAllResult(g, before);
      NamesExact(before, panes[n].name);
      NamesExact(before, panes[n].dir);
    }
  }

  /** A launch succeeds in git iff none of the nine branches exists and none of the nine
      paths is a worktree already. */
  lemma LaunchSucceedsExactly(g: Repo, repo: string, name: string, number: nat)
    ensures var p := Panes(repo, name, number);
            AddAll(g, p).Some? <==> Names(p) !! g.branches && Paths(p) !! g.worktrees.Keys
  {
    PanesAreDistinct(repo, name, number);
    AddAllSucceeds(g, Panes(repo, name, number));
  }

  // ---------------------------------------------------------------- registration

  /** A launch of the whole grid, or of the orchestrator pane alone. */
  datatype LaunchCall = LaunchCall(
    repo: string, name: string, number: nat, solo: bool, ids: seq<string>, iterms: seq<string>, now: nat)

  function PaneCount(c: LaunchCall): (n: nat)
    ensures 1 <= n <= |GRID| - 1
  {
    if c.solo then 1 else |GRID| - 1
  }

  /** The panes of this launch that get a worktree and an agent row. */
  function LaunchedPanes(c: LaunchCall): seq<Window> { Panes(c.repo, c.name, c.number)[..PaneCount(c)] }

  predicate WellFormed(c: LaunchCall)
  {
    |c.ids| == PaneCount(c) && |c.iterms| == PaneCount(c) && c.number <= U32_MAX
  }

  function SessionOf(c: LaunchCall): string { SessionId(c.name, c.number) }

  function AgentRow(c: LaunchCall, i: nat): Agent
    requires WellFormed(c) && i < PaneCount(c)
  {
    var w := LaunchedPanes(c)[i];
    Agent(c.ids[i], SessionOf(c), w.role, w.dir, w.name, Idle, Some(c.now), false, None, None, None)
  }

  function InsertAgents(agents: seq<Agent>, c: LaunchCall, n: nat): seq<Agent>
    requires WellFormed(c) && n <= PaneCount(c)
  {
    if n == 0 then agents else InsertAgent(InsertAgents(agents, c, n - 1), AgentRow(c, n - 1))
  }

  function Without(targets: seq<Target>, agent: string): seq<Target>
  {
    if targets == [] then []
    else (if targets[0].agent == agent then [] else [targets[0]]) + Without(targets[1..], agent)
  }

  /** `INSERT OR REPLACE INTO terminal_targets`, for the first `n` panes. */
  function InsertTargets(targets: seq<Target>, c: LaunchCall, n: nat): seq<Target>
    requires WellFormed(c) && n <= PaneCount(c)
  {
    if n == 0 then targets
    else Without(InsertTargets(targets, c, n - 1), c.ids[n - 1])
         + [Target(c.ids[n - 1], c.iterms[n - 1], Some(c.iterms[n - 1]), Ready, Some(c.now))]
  }

  predicate SessionExists(sessions: seq<Session>, id: string)
  {
    exists i | 0 <= i < |sessions| :: sessions[i].id == id
  }

  /** The database half of a launch: the session insert fails on a taken id. */
  function Register(db: Store, c: LaunchCall): Store
    requires WellFormed(c)
  {
    if SessionExists(db.sessions, SessionOf(c)) then db
    else db.(sessions := db.sessions + [Session(SessionOf(c), c.name, c.number, Active, c.now)],
             agents := InsertAgents(db.agents, c, PaneCount(c)),
             targets := InsertTargets(db.targets, c, PaneCount(c)))
  }

  /** A launch error seen in a pane marks the role's agent failed. */
  function LaunchError(db: Store, session: string, role: string, now: nat): Store
  {
    var i := RowFor(db.agents, session, role);
    if i == |db.agents| then db
    else db.(agents := PatchAgents(db.agents, db.agents[i].id, SetStatus(Failed, now)))
  }

  /** `get_agents_for_session`. */
  function SessionAgents(agents: seq<Agent>, session: string): seq<Agent>
  {
    if agents == [] then []
    else
      var n := |agents| - 1;
      SessionAgents(agents[..n], session) + if agents[n].session == session then [agents[n]] else []
  }

  predicate LeasedTo(l: Lease, agents: seq<Agent>) { exists i | 0 <= i < |agents| :: agents[i].id == l.agent }

  function RemoveLeases(leases: seq<Lease>, agents: seq<Agent>): seq<Lease>
  {
    if leases == [] then []
    else
      var n := |leases| - 1;
      RemoveLeases(leases[..n], agents) + if LeasedTo(leases[n], agents) then [] else [leases[n]]
  }

  /** The database half of `stop_session`. */
  function StopSession(db: Store, session: string): Store
  {
    if !SessionExists(db.sessions, session) then db
    else db.(sessions := SetSessionStatus(db.sessions, session, Stopped),
             leases := RemoveLeases(db.leases, SessionAgents(db.agents, session)))
  }

  /** The rows a launch registers, in pane order. */
  function Rows(c: LaunchCall, n: nat): (r: seq<Agent>)
    requires WellFormed(c) && n <= PaneCount(c)
    ensures |r| == n && forall i :: 0 <= i < n ==> r[i] == AgentRow(c, i)
  {
    if n == 0 then [] else Rows(c, n - 1) + [AgentRow(c, n - 1)]
  }

  /** No agent of the session exists yet and the generated ids are new. */
  predicate Unregistered(agents: seq<Agent>, c: LaunchCall)
  {
    && (forall i :: 0 <= i < |agents| ==> agents[i].session != SessionOf(c) && agents[i].id !in c.ids)
    && (forall i, j :: 0 <= i < j < |c.ids| ==> c.ids[i] != c.ids[j])
  }

  lemma RolesDiffer(c: LaunchCall, i: nat, j: nat)
    requires WellFormed(c) && i < j < PaneCount(c)
    ensures AgentRow(c, i).role != AgentRow(c, j).role
  {
    assert AgentRow(c, i).role == if i == 0 then "orchestrator" else GRID[i];
    assert AgentRow(c, j).role == GRID[j];
    assert |GRID[j]| < 4;
    assert GRID[i] != GRID[j];
  }

  lemma InsertNew(agents: seq<Agent>, a: Agent)
    requires forall i :: 0 <= i < |agents| ==> agents[i].id != a.id && !Holds(agents[i], a.session, a.role)
    ensures InsertAgent(agents, a) == agents + [a]
  {
  }

  lemma NoPaneInTheWay(agents: seq<Agent>, c: LaunchCall, n: nat)
    requires WellFormed(c) && n < PaneCount(c) && Unregistered(agents, c)
    ensures var r, a := agents + Rows(c, n), AgentRow(c, n);
            forall i :: 0 <= i < |r| ==> r[i].id != a.id && !Holds(r[i], a.session, a.role)
  {
    var rows, a := Rows(c, n), AgentRow(c, n);
    assert a.id in c.ids;
    forall i | 0 <= i < n ensures rows[i].id != a.id && rows[i].role != a.role { RolesDiffer(c, i, n); }
    var r := agents + rows;
    forall i | 0 <= i < |r| ensures r[i].id != a.id && !Holds(r[i], a.session, a.role) {
      if i >= |agents| { assert r[i] == rows[i - |agents|]; }
    }
  }

  lemma {:induction false} EveryPaneRegistered(agents: seq<Agent>, c: LaunchCall, n: nat)
    requires WellFormed(c) && n <= PaneCount(c) && Unregistered(agents, c)
    ensures InsertAgents(agents, c, n) == agents + Rows(c, n)
  {
    if n > 0 {
      EveryPaneRegistered(agents, c, n - 1);
      NoPaneInTheWay(agents, c, n - 1);
      InsertNew(agents + Rows(c, n - 1), AgentRow(c, n - 1));
    }
  }

  lemma SessionAgentsNext(agents: seq<Agent>, a: Agent, session: string)
    ensures SessionAgents(agents + [a], session)
         == SessionAgents(agents, session) + if a.session == session then [a] else []
  {
    assert (agents + [a])[..|agents|] == agents;
  }

  lemma {:induction false} NoSessionAgents(agents: seq<Agent>, session: string)
    requires forall i :: 0 <= i < |agents| ==> agents[i].session != session
    ensures SessionAgents(agents, session) == []
  {
    if agents != [] { NoSessionAgents(agents[..|agents| - 1], session); }
  }

  lemma {:induction false} SessionAgentsAppend(a: seq<Agent>, b: seq<Agent>, session: string)
    requires forall i :: 0 <= i < |a| ==> a[i].session != session
    requires forall i :: 0 <= i < |b| ==> b[i].session == session
    ensures SessionAgents(a + b, session) == b
  {
    if b == [] {
      NoSessionAgents(a, session);
      assert a + b == a;
    } else {
      var init, last := b[..|b| - 1], b[|b| - 1];
      SessionAgentsAppend(a, init, session);
      SessionAgentsNext(a + init, last, session);
      assert a + b == (a + init) + [last] && b == init + [last];
    }
  }

  lemma {:induction false} TreeMapAt(panes: seq<Window>, i: nat)
    requires i < |panes|
    requires forall j, k :: 0 <= j < k < |panes| ==> panes[j].dir != panes[k].dir
    ensures panes[i].dir in TreeMap(panes) && TreeMap(panes)[panes[i].dir] == panes[i].name
  {
    var n := |panes| - 1;
    if i < n {
      assert panes[..n][i] == panes[i];
      TreeMapAt(panes[..n], i);
    }
  }

  lemma {:induction false} TreeMapKeys(panes: seq<Window>, p: string)
    ensures p in TreeMap(panes) ==> exists i :: 0 <= i < |panes| && panes[i].dir == p
  {
    if panes != [] {
      var n := |panes| - 1;
      TreeMapKeys(panes[..n], p);
      assert forall i :: 0 <= i < n ==> panes[..n][i] == panes[i];
    }
  }

  lemma {:induction false} DirsExact(agents: seq<Agent>, i: nat)
    requires i < |agents|
    ensures agents[i].dir in Dirs(agents)
  {
    var n := |agents| - 1;
    if i < n {
      assert agents[..n][i] == agents[i];
      DirsExact(agents[..n], i);
    }
  }

  /** Registration hands stopwork one agent row for each created worktree. */
  lemma RowsAreRegistered(c: LaunchCall)
    requires WellFormed(c)
    ensures Registered(Rows(c, PaneCount(c)), TreeMap(LaunchedPanes(c)), c.repo)
  {
    var panes, rows := LaunchedPanes(c), Rows(c, PaneCount(c));
    PanesAreDistinct(c.repo, c.name, c.number);
    forall i | 0 <= i < |rows| ensures Ours(rows[i], TreeMap(panes), c.repo) {
      TreeMapAt(panes, i);
      assert panes[i].dir == c.repo + MARKER + (SessionOf(c) + "/" + panes[i].name);
    }
    forall p | p in TreeMap(panes) ensures p in Dirs(rows) {
      TreeMapKeys(panes, p);
      var i :| 0 <= i < |panes| && panes[i].dir == p;
      DirsExact(rows, i);
    }
  }

  /** End to end: launch (worktrees, then rows), later stop (rows read back, then cleanup).
      Git is as before the launch iff the cleanup directory belongs to the launched repository. */
  lemma StopUndoesLaunch(db: Store, c: LaunchCall, repos: map<nat, Repo>, owner: Owner)
    requires WellFormed(c) && Unregistered(db.agents, c) && !SessionExists(db.sessions, SessionOf(c))
    requires c.repo in owner && owner[c.repo] in repos && ValidRepo(repos[owner[c.repo]])
    requires AddAll(repos[owner[c.repo]], LaunchedPanes(c)).Some?
    ensures Restored(repos, owner, c.repo, LaunchedPanes(c), SessionAgents(Register(db, c).agents, SessionOf(c)))
       <==> CleanupRoot(c.repo) in owner && owner[CleanupRoot(c.repo)] == owner[c.repo]
  {
    var rows := Rows(c, PaneCount(c));
    EveryPaneRegistered(db.agents, c, PaneCount(c));
    SessionAgentsAppend(db.agents, rows, SessionOf(c));
    RowsAreRegistered(c);
    LaunchThenStopIsIdentity(repos, owner, c.repo, LaunchedPanes(c), rows);
  }

  lemma CleanupRootBelow(outer: string, below: string)
    ensures CleanupRoot(outer + MARKER + below) == CleanupRoot(outer)
  {
    var repo := outer + MARKER + below;
    assert repo + MARKER == outer + MARKER + (below + MARKER);
    CleanupRootOf(outer, repo + MARKER);
  }

  lemma EmptyRepoAccepts(c: LaunchCall)
    requires WellFormed(c)
    ensures AddAll(Repo(map[], {}), LaunchedPanes(c)).Some?
  {
    PanesAreDistinct(c.repo, c.name, c.number);
    AddAllSucceeds(Repo(map[], {}), LaunchedPanes(c));
  }

  /** A checkout below another one's worktree directory, a submodule of a worktree say, fails
      the condition: cleanup runs git in the outer repository and the launch stays. */
  lemma SubmoduleLaunchStays(outer: string, below: string, c: LaunchCall)
    requires WellFormed(c) && c.repo == outer + MARKER + below && CleanupRoot(outer) == outer
    ensures var repos := map[0 := Repo(map[], {}), 1 := Repo(map[], {})];
            var owner := map[outer := 1, c.repo := 0];
            && AddAll(repos[0], LaunchedPanes(c)).Some?
            && !Restored(repos, owner, c.repo, LaunchedPanes(c), Rows(c, PaneCount(c)))
  {
    var repos := map[0 := Repo(map[], {}), 1 := Repo(map[], {})];
    var owner := map[outer := 1, c.repo := 0];
    var panes := LaunchedPanes(c);
    CleanupRootBelow(outer, below);
    assert |outer| < |c.repo|;
    EmptyRepoAccepts(c);
    RowsAreRegistered(c);
    LaunchThenStopIsIdentity(repos, owner, c.repo, panes, Rows(c, PaneCount(c)));
  }
}
