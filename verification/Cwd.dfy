/** `detect_session_from_cwd`: find the session whose worktree the caller stands in. */
module Cwd {
  import opened Base

  /** One path component; file names need not be UTF-8. */
  datatype Component = Utf8(name: string) | NonUtf8(raw: seq<nat>)

  /** An absolute path is the list of its components; `/` is the empty list. */
  type Path = seq<Component>

  predicate IsMarker(c: Component) { c == Utf8(".claude") || c == Utf8(".codex") }

  /** `cwd[..i + 1]` ends in `.claude/worktrees` or `.codex/worktrees` and has a child. */
  predicate PairAt(cwd: Path, i: nat)
  {
    1 <= i && i + 1 < |cwd| && cwd[i] == Utf8("worktrees") && IsMarker(cwd[i - 1])
  }

  /** `s` is the component after the innermost pair that has a child, and every component
      below that pair is UTF-8. */
  ghost predicate IsSessionOf(cwd: Path, s: string)
  {
    exists i: nat ::
      && PairAt(cwd, i)
      && cwd[i + 1] == Utf8(s)
      && (forall j: nat :: PairAt(cwd, j) ==> j <= i)
      && (forall j :: i <= j < |cwd| ==> cwd[j].Utf8?)
  }

  /** The two nested climbs. `n` and `m` are lengths of prefixes of `cwd`: the paths
      `current` and `p` of the source, whose parents are one shorter. */
  method DetectSessionFromCwd(cwd: Path) returns (session: Option<string>)
    ensures forall s :: session == Some(s) <==> IsSessionOf(cwd, s)
  {
    var n := |cwd|;
    while n > 0
      invariant 0 <= n <= |cwd|
      invariant forall j: nat :: n <= j ==> !PairAt(cwd, j)
      invariant forall j :: n <= j < |cwd| ==> cwd[j].Utf8?
    {
      if cwd[n - 1].NonUtf8? {
        return None;
      }
      if cwd[n - 1] == Utf8("worktrees") {
        if n == 1 || cwd[n - 2].NonUtf8? {
          return None;
        }
        if IsMarker(cwd[n - 2]) {
          var m := |cwd|;
          while m > 0
            invariant 0 <= m <= |cwd|
            invariant n < |cwd| ==> n < m
          {
            if m - 1 == n {
              assert PairAt(cwd, n - 1);
              return Some(cwd[n].name);
            }
            m := m - 1;
          }
        }
      }
      n := n - 1;
    }
    session := None;
  }

  /** From a directory inside a launched worktree `{repo}/.claude/worktrees/{id}/{below}`
      the session found is `id` unless a further pair with a child lies deeper down, and
      then it is the name after the innermost such pair. */
  lemma LaunchedWorktreeIsFound(repo: Path, id: string, below: Path)
    requires forall c :: c in below ==> c.Utf8?
    ensures var at := repo + [Utf8(".claude"), Utf8("worktrees"), Utf8(id)] + below;
            forall k: nat | PairAt(at, k) && (forall j: nat :: PairAt(at, j) ==> j <= k) ::
              && k >= |repo| + 1
              && at[k + 1].Utf8? && IsSessionOf(at, at[k + 1].name)
              && (k == |repo| + 1 ==> IsSessionOf(at, id))
    ensures var at := repo + [Utf8(".claude"), Utf8("worktrees"), Utf8(id)] + below;
            PairAt(at, |repo| + 1)
  {
    var at := repo + [Utf8(".claude"), Utf8("worktrees"), Utf8(id)] + below;
    var i := |repo| + 1;
    assert PairAt(at, i) && at[i + 1] == Utf8(id);
    forall j | i <= j < |at| ensures at[j].Utf8? {
      if j > i + 1 {
        assert at[j] == below[j - i - 2];
        assert at[j] in below;
      }
    }
  }

  // ---------------------------------------------------------------- which session to stop

  datatype Choice = Chosen(session: string) | Ask | NothingActive

  /** Argument, then environment, then the working directory, then the only active session. */
  function ResolveSessionForStopwork(arg: Option<string>, env: Option<string>, cwd: Option<string>,
                                     active: seq<string>): Choice
  {
    if arg.Some? then Chosen(arg.value)
    else if env.Some? then Chosen(env.value)
    else if cwd.Some? then Chosen(cwd.value)
    else if |active| == 0 then NothingActive
    else if |active| == 1 then Chosen(active[0])
    else Ask
  }

  /** The argument goes before the environment, that before the working directory, and only
      without all three does the list of active sessions count. */
  lemma StopworkPriority(a: string, arg: Option<string>, env: Option<string>, cwd: Option<string>, active: seq<string>)
    ensures ResolveSessionForStopwork(Some(a), env, cwd, active) == Chosen(a)
    ensures ResolveSessionForStopwork(None, Some(a), cwd, active) == Chosen(a)
    ensures ResolveSessionForStopwork(None, None, Some(a), active) == Chosen(a)
    ensures ResolveSessionForStopwork(None, None, None, active) == Chosen(a) <==> active == [a]
    ensures ResolveSessionForStopwork(arg, env, cwd, active) == Ask
       <==> arg.None? && env.None? && cwd.None? && |active| > 1
    ensures ResolveSessionForStopwork(arg, env, cwd, active) == NothingActive
       <==> arg.None? && env.None? && cwd.None? && active == []
  {
  }

  /** Run without argument or environment from inside a launched worktree, stopwork picks that
      worktree's session however many are active, when no such pair lies deeper down. */
  method StopworkFromWorktree(repo: Path, id: string, below: Path, active: seq<string>) returns (choice: Choice)
    requires forall c :: c in below ==> c.Utf8?
    requires forall j: nat :: PairAt(repo + [Utf8(".claude"), Utf8("worktrees"), Utf8(id)] + below, j) ==>
              j <= |repo| + 1
    ensures choice == Chosen(id)
  {
    var at := repo + [Utf8(".claude"), Utf8("worktrees"), Utf8(id)] + below;
    var found := DetectSessionFromCwd(at);
    LaunchedWorktreeIsFound(repo, id, below);
    assert PairAt(at, |repo| + 1);
    assert IsSessionOf(at, id);
    choice := ResolveSessionForStopwork(None, None, found, active);
  }
}
