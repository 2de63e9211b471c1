/** The string codecs that carry state between steps: auto-fix task ids and
    workspace session ids. */
module Codecs {
  import opened Base

  // ---------------------------------------------------------------- auto-fix task ids

  const AUTO_FIX: string := "auto-fix-"

  /** Integer text as `format!` prints an `i64`. */
  function IntText(m: int): string { if m < 0 then "-" + Dec(-m) else Dec(m) }

  /** Task id of the repair task spawned for a blocked `task` at `millis`. */
  function AutoFixId(task: string, millis: int): string
  {
    AUTO_FIX + task + "-" + IntText(millis)
  }

  /** Parent task named by a completed task id, if it is an auto-fix id. */
  function AutoFixParent(id: string): Option<string>
  {
    if !StartsWith(id, AUTO_FIX) then None
    else
      var stripped := id[|AUTO_FIX|..];
      var i := LastIndex(stripped, '-');
      if i <= 0 then None else Some(stripped[..i])
  }

  lemma IntTextDash(m: int)
    ensures '-' in IntText(m) <==> m < 0
    ensures m < 0 ==> LastIndex(IntText(m), '-') == 0
  {
    DecVal(if m < 0 then -m else m);
    if m < 0 {
      assert IntText(m) == [] + ['-'] + Dec(-m);
      LastIndexOfJoin([], '-', Dec(-m));
    }
  }

  lemma StripPrefix(rest: string)
    ensures StartsWith(AUTO_FIX + rest, AUTO_FIX) && (AUTO_FIX + rest)[|AUTO_FIX|..] == rest
  {
  }

  /** Splitting `parent-rest` at the last dash, when `rest` has none. */
  lemma ParentOfJoin(parent: string, rest: string)
    requires '-' !in rest
    ensures AutoFixParent(AUTO_FIX + (parent + "-" + rest)) == if parent == [] then None else Some(parent)
  {
    var stripped := parent + "-" + rest;
    StripPrefix(stripped);
    LastIndexOfJoin(parent, '-', rest);
    assert stripped[..|parent|] == parent;
  }

  /** `id` is the repair task of a non-empty `parent`, with no dash after it. */
  ghost predicate RepairIdOf(id: string, parent: string)
  {
    parent != [] && exists rest :: '-' !in rest && id == AUTO_FIX + (parent + "-" + rest)
  }

  /** Which task ids resume which parent: exactly `auto-fix-{parent}-{rest}` with a
      non-empty parent and no dash in the rest. */
  lemma AutoFixParentExact(id: string, parent: string)
    ensures AutoFixParent(id) == Some(parent) <==> RepairIdOf(id, parent)
  {
    if AutoFixParent(id) == Some(parent) {
      var stripped := id[|AUTO_FIX|..];
      var i := LastIndex(stripped, '-');
      var rest := stripped[i + 1..];
      assert stripped == parent + "-" + rest;
      assert id == AUTO_FIX + stripped;
    }
    if RepairIdOf(id, parent) {
      var rest :| '-' !in rest && id == AUTO_FIX + (parent + "-" + rest);
      ParentOfJoin(parent, rest);
    }
  }

  lemma Regroup(p: string, a: string, b: string, c: string)
    ensures p + a + b + c == p + (a + b + c)
  {
  }

  /** Round trip, with its exact domain: dashes and nested auto-fix ids in the task are
      fine; only the empty task or a pre-1970 clock loses the parent. */
  lemma AutoFixRoundTrip(task: string, millis: int)
    ensures AutoFixParent(AutoFixId(task, millis)) == Some(task) <==> task != [] && millis >= 0
  {
    IntTextDash(millis);
    if millis >= 0 {
      Regroup(AUTO_FIX, task, "-", IntText(millis));
      ParentOfJoin(task, IntText(millis));
    } else {
      DecVal(-millis);
      Regroup(AUTO_FIX, task, "-", IntText(millis));
      assert task + "-" + ("-" + Dec(-millis)) == (task + "-") + "-" + Dec(-millis);
      ParentOfJoin(task + "-", Dec(-millis));
      assert |task + "-"| == |task| + 1;
    }
  }

  /** The pair an auto-fix id is read as: a minus sign becomes a dash of the task. */
  function ReadAs(task: string, millis: int): (string, nat)
  {
    if millis < 0 then (task + "-", -millis) else (task, millis)
  }

  /** Two pairs share an auto-fix id exactly when they are read as the same pair: for times
      since 1970 only if they are equal, while ("a", -5) and ("a-", 5) do. */
  lemma AutoFixCollidesExactly(t1: string, m1: int, t2: string, m2: int)
    ensures AutoFixId(t1, m1) == AutoFixId(t2, m2) <==> ReadAs(t1, m1) == ReadAs(t2, m2)
  {
    var a, b := ReadAs(t1, m1), ReadAs(t2, m2);
    WrittenAsRead(t1, m1);
    WrittenAsRead(t2, m2);
    if AutoFixId(a.0, a.1) == AutoFixId(b.0, b.1) { AutoFixInjective(a.0, a.1, b.0, b.1); }
  }

  lemma Regrouped(p: string, t: string, a: string, b: string, c: string)
    ensures p + t + a + (b + c) == p + (t + a) + b + c
  {
  }

  lemma WrittenAsRead(task: string, millis: int)
    ensures AutoFixId(task, millis) == AutoFixId(ReadAs(task, millis).0, ReadAs(task, millis).1)
  {
    if millis < 0 { Regrouped(AUTO_FIX, task, "-", "-", Dec(-millis)); }
  }

  /** Distinct pairs of a task and a time since 1970 never share an auto-fix id. */
  lemma AutoFixInjective(t1: string, m1: nat, t2: string, m2: nat)
    requires AutoFixId(t1, m1) == AutoFixId(t2, m2)
    ensures t1 == t2 && m1 == m2
  {
    IntTextDash(m1);
    IntTextDash(m2);
    var s := AutoFixId(t1, m1)[|AUTO_FIX|..];
    assert s == t1 + ['-'] + Dec(m1);
    assert s == t2 + ['-'] + Dec(m2);
    LastIndexOfJoin(t1, '-', Dec(m1));
    LastIndexOfJoin(t2, '-', Dec(m2));
    assert t1 == s[..|t1|] == t2;
    assert Dec(m1) == s[|t1| + 1..] == Dec(m2);
    DecInjective(m1, m2);
  }

  // ---------------------------------------------------------------- session ids

  /** `{name}-{number}`. */
  function SessionId(name: string, number: nat): string { name + "-" + Dec(number) }

  /** `parse_session`: split at the last dash, then read the slot as an `i64`. */
  function ParseSession(session: string): Option<(string, int)>
  {
    var i := LastIndex(session, '-');
    if i < 0 then None
    else
      match ParseI64(session[i + 1..])
      case None => None
      case Some(slot) => Some((session[..i], slot))
  }

  lemma SessionRoundTrip(name: string, number: nat)
    requires number <= U32_MAX
    ensures ParseSession(SessionId(name, number)) == Some((name, number))
  {
    var s := SessionId(name, number);
    DecVal(number);
    assert s == name + ['-'] + Dec(number);
    LastIndexOfJoin(name, '-', Dec(number));
    assert s[|name| + 1..] == Dec(number);
    assert s[..|name|] == name;
    ParseDec(number, -I64_MAX - 1, I64_MAX);
  }

  /** The text is a dash-free number after a slug and a dash. */
  predicate SplitAt(session: string, slug: string, text: string) { '-' !in text && session == slug + "-" + text }

  lemma SplitIsLast(session: string, slug: string, text: string)
    requires SplitAt(session, slug, text)
    ensures LastIndex(session, '-') == |slug| && session[..|slug|] == slug && session[|slug| + 1..] == text
  {
    assert session == slug + ['-'] + text;
    LastIndexOfJoin(slug, '-', text);
  }

  lemma LastIsSplit(session: string)
    requires LastIndex(session, '-') >= 0
    ensures var i := LastIndex(session, '-'); SplitAt(session, session[..i], session[i + 1..])
  {
  }

  /** A session text is read exactly at its last dash, the rest being a number. */
  lemma ParseSessionExact(session: string, slug: string, slot: int)
    ensures ParseSession(session) == Some((slug, slot))
       <==> slot <= I64_MAX && exists text :: SplitAt(session, slug, text) && ReadsAs(text, slot)
  {
    if ParseSession(session) == Some((slug, slot)) {
      var text := session[LastIndex(session, '-') + 1..];
      LastIsSplit(session);
      ParseI64Exact(text, slot);
      assert SplitAt(session, slug, text) && ReadsAs(text, slot);
    }
    if slot <= I64_MAX {
      if text :| SplitAt(session, slug, text) && ReadsAs(text, slot) {
        SplitIsLast(session, slug, text);
        ParseI64Exact(text, slot);
      }
    }
  }

  lemma ParseI64Exact(text: string, v: int)
    requires '-' !in text
    ensures ParseI64(text) == Some(v) <==> ReadsAs(text, v) && v <= I64_MAX
  {
    if text != [] { assert text[0] in text && text[0] != '-'; }
    if ParseI64(text) == Some(v) {
      var body := if text != [] && text[0] == '+' then text[1..] else text;
      assert text == body || text == ['+'] + body;
    }
    if ReadsAs(text, v) {
      var d :| d != [] && AllDigits(d) && Val(d) == v && (text == d || text == ['+'] + d);
      assert IsDigit(d[0]);
      assert text == ['+'] + d ==> text[1..] == d;
    }
  }

  lemma SessionIdInjective(n1: string, k1: nat, n2: string, k2: nat)
    requires SessionId(n1, k1) == SessionId(n2, k2)
    ensures n1 == n2 && k1 == k2
  {
    DecVal(k1);
    DecVal(k2);
    var s := SessionId(n1, k1);
    assert s == n1 + ['-'] + Dec(k1);
    assert s == n2 + ['-'] + Dec(k2);
    LastIndexOfJoin(n1, '-', Dec(k1));
    LastIndexOfJoin(n2, '-', Dec(k2));
    assert n1 == s[..|n1|] == n2;
    assert Dec(k1) == s[|n1| + 1..] == Dec(k2);
    DecInjective(k1, k2);
  }
}
