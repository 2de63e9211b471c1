/** Text helpers shared by every module: decimal numerals, integer parsing and the
    `str` searches (`contains`, `starts_with`, `rfind`) the handlers rely on. */
module Base {

  datatype Option<+T> = None | Some(value: T)

  predicate IsDigit(c: char) { '0' <= c <= '9' }

  function DigitChar(d: nat): char
    requires d < 10
  {
    ('0' as int + d) as char
  }

  function DigitVal(c: char): nat
    requires IsDigit(c)
  {
    c as int - '0' as int
  }

  predicate AllDigits(s: string) { forall i :: 0 <= i < |s| ==> IsDigit(s[i]) }

  /** Decimal text of `n`, as `format!("{}", n)` prints it. */
  function Dec(n: nat): string
  {
    if n < 10 then [DigitChar(n)] else Dec(n / 10) + [DigitChar(n % 10)]
  }

  /** Value of a digit string read in base ten. */
  function Val(s: string): nat
    requires AllDigits(s)
  {
    if s == [] then 0 else Val(s[..|s| - 1]) * 10 + DigitVal(s[|s| - 1])
  }

  lemma {:induction false} DecVal(n: nat)
    ensures |Dec(n)| > 0 && AllDigits(Dec(n)) && Val(Dec(n)) == n
  {
    if n >= 10 {
      DecVal(n / 10);
      assert Dec(n)[..|Dec(n)| - 1] == Dec(n / 10);
    } else {
      assert Dec(n)[..0] == [];
    }
  }

  lemma DecInjective(m: nat, n: nat)
    requires Dec(m) == Dec(n)
    ensures m == n
  {
    DecVal(m);
    DecVal(n);
  }

  /** `str::parse` for an integer type with range `lo..=hi`: an optional sign ('-' only
      when the type is signed), at least one ASCII digit, and no overflow. */
  function ParseInt(s: string, lo: int, hi: int): Option<int>
  {
    var body := if s != [] && (s[0] == '+' || (s[0] == '-' && lo < 0)) then s[1..] else s;
    if body == [] || !AllDigits(body) then None
    else
      var v: int := if s[0] == '-' then 0 - Val(body) else Val(body);
      if lo <= v <= hi then Some(v) else None
  }

  const U32_MAX: int := 0xFFFF_FFFF
  const I64_MAX: int := 0x7FFF_FFFF_FFFF_FFFF

  function ParseU32(s: string): Option<int> { ParseInt(s, 0, U32_MAX) }
  function ParseI32(s: string): Option<int> { ParseInt(s, -0x8000_0000, 0x7FFF_FFFF) }
  function ParseI64(s: string): Option<int> { ParseInt(s, -I64_MAX - 1, I64_MAX) }

  lemma ParseDec(n: nat, lo: int, hi: int)
    requires lo <= n <= hi
    ensures ParseInt(Dec(n), lo, hi) == Some(n)
  {
    DecVal(n);
    assert IsDigit(Dec(n)[0]);
  }

  /** `s` is the number `v` in digits, with or without a plus sign. */
  ghost predicate ReadsAs(s: string, v: int)
  {
    exists d :: d != [] && AllDigits(d) && Val(d) == v && (s == d || s == ['+'] + d)
  }

  /** An unsigned number is read exactly from its digits, as long as it fits. */
  lemma ParseU32Exact(s: string, v: int)
    ensures ParseU32(s) == Some(v) <==> ReadsAs(s, v) && v <= U32_MAX
  {
    if ParseU32(s) == Some(v) {
      var body := if s != [] && s[0] == '+' then s[1..] else s;
      assert s == body || s == ['+'] + body;
    }
    if ReadsAs(s, v) {
      var d :| d != [] && AllDigits(d) && Val(d) == v && (s == d || s == ['+'] + d);
      assert IsDigit(d[0]);
      assert s == ['+'] + d ==> s[1..] == d;
    }
  }

  /** Index of the last occurrence of `c`, or -1 (`str::rfind`). */
  function LastIndex(s: string, c: char): (i: int)
    ensures -1 <= i < |s|
    ensures i >= 0 ==> s[i] == c
    ensures forall j :: i < j < |s| ==> s[j] != c
  {
    if s == [] then -1
    else if s[|s| - 1] == c then |s| - 1
    else LastIndex(s[..|s| - 1], c)
  }

  /** The last `c` of `a + [c] + b` is the one between them when `b` has none. */
  lemma {:induction false} LastIndexOfJoin(a: string, c: char, b: string)
    requires c !in b
    ensures LastIndex(a + [c] + b, c) == |a|
  {
    var s := a + [c] + b;
    if b != [] {
      var n := |b| - 1;
      assert b[n] in b && s[..|s| - 1] == a + [c] + b[..n];
      LastIndexOfJoin(a, c, b[..n]);
    }
  }

  predicate StartsWith(s: string, p: string) { p <= s }

  predicate OccursAt(s: string, w: string, i: nat) { i + |w| <= |s| && s[i..i + |w|] == w }

  predicate Contains(s: string, w: string) { StartsWith(s, w) || (s != [] && Contains(s[1..], w)) }

  lemma OccursFirst(s: string, w: string)
    ensures StartsWith(s, w) <==> OccursAt(s, w, 0)
  {
  }

  lemma SliceOfRest(s: string, i: nat, n: nat)
    requires i + 1 + n <= |s|
    ensures s[1..][i..i + n] == s[i + 1..i + 1 + n]
  {
    var a, b := s[1..][i..i + n], s[i + 1..i + 1 + n];
    forall k | 0 <= k < n ensures a[k] == b[k] {
      assert a[k] == s[1..][i + k] && s[1..][i + k] == s[i + k + 1];
      assert b[k] == s[i + 1 + k];
    }
  }

  lemma OccursNext(s: string, w: string, i: nat)
    ensures s != [] ==> (OccursAt(s[1..], w, i) <==> OccursAt(s, w, i + 1))
  {
    if s != [] && i + 1 + |w| <= |s| { SliceOfRest(s, i, |w|); }
  }

  /** Searching is finding an occurrence somewhere. */
  lemma {:induction false} ContainsExact(s: string, w: string)
    ensures Contains(s, w) <==> exists i: nat :: OccursAt(s, w, i)
  {
    OccursFirst(s, w);
    if s != [] {
      ContainsExact(s[1..], w);
      if i: nat :| OccursAt(s[1..], w, i) { OccursNext(s, w, i); }
      if i: nat :| OccursAt(s, w, i) {
        if i > 0 { OccursNext(s, w, i - 1); }
      }
    }
  }

  /** `u` spells the lower-case word `w` in any mix of ASCII letter cases. */
  predicate Spells(u: string, w: string)
  {
    |u| == |w| && forall i :: 0 <= i < |w| ==> u[i] == w[i] || ('a' <= w[i] <= 'z' && u[i] as int + 32 == w[i] as int)
  }

  predicate AllLower(w: string) { forall i :: 0 <= i < |w| ==> 'a' <= w[i] <= 'z' }

  lemma SpelledChar(u: char, w: char)
    requires 'a' <= w <= 'z' && (u == w || u as int + 32 == w as int)
    ensures LowerChar(u) == w && (if 'A' <= u <= 'Z' then (u as int + 32) as char else u) == w
  {
  }

  lemma PlacedAt(before: string, u: string, after: string, i: nat)
    requires i < |u|
    ensures (before + u + after)[|before| + i] == u[i]
  {
  }

  lemma SpelledOccursAscii(before: string, u: string, after: string, w: string)
    requires AllLower(w) && Spells(u, w)
    ensures OccursAt(AsciiLower(before + u + after), w, |before|)
  {
    var low := AsciiLower(before + u + after);
    forall i | 0 <= i < |w| ensures low[|before| + i] == w[i] {
      PlacedAt(before, u, after, i);
      SpelledChar(u[i], w[i]);
    }
    assert low[|before|..|before| + |w|] == w;
  }

  /** A word in any mix of cases is found in lower-cased text, wherever it stands. */
  lemma SpelledOccurs(before: string, u: string, after: string, w: string)
    requires AllLower(w) && Spells(u, w)
    ensures OccursAt(Lower(before + u + after), w, |before|)
  {
    var low := Lower(before + u + after);
    forall i | 0 <= i < |w| ensures low[|before| + i] == w[i] {
      PlacedAt(before, u, after, i);
      SpelledChar(u[i], w[i]);
    }
    assert low[|before|..|before| + |w|] == w;
  }

  /** Unicode white space, as `str::trim` removes it. */
  predicate IsSpace(c: char)
  {
    || '\U{9}' <= c <= '\U{D}' || c == ' ' || c == '\U{85}' || c == '\U{A0}' || c == '\U{1680}'
    || '\U{2000}' <= c <= '\U{200A}' || c == '\U{2028}' || c == '\U{2029}' || c == '\U{202F}'
    || c == '\U{205F}' || c == '\U{3000}'
  }

  function TrimEnd(s: string): string
  {
    if s != [] && IsSpace(s[|s| - 1]) then TrimEnd(s[..|s| - 1]) else s
  }

  function Trim(s: string): string
  {
    if s != [] && IsSpace(s[0]) then Trim(s[1..]) else TrimEnd(s)
  }

  lemma {:induction false} TrimEndKeepsFirst(s: string)
    requires s != [] && !IsSpace(s[0])
    ensures TrimEnd(s) != [] && TrimEnd(s)[0] == s[0]
  {
    if IsSpace(s[|s| - 1]) { TrimEndKeepsFirst(s[..|s| - 1]); }
  }

  predicate AllSpace(s: string) { forall i :: 0 <= i < |s| ==> IsSpace(s[i]) }

  predicate Trimmed(s: string) { s != [] ==> !IsSpace(s[0]) && !IsSpace(s[|s| - 1]) }

  lemma {:induction false} TrimEndOf(core: string, after: string)
    requires Trimmed(core) && AllSpace(after)
    ensures TrimEnd(core + after) == core
  {
    var s := core + after;
    if after == [] {
      assert s == core;
    } else {
      assert s[..|s| - 1] == core + after[..|after| - 1];
      TrimEndOf(core, after[..|after| - 1]);
    }
  }

  /** Trimming takes away the white space around, and nothing else. */
  lemma {:induction false} TrimOf(before: string, core: string, after: string)
    requires AllSpace(before) && Trimmed(core) && AllSpace(after)
    ensures Trim(before + core + after) == core
  {
    var s := before + core + after;
    if before != [] {
      assert s[1..] == before[1..] + core + after;
      TrimOf(before[1..], core, after);
    } else if core != [] {
      assert s == core + after;
      TrimEndOf(core, after);
    } else {
      assert s == after;
      TrimBlank(after);
    }
  }

  lemma {:induction false} TrimBlank(s: string)
    requires AllSpace(s)
    ensures Trim(s) == []
  {
    if s != [] { TrimBlank(s[1..]); }
  }

  lemma {:induction false} TrimEndParts(s: string) returns (core: string, after: string)
    ensures s == core + after && AllSpace(after) && TrimEnd(s) == core
    ensures core != [] ==> !IsSpace(core[|core| - 1])
  {
    if s != [] && IsSpace(s[|s| - 1]) {
      var a;
      core, a := TrimEndParts(s[..|s| - 1]);
      after := a + [s[|s| - 1]];
    } else {
      core, after := s, [];
    }
  }

  /** Any text is white space, its trimmed part, and white space. */
  lemma {:induction false} TrimParts(s: string) returns (before: string, core: string, after: string)
    ensures s == before + core + after && AllSpace(before) && AllSpace(after) && Trimmed(core) && Trim(s) == core
  {
    if s != [] && IsSpace(s[0]) {
      var b;
      b, core, after := TrimParts(s[1..]);
      before := [s[0]] + b;
      assert s == [s[0]] + s[1..];
    } else {
      core, after := TrimEndParts(s);
      before := [];
      if core != [] { assert core[0] == s[0]; }
    }
  }

  /** ASCII part of `to_lowercase`, plus the Kelvin sign: the one other character whose
      lower-case form is a single ASCII letter. */
  function LowerChar(c: char): char
  {
    if 'A' <= c <= 'Z' then (c as int + 32) as char
    else if c == '\U{212A}' then 'k'
    else c
  }

  function Lower(s: string): (r: string)
  {
    seq(|s|, i requires 0 <= i < |s| => LowerChar(s[i]))
  }

  function AsciiLower(s: string): (r: string)
  {
    seq(|s|, i requires 0 <= i < |s| => if 'A' <= s[i] <= 'Z' then (s[i] as int + 32) as char else s[i])
  }
}
