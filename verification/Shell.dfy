/** `shell_escape` and a shell reader for the quoting rules of sections 2.2.1 to 2.2.3
    of POSIX.1-2017 XCU chapter 2. */
module Shell {
  import opened Base

  /** `replace('\\', "\\\\")`. */
  function Doubled(s: string): string
  {
    if s == [] then [] else (if s[0] == '\\' then "\\\\" else [s[0]]) + Doubled(s[1..])
  }

  /** `replace('\'', "'\"'\"'")`. */
  function QuoteOut(s: string): string
  {
    if s == [] then [] else (if s[0] == '\'' then "'\"'\"'" else [s[0]]) + QuoteOut(s[1..])
  }

  function ShellEscape(s: string): string { "'" + QuoteOut(Doubled(s)) + "'" }

  /** A command line built the way launch builds one: escaped words joined by spaces. */
  function CommandLine(args: seq<string>): string
  {
    if args == [] then "" else ShellEscape(args[0]) + " " + CommandLine(args[1..])
  }

  // ---------------------------------------------------------------- the reader

  datatype Mode = Plain | Single | Double

  /** Characters that start an operator, an expansion or a comment outside quotes. */
  predicate Active(c: char) { c in "|&;<>()$`*?[#~=%!{}\n" }

  function Grown(word: Option<string>, c: string): Option<string>
  {
    match word case None => Some(c) case Some(w) => Some(w + c)
  }

  function Closed(words: seq<string>, word: Option<string>): seq<string>
  {
    match word case None => words case Some(w) => words + [w]
  }

  /** Words of `input`, or None when it holds an unclosed quote or an active character. */
  function Read(input: string, mode: Mode, word: Option<string>, words: seq<string>): Option<seq<string>>
    decreases |input|
  {
    if input == [] then
      if mode == Plain then Some(Closed(words, word)) else None
    else
      var c, rest := input[0], input[1..];
      match mode
      case Single =>
        if c == '\'' then Read(rest, Plain, word, words)
        else Read(rest, Single, Grown(word, [c]), words)
      case Double =>
        if c == '"' then Read(rest, Plain, word, words)
        else if c == '$' || c == '`' then None
        else if c == '\\' && rest != [] && rest[0] in "$`\"\\" then
          Read(rest[1..], Double, Grown(word, [rest[0]]), words)
        else if c == '\\' && rest != [] && rest[0] == '\n' then Read(rest[1..], Double, word, words)
        else Read(rest, Double, Grown(word, [c]), words)
      case Plain =>
        if c == '\'' then Read(rest, Single, Grown(word, []), words)
        else if c == '"' then Read(rest, Double, Grown(word, []), words)
        else if c == ' ' || c == '\t' then Read(rest, Plain, None, Closed(words, word))
        else if c == '\\' then
          if rest == [] then None
          else if rest[0] == '\n' then Read(rest[1..], Plain, word, words)
          else Read(rest[1..], Plain, Grown(word, [rest[0]]), words)
        else if Active(c) then None
        else Read(rest, Plain, Grown(word, [c]), words)
  }

  lemma ReadSplicedQuote(rest: string, w: string, words: seq<string>)
    ensures Read("'\"'\"'" + rest, Single, Some(w), words) == Read(rest, Single, Some(w + "'"), words)
  {
    var i := "'\"'\"'" + rest;
    assert i[1..] == "\"'\"'" + rest;
    assert i[1..][1..] == "'\"'" + rest;
    assert i[1..][1..][1..] == "\"'" + rest;
    assert i[1..][1..][1..][1..] == "'" + rest;
    assert i[1..][1..][1..][1..][1..] == rest;
    assert w + [] == w && (w + "'") + [] == w + "'";
    calc {
      Read(i, Single, Some(w), words);
      Read("\"'\"'" + rest, Plain, Some(w), words);
      Read("'\"'" + rest, Double, Some(w), words);
      Read("\"'" + rest, Double, Some(w + "'"), words);
      Read("'" + rest, Plain, Some(w + "'"), words);
      Read(rest, Single, Some(w + "'"), words);
    }
  }

  lemma {:induction false} ReadQuoted(t: string, rest: string, w: string, words: seq<string>)
    ensures Read(QuoteOut(t) + "'" + rest, Single, Some(w), words) == Read(rest, Plain, Some(w + t), words)
  {
    var i := QuoteOut(t) + "'" + rest;
    if t == [] {
      assert i == "'" + rest && w + t == w;
      assert i[1..] == rest;
    } else {
      var more := QuoteOut(t[1..]) + "'" + rest;
      assert w + [t[0]] + t[1..] == w + t;
      if t[0] == '\'' {
        assert i == "'\"'\"'" + more;
        ReadSplicedQuote(more, w, words);
        assert w + "'" + t[1..] == w + t;
        ReadQuoted(t[1..], rest, w + "'", words);
      } else {
        assert i == [t[0]] + more && i[1..] == more;
        ReadQuoted(t[1..], rest, w + [t[0]], words);
      }
    }
  }

  lemma ReadEscaped(s: string, rest: string, words: seq<string>)
    ensures Read(ShellEscape(s) + rest, Plain, None, words) == Read(rest, Plain, Some(Doubled(s)), words)
  {
    var i := ShellEscape(s) + rest;
    assert i[1..] == QuoteOut(Doubled(s)) + "'" + rest;
    ReadQuoted(Doubled(s), rest, [], words);
    assert [] + Doubled(s) == Doubled(s);
  }

  function DoubledAll(args: seq<string>): seq<string>
  {
    if args == [] then [] else [Doubled(args[0])] + DoubledAll(args[1..])
  }

  lemma {:induction false} ReadCommandLine(args: seq<string>, words: seq<string>)
    ensures Read(CommandLine(args), Plain, None, words) == Some(words + DoubledAll(args))
  {
    if args == [] {
      assert words + [] == words;
    } else {
      var rest := " " + CommandLine(args[1..]);
      assert CommandLine(args) == ShellEscape(args[0]) + rest;
      ReadEscaped(args[0], rest, words);
      assert rest[1..] == CommandLine(args[1..]);
      ReadCommandLine(args[1..], words + [Doubled(args[0])]);
      assert words + [Doubled(args[0])] + DoubledAll(args[1..]) == words + DoubledAll(args);
    }
  }

  lemma {:induction false} DoubledFixed(s: string)
    ensures |Doubled(s)| >= |s|
    ensures Doubled(s) == s <==> '\\' !in s
  {
    if s != [] {
      DoubledFixed(s[1..]);
      assert s == [s[0]] + s[1..];
      if s[0] != '\\' {
        assert Doubled(s)[1..] == Doubled(s[1..]);
      }
    }
  }

  /** The shell reads an escaped string as exactly one word, the string with every
      backslash doubled; so it reads back the string itself iff it has no backslash. */
  lemma EscapeReadsBack(s: string)
    ensures Read(ShellEscape(s), Plain, None, []) == Some([Doubled(s)])
    ensures Read(ShellEscape(s), Plain, None, []) == Some([s]) <==> '\\' !in s
  {
    ReadEscaped(s, [], []);
    assert ShellEscape(s) + [] == ShellEscape(s);
    DoubledFixed(s);
    assert [] + [Doubled(s)] == [Doubled(s)];
    assert [Doubled(s)][0] == Doubled(s);
  }

  /** Doubling goes character by character. */
  lemma {:induction false} DoubledJoin(a: string, b: string)
    ensures Doubled(a + b) == Doubled(a) + Doubled(b)
  {
    if a == [] {
      assert a + b == b;
    } else {
      assert (a + b)[0] == a[0] && (a + b)[1..] == a[1..] + b;
      DoubledJoin(a[1..], b);
    }
  }

  /** And doubles the backslash alone. */
  lemma DoubledChar(c: char)
    ensures Doubled([c]) == if c == '\\' then ['\\', '\\'] else [c]
  {
    assert [c][1..] == [];
  }
}
