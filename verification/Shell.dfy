/**
 The part of the POSIX Shell Command Language (XCU chapter 2) that re-reads what
 dispatcher prints: escape and single quotes (2.2.1, 2.2.2), token recognition (2.3) and
 here-documents with a quoted delimiter (2.7.4).  Any other unquoted special character
 makes the reader give up, so a successful read never depends on expansion.
 */
module Shell {
  import opened Common

  /** A simple command after quote removal, with the here-document on its stdin. */
  datatype Command = Command(words: seq<string>, here: Option<string>)

  datatype Mode = Plain | Single | Escaped | Less | Here(line: string)

  /** The here-document redirection of the command being read. */
  datatype Redirect = NoRedirect | AwaitDelimiter(quoted: bool) | Delimiter(token: string, body: string)

  datatype Lexer =
    | Lexer(mode: Mode, word: Option<string>, words: seq<string>, redirect: Redirect, done: seq<Command>)
    | Reject

  const START := Lexer(Plain, None, [], NoRedirect, [])

  /** Characters that are ordinary outside quotes wherever they stand in a word. */
  predicate Ordinary(c: char) {
    || 'a' <= c <= 'z' || 'A' <= c <= 'Z' || '0' <= c <= '9'
    || c == '_' || c == '-' || c == '.' || c == '/' || c == '=' || c == ':'
  }

  function Text(l: Lexer): string
    requires l.Lexer?
  {
    if l.word.Some? then l.word.value else ""
  }

  function EndWord(l: Lexer): Lexer
    requires l.Lexer?
  {
    if l.word.None? then l
    else if l.redirect.AwaitDelimiter? then
      // An unquoted delimiter would make the body subject to expansion.
      if l.redirect.quoted then l.(word := None, redirect := Delimiter(l.word.value, "")) else Reject
    else l.(word := None, words := l.words + [l.word.value])
  }

  function EndLine(l: Lexer): Lexer {
    if l.Reject? || l.redirect.AwaitDelimiter? then Reject
    else if l.redirect.Delimiter? then l.(mode := Here(""))
    else if l.words == [] then l
    else l.(words := [], done := l.done + [Command(l.words, None)])
  }

  function Step(l: Lexer, c: char): Lexer {
    if l.Reject? then Reject
    else match l.mode
      case Single => if c == '\'' then l.(mode := Plain) else l.(word := Some(Text(l) + [c]))
      case Escaped => if c == '\n' then l.(mode := Plain) else l.(mode := Plain, word := Some(Text(l) + [c]))
      case Less =>
        if c == '<' && l.redirect.NoRedirect? then l.(mode := Plain, redirect := AwaitDelimiter(false)) else Reject
      case Here(line) =>
        if l.redirect.Delimiter? then
          if c != '\n' then l.(mode := Here(line + [c]))
          else if line == l.redirect.token then
            Lexer(Plain, None, [], NoRedirect, l.done + [Command(l.words, Some(l.redirect.body))])
          else l.(mode := Here(""), redirect := Delimiter(l.redirect.token, l.redirect.body + line + "\n"))
        else Reject
      case Plain =>
        if c == ' ' || c == '\t' then EndWord(l)
        else if c == '\n' then EndLine(EndWord(l))
        else if c == '\'' then
          l.(mode := Single, word := Some(Text(l)),
             redirect := if l.redirect.AwaitDelimiter? then AwaitDelimiter(true) else l.redirect)
        else if c == '\\' then l.(mode := Escaped)
        else if c == '<' then if l.word.None? then l.(mode := Less) else Reject
        else if Ordinary(c) then l.(word := Some(Text(l) + [c]))
        else Reject
  }

  function Run(l: Lexer, s: string): Lexer
    decreases |s|
  {
    if s == "" then l else Run(Step(l, s[0]), s[1..])
  }

  /** The commands of a script, provided it ends at the end of a line. */
  function Parse(s: string): Option<seq<Command>> {
    var l := Run(START, s);
    if l.Lexer? && l == START.(done := l.done) then Some(l.done) else None
  }

  // ---- The printers ---------------------------------------------------------------

  /** strings.ReplaceAll(s, "'", "'\\''") */
  function Escape(s: string): string {
    if s == "" then "" else (if s[0] == '\'' then "'\\''" else [s[0]]) + Escape(s[1..])
  }

  function ShellQuote(s: string): string {
    "'" + Escape(s) + "'"
  }

  function ShellQuoteArgs(args: seq<string>): string {
    if args == [] then ""
    else if |args| == 1 then ShellQuote(args[0])
    else ShellQuote(args[0]) + " " + ShellQuoteArgs(args[1..])
  }

  // ---- Reading back ---------------------------------------------------------------

  lemma {:induction false} RunConcat(l: Lexer, a: string, b: string)
    ensures Run(l, a + b) == Run(Run(l, a), b)
    decreases |a|
  {
    if a == "" {
      assert a + b == b;
    } else {
      assert (a + b)[1..] == a[1..] + b;
      RunConcat(Step(l, a[0]), a[1..], b);
    }
  }

  /** Two stretches of text read one after the other. */
  lemma Then(l: Lexer, a: string, l1: Lexer, b: string, l2: Lexer)
    requires Run(l, a) == l1 && Run(l1, b) == l2
    ensures Run(l, a + b) == l2
  {
    RunConcat(l, a, b);
  }

  lemma RunSnoc(l: Lexer, a: string, c: char)
    ensures Run(l, a + [c]) == Step(Run(l, a), c)
  {
    RunConcat(l, a, [c]);
    assert [c][1..] == "";
  }

  /** Ordinary characters extend the current word. */
  lemma {:induction false} RunOrdinary(l: Lexer, w: string)
    requires l.Lexer? && l.mode.Plain? && w != ""
    requires forall i :: 0 <= i < |w| ==> Ordinary(w[i])
    ensures Run(l, w) == l.(word := Some(Text(l) + w))
    decreases |w|
  {
    var l' := Step(l, w[0]);
    if |w| == 1 {
      assert w[1..] == "" && w == [w[0]];
    } else {
      RunOrdinary(l', w[1..]);
      assert Text(l) + w == Text(l) + [w[0]] + w[1..];
    }
  }

  /** The escaped body of a quoted string spells out exactly that string. */
  lemma {:induction false} RunEscaped(l: Lexer, s: string)
    requires l.Lexer? && l.mode.Single? && l.word.Some? && !l.redirect.AwaitDelimiter?
    ensures Run(l, Escape(s)) == l.(word := Some(l.word.value + s))
    decreases |s|
  {
    if s == "" {
      assert l.word.value + s == l.word.value;
    } else {
      var first := if s[0] == '\'' then "'\\''" else [s[0]];
      var l' := l.(word := Some(l.word.value + [s[0]]));
      RunConcat(l, first, Escape(s[1..]));
      assert Run(l, first) == l' by {
        if s[0] == '\'' {
          RunQuoteEscape(l);
        } else {
          RunSnoc(l, "", s[0]);
          assert "" + [s[0]] == first;
        }
      }
      RunEscaped(l', s[1..]);
      assert l.word.value + s == l.word.value + [s[0]] + s[1..];
    }
  }

  lemma RunQuoteEscape(l: Lexer)
    requires l.Lexer? && l.mode.Single? && l.word.Some? && !l.redirect.AwaitDelimiter?
    ensures Run(l, "'\\''") == l.(word := Some(l.word.value + ['\'']))
  {
    var l1 := l.(mode := Escaped);
    RunTwo(l, '\'', '\\');
    RunTwo(l1, '\'', '\'');
    Then(l, ['\'', '\\'], l1, ['\'', '\''], l.(word := Some(l.word.value + ['\''])));
    assert ['\'', '\\'] + ['\'', '\''] == "'\\''";
  }

  lemma RunTwo(l: Lexer, c: char, d: char)
    ensures Run(l, [c, d]) == Step(Step(l, c), d)
  {
    RunSnoc(l, "", c);
    RunSnoc(l, [c], d);
    assert "" + [c] == [c] && [c] + [d] == [c, d];
  }

  /** A quoted string is read as one piece of a word, whatever it contains. */
  lemma RunQuoted(l: Lexer, s: string)
    requires l.Lexer? && l.mode.Plain? && !l.redirect.AwaitDelimiter?
    ensures Run(l, ShellQuote(s)) == l.(word := Some(Text(l) + s))
  {
    RunSnoc(l, "", '\'');
    assert "" + ['\''] == "'";
    RunConcat(l, "'", Escape(s));
    RunEscaped(Run(l, "'"), s);
    RunSnoc(l, "'" + Escape(s), '\'');
  }

  lemma RunArgAndBlank(l: Lexer, arg: string)
    requires l.Lexer? && l.mode.Plain? && l.word.None? && l.redirect.NoRedirect?
    ensures Run(l, ShellQuote(arg) + " ") == l.(words := l.words + [arg])
  {
    RunQuoted(l, arg);
    assert "" + arg == arg;
    RunSnoc(l, ShellQuote(arg), ' ');
  }

  lemma {:induction false} RunArgs(l: Lexer, args: seq<string>)
    requires l.Lexer? && l.mode.Plain? && l.word.None? && l.redirect.NoRedirect? && args != []
    ensures Run(l, ShellQuoteArgs(args)) ==
            l.(words := l.words + args[..|args| - 1], word := Some(args[|args| - 1]))
    decreases |args|
  {
    if |args| == 1 {
      RunQuoted(l, args[0]);
      assert "" + args[0] == args[0];
      assert l.words + args[..0] == l.words;
    } else {
      var l1 := l.(words := l.words + [args[0]]);
      RunArgAndBlank(l, args[0]);
      RunArgs(l1, args[1..]);
      assert l.words + [args[0]] + args[1..][..|args| - 2] == l.words + args[..|args| - 1];
      Then(l, ShellQuote(args[0]) + " ", l1, ShellQuoteArgs(args[1..]),
           l.(words := l.words + args[..|args| - 1], word := Some(args[|args| - 1])));
    }
  }

  /** Words typed as they are, each followed by a blank. */
  function Typed(ws: seq<string>): string {
    if ws == [] then "" else ws[0] + " " + Typed(ws[1..])
  }

  predicate OrdinaryWord(w: string) {
    w != "" && forall i :: 0 <= i < |w| ==> Ordinary(w[i])
  }

  /** Nothing read of the current word yet, and no redirection. */
  ghost predicate BetweenWords(l: Lexer) {
    l.Lexer? && l.mode.Plain? && l.word.None? && l.redirect.NoRedirect?
  }

  /** Between two lines the lexer holds nothing but the commands read so far. */
  ghost predicate AtLineStart(l: Lexer) {
    BetweenWords(l) && l.words == []
  }

  lemma {:induction false} RunTyped(l: Lexer, ws: seq<string>)
    requires BetweenWords(l) && forall i :: 0 <= i < |ws| ==> OrdinaryWord(ws[i])
    ensures Run(l, Typed(ws)) == l.(words := l.words + ws)
    decreases |ws|
  {
    if ws == [] {
      assert l.words + [] == l.words;
    } else {
      RunOrdinary(l, ws[0]);
      assert "" + ws[0] == ws[0];
      RunSnoc(l, ws[0], ' ');
      RunConcat(l, ws[0] + " ", Typed(ws[1..]));
      RunTyped(l.(words := l.words + [ws[0]]), ws[1..]);
      assert l.words + [ws[0]] + ws[1..] == l.words + ws;
    }
  }

  lemma RunNewline(l: Lexer)
    requires l.Lexer? && l.mode.Plain? && l.word.Some? && l.redirect.NoRedirect?
    ensures Run(l, "\n") == l.(word := None, words := [], done := l.done + [Command(l.words + [l.word.value], None)])
  {
    RunSnoc(l, "", '\n');
    assert "" + ['\n'] == "\n";
  }

  /** A line of typed words and quoted arguments is read as one command. */
  lemma RunLine(l: Lexer, typed: seq<string>, args: seq<string>)
    requires AtLineStart(l) && args != [] && forall i :: 0 <= i < |typed| ==> OrdinaryWord(typed[i])
    ensures Run(l, Typed(typed) + ShellQuoteArgs(args) + "\n") == l.(done := l.done + [Command(typed + args, None)])
  {
    var n := |args| - 1;
    var l2 := l.(words := typed + args[..n], word := Some(args[n]));
    RunTypedArgs(l, typed, args);
    RunLineEnd(l, typed, args);
    Then(l, Typed(typed) + ShellQuoteArgs(args), l2, "\n", l.(done := l.done + [Command(typed + args, None)]));
  }

  lemma RunLineEnd(l: Lexer, typed: seq<string>, args: seq<string>)
    requires AtLineStart(l) && args != []
    ensures Run(l.(words := typed + args[..|args| - 1], word := Some(args[|args| - 1])), "\n")
            == l.(done := l.done + [Command(typed + args, None)])
  {
    var n := |args| - 1;
    RunNewline(l.(words := typed + args[..n], word := Some(args[n])));
    assert typed + args[..n] + [args[n]] == typed + args;
  }

  lemma RunTypedArgs(l: Lexer, typed: seq<string>, args: seq<string>)
    requires AtLineStart(l) && args != [] && forall i :: 0 <= i < |typed| ==> OrdinaryWord(typed[i])
    ensures Run(l, Typed(typed) + ShellQuoteArgs(args)) ==
            l.(words := typed + args[..|args| - 1], word := Some(args[|args| - 1]))
  {
    var l1 := l.(words := typed);
    RunTyped(l, typed);
    assert l.words + typed == typed;
    RunArgs(l1, args);
    Then(l, Typed(typed), l1, ShellQuoteArgs(args),
         l.(words := typed + args[..|args| - 1], word := Some(args[|args| - 1])));
  }

  /** ShellQuoteArgs round trip: the shell reads back exactly the arguments. */
  lemma QuoteArgsRoundTrip(args: seq<string>)
    ensures Parse(ShellQuoteArgs(args) + "\n") == Some(if args == [] then [] else [Command(args, None)])
  {
    if args == [] {
      assert "" + "\n" == "\n";
      RunSnoc(START, "", '\n');
    } else {
      RunArgs(START, args);
      RunSnoc(START, ShellQuoteArgs(args), '\n');
      assert [] + args[..|args| - 1] + [args[|args| - 1]] == args;
      assert [] + [Command(args, None)] == [Command(args, None)];
      assert Run(START, ShellQuoteArgs(args) + ['\n']) == START.(done := [Command(args, None)]);
    }
  }

  /** Quoting never maps two argument lists to the same text. */
  lemma QuoteArgsInjective(a: seq<string>, b: seq<string>)
    requires ShellQuoteArgs(a) == ShellQuoteArgs(b)
    ensures a == b
  {
    QuoteArgsRoundTrip(a);
    QuoteArgsRoundTrip(b);
  }
}
