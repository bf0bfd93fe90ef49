/**
 Quoting for `sh -c` and for sway, against lexers that undo it.

 The shell lexer follows sections 2.2.1 (escape character), 2.2.2 (single quotes), 2.2.3 (double quotes)
 and 2.3 (token recognition) of the POSIX.1-2017 Shell Command Language. It answers None for text that
 needs anything else: operators, expansions, patterns, comments or an unclosed quote.
 */
module ShellQuote {
  import opened Prelude

  // ---------------------------------------------------------------- the quoting functions

  function QuoteChar(c: char): string {
    if c == '\'' then "'\\''" else [c]
  }

  function QuoteBody(s: string): string {
    if s == [] then [] else QuoteBody(s[..|s| - 1]) + QuoteChar(s[|s| - 1])
  }

  function ShellQuoteOne(s: string): string {
    "'" + QuoteBody(s) + "'"
  }

  function Join(words: seq<string>): string {
    if words == [] then ""
    else if |words| == 1 then words[0]
    else Join(words[..|words| - 1]) + " " + words[|words| - 1]
  }

  function QuotedAll(args: seq<string>): seq<string> {
    seq(|args|, i requires 0 <= i < |args| => ShellQuoteOne(args[i]))
  }

  function ShellQuoteCmdline(args: seq<string>): string {
    Join(QuotedAll(args))
  }

  function SwayChar(c: char): string {
    if c == '"' || c == '\\' then ['\\', c] else [c]
  }

  function SwayBody(s: string): string {
    if s == [] then [] else SwayBody(s[..|s| - 1]) + SwayChar(s[|s| - 1])
  }

  function SwayQuote(s: string): string {
    "\"" + SwayBody(s) + "\""
  }

  // ---------------------------------------------------------------- the loops

  method QuoteOneLoop(s: string) returns (out: string)
    ensures out == ShellQuoteOne(s)
  {
    out := "'";
    for i := 0 to |s|
      invariant out == "'" + QuoteBody(s[..i])
    {
      assert s[..i + 1][..i] == s[..i];
      if s[i] == '\'' {
        out := out + "'\\''";
      } else {
        out := out + [s[i]];
      }
    }
    assert s[..|s|] == s;
    out := out + "'";
  }

  method SwayQuoteLoop(s: string) returns (out: string)
    ensures out == SwayQuote(s)
  {
    out := "\"";
    for i := 0 to |s|
      invariant out == "\"" + SwayBody(s[..i])
    {
      assert s[..i + 1][..i] == s[..i];
      if s[i] == '"' || s[i] == '\\' {
        out := out + ['\\'];
      }
      out := out + [s[i]];
    }
    assert s[..|s|] == s;
    out := out + "\"";
  }

  method QuoteCmdline(args: seq<string>) returns (line: string)
    ensures line == ShellQuoteCmdline(args)
  {
    var words: seq<string> := [];
    for i := 0 to |args|
      invariant words == QuotedAll(args[..i])
    {
      var word := QuoteOneLoop(args[i]);
      words := words + [word];
    }
    assert args[..|args|] == args;
    line := Join(words);
  }

  // ---------------------------------------------------------------- the shell lexer

  /** Where the lexer is: between words, or in a word with or without a quote open. */
  datatype Mode = Between | Bare | Single | Double

  /** Fields recognised so far, and the word being read. */
  datatype Lexing = Lexing(fields: seq<string>, word: string, mode: Mode)

  predicate IsBlank(c: char) { c == ' ' || c == '\t' }

  /** Characters that, unquoted, are operators or start an expansion, a pattern or a comment. */
  predicate IsSpecial(c: char) {
    c in {'|', '&', ';', '<', '>', '(', ')', '$', '`', '*', '?', '[', '#', '~', '=', '%', '\n'}
  }

  function InWord(st: Lexing, c: char): Lexing {
    Lexing(st.fields, (if st.mode == Between then "" else st.word) + [c], if st.mode == Between then Bare else st.mode)
  }

  function Opened(st: Lexing, mode: Mode): Lexing {
    Lexing(st.fields, if st.mode == Between then "" else st.word, mode)
  }

  function Lex(s: string, st: Lexing): Option<seq<string>> {
    if s == [] then
      match st.mode
      case Between => Some(st.fields)
      case Bare => Some(st.fields + [st.word])
      case _ => None
    else
      var c := s[0];
      match st.mode
      case Single =>
        if c == '\'' then Lex(s[1..], st.(mode := Bare)) else Lex(s[1..], InWord(st, c))
      case Double =>
        if c == '"' then Lex(s[1..], st.(mode := Bare))
        else if c == '$' || c == '`' then None
        else if c != '\\' then Lex(s[1..], InWord(st, c))
        else if |s| == 1 then None
        else if s[1] == '\n' then Lex(s[2..], st)
        else if s[1] in {'$', '`', '"', '\\'} then Lex(s[2..], InWord(st, s[1]))
        else Lex(s[1..], InWord(st, c))
      case _ =>
        if IsBlank(c) then Lex(s[1..], if st.mode == Between then st else Lexing(st.fields + [st.word], "", Between))
        else if c == '\'' then Lex(s[1..], Opened(st, Single))
        else if c == '"' then Lex(s[1..], Opened(st, Double))
        else if c == '\\' then
          if |s| == 1 then None
          else if s[1] == '\n' then Lex(s[2..], st)
          else Lex(s[2..], InWord(st, s[1]))
        else if IsSpecial(c) then None
        else Lex(s[1..], InWord(st, c))
  }

  /** The words of a simple command line. */
  function ShellWords(line: string): Option<seq<string>> {
    Lex(line, Lexing([], "", Between))
  }

  // ---------------------------------------------------------------- quoting is undone

  /** In single quotes, a quoted character adds just itself. */
  lemma QuotedChar(c: char, rest: string, fields: seq<string>, word: string)
    ensures Lex(QuoteChar(c) + rest, Lexing(fields, word, Single)) == Lex(rest, Lexing(fields, word + [c], Single))
  {
    var st := Lexing(fields, word, Single);
    var s := QuoteChar(c) + rest;
    if c == '\'' {
      var s1, s3, s4 := s[1..], s[3..], s[4..];
      assert s[0] == '\'' && s1[0] == '\\' && s1[1] == '\'' && s1[2..] == s3 && s3[0] == '\'' && s3[1..] == s4 == rest;
      assert Lex(s, st) == Lex(s1, st.(mode := Bare));
      assert Lex(s1, st.(mode := Bare)) == Lex(s3, Lexing(fields, word + [c], Bare));
      assert Lex(s3, Lexing(fields, word + [c], Bare)) == Lex(s4, Lexing(fields, word + [c], Single));
    } else {
      assert s[0] == c && s[1..] == rest;
    }
  }

  lemma {:induction false} QuotedBody(s: string, rest: string, fields: seq<string>, word: string)
    ensures Lex(QuoteBody(s) + rest, Lexing(fields, word, Single)) == Lex(rest, Lexing(fields, word + s, Single))
  {
    if s == [] {
      assert QuoteBody(s) + rest == rest && word + s == word;
    } else {
      var n := |s| - 1;
      assert QuoteBody(s) + rest == QuoteBody(s[..n]) + (QuoteChar(s[n]) + rest);
      QuotedBody(s[..n], QuoteChar(s[n]) + rest, fields, word);
      QuotedChar(s[n], rest, fields, word + s[..n]);
      assert word + s[..n] + [s[n]] == word + s;
    }
  }

  /** A quoted argument is read as one word, also when it is empty. */
  lemma QuotedOne(s: string, rest: string, fields: seq<string>)
    ensures Lex(ShellQuoteOne(s) + rest, Lexing(fields, "", Between)) == Lex(rest, Lexing(fields, s, Bare))
  {
    var line := ShellQuoteOne(s) + rest;
    assert line[0] == '\'' && line[1..] == QuoteBody(s) + ("'" + rest);
    QuotedBody(s, "'" + rest, fields, "");
    assert "" + s == s;
    var tail := "'" + rest;
    assert tail[0] == '\'' && tail[1..] == rest;
  }

  /** A blank ends the word before it; the next argument follows. */
  lemma NextWord(fields: seq<string>, word: string, next: string, rest: string)
    ensures Lex(" " + (ShellQuoteOne(next) + rest), Lexing(fields, word, Bare))
      == Lex(rest, Lexing(fields + [word], next, Bare))
  {
    var tail := " " + (ShellQuoteOne(next) + rest);
    assert tail[0] == ' ' && tail[1..] == ShellQuoteOne(next) + rest;
    QuotedOne(next, rest, fields + [word]);
  }

  lemma JoinLast(args: seq<string>, rest: string)
    requires |args| > 1
    ensures var n := |args| - 1;
      Join(QuotedAll(args)) + rest == Join(QuotedAll(args[..n])) + (" " + (ShellQuoteOne(args[n]) + rest))
  {
    var n := |args| - 1;
    assert QuotedAll(args)[..n] == QuotedAll(args[..n]);
  }

  lemma {:induction false} JoinedWords(args: seq<string>, rest: string)
    requires args != []
    ensures Lex(Join(QuotedAll(args)) + rest, Lexing([], "", Between))
         == Lex(rest, Lexing(args[..|args| - 1], args[|args| - 1], Bare))
  {
    var n := |args| - 1;
    if n == 0 {
      QuotedOne(args[0], rest, []);
      assert args[..0] == [];
    } else {
      JoinLast(args, rest);
      JoinedWords(args[..n], " " + (ShellQuoteOne(args[n]) + rest));
      assert args[..n][..n - 1] == args[..n - 1] && args[..n - 1] + [args[n - 1]] == args[..n];
      NextWord(args[..n - 1], args[n - 1], args[n], rest);
    }
  }

  /** The shell reads back exactly the arguments that were quoted: any number of them, with any
      characters, empty ones included. */
  lemma {:induction false} ShellReadsBackTheArguments(args: seq<string>)
    ensures ShellWords(ShellQuoteCmdline(args)) == Some(args)
  {
    if args == [] {
      assert QuotedAll(args) == [];
    } else {
      var line := ShellQuoteCmdline(args);
      assert line + "" == line;
      JoinedWords(args, "");
      assert args[..|args| - 1] + [args[|args| - 1]] == args;
    }
  }

  // ---------------------------------------------------------------- sway

  /** The text between double quotes, a backslash taking the next character as it is. */
  function SwayInside(s: string, word: string): Option<string> {
    if s == [] then None
    else if s[0] == '"' then (if |s| == 1 then Some(word) else None)
    else if s[0] == '\\' then (if |s| == 1 then None else SwayInside(s[2..], word + [s[1]]))
    else SwayInside(s[1..], word + [s[0]])
  }

  function SwayUnquote(s: string): Option<string> {
    if s == [] || s[0] != '"' then None else SwayInside(s[1..], "")
  }

  lemma {:induction false} SwayBodyBack(s: string, rest: string, word: string)
    ensures SwayInside(SwayBody(s) + rest, word) == SwayInside(rest, word + s)
  {
    if s == [] {
      assert SwayBody(s) + rest == rest && word + s == word;
    } else {
      var n := |s| - 1;
      var tail := SwayChar(s[n]) + rest;
      assert SwayBody(s) + rest == SwayBody(s[..n]) + tail;
      SwayBodyBack(s[..n], tail, word);
      assert word + s[..n] + [s[n]] == word + s;
      if |SwayChar(s[n])| == 2 {
        assert tail[0] == '\\' && tail[1] == s[n] && tail[2..] == rest;
      } else {
        assert tail[0] == s[n] && tail[1..] == rest;
      }
    }
  }

  /** Sway reads back exactly the name that was quoted. */
  lemma {:induction false} SwayReadsBackTheName(s: string)
    ensures SwayUnquote(SwayQuote(s)) == Some(s)
  {
    var line := SwayQuote(s);
    assert line[0] == '"' && line[1..] == SwayBody(s) + "\"";
    SwayBodyBack(s, "\"", "");
    assert "" + s == s;
  }
}
