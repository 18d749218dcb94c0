/** Quoting words for a POSIX shell, against the token recognition of the Shell Command Language
    (sections 2.2 and 2.3 of POSIX.1-2017). */
module Shell {
  import opened Common

  // ----- Quoting -----

  /** Every single quote closes the quotation, is quoted by double quotes, and opens it again. */
  function ReplaceQuotes(value: string): string {
    if value == "" then ""
    else (if value[0] == '\'' then "'\"'\"'" else [value[0]]) + ReplaceQuotes(value[1..])
  }

  /** shellQuote. */
  function ShellQuote(value: string): string {
    if value == "" then "''" else "'" + ReplaceQuotes(value) + "'"
  }

  function JoinQuoted(values: seq<string>): string {
    if values == [] then ""
    else if |values| == 1 then ShellQuote(values[0])
    else ShellQuote(values[0]) + " " + JoinQuoted(values[1..])
  }

  // ----- Tokens -----

  /** A word is live when some of it is open to expansion or recognition as a reserved word: an
      unquoted character, or a dollar sign or backquote within double quotes. */
  datatype Token = Word(text: string, live: bool) | Operator(op: char) | NewLine

  datatype LexError = OpenQuote

  datatype Mode = Outside | InWord | Single | Double

  predicate IsBlank(c: char) { c == ' ' || c == '\t' }

  predicate IsOperator(c: char) { c == ';' || c == '&' || c == '|' || c == '<' || c == '>' || c == '(' || c == ')' }

  /** What a backslash quotes within double quotes. */
  predicate Escapable(c: char) { c == '$' || c == '`' || c == '"' || c == '\\' }

  function Then(tokens: seq<Token>, rest: Result<seq<Token>, LexError>): Result<seq<Token>, LexError> {
    match rest
    case Err(e) => Err(e)
    case Ok(more) => Ok(tokens + more)
  }

  function Closing(mode: Mode, word: string, live: bool): seq<Token> {
    if mode.InWord? then [Word(word, live)] else []
  }

  /** Token recognition with the word read so far. Operators are given character by character. */
  function Lex(s: string, mode: Mode, word: string, live: bool): Result<seq<Token>, LexError>
    decreases |s|
  {
    if s == "" then (if mode.Single? || mode.Double? then Err(OpenQuote) else Ok(Closing(mode, word, live)))
    else
      var c, rest := s[0], s[1..];
      match mode
      case Single => if c == '\'' then Lex(rest, InWord, word, live) else Lex(rest, Single, word + [c], live)
      case Double =>
        if c == '"' then Lex(rest, InWord, word, live)
        else if c == '\\' && rest != "" && Escapable(rest[0]) then Lex(rest[1..], Double, word + [rest[0]], live)
        else if c == '\\' && rest != "" && rest[0] == '\n' then Lex(rest[1..], Double, word, live)
        else Lex(rest, Double, word + [c], live || c == '$' || c == '`')
      case _ =>
        if c == '\'' then Lex(rest, Single, word, live)
        else if c == '"' then Lex(rest, Double, word, live)
        else if c == '\\' && rest != "" then
          (if rest[0] == '\n' then Lex(rest[1..], mode, word, live) else Lex(rest[1..], InWord, word + [rest[0]], live))
        else if IsBlank(c) then Then(Closing(mode, word, live), Lex(rest, Outside, "", false))
        else if c == '\n' then Then(Closing(mode, word, live) + [NewLine], Lex(rest, Outside, "", false))
        else if IsOperator(c) then Then(Closing(mode, word, live) + [Operator(c)], Lex(rest, Outside, "", false))
        else if c == '#' && mode.Outside? then SkipComment(rest)
        else Lex(rest, InWord, word + [c], true)
  }

  function SkipComment(s: string): Result<seq<Token>, LexError>
    decreases |s|
  {
    if s == "" then Ok([])
    else if s[0] == '\n' then Then([NewLine], Lex(s[1..], Outside, "", false))
    else SkipComment(s[1..])
  }

  function Tokens(command: string): Result<seq<Token>, LexError> { Lex(command, Outside, "", false) }

  function Quoted(values: seq<string>): seq<Token> {
    seq(|values|, i requires 0 <= i < |values| => Word(values[i], false))
  }

  // ----- The round trip -----

  /** Within single quotes, the replaced text reads as the text itself. */
  lemma {:induction false} QuotedBody(value: string, rest: string, word: string, live: bool)
    ensures Lex(ReplaceQuotes(value) + "'" + rest, Single, word, live) == Lex(rest, InWord, word + value, live)
    decreases |value|
  {
    if value == "" {
      assert ReplaceQuotes(value) + "'" + rest == "'" + rest;
      assert ("'" + rest)[1..] == rest;
      assert word + value == word;
    } else {
      var tail := ReplaceQuotes(value[1..]) + "'" + rest;
      QuotedBody(value[1..], rest, word + [value[0]], live);
      assert word + [value[0]] + value[1..] == word + value;
      if value[0] == '\'' {
        OneQuote(tail, word, live);
        assert ReplaceQuotes(value) + "'" + rest == "'\"'\"'" + tail;
      } else {
        var s := ReplaceQuotes(value) + "'" + rest;
        assert s == [value[0]] + tail;
        assert s[0] == value[0] && s[1..] == tail;
      }
    }
  }

  lemma OneQuote(tail: string, word: string, live: bool)
    ensures Lex("'\"'\"'" + tail, Single, word, live) == Lex(tail, Single, word + ['\''], live)
  {
    var s0 := "'\"'\"'" + tail;
    var s1 := "\"'\"'" + tail;
    var s2 := "'\"'" + tail;
    var s3 := "\"'" + tail;
    var s4 := "'" + tail;
    assert s0[1..] == s1 && s1[1..] == s2 && s2[1..] == s3 && s3[1..] == s4 && s4[1..] == tail;
    assert Lex(s0, Single, word, live) == Lex(s1, InWord, word, live);
    assert Lex(s1, InWord, word, live) == Lex(s2, Double, word, live);
    assert Lex(s2, Double, word, live) == Lex(s3, Double, word + ['\''], live);
    assert Lex(s3, Double, word + ['\''], live) == Lex(s4, InWord, word + ['\''], live);
  }

  /** A quoted word starts a word and reads as the word itself, with nothing left to expand. */
  lemma QuotedWord(value: string, rest: string)
    ensures Lex(ShellQuote(value) + rest, Outside, "", false) == Lex(rest, InWord, value, false)
  {
    var body := ReplaceQuotes(value) + "'" + rest;
    assert ShellQuote(value) + rest == "'" + body;
    assert ("'" + body)[0] == '\'' && ("'" + body)[1..] == body;
    QuotedBody(value, rest, "", false);
    assert "" + value == value;
  }

  /** Whatever the strings, the joined quotations are read as exactly these strings, one word each,
      and no part of them is open to expansion. */
  lemma {:induction false} QuotedListRoundTrip(values: seq<string>)
    ensures Tokens(JoinQuoted(values)) == Ok(Quoted(values))
    decreases |values|
  {
    hide ShellQuote;
    if |values| == 1 {
      assert ShellQuote(values[0]) + "" == ShellQuote(values[0]);
      QuotedWord(values[0], "");
      assert Quoted(values) == [Word(values[0], false)];
    } else if |values| > 1 {
      var later := JoinQuoted(values[1..]);
      QuotedListRoundTrip(values[1..]);
      QuotedWord(values[0], " " + later);
      assert ShellQuote(values[0]) + (" " + later) == JoinQuoted(values);
      assert (" " + later)[0] == ' ' && (" " + later)[1..] == later;
      assert Quoted(values) == [Word(values[0], false)] + Quoted(values[1..]);
    }
  }

  // ----- The delayed command -----

  predicate Plain(c: char) { 'a' <= c <= 'z' || '0' <= c <= '9' }

  lemma {:induction false} PlainWord(w: string, rest: string, mode: Mode, word: string, live: bool)
    requires w != "" && (mode.Outside? || mode.InWord?) && forall i :: 0 <= i < |w| ==> Plain(w[i])
    ensures Lex(w + rest, mode, word, live) == Lex(rest, InWord, word + w, true)
    decreases |w|
  {
    var s := w + rest;
    assert s[0] == w[0] && s[1..] == w[1..] + rest;
    assert word + w == word + [w[0]] + w[1..];
    if |w| == 1 {
      assert w[1..] == "" && w[1..] + rest == rest && word + w == word + [w[0]];
      assert Lex(s, mode, word, live) == Lex(s[1..], InWord, word + [w[0]], true);
    } else {
      PlainWord(w[1..], rest, InWord, word + [w[0]], true);
    }
  }

  const PREFIX := "sleep 2; exec "

  /** The command line of startDelayedAndroidCommand: two commands, the second of which is the given
      program with exactly the given arguments. */
  lemma DelayedCommand(program: string, arguments: seq<string>)
    ensures Tokens(PREFIX + JoinQuoted([program] + arguments)) ==
            Ok([Word("sleep", true), Word("2", true), Operator(';'), Word("exec", true)] + Quoted([program] + arguments))
  {
    hide JoinQuoted, Quoted, Then;
    var last := JoinQuoted([program] + arguments);
    var words := Quoted([program] + arguments);
    QuotedListRoundTrip([program] + arguments);
    var run := "exec" + [' '] + last;
    var pause := "2" + [';'] + (" " + run);
    assert PREFIX + last == "sleep" + [' '] + pause;
    AfterWord("exec", ' ', last, [Word("exec", true)]);
    AfterBlank(run);
    AfterWord("2", ';', " " + run, [Word("2", true), Operator(';')]);
    AfterWord("sleep", ' ', pause, [Word("sleep", true)]);
    var ran := [Word("exec", true)] + words;
    var paused := [Word("2", true), Operator(';')] + ran;
    ThenOk([Word("exec", true)], words);
    ThenOk([Word("2", true), Operator(';')], ran);
    ThenOk([Word("sleep", true)], paused);
    assert [Word("sleep", true)] + paused
        == [Word("sleep", true), Word("2", true), Operator(';'), Word("exec", true)] + words;
  }

  lemma ThenOk(tokens: seq<Token>, more: seq<Token>)
    ensures Then(tokens, Ok(more)) == Ok(tokens + more)
  {}

  lemma AfterWord(w: string, c: char, rest: string, tokens: seq<Token>)
    requires w != "" && forall i :: 0 <= i < |w| ==> Plain(w[i])
    requires IsBlank(c) || IsOperator(c)
    requires tokens == [Word(w, true)] + (if IsBlank(c) then [] else [Operator(c)])
    ensures Tokens(w + [c] + rest) == Then(tokens, Tokens(rest))
  {
    var next := [c] + rest;
    assert w + [c] + rest == w + next;
    PlainWord(w, next, Outside, "", false);
    assert next[0] == c && next[1..] == rest;
    assert "" + w == w;
    WordEnds(c, rest, w);
  }

  lemma WordEnds(c: char, rest: string, word: string)
    requires IsBlank(c) || IsOperator(c)
    ensures Lex([c] + rest, InWord, word, true)
            == Then([Word(word, true)] + (if IsBlank(c) then [] else [Operator(c)]), Tokens(rest))
  {
    var s := [c] + rest;
    assert s != "" && s[0] == c && s[1..] == rest;
    assert Closing(InWord, word, true) == [Word(word, true)];
    assert [Word(word, true)] + [] == [Word(word, true)];
  }

  lemma AfterBlank(rest: string)
    ensures Tokens(" " + rest) == Tokens(rest)
  {
    assert (" " + rest)[1..] == rest;
    var t := Tokens(rest);
    if t.Ok? { assert [] + t.value == t.value; }
  }
}
