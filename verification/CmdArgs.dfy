/** Splitting a string of smartctl arguments with quotes and backslash escapes. */
module CmdArgs {
  import opened Wrappers
  import opened Text

  datatype SplitError = TrailingEscape | UnterminatedQuote(quote: char)

  /** What the next character means: literally, inside quotes (`quote`), or plainly. */
  datatype Mode = Mode(quote: Option<char>, escaped: bool)

  /** The lexical state after reading `s`, regardless of the arguments found. */
  function Lex(m: Mode, s: string): Mode
    decreases |s|
  {
    if s == [] then m else Lex(NextMode(m, s[0]), s[1..])
  }

  function NextMode(m: Mode, c: char): Mode {
    if m.escaped then m.(escaped := false)
    else if c == '\\' && m.quote != Some('\'') then m.(escaped := true)
    else if m.quote.Some? then (if m.quote == Some(c) then Mode(None, false) else m)
    else if c == '\'' || c == '"' then Mode(Some(c), false)
    else m
  }

  const START := Mode(None, false)

  /** Does the character end up in an argument, and does it end one? */
  predicate Literal(m: Mode, c: char) {
    m.escaped || (NextMode(m, c) == m && (m.quote.Some? || !IsSpace(c)))
  }

  predicate Separates(m: Mode, c: char) {
    m == START && IsSpace(c)
  }

  function Flushed(args: seq<string>, word: string): seq<string> {
    if word == "" then args else args + [word]
  }

  /** The arguments in `s`, read in mode `m` with `word` already begun. */
  function Words(m: Mode, word: string, s: string): seq<string>
    decreases |s|
  {
    if s == [] then Flushed([], word)
    else if Separates(m, s[0]) then Flushed([], word) + Words(m, "", s[1..])
    else Words(NextMode(m, s[0]), if Literal(m, s[0]) then word + [s[0]] else word, s[1..])
  }

  function Split(s: string): Result<seq<string>, SplitError> {
    var m := Lex(START, s);
    if m.escaped then Err(TrailingEscape)
    else if m.quote.Some? then Err(UnterminatedQuote(m.quote.value))
    else Ok(Words(START, "", s))
  }

  /** The loop over the input with its mutable argument list, word, quote and escape flag. */
  method SplitCommandArgs(input: string) returns (r: Result<seq<string>, SplitError>)
    ensures r == Split(input)
  {
    var args: seq<string> := [];
    var value := "";
    var quote: Option<char> := None;
    var escaped := false;
    for i := 0 to |input|
      invariant Lex(START, input) == Lex(Mode(quote, escaped), input[i..])
      invariant Words(START, "", input) == args + Words(Mode(quote, escaped), value, input[i..])
    {
      var c := input[i];
      assert input[i..][0] == c && input[i..][1..] == input[i + 1..];
      if escaped {
        value := value + [c];
        escaped := false;
      } else if c == '\\' && quote != Some('\'') {
        escaped := true;
      } else if quote.Some? {
        if Some(c) == quote {
          quote := None;
        } else {
          value := value + [c];
        }
      } else if c == '\'' || c == '"' {
        quote := Some(c);
      } else if IsSpace(c) {
        if value != "" {
          args := args + [value];
          value := "";
        }
      } else {
        value := value + [c];
      }
    }
    assert input[|input|..] == [];
    assert Words(START, "", input) == Flushed(args, value) by {
      assert args + [] == args && args + ([] + [value]) == args + [value];
    }
    if escaped {
      return Err(TrailingEscape);
    }
    if quote.Some? {
      return Err(UnterminatedQuote(quote.value));
    }
    if value != "" {
      args := args + [value];
    }
    return Ok(args);
  }

  // ----- Properties

  lemma {:induction false} WordsNotEmpty(m: Mode, word: string, s: string)
    ensures "" !in Words(m, word, s)
    decreases |s|
  {
    if s != [] {
      if Separates(m, s[0]) {
        WordsNotEmpty(m, "", s[1..]);
      } else {
        WordsNotEmpty(NextMode(m, s[0]), if Literal(m, s[0]) then word + [s[0]] else word, s[1..]);
      }
    }
  }

  /** No argument is ever empty. */
  lemma NoEmptyArgument(s: string)
    requires Split(s).Ok?
    ensures "" !in Split(s).value
  {
    WordsNotEmpty(START, "", s);
  }

  lemma {:induction false} LexConcat(m: Mode, a: string, b: string)
    ensures Lex(m, a + b) == Lex(Lex(m, a), b)
    decreases |a|
  {
    if a == [] {
      assert a + b == b;
    } else {
      assert (a + b)[1..] == a[1..] + b;
      LexConcat(NextMode(m, a[0]), a[1..], b);
    }
  }

  lemma {:induction false} WordsConcat(m: Mode, word: string, a: string, b: string)
    requires Lex(m, a) == START
    ensures Words(m, word, a + " " + b) == Words(m, word, a) + Words(START, "", b)
    decreases |a|
  {
    var s := a + " " + b;
    if a == [] {
      assert s == " " + b && s[0] == ' ' && s[1..] == b;
    } else {
      assert s[1..] == a[1..] + " " + b;
      if Separates(m, a[0]) {
        WordsConcat(m, "", a[1..], b);
      } else {
        WordsConcat(NextMode(m, a[0]), if Literal(m, a[0]) then word + [a[0]] else word, a[1..], b);
      }
    }
  }

  /** Joining two inputs with a blank joins their arguments, and it fails only as `b` does. */
  lemma SplitConcat(a: string, b: string)
    requires Split(a).Ok?
    ensures Split(a + " " + b) == match Split(b) case Ok(w) => Ok(Split(a).value + w) case Err(e) => Err(e)
  {
    WordsConcat(START, "", a, b);
    LexConcat(START, a + " ", b);
    LexConcat(START, a, " ");
    assert Lex(START, " ") == START;
  }

  /** A failure means the input stops too early: a trailing backslash, or a quote whose closing
      character makes the same input acceptable. */
  lemma FailureMeansUnfinished(s: string)
    requires Split(s).Err?
    ensures Split(s).error.TrailingEscape? ==> s != "" && s[|s| - 1] == '\\'
    ensures Split(s).error.UnterminatedQuote? ==>
              Split(s).error.quote in {'\'', '"'} && Split(s + [Split(s).error.quote]).Ok?
  {
    OpenQuoteIsQuote(START, s);
    if Lex(START, s).escaped {
      var n := |s| - 1;
      assert s == s[..n] + [s[n]];
      LexConcat(START, s[..n], [s[n]]);
      assert Lex(START, s) == NextMode(Lex(START, s[..n]), s[n]);
    } else {
      var q := Lex(START, s).quote.value;
      LexConcat(START, s, [q]);
      assert Lex(START, s + [q]) == NextMode(Lex(START, s), q);
    }
  }

  lemma {:induction false} OpenQuoteIsQuote(m: Mode, s: string)
    requires m.quote.None? || m.quote.value in {'\'', '"'}
    ensures Lex(m, s).quote.None? || Lex(m, s).quote.value in {'\'', '"'}
    decreases |s|
  {
    if s != [] {
      OpenQuoteIsQuote(NextMode(m, s[0]), s[1..]);
    }
  }

  // ----- Printers

  /** A backslash before every character. */
  function Escape(arg: string): string {
    if arg == "" then "" else ['\\', arg[0]] + Escape(arg[1..])
  }

  /** Single quotes around the text; a single quote becomes close, escaped quote, reopen. */
  function QuoteBody(arg: string): string {
    if arg == "" then "'"
    else (if arg[0] == '\'' then "'\\''" else [arg[0]]) + QuoteBody(arg[1..])
  }

  function Quote(arg: string): string { "'" + QuoteBody(arg) }

  function Print(args: seq<string>, print1: string -> string): string {
    if args == [] then ""
    else if |args| == 1 then print1(args[0])
    else print1(args[0]) + " " + Print(args[1..], print1)
  }

  lemma {:induction false} EscapeReads(word: string, arg: string)
    ensures Lex(START, Escape(arg)) == START
    ensures Words(START, word, Escape(arg)) == Flushed([], word + arg)
    decreases |arg|
  {
    if arg == "" {
      assert word + arg == word;
    } else {
      var s := Escape(arg);
      assert s[1..][1..] == Escape(arg[1..]);
      assert NextMode(START, s[0]) == Mode(None, true);
      assert NextMode(Mode(None, true), s[1]) == START;
      EscapeReads(word + [arg[0]], arg[1..]);
      assert word + [arg[0]] + arg[1..] == word + arg;
      assert Words(START, word, s) == Words(Mode(None, true), word, s[1..]);
    }
  }

  const QUOTED := Mode(Some('\''), false)

  lemma {:induction false} QuoteReads(word: string, arg: string)
    ensures Lex(QUOTED, QuoteBody(arg)) == START
    ensures Words(QUOTED, word, QuoteBody(arg)) == Flushed([], word + arg)
    decreases |arg|
  {
    var s := QuoteBody(arg);
    if arg == "" {
      assert word + arg == word;
      assert s[1..] == [];
    } else {
      QuoteReads(word + [arg[0]], arg[1..]);
      assert word + [arg[0]] + arg[1..] == word + arg;
      if arg[0] == '\'' {
        QuotedQuote(word, QuoteBody(arg[1..]));
      } else {
        assert s[0] == arg[0] && s[1..] == QuoteBody(arg[1..]);
      }
    }
  }

  lemma QuotedQuote(word: string, rest: string)
    ensures Lex(QUOTED, "'\\''" + rest) == Lex(QUOTED, rest)
    ensures Words(QUOTED, word, "'\\''" + rest) == Words(QUOTED, word + "'", rest)
  {
    var s := "'\\''" + rest;
    var s1, s2, s3 := "\\''" + rest, "''" + rest, "'" + rest;
    assert s[0] == '\'' && s[1..] == s1;
    assert s1[0] == '\\' && s1[1..] == s2;
    assert s2[0] == '\'' && s2[1..] == s3;
    assert s3[0] == '\'' && s3[1..] == rest;
    var e := Mode(None, true);
    assert NextMode(QUOTED, '\'') == START && NextMode(START, '\\') == e;
    assert NextMode(e, '\'') == START && NextMode(START, '\'') == QUOTED;
    assert Lex(QUOTED, s) == Lex(START, s1) == Lex(e, s2) == Lex(START, s3) == Lex(QUOTED, rest);
    assert Words(QUOTED, word, s) == Words(START, word, s1) == Words(e, word, s2);
    assert Words(e, word, s2) == Words(START, word + ['\''], s3) == Words(QUOTED, word + ['\''], rest);
  }

  lemma {:induction false} PrintReads(args: seq<string>, print1: string -> string)
    requires "" !in args
    requires forall a :: a in args ==> Split(print1(a)) == Ok([a])
    ensures Split(Print(args, print1)) == Ok(args)
  {
    if |args| > 1 {
      PrintReads(args[1..], print1);
      SplitConcat(print1(args[0]), Print(args[1..], print1));
      assert [args[0]] + args[1..] == args;
    } else if |args| == 1 {
      assert args == [args[0]];
    }
  }

  /** Escaping every character is undone by splitting, for every list of non-empty arguments. */
  lemma EscapeRoundTrip(args: seq<string>)
    requires "" !in args
    ensures Split(Print(args, Escape)) == Ok(args)
  {
    forall a | a in args ensures Split(Escape(a)) == Ok([a]) {
      EscapeReads("", a);
      assert "" + a == a && Flushed([], a) == [a];
    }
    PrintReads(args, Escape);
  }

  /** So is single-quoting, quotes inside the arguments included. */
  lemma QuoteRoundTrip(args: seq<string>)
    requires "" !in args
    ensures Split(Print(args, Quote)) == Ok(args)
  {
    forall a | a in args ensures Split(Quote(a)) == Ok([a]) {
      QuoteReads("", a);
      assert "" + a == a && Flushed([], a) == [a];
      assert Quote(a)[1..] == QuoteBody(a);
      assert NextMode(START, '\'') == QUOTED;
    }
    PrintReads(args, Quote);
  }
}
