/** A grammar of argument strings, independent of the automaton that splits them. */
module CmdGrammar {
  import opened Wrappers
  import opened Text
  import opened CmdArgs

  /** A piece of a double-quoted body: a character that stands for itself, or an escaped one. */
  datatype Unit = Bare(c: char) | Slashed(c: char)

  datatype Token = Blank(c: char) | Plain(c: char) | Escaped(c: char) | Single(body: string) | Double(units: seq<Unit>)

  predicate IsSpecial(c: char) { c == '\\' || c == '\'' || c == '"' }

  predicate ValidUnit(u: Unit) { u.Bare? ==> u.c != '"' && u.c != '\\' }

  predicate Valid(t: Token) {
    match t
    case Blank(c) => IsSpace(c)
    case Plain(c) => !IsSpace(c) && !IsSpecial(c)
    case Escaped(_) => true
    case Single(body) => '\'' !in body
    case Double(units) => forall u :: u in units ==> ValidUnit(u)
  }

  // ----- Spelling and meaning

  function SpellUnits(us: seq<Unit>): string {
    if us == [] then ""
    else (if us[0].Bare? then [us[0].c] else ['\\', us[0].c]) + SpellUnits(us[1..])
  }

  function SpellToken(t: Token): string {
    match t
    case Blank(c) => [c]
    case Plain(c) => [c]
    case Escaped(c) => ['\\', c]
    case Single(body) => ['\''] + body + ['\'']
    case Double(units) => ['"'] + SpellUnits(units) + ['"']
  }

  function Spell(ts: seq<Token>): string {
    if ts == [] then "" else SpellToken(ts[0]) + Spell(ts[1..])
  }

  function UnitsValue(us: seq<Unit>): string {
    if us == [] then "" else [us[0].c] + UnitsValue(us[1..])
  }

  /** What a token that is no blank adds to the argument it belongs to. */
  function Value(t: Token): string
    requires !t.Blank?
  {
    match t
    case Plain(c) => [c]
    case Escaped(c) => [c]
    case Single(body) => body
    case Double(units) => UnitsValue(units)
  }

  /** Blanks separate arguments; empty ones are dropped. */
  function Arguments(word: string, ts: seq<Token>): seq<string>
    decreases |ts|
  {
    if ts == [] then Flushed([], word)
    else if ts[0].Blank? then Flushed([], word) + Arguments("", ts[1..])
    else Arguments(word + Value(ts[0]), ts[1..])
  }

  predicate Derives(ts: seq<Token>, s: string) {
    (forall t :: t in ts ==> Valid(t)) && Spell(ts) == s
  }

  // ----- The automaton reads what the grammar spells

  const DOUBLE := Mode(Some('"'), false)

  lemma {:induction false} SingleReads(word: string, body: string, rest: string)
    requires '\'' !in body
    ensures Lex(QUOTED, body + ['\''] + rest) == Lex(START, rest)
    ensures Words(QUOTED, word, body + ['\''] + rest) == Words(START, word + body, rest)
    decreases |body|
  {
    var s := body + ['\''] + rest;
    if body == "" {
      assert s[1..] == rest && word + body == word;
    } else {
      var tail := body[1..];
      assert s[0] == body[0] && s[1..] == tail + ['\''] + rest;
      SingleReads(word + [body[0]], tail, rest);
      assert word + [body[0]] + tail == word + body;
    }
  }

  lemma {:induction false} DoubleReads(word: string, us: seq<Unit>, rest: string)
    requires forall u :: u in us ==> ValidUnit(u)
    ensures Lex(DOUBLE, SpellUnits(us) + ['"'] + rest) == Lex(START, rest)
    ensures Words(DOUBLE, word, SpellUnits(us) + ['"'] + rest) == Words(START, word + UnitsValue(us), rest)
    decreases |us|
  {
    hide Lex, Words;
    var s := SpellUnits(us) + ['"'] + rest;
    if us == [] {
      ClosingReads(word, rest);
      assert s == ['"'] + rest && word + UnitsValue(us) == word;
    } else {
      var c, tail := us[0].c, SpellUnits(us[1..]) + ['"'] + rest;
      assert ValidUnit(us[0]);
      DoubleReads(word + [c], us[1..], rest);
      assert word + [c] + UnitsValue(us[1..]) == word + UnitsValue(us);
      if us[0].Bare? {
        BareReads(word, c, tail);
        assert s == [c] + tail;
      } else {
        EscapedReads(DOUBLE, word, c, tail);
        assert s == ['\\', c] + tail;
      }
    }
  }

  lemma ClosingReads(word: string, rest: string)
    ensures Lex(DOUBLE, ['"'] + rest) == Lex(START, rest) && Words(DOUBLE, word, ['"'] + rest) == Words(START, word, rest)
  {
    var s := ['"'] + rest;
    assert s[0] == '"' && s[1..] == rest;
    assert NextMode(DOUBLE, '"') == START;
  }

  lemma BareReads(word: string, c: char, rest: string)
    requires c != '"' && c != '\\'
    ensures Lex(DOUBLE, [c] + rest) == Lex(DOUBLE, rest)
    ensures Words(DOUBLE, word, [c] + rest) == Words(DOUBLE, word + [c], rest)
  {
    var s := [c] + rest;
    assert s[0] == c && s[1..] == rest;
    assert NextMode(DOUBLE, c) == DOUBLE;
  }

  lemma PlainReads(word: string, c: char, rest: string)
    requires !IsSpecial(c)
    ensures Lex(START, [c] + rest) == Lex(START, rest)
    ensures Words(START, word, [c] + rest)
         == if IsSpace(c) then Flushed([], word) + Words(START, "", rest) else Words(START, word + [c], rest)
  {
    var s := [c] + rest;
    assert s[0] == c && s[1..] == rest;
    assert NextMode(START, c) == START;
  }

  lemma OpeningReads(word: string, q: char, rest: string)
    requires q == '\'' || q == '"'
    ensures var m := Mode(Some(q), false);
            Lex(START, [q] + rest) == Lex(m, rest) && Words(START, word, [q] + rest) == Words(m, word, rest)
  {
    var s := [q] + rest;
    assert s[0] == q && s[1..] == rest;
    assert NextMode(START, q) == Mode(Some(q), false) && !Separates(START, q);
  }

  lemma EscapedReads(m: Mode, word: string, c: char, rest: string)
    requires m == START || m == DOUBLE
    ensures Lex(m, ['\\', c] + rest) == Lex(m, rest)
    ensures Words(m, word, ['\\', c] + rest) == Words(m, word + [c], rest)
  {
    var s, e := ['\\', c] + rest, m.(escaped := true);
    assert s[0] == '\\' && s[1..] == [c] + rest && ([c] + rest)[1..] == rest;
    assert NextMode(m, '\\') == e && NextMode(e, c) == m;
    assert Lex(m, s) == Lex(e, [c] + rest) && Words(m, word, s) == Words(e, word, [c] + rest);
  }

  lemma TokenReads(word: string, t: Token, rest: string)
    requires Valid(t)
    ensures Lex(START, SpellToken(t) + rest) == Lex(START, rest)
    ensures Words(START, word, SpellToken(t) + rest)
         == if t.Blank? then Flushed([], word) + Words(START, "", rest) else Words(START, word + Value(t), rest)
  {
    hide Lex, Words;
    var s := SpellToken(t) + rest;
    match t {
      case Blank(c) => PlainReads(word, c, rest);
      case Plain(c) => PlainReads(word, c, rest);
      case Escaped(c) => EscapedReads(START, word, c, rest);
      case Single(body) =>
        assert s == ['\''] + (body + ['\''] + rest);
        OpeningReads(word, '\'', body + ['\''] + rest);
        SingleReads(word, body, rest);
      case Double(units) =>
        assert s == ['"'] + (SpellUnits(units) + ['"'] + rest);
        OpeningReads(word, '"', SpellUnits(units) + ['"'] + rest);
        DoubleReads(word, units, rest);
    }
  }

  lemma {:induction false} SpellingReads(word: string, ts: seq<Token>)
    requires forall t :: t in ts ==> Valid(t)
    ensures Lex(START, Spell(ts)) == START && Words(START, word, Spell(ts)) == Arguments(word, ts)
    decreases |ts|
  {
    if ts != [] {
      TokenReads(word, ts[0], Spell(ts[1..]));
      SpellingReads(if ts[0].Blank? then "" else word + Value(ts[0]), ts[1..]);
    }
  }

  // ----- What the automaton accepts has a spelling

  /** An open single quote that ends well has a closing one. */
  lemma {:induction false} SingleCloses(s: string) returns (body: string, rest: string)
    requires Lex(QUOTED, s) == START
    ensures s == body + ['\''] + rest && '\'' !in body && Lex(START, rest) == START
    decreases |s|
  {
    if s[0] == '\'' {
      body, rest := "", s[1..];
    } else {
      body, rest := SingleCloses(s[1..]);
      body := [s[0]] + body;
    }
  }

  lemma {:induction false} DoubleCloses(s: string) returns (us: seq<Unit>, rest: string)
    requires Lex(DOUBLE, s) == START
    ensures s == SpellUnits(us) + ['"'] + rest && (forall u :: u in us ==> ValidUnit(u)) && Lex(START, rest) == START
    decreases |s|
  {
    if s[0] == '"' {
      us, rest := [], s[1..];
    } else {
      var u: Unit;
      if s[0] == '\\' {
        EscapedHasNext(DOUBLE, s);
        u := Slashed(s[1]);
        us, rest := DoubleCloses(s[2..]);
      } else {
        u := Bare(s[0]);
        us, rest := DoubleCloses(s[1..]);
      }
      assert ([u] + us)[1..] == us;
      us := [u] + us;
    }
  }

  lemma EscapedHasNext(m: Mode, s: string)
    requires (m == START || m == DOUBLE) && s != "" && s[0] == '\\' && Lex(m, s) == START
    ensures |s| > 1 && Lex(m, s[2..]) == START
  {
    assert NextMode(m, s[0]) == m.(escaped := true);
    assert s[1..] != "";
    assert s[1..][1..] == s[2..];
  }

  lemma {:induction false} SpellingExists(s: string) returns (ts: seq<Token>)
    requires Lex(START, s) == START
    ensures Derives(ts, s)
    decreases |s|
  {
    if s == "" {
      return [];
    }
    var t, rest := Plain(s[0]), s[1..];
    if s[0] == '\\' {
      EscapedHasNext(START, s);
      t, rest := Escaped(s[1]), s[2..];
    } else if s[0] == '\'' {
      var body;
      body, rest := SingleCloses(s[1..]);
      t := Single(body);
    } else if s[0] == '"' {
      var us;
      us, rest := DoubleCloses(s[1..]);
      t := Double(us);
    } else if IsSpace(s[0]) {
      t := Blank(s[0]);
    }
    assert Valid(t) && s == SpellToken(t) + rest;
    ts := SpellingExists(rest);
    assert ([t] + ts)[1..] == ts;
    ts := [t] + ts;
  }

  /** An input is accepted exactly when the grammar derives it, and then the arguments are what
      its tokens mean. So it fails exactly when no sequence of tokens spells it. */
  lemma SplitIffDerivable(s: string)
    ensures CmdArgs.Split(s).Ok? <==> exists ts :: Derives(ts, s)
    ensures forall ts :: Derives(ts, s) ==> CmdArgs.Split(s) == Ok(Arguments("", ts))
  {
    forall ts | Derives(ts, s) ensures CmdArgs.Split(s) == Ok(Arguments("", ts)) {
      SpellingReads("", ts);
    }
    if CmdArgs.Split(s).Ok? {
      var ts := SpellingExists(s);
    }
  }
}
