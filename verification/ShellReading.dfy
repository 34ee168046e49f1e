/** The tokenizer reads every command of the grammar as it is meant, and refuses what it should. */
module ShellReading {
  import opened Common
  import opened ShellTokens
  import G = ShellGrammar

  /** The text so far has ended outside quotes and escapes. */
  predicate Outside(inside: Inside) { inside.Bare? || inside.QuoteSeen? }

  /** Ready for a further piece of the open word. */
  predicate Open(s: State) { s.phase.In? && Outside(s.phase.inside) }

  // ----- Inside quotes

  function InQuotes(s: State, delimiter: char, value: string, pos: nat): State
    requires s.phase.In?
  {
    State(s.tokens, In(s.phase.start, value, Quoted(delimiter)), pos)
  }

  lemma {:induction false} RunTwo(shell: Shell, s: State, c: char, d: char)
    ensures Run(shell, s, [c, d]) == Then(shell, Step(shell, s, c), [d])
  {
    assert [c, d] == [c] + [d];
    RunHead(shell, s, c, [d]);
  }

  lemma {:induction false} RunUnit(shell: Shell, s: State, delimiter: char, value: string, pos: nat, u: G.Unit)
    requires s.phase.In? && G.IsDelimiter(shell, delimiter) && G.LegalUnit(shell, delimiter, u)
    ensures Run(shell, InQuotes(s, delimiter, value, pos), G.PrintUnit(shell, delimiter, u)) ==
            Ok(InQuotes(s, delimiter, value + [G.UnitMeaning(u)], pos + |G.PrintUnit(shell, delimiter, u)|))
  {
    var open := InQuotes(s, delimiter, value, pos);
    match u {
      case Literal(c) => RunOne(shell, open, c);
      case Escape(c) =>
        var e := G.Escaper(shell);
        RunTwo(shell, open, e, c);
        var pending := State(s.tokens, In(s.phase.start, value, QuotedEscape(delimiter)), pos + 1);
        RunOne(shell, pending, c);
      case Doubled =>
        RunTwo(shell, open, delimiter, delimiter);
        RunOne(shell, State(s.tokens, In(s.phase.start, value, QuoteSeen), pos + 1), delimiter);
    }
  }

  lemma {:induction false} RunUnits(shell: Shell, s: State, delimiter: char, value: string, pos: nat, us: seq<G.Unit>)
    requires s.phase.In? && G.IsDelimiter(shell, delimiter) && G.LegalUnits(shell, delimiter, us)
    ensures Run(shell, InQuotes(s, delimiter, value, pos), G.PrintUnits(shell, delimiter, us)) ==
            Ok(InQuotes(s, delimiter, value + G.UnitsMeaning(us), pos + |G.PrintUnits(shell, delimiter, us)|))
    decreases |us|
  {
    if us == [] {
      assert value + "" == value;
    } else {
      var first, rest := G.PrintUnit(shell, delimiter, us[0]), G.PrintUnits(shell, delimiter, us[1..]);
      assert us[0] in us;
      RunUnit(shell, s, delimiter, value, pos, us[0]);
      RunConcat(shell, InQuotes(s, delimiter, value, pos), first, rest);
      RunUnits(shell, s, delimiter, value + [G.UnitMeaning(us[0])], pos + |first|, us[1..]);
      Associative(value, [G.UnitMeaning(us[0])], G.UnitsMeaning(us[1..]));
    }
  }

  // ----- Pieces and words

  /** How a piece leaves the word: a PowerShell single quote is seen before it is known to be the last. */
  function After(shell: Shell, p: G.Piece): Inside {
    if shell == PowerShell && p.Quote? && p.delimiter == '\'' then QuoteSeen else Bare
  }

  /** The piece may stand where the word is. */
  predicate Fits(s: State, p: G.Piece) {
    Open(s) && (s.phase.inside.QuoteSeen? ==> !(p.Quote? && p.delimiter == '\'') && p != G.Plain('\''))
  }

  /** A character that is no single quote goes on where a quoted piece was closed, as in a bare word. */
  lemma {:induction false} StepOpen(shell: Shell, s: State, c: char)
    requires Open(s) && (s.phase.inside.QuoteSeen? ==> c != '\'')
    ensures Step(shell, s, c) == StepBare(shell, s, s.phase.start, s.phase.value, c)
  {
  }

  lemma {:induction false} RunPiece(shell: Shell, s: State, p: G.Piece)
    requires G.LegalPiece(shell, p) && Fits(s, p)
    ensures var text := G.PrintPiece(shell, p);
            Run(shell, s, text) ==
            Ok(State(s.tokens, In(s.phase.start, s.phase.value + G.PieceMeaning(p), After(shell, p)), s.pos + |text|))
  {
    match p {
      case Plain(c) =>
        StepOpen(shell, s, c);
        RunOne(shell, s, c);
      case Escaped(c) =>
        StepOpen(shell, s, G.Escaper(shell));
        RunTwo(shell, s, G.Escaper(shell), c);
        RunOne(shell, State(s.tokens, In(s.phase.start, s.phase.value, BareEscape), s.pos + 1), c);
      case Quote(delimiter, units) => RunQuote(shell, s, delimiter, units);
    }
  }

  lemma {:induction false} RunQuote(shell: Shell, s: State, delimiter: char, units: seq<G.Unit>)
    requires G.LegalPiece(shell, G.Quote(delimiter, units)) && Fits(s, G.Quote(delimiter, units))
    ensures var p := G.Quote(delimiter, units);
            var text := G.PrintPiece(shell, p);
            Run(shell, s, text) ==
            Ok(State(s.tokens, In(s.phase.start, s.phase.value + G.UnitsMeaning(units), After(shell, p)), s.pos + |text|))
  {
    var inside := G.PrintUnits(shell, delimiter, units);
    var open := InQuotes(s, delimiter, s.phase.value, s.pos + 1);
    StepOpen(shell, s, delimiter);
    RunHead(shell, s, delimiter, inside + [delimiter]);
    RunUnits(shell, s, delimiter, s.phase.value, s.pos + 1, units);
    RunConcat(shell, open, inside, [delimiter]);
    RunOne(shell, InQuotes(s, delimiter, s.phase.value + G.UnitsMeaning(units), s.pos + 1 + |inside|), delimiter);
  }

  /** A list of pieces that may stand where the word is. */
  predicate AllFit(shell: Shell, s: State, ps: seq<G.Piece>) {
    G.LegalPieces(shell, ps) && Open(s) && (ps != [] ==> Fits(s, ps[0]))
  }

  /** The word after the pieces. */
  predicate ReadOn(s: State, t: State, value: string, length: nat)
    requires s.phase.In?
  {
    && Open(t) && t.tokens == s.tokens && t.phase.start == s.phase.start
    && t.phase.value == s.phase.value + value && t.pos == s.pos + length
  }

  lemma {:induction false} RunPieces(shell: Shell, s: State, ps: seq<G.Piece>)
    requires AllFit(shell, s, ps)
    ensures Run(shell, s, G.PrintPieces(shell, ps)).Ok?
    ensures ReadOn(s, Run(shell, s, G.PrintPieces(shell, ps)).value, G.Meaning(ps), |G.PrintPieces(shell, ps)|)
    decreases |ps|
  {
    if ps == [] {
      assert s.phase.value + "" == s.phase.value;
    } else {
      var first, rest := G.PrintPiece(shell, ps[0]), G.PrintPieces(shell, ps[1..]);
      assert ps[0] in ps;
      RunPiece(shell, s, ps[0]);
      RunConcat(shell, s, first, rest);
      var t := Run(shell, s, first).value;
      NextFits(shell, t, ps);
      RunPieces(shell, t, ps[1..]);
      Associative(s.phase.value, G.PieceMeaning(ps[0]), G.Meaning(ps[1..]));
    }
  }

  lemma {:induction false} NextFits(shell: Shell, t: State, ps: seq<G.Piece>)
    requires ps != [] && G.LegalPieces(shell, ps) && t.phase.In? && t.phase.inside == After(shell, ps[0])
    ensures AllFit(shell, t, ps[1..])
  {
    assert forall p :: p in ps[1..] ==> p in ps;
    assert forall i :: 0 < i < |ps[1..]| ==> ps[1..][i - 1] == ps[i] && ps[1..][i] == ps[i + 1];
    if |ps| > 1 {
      assert G.MayFollow(shell, ps[0], ps[1]) && ps[1] in ps;
    }
  }

  /** A command is read up to here: no word is open, or the open one is complete and not empty. */
  predicate Ready(s: State) { s.phase.Between? || (Open(s) && s.phase.value != "") }

  /** The words read so far, the open one included. */
  function Seen(s: State): seq<string> {
    Values(s.tokens) + (if s.phase.In? then [s.phase.value] else [])
  }

  lemma {:induction false} StepBlank(shell: Shell, s: State, c: char)
    requires Ready(s) && G.IsBlank(c)
    ensures Step(shell, s, c).Ok?
    ensures var t := Step(shell, s, c).value; t.phase.Between? && Values(t.tokens) == Seen(s) && t.pos == s.pos + 1
  {
    if s.phase.In? {
      StepOpen(shell, s, c);
      assert Values(s.tokens + [Token(s.phase.value, s.phase.start, s.pos)]) == Values(s.tokens) + [s.phase.value];
    }
  }

  lemma {:induction false} RunBlank(shell: Shell, s: State, space: string)
    requires Ready(s) && G.Blank(space) && space != ""
    ensures Run(shell, s, space).Ok?
    ensures var t := Run(shell, s, space).value; t.phase.Between? && Values(t.tokens) == Seen(s)
    decreases |space|
  {
    assert space[0] in space;
    StepBlank(shell, s, space[0]);
    if |space| > 1 {
      assert forall c :: c in space[1..] ==> c in space;
      RunBlank(shell, Step(shell, s, space[0]).value, space[1..]);
    }
  }

  lemma {:induction false} FirstIsNoBlank(shell: Shell, ps: seq<G.Piece>)
    requires G.LegalPieces(shell, ps) && ps != []
    ensures var text := G.PrintPieces(shell, ps); text != "" && !IsWhitespace(text[0])
    ensures var c := G.PrintPieces(shell, ps)[0];
            !IsLineBreak(c) && !IsCommentOrSubstitution(c, shell)
  {
    assert ps[0] in ps;
    assert G.PrintPiece(shell, ps[0]) != "" && G.PrintPieces(shell, ps)[0] == G.PrintPiece(shell, ps[0])[0];
  }

  /** Between words a piece starts a new one. */
  lemma {:induction false} RunNewPieces(shell: Shell, s: State, ps: seq<G.Piece>)
    requires s.phase.Between? && G.LegalPieces(shell, ps) && ps != []
    ensures Run(shell, s, G.PrintPieces(shell, ps)).Ok?
    ensures var t := Run(shell, s, G.PrintPieces(shell, ps)).value;
            Open(t) && t.tokens == s.tokens && t.phase.value == G.Meaning(ps)
  {
    var text := G.PrintPieces(shell, ps);
    var start := State(s.tokens, In(s.pos, "", Bare), s.pos);
    FirstIsNoBlank(shell, ps);
    assert Step(shell, s, text[0]) == Step(shell, start, text[0]);
    RunPieces(shell, start, ps);
    assert "" + G.Meaning(ps) == G.Meaning(ps);
  }

  /** One word after the ones read so far. */
  lemma {:induction false} RunWord(shell: Shell, s: State, w: G.Word)
    requires Ready(s) && G.Blank(w.space) && (s.phase.In? ==> w.space != "")
    requires G.LegalPieces(shell, w.pieces) && G.Meaning(w.pieces) != ""
    ensures Run(shell, s, G.PrintWord(shell, w)).Ok?
    ensures var t := Run(shell, s, G.PrintWord(shell, w)).value;
            Ready(t) && t.phase.In? && Seen(t) == Seen(s) + [G.Meaning(w.pieces)]
  {
    RunConcat(shell, s, w.space, G.PrintPieces(shell, w.pieces));
    if w.space != "" {
      RunBlank(shell, s, w.space);
    } else {
      assert Seen(s) == Values(s.tokens);
    }
    RunNewPieces(shell, Run(shell, s, w.space).value, w.pieces);
  }

  lemma {:induction false} RunWords(shell: Shell, s: State, ws: seq<G.Word>)
    requires Ready(s) && G.LegalWords(shell, ws) && (s.phase.In? && ws != [] ==> ws[0].space != "")
    ensures Run(shell, s, G.PrintWords(shell, ws)).Ok?
    ensures var t := Run(shell, s, G.PrintWords(shell, ws)).value;
            Ready(t) && (ws != [] ==> t.phase.In?) && Seen(t) == Seen(s) + G.Meanings(ws)
    decreases |ws|
  {
    if ws == [] {
      assert Seen(s) + [] == Seen(s);
    } else {
      var first, rest := G.PrintWord(shell, ws[0]), G.PrintWords(shell, ws[1..]);
      RunWord(shell, s, ws[0]);
      RunConcat(shell, s, first, rest);
      RestIsLegal(shell, ws);
      RunWords(shell, Run(shell, s, first).value, ws[1..]);
      Associative(Seen(s), [G.Meaning(ws[0].pieces)], G.Meanings(ws[1..]));
    }
  }

  lemma {:induction false} RestIsLegal(shell: Shell, ws: seq<G.Word>)
    requires G.LegalWords(shell, ws) && ws != []
    ensures G.LegalWords(shell, ws[1..]) && (|ws| > 1 ==> ws[1..][0].space != "")
  {
    assert forall i :: 0 <= i < |ws[1..]| ==> ws[1..][i] == ws[i + 1];
  }

  lemma {:induction false} RunCommand(shell: Shell, ws: seq<G.Word>)
    requires G.LegalWords(shell, ws)
    ensures Run(shell, INITIAL, G.PrintWords(shell, ws)).Ok?
    ensures var t := Run(shell, INITIAL, G.PrintWords(shell, ws)).value;
            Ready(t) && (ws != [] ==> t.phase.In?) && Seen(t) == G.Meanings(ws)
  {
    RunFromStart(shell, INITIAL, ws);
  }

  lemma {:induction false} RunFromStart(shell: Shell, s: State, ws: seq<G.Word>)
    requires s.phase.Between? && s.tokens == [] && G.LegalWords(shell, ws)
    ensures Run(shell, s, G.PrintWords(shell, ws)).Ok?
    ensures var t := Run(shell, s, G.PrintWords(shell, ws)).value;
            Ready(t) && (ws != [] ==> t.phase.In?) && Seen(t) == G.Meanings(ws)
  {
    RunWords(shell, s, ws);
    NothingBefore(Seen(s), G.Meanings(ws));
  }

  lemma NothingBefore<T>(none: seq<T>, s: seq<T>)
    requires |none| == 0
    ensures none + s == s
  {
  }

  // ----- What is read

  /** Every command of the grammar, with any whitespace behind it, is read as the words that it means. */
  lemma {:induction false} CommandIsRead(shell: Shell, ws: seq<G.Word>, space: string)
    requires G.LegalWords(shell, ws) && ws != [] && G.Blank(space)
    ensures Words(shell, G.PrintWords(shell, ws) + space) == Some(G.Meanings(ws))
  {
    var text := G.PrintWords(shell, ws);
    RunCommand(shell, ws);
    var t := Run(shell, INITIAL, text).value;
    RunConcat(shell, INITIAL, text, space);
    if space != "" {
      RunBlank(shell, t, space);
    } else {
      assert Values(t.tokens + [Token(t.phase.value, t.phase.start, t.pos)]) == Seen(t);
    }
  }

  // ----- What is refused

  /** The text of words, then whitespace, then pieces of a further word; the last two may be empty. */
  function Begun(shell: Shell, ws: seq<G.Word>, space: string, ps: seq<G.Piece>): string {
    G.PrintWords(shell, ws) + (space + G.PrintPieces(shell, ps))
  }

  predicate LegalBegun(shell: Shell, ws: seq<G.Word>, space: string, ps: seq<G.Piece>) {
    G.LegalWords(shell, ws) && G.Blank(space) && G.LegalPieces(shell, ps) && (ws != [] && ps != [] ==> space != "")
  }

  /** Such a text ends outside quotes and escapes. */
  lemma {:induction false} RunBegun(shell: Shell, ws: seq<G.Word>, space: string, ps: seq<G.Piece>)
    requires LegalBegun(shell, ws, space, ps)
    ensures Run(shell, INITIAL, Begun(shell, ws, space, ps)).Ok?
    ensures var t := Run(shell, INITIAL, Begun(shell, ws, space, ps)).value;
            && (t.phase.Between? || Open(t))
            && (ps != [] ==> t.phase.In? && t.phase.value == G.Meaning(ps))
            && (ps == [] ==> Ready(t) && (ws == [] ==> t.phase.Between? && t.tokens == []))
  {
    var words, pieces := G.PrintWords(shell, ws), G.PrintPieces(shell, ps);
    RunCommand(shell, ws);
    var s := Run(shell, INITIAL, words).value;
    RunConcat(shell, INITIAL, words, space + pieces);
    RunConcat(shell, s, space, pieces);
    if space != "" {
      RunBlank(shell, s, space);
    }
    if ps != [] {
      RunNewPieces(shell, Run(shell, s, space).value, ps);
    }
    if ws == [] {
      assert |Seen(s)| == 0;
    }
  }

  lemma {:induction false} RunsInto(shell: Shell, text: string, c: char, rest: string)
    requires Run(shell, INITIAL, text).Ok? && Step(shell, Run(shell, INITIAL, text).value, c).Err?
    ensures Tokenize(shell, text + ([c] + rest)) == Err(Step(shell, Run(shell, INITIAL, text).value, c).error)
  {
    RunConcat(shell, INITIAL, text, [c] + rest);
    RunHead(shell, Run(shell, INITIAL, text).value, c, rest);
  }

  lemma {:induction false} StepRefuses(shell: Shell, s: State, c: char)
    requires s.phase.Between? || Open(s)
    ensures G.JoinsCommands(c) ==> Step(shell, s, c) == Err(Operator)
    ensures G.CommentsOrSubstitutes(shell, c) ==> Step(shell, s, c) == Err(CommentOrSubstitution)
    ensures c == '\r' || c == '\n' ==> Step(shell, s, c) == Err(MultiCommand)
  {
    if Open(s) && (G.JoinsCommands(c) || G.CommentsOrSubstitutes(shell, c) || c == '\r' || c == '\n') {
      StepOpen(shell, s, c);
    }
  }

  /**
   * Outside quotes and escapes, an operator, a comment or substitution and a line break are refused,
   * whatever comes after them.
   */
  lemma {:induction false} OperatorIsRefused(shell: Shell, ws: seq<G.Word>, space: string, ps: seq<G.Piece>, c: char, rest: string)
    requires LegalBegun(shell, ws, space, ps)
    ensures var r := Tokenize(shell, Begun(shell, ws, space, ps) + ([c] + rest));
            && (c in {'|', '&', ';', '<', '>', '(', ')'} ==> r == Err(Operator))
            && (c == '#' && shell != Cmd ==> r == Err(CommentOrSubstitution))
            && (c == '`' && shell == Posix ==> r == Err(CommentOrSubstitution))
            && (c in {'\r', '\n'} ==> r == Err(MultiCommand))
  {
    RunBegun(shell, ws, space, ps);
    var text := Begun(shell, ws, space, ps);
    var t := Run(shell, INITIAL, text).value;
    StepRefuses(shell, t, c);
    if Step(shell, t, c).Err? {
      RunsInto(shell, text, c, rest);
    }
  }

  /** Inside quotes a line break is refused, and inside POSIX double quotes a substitution. */
  lemma {:induction false} QuotedOperatorIsRefused(shell: Shell, ws: seq<G.Word>, space: string, delimiter: char,
                                                   us: seq<G.Unit>, c: char, rest: string)
    requires LegalBegun(shell, ws, space, []) && (ws != [] ==> space != "")
    requires G.IsDelimiter(shell, delimiter) && G.LegalUnits(shell, delimiter, us)
    requires c == '\r' || c == '\n' || (c == '`' && shell == Posix && delimiter == '"')
    ensures var text := Begun(shell, ws, space, []) + ([delimiter] + G.PrintUnits(shell, delimiter, us));
            Tokenize(shell, text + ([c] + rest)).Err?
  {
    RunOpened(shell, ws, space, delimiter, us);
    var text := Begun(shell, ws, space, []) + ([delimiter] + G.PrintUnits(shell, delimiter, us));
    RunsInto(shell, text, c, rest);
  }

  /** A quote that is opened and not closed. */
  lemma {:induction false} RunOpened(shell: Shell, ws: seq<G.Word>, space: string, delimiter: char, us: seq<G.Unit>)
    requires LegalBegun(shell, ws, space, []) && (ws != [] ==> space != "")
    requires G.IsDelimiter(shell, delimiter) && G.LegalUnits(shell, delimiter, us)
    ensures var r := Run(shell, INITIAL, Begun(shell, ws, space, []) + ([delimiter] + G.PrintUnits(shell, delimiter, us)));
            r.Ok? && r.value.phase.In? && r.value.phase.inside == Quoted(delimiter)
  {
    RunBetween(shell, ws, space);
    var text, inside := Begun(shell, ws, space, []), G.PrintUnits(shell, delimiter, us);
    var s := Run(shell, INITIAL, text).value;
    var start := State(s.tokens, In(s.pos, "", Bare), s.pos);
    RunConcat(shell, INITIAL, text, [delimiter] + inside);
    RunHead(shell, s, delimiter, inside);
    StepDelimiter(shell, s, delimiter);
    RunUnits(shell, start, delimiter, "", s.pos + 1, us);
  }

  lemma {:induction false} StepDelimiter(shell: Shell, s: State, delimiter: char)
    requires s.phase.Between? && G.IsDelimiter(shell, delimiter)
    ensures Step(shell, s, delimiter) ==
            Ok(InQuotes(State(s.tokens, In(s.pos, "", Bare), s.pos), delimiter, "", s.pos + 1))
  {
  }

  lemma {:induction false} RunBetween(shell: Shell, ws: seq<G.Word>, space: string)
    requires LegalBegun(shell, ws, space, []) && (ws != [] ==> space != "")
    ensures var r := Run(shell, INITIAL, Begun(shell, ws, space, [])); r.Ok? && r.value.phase.Between?
  {
    var words := G.PrintWords(shell, ws);
    RunBegun(shell, ws, space, []);
    RunCommand(shell, ws);
    var s := Run(shell, INITIAL, words).value;
    assert space + "" == space;
    RunConcat(shell, INITIAL, words, space);
    if space != "" {
      RunBlank(shell, s, space);
    } else {
      assert |Seen(s)| == 0;
    }
  }

  /** A command that ends inside quotes, or behind an escape character, is refused. */
  lemma {:induction false} OpenQuoteIsRefused(shell: Shell, ws: seq<G.Word>, space: string, delimiter: char, us: seq<G.Unit>)
    requires LegalBegun(shell, ws, space, []) && (ws != [] ==> space != "")
    requires G.IsDelimiter(shell, delimiter) && G.LegalUnits(shell, delimiter, us)
    ensures Tokenize(shell, Begun(shell, ws, space, []) + ([delimiter] + G.PrintUnits(shell, delimiter, us)))
            == Err(UnterminatedQuote)
  {
    RunOpened(shell, ws, space, delimiter, us);
  }

  lemma {:induction false} OpenEscapeIsRefused(shell: Shell, ws: seq<G.Word>, space: string, ps: seq<G.Piece>)
    requires LegalBegun(shell, ws, space, ps)
    ensures Tokenize(shell, Begun(shell, ws, space, ps) + [G.Escaper(shell)]) == Err(UnterminatedEscape)
  {
    RunBegun(shell, ws, space, ps);
    var text := Begun(shell, ws, space, ps);
    var t := Run(shell, INITIAL, text).value;
    StepEscaper(shell, t);
    RunConcat(shell, INITIAL, text, [G.Escaper(shell)]);
    RunOne(shell, t, G.Escaper(shell));
  }

  lemma {:induction false} StepEscaper(shell: Shell, s: State)
    requires s.phase.Between? || Open(s)
    ensures var r := Step(shell, s, G.Escaper(shell)); r.Ok? && r.value.phase.In? && r.value.phase.inside.BareEscape?
  {
    if Open(s) {
      StepOpen(shell, s, G.Escaper(shell));
    }
  }

  /** A word that means nothing, at the end or before whitespace, is refused, and so is a blank command. */
  lemma {:induction false} EmptyWordIsRefused(shell: Shell, ws: seq<G.Word>, space: string, ps: seq<G.Piece>, rest: string)
    requires LegalBegun(shell, ws, space, ps) && ps != [] && G.Meaning(ps) == ""
    requires rest == "" || G.IsBlank(rest[0])
    ensures Tokenize(shell, Begun(shell, ws, space, ps) + rest) == Err(EmptyToken)
  {
    RunBegun(shell, ws, space, ps);
    EmptyThen(shell, Begun(shell, ws, space, ps), rest);
  }

  lemma {:induction false} EmptyThen(shell: Shell, text: string, rest: string)
    requires Run(shell, INITIAL, text).Ok?
    requires var t := Run(shell, INITIAL, text).value; Open(t) && t.phase.value == ""
    requires rest == "" || G.IsBlank(rest[0])
    ensures Tokenize(shell, text + rest) == Err(EmptyToken)
  {
    if rest == "" {
      assert text + rest == text;
    } else {
      assert rest == [rest[0]] + rest[1..];
      StepEmpty(shell, Run(shell, INITIAL, text).value, rest[0]);
      RunsInto(shell, text, rest[0], rest[1..]);
    }
  }

  lemma {:induction false} StepEmpty(shell: Shell, s: State, c: char)
    requires Open(s) && s.phase.value == "" && G.IsBlank(c)
    ensures Step(shell, s, c) == Err(EmptyToken)
  {
    StepOpen(shell, s, c);
  }

  lemma {:induction false} BlankCommandIsRefused(shell: Shell, space: string)
    requires G.Blank(space)
    ensures Tokenize(shell, space) == Err(EmptyCommand)
  {
    RunBegun(shell, [], space, []);
    assert Begun(shell, [], space, []) == space;
  }
}
