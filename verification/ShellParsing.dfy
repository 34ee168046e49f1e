/** The converse: whatever the tokenizer accepts is a command of the grammar. */
module ShellParsing {
  import opened Common
  import opened ShellTokens
  import G = ShellGrammar
  import ShellReading

  /** What is open at the end of a text. */
  datatype Tail = Closed | OpenEscape | OpenQuote(delimiter: char, units: seq<G.Unit>, escape: bool)

  /** Whole words, whitespace, the pieces of a further word, and what is open. */
  datatype Parse = Parse(words: seq<G.Word>, space: string, pieces: seq<G.Piece>, tail: Tail)

  function PrintTail(shell: Shell, tail: Tail): string {
    match tail
    case Closed => ""
    case OpenEscape => [G.Escaper(shell)]
    case OpenQuote(delimiter, units, escape) =>
      [delimiter] + (G.PrintUnits(shell, delimiter, units) + (if escape then [G.Escaper(shell)] else ""))
  }

  function TailMeaning(tail: Tail): string {
    if tail.OpenQuote? then G.UnitsMeaning(tail.units) else ""
  }

  function Value(p: Parse): string { G.Meaning(p.pieces) + TailMeaning(p.tail) }

  /** What stands before the tail. */
  function Ahead(shell: Shell, p: Parse): string {
    (G.PrintWords(shell, p.words) + p.space) + G.PrintPieces(shell, p.pieces)
  }

  function Print(shell: Shell, p: Parse): string { Ahead(shell, p) + PrintTail(shell, p.tail) }

  // ----- Adding at the end

  lemma {:induction false} UnitsSnoc(shell: Shell, delimiter: char, us: seq<G.Unit>, u: G.Unit)
    ensures G.PrintUnits(shell, delimiter, us + [u]) == G.PrintUnits(shell, delimiter, us) + G.PrintUnit(shell, delimiter, u)
    ensures G.UnitsMeaning(us + [u]) == G.UnitsMeaning(us) + [G.UnitMeaning(u)]
    decreases |us|
  {
    var more := us + [u];
    if us == [] {
      assert more[1..] == [];
    } else {
      assert more[0] == us[0] && more[1..] == us[1..] + [u];
      UnitsSnoc(shell, delimiter, us[1..], u);
    }
  }

  lemma {:induction false} PiecesSnoc(shell: Shell, ps: seq<G.Piece>, p: G.Piece)
    ensures G.PrintPieces(shell, ps + [p]) == G.PrintPieces(shell, ps) + G.PrintPiece(shell, p)
    decreases |ps|
  {
    var more := ps + [p];
    if ps == [] {
      assert more[1..] == [];
    } else {
      assert more[0] == ps[0] && more[1..] == ps[1..] + [p];
      PiecesSnoc(shell, ps[1..], p);
      Associative(G.PrintPiece(shell, ps[0]), G.PrintPieces(shell, ps[1..]), G.PrintPiece(shell, p));
    }
  }

  lemma {:induction false} MeaningSnoc(ps: seq<G.Piece>, p: G.Piece)
    ensures G.Meaning(ps + [p]) == G.Meaning(ps) + G.PieceMeaning(p)
    decreases |ps|
  {
    var more := ps + [p];
    if ps == [] {
      assert more[1..] == [];
    } else {
      assert more[0] == ps[0] && more[1..] == ps[1..] + [p];
      MeaningSnoc(ps[1..], p);
      Associative(G.PieceMeaning(ps[0]), G.Meaning(ps[1..]), G.PieceMeaning(p));
    }
  }

  lemma {:induction false} WordsSnoc(shell: Shell, ws: seq<G.Word>, w: G.Word)
    ensures G.PrintWords(shell, ws + [w]) == G.PrintWords(shell, ws) + G.PrintWord(shell, w)
    decreases |ws|
  {
    var more := ws + [w];
    if ws == [] {
      assert more[1..] == [];
    } else {
      assert more[0] == ws[0] && more[1..] == ws[1..] + [w];
      WordsSnoc(shell, ws[1..], w);
      Associative(G.PrintWord(shell, ws[0]), G.PrintWords(shell, ws[1..]), G.PrintWord(shell, w));
    }
  }

  // ----- The parse that a state stands for

  predicate EndsInSingleQuote(shell: Shell, ps: seq<G.Piece>) {
    shell == PowerShell && ps != [] && ps[|ps| - 1].Quote? && ps[|ps| - 1].delimiter == '\''
  }

  predicate LegalTail(shell: Shell, ps: seq<G.Piece>, tail: Tail) {
    tail.OpenQuote? ==>
      && G.IsDelimiter(shell, tail.delimiter) && G.LegalUnits(shell, tail.delimiter, tail.units)
      && (tail.escape ==> G.EscapesIn(shell, tail.delimiter))
      && (tail.delimiter == '\'' ==> !EndsInSingleQuote(shell, ps))
  }

  predicate Legal(shell: Shell, p: Parse) {
    && G.LegalWords(shell, p.words) && G.Blank(p.space) && G.LegalPieces(shell, p.pieces)
    && LegalTail(shell, p.pieces, p.tail) && (p.words != [] ==> p.space != "")
  }

  /** The inside of the open word that the pieces and the tail stand for. */
  function InsideOf(shell: Shell, p: Parse): Inside {
    match p.tail
    case Closed => if EndsInSingleQuote(shell, p.pieces) then QuoteSeen else Bare
    case OpenEscape => BareEscape
    case OpenQuote(delimiter, _, escape) => if escape then QuotedEscape(delimiter) else Quoted(delimiter)
  }

  /** The parse stands for an open word with the given value so far. */
  predicate Stands(shell: Shell, p: Parse, value: string, inside: Inside) {
    Legal(shell, p) && (p.pieces != [] || p.tail != Closed) && Value(p) == value && InsideOf(shell, p) == inside
  }

  predicate Describes(shell: Shell, p: Parse, s: State) {
    match s.phase
    case Between => Legal(shell, p) && p.pieces == [] && p.tail == Closed
    case In(_, value, inside) => Stands(shell, p, value, inside)
  }

  lemma {:induction false} AddPieceText(shell: Shell, p: Parse, piece: G.Piece, text: string)
    requires PrintTail(shell, p.tail) + text == G.PrintPiece(shell, piece)
    ensures Print(shell, p.(pieces := p.pieces + [piece], tail := Closed)) == Print(shell, p) + text
  {
    PiecesSnoc(shell, p.pieces, piece);
    var front, pieces, added := G.PrintWords(shell, p.words) + p.space, G.PrintPieces(shell, p.pieces), G.PrintPiece(shell, piece);
    Associative(front, pieces, added);
    Associative(Ahead(shell, p), PrintTail(shell, p.tail), text);
    NothingAdded((front + pieces) + added);
  }

  lemma {:induction false} AddPieceLegal(shell: Shell, ps: seq<G.Piece>, piece: G.Piece)
    requires G.LegalPieces(shell, ps) && G.LegalPiece(shell, piece)
    requires ps != [] ==> G.MayFollow(shell, ps[|ps| - 1], piece)
    ensures G.LegalPieces(shell, ps + [piece])
  {
  }

  lemma {:induction false} AddPiece(shell: Shell, p: Parse, piece: G.Piece, text: string) returns (more: Parse)
    requires Legal(shell, p) && G.LegalPiece(shell, piece)
    requires p.pieces != [] ==> G.MayFollow(shell, p.pieces[|p.pieces| - 1], piece)
    requires PrintTail(shell, p.tail) + text == G.PrintPiece(shell, piece)
    ensures more == p.(pieces := p.pieces + [piece], tail := Closed)
    ensures Legal(shell, more) && Print(shell, more) == Print(shell, p) + text
    ensures Value(more) == G.Meaning(p.pieces) + G.PieceMeaning(piece)
  {
    more := p.(pieces := p.pieces + [piece], tail := Closed);
    AddPieceText(shell, p, piece, text);
    AddPieceLegal(shell, p.pieces, piece);
    MeaningSnoc(p.pieces, piece);
    NothingAdded(G.Meaning(more.pieces));
  }

  /** A unit is added inside the open quotes; an open escape becomes part of it. */
  lemma {:induction false} AddUnit(shell: Shell, p: Parse, u: G.Unit, c: char) returns (more: Parse)
    requires Legal(shell, p) && p.tail.OpenQuote? && G.LegalUnit(shell, p.tail.delimiter, u)
    requires u == if p.tail.escape then G.Escape(c) else G.Literal(c)
    ensures Stands(shell, more, Value(p) + [c], Quoted(p.tail.delimiter)) && Print(shell, more) == Print(shell, p) + [c]
  {
    var delimiter, units := p.tail.delimiter, p.tail.units;
    var tail := OpenQuote(delimiter, units + [u], false);
    UnitsSnoc(shell, delimiter, units, u);
    AddUnitText(delimiter, G.PrintUnits(shell, delimiter, units), if p.tail.escape then [G.Escaper(shell)] else "", c);
    assert G.PrintUnit(shell, delimiter, u) == (if p.tail.escape then [G.Escaper(shell)] else "") + [c];
    ChangeTail(shell, p, tail, [c]);
    Associative(G.Meaning(p.pieces), G.UnitsMeaning(units), [c]);
    more := p.(tail := tail);
  }

  lemma AddUnitText(delimiter: char, inside: string, escape: string, c: char)
    ensures ([delimiter] + (inside + escape)) + [c] == [delimiter] + ((inside + (escape + [c])) + "")
  {
  }

  lemma NothingAdded(s: string)
    ensures s + "" == s && "" + s == s
  {
  }

  /** The tail is replaced by a longer one. */
  lemma {:induction false} ChangeTail(shell: Shell, p: Parse, tail: Tail, text: string)
    requires PrintTail(shell, tail) == PrintTail(shell, p.tail) + text
    ensures Print(shell, p.(tail := tail)) == Print(shell, p) + text
  {
    Associative(Ahead(shell, p), PrintTail(shell, p.tail), text);
  }

  lemma {:induction false} AddBlank(shell: Shell, p: Parse, c: char)
    requires p.pieces == [] && p.tail == Closed
    ensures Print(shell, p.(space := p.space + [c])) == Print(shell, p) + [c]
  {
    var words := G.PrintWords(shell, p.words);
    NothingAdded(words + p.space);
    NothingAdded(words + (p.space + [c]));
    Associative(words, p.space, [c]);
  }

  /** The open word is finished and becomes one of the words. */
  lemma {:induction false} CloseWord(shell: Shell, p: Parse)
    requires Legal(shell, p) && p.tail == Closed && G.Meaning(p.pieces) != ""
    ensures G.LegalWords(shell, p.words + [G.Word(p.space, p.pieces)])
    ensures G.PrintWords(shell, p.words + [G.Word(p.space, p.pieces)]) == Print(shell, p)
  {
    WordsSnoc(shell, p.words, G.Word(p.space, p.pieces));
    Associative(G.PrintWords(shell, p.words), p.space, G.PrintPieces(shell, p.pieces));
    NothingAdded(Ahead(shell, p));
  }

  lemma {:induction false} FinishWord(shell: Shell, p: Parse, c: char)
    requires Legal(shell, p) && p.tail == Closed && G.Meaning(p.pieces) != "" && G.IsBlank(c)
    ensures var more := Parse(p.words + [G.Word(p.space, p.pieces)], [c], [], Closed);
            Legal(shell, more) && Print(shell, more) == Print(shell, p) + [c]
  {
    CloseWord(shell, p);
    NothingAdded(Print(shell, p) + [c]);
  }

  lemma {:induction false} OpenTail(shell: Shell, p: Parse, tail: Tail, c: char) returns (more: Parse)
    requires Legal(shell, p) && p.tail == Closed
    requires
      || (tail == OpenQuote(c, [], false) && G.IsDelimiter(shell, c) && (EndsInSingleQuote(shell, p.pieces) ==> c != '\''))
      || (tail == OpenEscape && c == G.Escaper(shell))
    ensures Stands(shell, more, G.Meaning(p.pieces), if tail.OpenEscape? then BareEscape else Quoted(c))
    ensures Print(shell, more) == Print(shell, p) + [c]
  {
    NothingAdded([c]);
    NothingAdded("");
    NothingAdded(G.Meaning(p.pieces));
    more := p.(tail := tail);
    ChangeTail(shell, p, tail, [c]);
  }

  lemma {:induction false} AddPlain(shell: Shell, p: Parse, c: char) returns (more: Parse)
    requires Legal(shell, p) && p.tail == Closed && G.IsPlain(shell, c)
    ensures Stands(shell, more, G.Meaning(p.pieces) + [c], Bare) && Print(shell, more) == Print(shell, p) + [c]
  {
    NothingAdded([c]);
    more := AddPiece(shell, p, G.Plain(c), [c]);
  }

  /** A bare character, where no quoted piece has just been closed by a single quote. */
  lemma {:induction false} AdvanceBare(shell: Shell, s: State, p: Parse, c: char, t: State) returns (more: Parse)
    requires Legal(shell, p) && p.tail == Closed && (EndsInSingleQuote(shell, p.pieces) ==> c != '\'')
    requires !IsLineBreak(c) && !IsCommentOrSubstitution(c, shell) && !IsWhitespace(c)
    requires StepBare(shell, s, s.pos, G.Meaning(p.pieces), c).Ok?
    requires t.phase.In? && t.phase.value == StepBare(shell, s, s.pos, G.Meaning(p.pieces), c).value.phase.value
    requires t.phase.inside == StepBare(shell, s, s.pos, G.Meaning(p.pieces), c).value.phase.inside
    ensures Describes(shell, more, t) && Print(shell, more) == Print(shell, p) + [c]
  {
    if OpensQuote(c, shell) {
      more := OpenTail(shell, p, OpenQuote(c, [], false), c);
    } else if EscapesBare(c, shell) {
      more := OpenTail(shell, p, OpenEscape, c);
    } else {
      more := AddPlain(shell, p, c);
    }
  }

  lemma {:induction false} CloseQuote(shell: Shell, p: Parse) returns (more: Parse)
    requires Legal(shell, p) && p.tail.OpenQuote? && !p.tail.escape
    ensures Stands(shell, more, Value(p), if shell == PowerShell && p.tail.delimiter == '\'' then QuoteSeen else Bare)
    ensures Print(shell, more) == Print(shell, p) + [p.tail.delimiter]
  {
    var delimiter, units := p.tail.delimiter, p.tail.units;
    var inside := G.PrintUnits(shell, delimiter, units);
    NothingAdded(inside);
    Associative([delimiter], inside, [delimiter]);
    more := AddPiece(shell, p, G.Quote(delimiter, units), [delimiter]);
  }

  lemma {:induction false} OpenEscapeInQuotes(shell: Shell, p: Parse) returns (more: Parse)
    requires Legal(shell, p) && p.tail.OpenQuote? && !p.tail.escape && G.EscapesIn(shell, p.tail.delimiter)
    ensures Stands(shell, more, Value(p), QuotedEscape(p.tail.delimiter))
    ensures Print(shell, more) == Print(shell, p) + [G.Escaper(shell)]
  {
    var inside := G.PrintUnits(shell, p.tail.delimiter, p.tail.units);
    NothingAdded(inside);
    Associative([p.tail.delimiter], inside, [G.Escaper(shell)]);
    more := p.(tail := p.tail.(escape := true));
    ChangeTail(shell, p, more.tail, [G.Escaper(shell)]);
  }

  lemma {:induction false} AdvanceQuoted(shell: Shell, s: State, p: Parse, c: char) returns (more: Parse)
    requires Describes(shell, p, s) && p.tail.OpenQuote? && !p.tail.escape && Step(shell, s, c).Ok?
    ensures Describes(shell, more, Step(shell, s, c).value) && Print(shell, more) == Print(shell, p) + [c]
  {
    if c == p.tail.delimiter {
      more := CloseQuote(shell, p);
    } else if EscapesQuoted(c, p.tail.delimiter, shell) {
      more := OpenEscapeInQuotes(shell, p);
    } else {
      more := AddUnit(shell, p, G.Literal(c), c);
    }
  }

  lemma {:induction false} AddEscaped(shell: Shell, p: Parse, c: char) returns (more: Parse)
    requires Legal(shell, p) && p.tail == OpenEscape
    ensures Stands(shell, more, Value(p) + [c], Bare) && Print(shell, more) == Print(shell, p) + [c]
  {
    assert [G.Escaper(shell)] + [c] == [G.Escaper(shell), c];
    NothingAdded(G.Meaning(p.pieces));
    more := AddPiece(shell, p, G.Escaped(c), [c]);
  }

  lemma {:induction false} AdvanceEscaped(shell: Shell, s: State, p: Parse, c: char) returns (more: Parse)
    requires Describes(shell, p, s) && s.phase.In? && (p.tail.OpenEscape? || (p.tail.OpenQuote? && p.tail.escape))
    ensures Step(shell, s, c).Ok?
    ensures Describes(shell, more, Step(shell, s, c).value) && Print(shell, more) == Print(shell, p) + [c]
  {
    if p.tail.OpenEscape? {
      more := AddEscaped(shell, p, c);
    } else {
      more := AddUnit(shell, p, G.Escape(c), c);
    }
  }

  /** A single quote right behind a PowerShell single-quoted piece doubles: the piece goes on. */
  lemma {:induction false} Reopen(shell: Shell, p: Parse) returns (more: Parse)
    requires Legal(shell, p) && p.tail == Closed && EndsInSingleQuote(shell, p.pieces)
    ensures Stands(shell, more, Value(p) + ['\''], Quoted('\'')) && Print(shell, more) == Print(shell, p) + ['\'']
  {
    var n := |p.pieces| - 1;
    var last: G.Piece := p.pieces[n];
    var before := p.pieces[..n];
    assert p.pieces == before + [last] && last in p.pieces;
    var tail := OpenQuote('\'', last.units + [G.Doubled], false);
    more := p.(pieces := before, tail := tail);
    ReopenText(shell, p, before, last, tail);
    ReopenValue(shell, p, before, last, tail);
    BeforeIsLegal(shell, p.pieces, n);
  }

  lemma {:induction false} ReopenValue(shell: Shell, p: Parse, before: seq<G.Piece>, last: G.Piece, tail: Tail)
    requires p.pieces == before + [last] && p.tail == Closed && last.Quote?
    requires tail == OpenQuote('\'', last.units + [G.Doubled], false)
    ensures Value(p.(pieces := before, tail := tail)) == Value(p) + ['\'']
  {
    MeaningSnoc(before, last);
    UnitsSnoc(shell, '\'', last.units, G.Doubled);
    Associative(G.Meaning(before), G.UnitsMeaning(last.units), ['\'']);
    NothingAdded(G.Meaning(p.pieces));
  }

  lemma {:induction false} ReopenText(shell: Shell, p: Parse, before: seq<G.Piece>, last: G.Piece, tail: Tail)
    requires p.pieces == before + [last] && p.tail == Closed && last.Quote? && last.delimiter == '\''
    requires tail == OpenQuote('\'', last.units + [G.Doubled], false)
    ensures Print(shell, p.(pieces := before, tail := tail)) == Print(shell, p) + ['\'']
  {
    PiecesSnoc(shell, before, last);
    UnitsSnoc(shell, '\'', last.units, G.Doubled);
    ReopenPiece(G.PrintUnits(shell, '\'', last.units));
    var front, pieces, piece := G.PrintWords(shell, p.words) + p.space, G.PrintPieces(shell, before), G.PrintPiece(shell, last);
    NothingAdded(front + (pieces + piece));
    Associative(front, pieces, piece);
    Associative(front + pieces, piece, ['\'']);
  }

  lemma ReopenPiece(inside: string)
    ensures ['\''] + ((inside + ['\'', '\'']) + "") == (['\''] + (inside + ['\''])) + ['\'']
  {
  }

  lemma BeforeIsLegal(shell: Shell, ps: seq<G.Piece>, n: nat)
    requires G.LegalPieces(shell, ps) && n == |ps| - 1 && EndsInSingleQuote(shell, ps)
    ensures G.LegalPieces(shell, ps[..n]) && !EndsInSingleQuote(shell, ps[..n])
  {
    assert forall p :: p in ps[..n] ==> p in ps;
    if n > 0 {
      assert G.MayFollow(shell, ps[n - 1], ps[n]);
    }
  }

  lemma {:induction false} Advance(shell: Shell, s: State, p: Parse, c: char) returns (more: Parse)
    requires Describes(shell, p, s) && Step(shell, s, c).Ok?
    ensures Describes(shell, more, Step(shell, s, c).value) && Print(shell, more) == Print(shell, p) + [c]
  {
    if s.phase.In? && (p.tail.OpenEscape? || (p.tail.OpenQuote? && p.tail.escape)) {
      more := AdvanceEscaped(shell, s, p, c);
    } else if p.tail.OpenQuote? {
      more := AdvanceQuoted(shell, s, p, c);
    } else {
      more := AdvanceClosed(shell, s, p, c);
    }
  }

  lemma {:induction false} AdvanceClosed(shell: Shell, s: State, p: Parse, c: char) returns (more: Parse)
    requires Describes(shell, p, s) && p.tail == Closed && Step(shell, s, c).Ok?
    ensures Describes(shell, more, Step(shell, s, c).value) && Print(shell, more) == Print(shell, p) + [c]
  {
    NothingAdded(G.Meaning(p.pieces));
    if EndsInSingleQuote(shell, p.pieces) && c == '\'' {
      more := Reopen(shell, p);
    } else if IsWhitespace(c) {
      if s.phase.Between? {
        AddBlank(shell, p, c);
        more := p.(space := p.space + [c]);
      } else {
        FinishWord(shell, p, c);
        more := Parse(p.words + [G.Word(p.space, p.pieces)], [c], [], Closed);
      }
    } else {
      more := AdvanceBare(shell, s, p, c, Step(shell, s, c).value);
    }
  }

  lemma {:induction false} ParseRun(shell: Shell, text: string) returns (p: Parse)
    requires Run(shell, INITIAL, text).Ok?
    ensures Describes(shell, p, Run(shell, INITIAL, text).value) && Print(shell, p) == text
    decreases |text|
  {
    if text == "" {
      p := Parse([], "", [], Closed);
    } else {
      var n := |text| - 1;
      assert text == text[..n] + [text[n]];
      RunConcat(shell, INITIAL, text[..n], [text[n]]);
      var s := Run(shell, INITIAL, text[..n]).value;
      RunOne(shell, s, text[n]);
      p := ParseRun(shell, text[..n]);
      p := Advance(shell, s, p, text[n]);
    }
  }

  /** Every command that the tokenizer accepts is one of the grammar. */
  lemma {:induction false} AcceptedIsLegal(shell: Shell, text: string) returns (ws: seq<G.Word>, space: string)
    requires Tokenize(shell, text).Ok?
    ensures G.LegalWords(shell, ws) && ws != [] && G.Blank(space) && text == G.PrintWords(shell, ws) + space
  {
    var p := ParseRun(shell, text);
    var s := Run(shell, INITIAL, text).value;
    if s.phase.In? {
      NothingAdded(G.Meaning(p.pieces));
      CloseWord(shell, p);
      ws, space := p.words + [G.Word(p.space, p.pieces)], "";
      NothingAdded(G.PrintWords(shell, ws));
    } else {
      ws, space := p.words, p.space;
      NothingAdded(G.PrintWords(shell, ws) + space);
      NothingAdded(space);
      if p.words == [] {
        ShellReading.BlankCommandIsRefused(shell, space);
      }
    }
  }

  ghost predicate InGrammar(shell: Shell, text: string, words: seq<string>) {
    exists ws, space ::
      && G.LegalWords(shell, ws) && ws != [] && G.Blank(space)
      && text == G.PrintWords(shell, ws) + space && words == G.Meanings(ws)
  }

  /** The tokenizer reads a text as given words exactly when the text is a command that means them. */
  lemma ReadExactly(shell: Shell, text: string, words: seq<string>)
    ensures Words(shell, text) == Some(words) <==> InGrammar(shell, text, words)
  {
    if Words(shell, text) == Some(words) {
      var ws, space := AcceptedIsLegal(shell, text);
      ShellReading.CommandIsRead(shell, ws, space);
    }
    if InGrammar(shell, text, words) {
      var ws, space :|
        && G.LegalWords(shell, ws) && ws != [] && G.Blank(space)
        && text == G.PrintWords(shell, ws) + space && words == G.Meanings(ws);
      ShellReading.CommandIsRead(shell, ws, space);
    }
  }
}
