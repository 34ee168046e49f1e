/**
 * The commands that the Codex splitter reads, as a grammar of their own: gaps, plain characters and
 * quoted pieces.  The characters that the splitter treats in a special way are written out here.
 */
module CodexSplitting {
  import opened Common
  import opened CodexCommand
  import ShellTokens

  /** Inside quotes: a character, or a double quote after a backslash. */
  datatype Unit = Literal(c: char) | EscapedQuote

  datatype Piece = Gap(c: char) | Plain(c: char) | Quote(delimiter: char, units: seq<Unit>)

  // ----- Legal commands

  /** The characters that join or redirect commands. */
  predicate JoinsCommands(c: char) { c == '|' || c == ';' || c == '&' || c == '<' || c == '>' }

  predicate IsDelimiter(c: char) { c == '\'' || c == '"' }

  /** A backslash in double quotes may not stand last: it would escape the closing quote. */
  predicate LegalUnits(delimiter: char, us: seq<Unit>) {
    us == [] ||
    (&& (match us[0]
         case Literal(c) => c != delimiter && (delimiter == '"' && c == '\\' ==> |us| > 1)
         case EscapedQuote => delimiter == '"')
     && LegalUnits(delimiter, us[1..]))
  }

  predicate LegalPiece(p: Piece) {
    match p
    case Gap(c) => ShellTokens.IsWhitespace(c)
    case Plain(c) => !ShellTokens.IsWhitespace(c) && !IsDelimiter(c) && !JoinsCommands(c)
    case Quote(delimiter, units) => IsDelimiter(delimiter) && LegalUnits(delimiter, units)
  }

  predicate Legal(ps: seq<Piece>) { forall p :: p in ps ==> LegalPiece(p) }

  // ----- What is printed, and what it means

  function PrintUnits(us: seq<Unit>): string {
    if us == [] then ""
    else (match us[0] case Literal(c) => [c] case EscapedQuote => ['\\', '"']) + PrintUnits(us[1..])
  }

  function PrintPiece(p: Piece): string {
    match p
    case Gap(c) => [c]
    case Plain(c) => [c]
    case Quote(delimiter, units) => [delimiter] + (PrintUnits(units) + [delimiter])
  }

  function Print(ps: seq<Piece>): string {
    if ps == [] then "" else PrintPiece(ps[0]) + Print(ps[1..])
  }

  function UnitsMeaning(us: seq<Unit>): string {
    if us == [] then ""
    else [match us[0] case Literal(c) => c case EscapedQuote => '"'] + UnitsMeaning(us[1..])
  }

  /** The word so far, unless nothing was read: empty words are no words. */
  function Word(text: string): seq<string> { if text == "" then [] else [text] }

  /** The words of a command, given what was read of the first one. */
  function Words(ps: seq<Piece>, read: string): seq<string> {
    if ps == [] then Word(read)
    else match ps[0]
      case Gap(_) => Word(read) + Words(ps[1..], "")
      case Plain(c) => Words(ps[1..], read + [c])
      case Quote(_, units) => Words(ps[1..], read + UnitsMeaning(units))
  }

  // ----- Legal commands are read

  function Reading(tokens: seq<string>, read: string): State { State(tokens, read, Bare) }

  function Inside(tokens: seq<string>, read: string, delimiter: char): State { State(tokens, read, Quoted(delimiter)) }

  lemma {:induction false} HeadToEnd(s: State, c: char, rest: string)
    ensures RunToEnd(s, [c] + rest) ==
            match Step(s, c) case Err(e) => Err(e) case Ok(t) => RunToEnd(t, rest)
  {
    RunHead(s, c, rest);
  }

  /** A backslash before anything but a double quote is itself. */
  lemma {:induction false} SlashThen(tokens: seq<string>, read: string, c: char, rest: string)
    requires c != '"'
    ensures RunToEnd(Inside(tokens, read, '"'), ['\\'] + ([c] + rest)) ==
            RunToEnd(Inside(tokens, read + ['\\'], '"'), [c] + rest)
  {
    HeadToEnd(Inside(tokens, read, '"'), '\\', [c] + rest);
    HeadToEnd(State(tokens, read, Slash), c, rest);
    HeadToEnd(Inside(tokens, read + ['\\'], '"'), c, rest);
  }

  lemma {:induction false} EscapeThen(tokens: seq<string>, read: string, rest: string)
    ensures RunToEnd(Inside(tokens, read, '"'), ['\\', '"'] + rest) == RunToEnd(Inside(tokens, read + ['"'], '"'), rest)
  {
    assert ['\\', '"'] + rest == ['\\'] + (['"'] + rest);
    HeadToEnd(Inside(tokens, read, '"'), '\\', ['"'] + rest);
    HeadToEnd(State(tokens, read, Slash), '"', rest);
  }

  /** The first character of what is left inside double quotes is no quote. */
  lemma {:induction false} UnitsStart(us: seq<Unit>, rest: string) returns (c: char, more: string)
    requires us != [] && LegalUnits('"', us)
    ensures c != '"' && PrintUnits(us) + rest == [c] + more
  {
    c := if us[0].Literal? then us[0].c else '\\';
    assert (PrintUnits(us) + rest)[0] == c;
    more := (PrintUnits(us) + rest)[1..];
  }

  lemma {:induction false} UnitsRead(tokens: seq<string>, read: string, delimiter: char, us: seq<Unit>, rest: string)
    requires IsDelimiter(delimiter) && LegalUnits(delimiter, us)
    ensures RunToEnd(Inside(tokens, read, delimiter), PrintUnits(us) + rest) ==
            RunToEnd(Inside(tokens, read + UnitsMeaning(us), delimiter), rest)
    decreases |us|
  {
    if us == [] {
      assert PrintUnits(us) + rest == rest && read + "" == read;
    } else {
      var tail := PrintUnits(us[1..]) + rest;
      var c := match us[0] case Literal(c) => c case EscapedQuote => '"';
      UnitRead(tokens, read, delimiter, us, tail, rest);
      UnitsRead(tokens, read + [c], delimiter, us[1..], rest);
      Associative(read, [c], UnitsMeaning(us[1..]));
      Associative(match us[0] case Literal(c) => [c] case EscapedQuote => ['\\', '"'], PrintUnits(us[1..]), rest);
    }
  }

  lemma {:induction false} UnitRead(tokens: seq<string>, read: string, delimiter: char, us: seq<Unit>, tail: string, rest: string)
    requires IsDelimiter(delimiter) && LegalUnits(delimiter, us) && us != [] && tail == PrintUnits(us[1..]) + rest
    ensures us[0].Literal? ==>
              RunToEnd(Inside(tokens, read, delimiter), [us[0].c] + tail) == RunToEnd(Inside(tokens, read + [us[0].c], delimiter), tail)
    ensures us[0].EscapedQuote? ==>
              RunToEnd(Inside(tokens, read, delimiter), ['\\', '"'] + tail) == RunToEnd(Inside(tokens, read + ['"'], delimiter), tail)
  {
    if us[0].EscapedQuote? {
      EscapeThen(tokens, read, tail);
    } else if delimiter == '"' && us[0].c == '\\' {
      var c, more := UnitsStart(us[1..], rest);
      SlashThen(tokens, read, c, more);
    } else {
      HeadToEnd(Inside(tokens, read, delimiter), us[0].c, tail);
    }
  }

  lemma {:induction false} QuoteRead(tokens: seq<string>, read: string, delimiter: char, us: seq<Unit>, rest: string)
    requires IsDelimiter(delimiter) && LegalUnits(delimiter, us)
    ensures RunToEnd(Reading(tokens, read), [delimiter] + (PrintUnits(us) + [delimiter]) + rest) ==
            RunToEnd(Reading(tokens, read + UnitsMeaning(us)), rest)
  {
    assert [delimiter] + (PrintUnits(us) + [delimiter]) + rest == [delimiter] + (PrintUnits(us) + ([delimiter] + rest));
    HeadToEnd(Reading(tokens, read), delimiter, PrintUnits(us) + ([delimiter] + rest));
    UnitsRead(tokens, read, delimiter, us, [delimiter] + rest);
    HeadToEnd(Inside(tokens, read + UnitsMeaning(us), delimiter), delimiter, rest);
  }

  /** Whatever follows, a legal beginning is read as its words, and the last one is open. */
  lemma {:induction false} PiecesRead(tokens: seq<string>, read: string, ps: seq<Piece>, rest: string)
    returns (done: seq<string>, open: string)
    requires Legal(ps)
    ensures RunToEnd(Reading(tokens, read), Print(ps) + rest) == RunToEnd(Reading(done, open), rest)
    ensures tokens + Words(ps, read) == done + Word(open)
    decreases |ps|
  {
    if ps == [] {
      assert Print(ps) + rest == rest;
      done, open := tokens, read;
    } else {
      assert ps[0] in ps;
      var tail := Print(ps[1..]) + rest;
      Associative(PrintPiece(ps[0]), Print(ps[1..]), rest);
      match ps[0] {
        case Gap(c) =>
          HeadToEnd(Reading(tokens, read), c, tail);
          Associative(tokens, Word(read), Words(ps[1..], ""));
          GapFlushes(tokens, read);
          done, open := PiecesRead(tokens + Word(read), "", ps[1..], rest);
        case Plain(c) =>
          HeadToEnd(Reading(tokens, read), c, tail);
          done, open := PiecesRead(tokens, read + [c], ps[1..], rest);
        case Quote(delimiter, units) =>
          QuoteRead(tokens, read, delimiter, units, tail);
          done, open := PiecesRead(tokens, read + UnitsMeaning(units), ps[1..], rest);
      }
    }
  }

  lemma GapFlushes(tokens: seq<string>, read: string)
    ensures Reading(tokens + Word(read), "") ==
            if read == "" then Reading(tokens, read) else State(tokens + [read], "", Bare)
  {
    assert tokens + [] == tokens;
  }

  // ----- What is refused

  /** An operator outside quotes is refused, whatever stands before and after it. */
  lemma {:induction false} OperatorIsRefused(ps: seq<Piece>, c: char, rest: string)
    requires Legal(ps) && JoinsCommands(c)
    ensures Split(Print(ps) + ([c] + rest)) == Err(ShellOperator)
  {
    var done, open := PiecesRead([], "", ps, [c] + rest);
    HeadToEnd(Reading(done, open), c, rest);
  }

  /** A quote that is not closed is refused. */
  lemma {:induction false} OpenQuoteIsRefused(ps: seq<Piece>, delimiter: char, us: seq<Unit>)
    requires Legal(ps) && IsDelimiter(delimiter) && LegalUnits(delimiter, us)
    ensures Split(Print(ps) + ([delimiter] + PrintUnits(us))) == Err(UnterminatedQuote)
  {
    var done, open := PiecesRead([], "", ps, [delimiter] + PrintUnits(us));
    HeadToEnd(Reading(done, open), delimiter, PrintUnits(us));
    assert PrintUnits(us) + "" == PrintUnits(us);
    UnitsRead(done, open, delimiter, us, "");
  }

  // ----- Whatever is accepted is legal

  /** What is accepted inside quotes closes them. */
  lemma {:induction false} ParseQuote(tokens: seq<string>, read: string, delimiter: char, text: string)
    returns (us: seq<Unit>, rest: string)
    requires IsDelimiter(delimiter) && RunToEnd(Inside(tokens, read, delimiter), text).Ok?
    ensures LegalUnits(delimiter, us) && text == PrintUnits(us) + ([delimiter] + rest)
    decreases |text|
  {
    assert text != "";
    var c, tail := text[0], text[1..];
    assert text == [c] + tail;
    HeadToEnd(Inside(tokens, read, delimiter), c, tail);
    if c == delimiter {
      us, rest := [], tail;
    } else if delimiter == '"' && c == '\\' && tail != "" && tail[0] == '"' {
      assert text == ['\\', '"'] + tail[1..];
      EscapeThen(tokens, read, tail[1..]);
      us, rest := ParseQuote(tokens, read + ['"'], delimiter, tail[1..]);
      us := PrependUnit(delimiter, EscapedQuote, us, ['\\', '"'], rest);
    } else {
      if delimiter == '"' && c == '\\' {
        assert tail != "";
        assert tail == [tail[0]] + tail[1..];
        SlashThen(tokens, read, tail[0], tail[1..]);
      }
      us, rest := ParseQuote(tokens, read + [c], delimiter, tail);
      us := PrependUnit(delimiter, Literal(c), us, [c], rest);
    }
  }

  lemma {:induction false} PrependUnit(delimiter: char, u: Unit, us: seq<Unit>, printed: string, rest: string)
    returns (more: seq<Unit>)
    requires LegalUnits(delimiter, us)
    requires u == EscapedQuote ==> delimiter == '"' && printed == ['\\', '"']
    requires u.Literal? ==> u.c != delimiter && printed == [u.c] && (delimiter == '"' && u.c == '\\' ==> us != [])
    ensures LegalUnits(delimiter, more) && PrintUnits(more) + ([delimiter] + rest) == printed + (PrintUnits(us) + ([delimiter] + rest))
  {
    more := [u] + us;
    assert more[1..] == us;
    Associative(printed, PrintUnits(us), [delimiter] + rest);
  }

  lemma {:induction false} ParseAll(tokens: seq<string>, read: string, text: string) returns (ps: seq<Piece>)
    requires RunToEnd(Reading(tokens, read), text).Ok?
    ensures Legal(ps) && text == Print(ps)
    decreases |text|
  {
    if text == "" {
      ps := [];
    } else {
      var c, tail := text[0], text[1..];
      assert text == [c] + tail;
      HeadToEnd(Reading(tokens, read), c, tail);
      if IsDelimiter(c) {
        var us, rest := ParseQuote(tokens, read, c, tail);
        assert text == [c] + (PrintUnits(us) + [c]) + rest;
        QuoteRead(tokens, read, c, us, rest);
        ps := ParseAll(tokens, read + UnitsMeaning(us), rest);
        ps := PrependPiece(Quote(c, us), ps);
      } else if ShellTokens.IsWhitespace(c) {
        GapFlushes(tokens, read);
        ps := ParseAll(tokens + Word(read), "", tail);
        ps := PrependPiece(Gap(c), ps);
      } else {
        ps := ParseAll(tokens, read + [c], tail);
        ps := PrependPiece(Plain(c), ps);
      }
    }
  }

  lemma {:induction false} PrependPiece(p: Piece, ps: seq<Piece>) returns (more: seq<Piece>)
    requires LegalPiece(p) && Legal(ps)
    ensures Legal(more) && Print(more) == PrintPiece(p) + Print(ps)
  {
    more := [p] + ps;
    assert more[1..] == ps;
  }

  ghost predicate InGrammar(text: string, words: seq<string>) {
    exists ps :: Legal(ps) && text == Print(ps) && words == Words(ps, "")
  }

  lemma {:induction false} LegalIsSplit(ps: seq<Piece>)
    requires Legal(ps)
    ensures Split(Print(ps)) == Ok(Words(ps, ""))
  {
    var done, open := PiecesRead([], "", ps, "");
    assert Print(ps) + "" == Print(ps) && [] + Words(ps, "") == Words(ps, "");
    assert done + [] == done;
  }

  /** The splitter reads a text as given words exactly when the text is a command that means them. */
  lemma SplitExactly(text: string, words: seq<string>)
    ensures Split(text) == Ok(words) <==> InGrammar(text, words)
  {
    if Split(text) == Ok(words) {
      var ps := ParseAll([], "", text);
      LegalIsSplit(ps);
    }
    if InGrammar(text, words) {
      var ps :| Legal(ps) && text == Print(ps) && words == Words(ps, "");
      LegalIsSplit(ps);
    }
  }
}
