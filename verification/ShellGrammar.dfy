/**
 * The commands that the Claude tokenizer is meant to read, as a grammar of its own: words made
 * of plain characters, escaped characters and quoted pieces, with whitespace between them.
 * The characters that a shell treats in a special way are written out here.
 */
module ShellGrammar {
  import opened Common
  import opened ShellTokens

  /** One unit inside quotes; a doubled quote is how PowerShell writes one inside single quotes. */
  datatype Unit = Literal(c: char) | Escape(c: char) | Doubled

  datatype Piece = Plain(c: char) | Escaped(c: char) | Quote(delimiter: char, units: seq<Unit>)

  /** A word and the whitespace before it. */
  datatype Word = Word(space: string, pieces: seq<Piece>)

  // ----- The special characters

  function Escaper(shell: Shell): char {
    match shell case Posix => '\\' case PowerShell => '`' case Cmd => '^'
  }

  predicate IsBlank(c: char) { IsWhitespace(c) && c != '\r' && c != '\n' }

  predicate Blank(space: string) { forall c :: c in space ==> IsBlank(c) }

  /** The characters that join, group or redirect commands. */
  predicate JoinsCommands(c: char) {
    c == '|' || c == '&' || c == ';' || c == '<' || c == '>' || c == '(' || c == ')'
  }

  /** A comment in POSIX shells and PowerShell; a command substitution in POSIX shells. */
  predicate CommentsOrSubstitutes(shell: Shell, c: char) {
    (c == '#' && shell != Cmd) || (c == '`' && shell == Posix)
  }

  predicate IsDelimiter(shell: Shell, c: char) { c == '"' || (c == '\'' && shell != Cmd) }

  predicate IsPlain(shell: Shell, c: char) {
    !IsWhitespace(c) && c != '\r' && c != '\n' && !JoinsCommands(c) && !CommentsOrSubstitutes(shell, c)
    && !IsDelimiter(shell, c) && c != Escaper(shell)
  }

  /** Inside which quotes the escape character works. */
  predicate EscapesIn(shell: Shell, delimiter: char) { shell != Posix || delimiter == '"' }

  predicate LegalUnit(shell: Shell, delimiter: char, u: Unit) {
    match u
    case Literal(c) =>
      && c != delimiter && c != '\r' && c != '\n' && !(EscapesIn(shell, delimiter) && c == Escaper(shell))
      && !(shell == Posix && delimiter == '"' && c == '`')
    case Escape(_) => EscapesIn(shell, delimiter)
    case Doubled => shell == PowerShell && delimiter == '\''
  }

  predicate LegalUnits(shell: Shell, delimiter: char, us: seq<Unit>) {
    forall u :: u in us ==> LegalUnit(shell, delimiter, u)
  }

  predicate LegalPiece(shell: Shell, p: Piece) {
    match p
    case Plain(c) => IsPlain(shell, c)
    case Escaped(_) => true
    case Quote(delimiter, units) => IsDelimiter(shell, delimiter) && LegalUnits(shell, delimiter, units)
  }

  /** Under PowerShell two single-quoted pieces may not touch: their quotes would read as one doubled quote. */
  predicate MayFollow(shell: Shell, p: Piece, next: Piece) {
    !(shell == PowerShell && p.Quote? && p.delimiter == '\'' && next.Quote? && next.delimiter == '\'')
  }

  predicate LegalPieces(shell: Shell, ps: seq<Piece>) {
    && (forall p :: p in ps ==> LegalPiece(shell, p))
    && (forall i :: 0 < i < |ps| ==> MayFollow(shell, ps[i - 1], ps[i]))
  }

  /** Whitespace separates words; before the first one there may be none. */
  predicate LegalWords(shell: Shell, ws: seq<Word>) {
    forall i :: 0 <= i < |ws| ==>
      && Blank(ws[i].space) && (i > 0 ==> ws[i].space != "")
      && LegalPieces(shell, ws[i].pieces) && Meaning(ws[i].pieces) != ""
  }

  // ----- What is printed, and what it means

  function PrintUnit(shell: Shell, delimiter: char, u: Unit): string {
    match u
    case Literal(c) => [c]
    case Escape(c) => [Escaper(shell), c]
    case Doubled => [delimiter, delimiter]
  }

  function PrintUnits(shell: Shell, delimiter: char, us: seq<Unit>): string {
    if us == [] then "" else PrintUnit(shell, delimiter, us[0]) + PrintUnits(shell, delimiter, us[1..])
  }

  function PrintPiece(shell: Shell, p: Piece): string {
    match p
    case Plain(c) => [c]
    case Escaped(c) => [Escaper(shell), c]
    case Quote(delimiter, units) => [delimiter] + (PrintUnits(shell, delimiter, units) + [delimiter])
  }

  function PrintPieces(shell: Shell, ps: seq<Piece>): string {
    if ps == [] then "" else PrintPiece(shell, ps[0]) + PrintPieces(shell, ps[1..])
  }

  function PrintWord(shell: Shell, w: Word): string { w.space + PrintPieces(shell, w.pieces) }

  function PrintWords(shell: Shell, ws: seq<Word>): string {
    if ws == [] then "" else PrintWord(shell, ws[0]) + PrintWords(shell, ws[1..])
  }

  function UnitMeaning(u: Unit): char {
    match u case Literal(c) => c case Escape(c) => c case Doubled => '\''
  }

  function UnitsMeaning(us: seq<Unit>): string {
    if us == [] then "" else [UnitMeaning(us[0])] + UnitsMeaning(us[1..])
  }

  function PieceMeaning(p: Piece): string {
    match p case Plain(c) => [c] case Escaped(c) => [c] case Quote(_, units) => UnitsMeaning(units)
  }

  function Meaning(ps: seq<Piece>): string {
    if ps == [] then "" else PieceMeaning(ps[0]) + Meaning(ps[1..])
  }

  function Meanings(ws: seq<Word>): (values: seq<string>)
    ensures |values| == |ws|
  {
    if ws == [] then [] else [Meaning(ws[0].pieces)] + Meanings(ws[1..])
  }
}
