/**
 * The shell tokenizer that guards Claude hook injection.  `Step` consumes one
 * character; `Tokenize` is the whole scan; the method `TokenizeShellCommand` is
 * the source's pair of nested loops with one-character lookahead.
 */
module ShellTokens {
  import opened Common

  datatype Shell = Posix | PowerShell | Cmd

  datatype Token = Token(value: string, start: nat, end: nat)

  datatype TokenError =
    | MultiCommand
    | CommentOrSubstitution
    | Operator
    | UnterminatedEscape
    | UnterminatedQuote
    | EmptyToken
    | EmptyCommand

  /** `QuoteSeen` is a PowerShell quote that either ends a string or is doubled. */
  datatype Inside = Bare | Quoted(delimiter: char) | BareEscape | QuotedEscape(delimiter: char) | QuoteSeen

  datatype Phase = Between | In(start: nat, value: string, inside: Inside)

  datatype State = State(tokens: seq<Token>, phase: Phase, pos: nat)

  type Outcome = Result<State, TokenError>

  const INITIAL: State := State([], Between, 0)

  /** The Unicode White_Space property. */
  predicate IsWhitespace(c: char) {
    var n := c as int;
    || 0x09 <= n <= 0x0D || n == 0x20 || n == 0x85 || n == 0xA0 || n == 0x1680
    || 0x2000 <= n <= 0x200A || n == 0x2028 || n == 0x2029 || n == 0x202F || n == 0x205F || n == 0x3000
  }

  predicate IsLineBreak(c: char) { c == '\r' || c == '\n' }

  predicate IsOperator(c: char) {
    c == '|' || c == '&' || c == ';' || c == '<' || c == '>' || IsLineBreak(c) || c == '(' || c == ')'
  }

  predicate IsCommentOrSubstitution(c: char, shell: Shell) {
    (c == '#' && shell != Cmd) || (c == '`' && shell == Posix)
  }

  predicate OpensQuote(c: char, shell: Shell) { c == '"' || (c == '\'' && shell != Cmd) }

  predicate EscapesBare(c: char, shell: Shell) {
    (shell == Posix && c == '\\') || (shell == PowerShell && c == '`') || (shell == Cmd && c == '^')
  }

  predicate EscapesQuoted(c: char, delimiter: char, shell: Shell) {
    || (shell == Posix && delimiter == '"' && c == '\\')
    || (shell == PowerShell && c == '`')
    || (shell == Cmd && c == '^')
  }

  function StepBare(shell: Shell, s: State, start: nat, value: string, c: char): Outcome {
    if IsLineBreak(c) then Err(MultiCommand)
    else if IsCommentOrSubstitution(c, shell) then Err(CommentOrSubstitution)
    else if IsWhitespace(c) then
      if value == "" then Err(EmptyToken)
      else Ok(State(s.tokens + [Token(value, start, s.pos)], Between, s.pos + 1))
    else if IsOperator(c) then Err(Operator)
    else if OpensQuote(c, shell) then Ok(State(s.tokens, In(start, value, Quoted(c)), s.pos + 1))
    else if EscapesBare(c, shell) then Ok(State(s.tokens, In(start, value, BareEscape), s.pos + 1))
    else Ok(State(s.tokens, In(start, value + [c], Bare), s.pos + 1))
  }

  function StepQuoted(shell: Shell, s: State, start: nat, value: string, delimiter: char, c: char): Outcome {
    if IsLineBreak(c) then Err(MultiCommand)
    else if c == '`' && shell == Posix && delimiter != '\'' then Err(CommentOrSubstitution)
    else if c == delimiter then
      var closed := if shell == PowerShell && delimiter == '\'' then QuoteSeen else Bare;
      Ok(State(s.tokens, In(start, value, closed), s.pos + 1))
    else if EscapesQuoted(c, delimiter, shell) then
      Ok(State(s.tokens, In(start, value, QuotedEscape(delimiter)), s.pos + 1))
    else Ok(State(s.tokens, In(start, value + [c], Quoted(delimiter)), s.pos + 1))
  }

  function Step(shell: Shell, s: State, c: char): Outcome {
    match s.phase
    case Between =>
      if IsLineBreak(c) then Err(MultiCommand)
      else if IsCommentOrSubstitution(c, shell) then Err(CommentOrSubstitution)
      else if IsWhitespace(c) then Ok(s.(pos := s.pos + 1))
      else StepBare(shell, s, s.pos, "", c)
    case In(start, value, inside) =>
      match inside
      case Bare => StepBare(shell, s, start, value, c)
      case Quoted(delimiter) => StepQuoted(shell, s, start, value, delimiter, c)
      case BareEscape => Ok(State(s.tokens, In(start, value + [c], Bare), s.pos + 1))
      case QuotedEscape(delimiter) => Ok(State(s.tokens, In(start, value + [c], Quoted(delimiter)), s.pos + 1))
      case QuoteSeen =>
        if c == '\'' then Ok(State(s.tokens, In(start, value + ['\''], Quoted('\'')), s.pos + 1))
        else StepBare(shell, s, start, value, c)
  }

  function Run(shell: Shell, s: State, text: string): Outcome
    decreases |text|
  {
    if text == "" then Ok(s)
    else match Step(shell, s, text[0])
      case Err(e) => Err(e)
      case Ok(t) => Run(shell, t, text[1..])
  }

  /** The end of the command. */
  function Finish(s: State): Result<seq<Token>, TokenError> {
    match s.phase
    case Between => if s.tokens == [] then Err(EmptyCommand) else Ok(s.tokens)
    case In(start, value, inside) =>
      if inside.Quoted? then Err(UnterminatedQuote)
      else if inside.BareEscape? || inside.QuotedEscape? then Err(UnterminatedEscape)
      else if value == "" then Err(EmptyToken)
      else Ok(s.tokens + [Token(value, start, s.pos)])
  }

  function RunToEnd(shell: Shell, s: State, text: string): Result<seq<Token>, TokenError> {
    match Run(shell, s, text)
    case Err(e) => Err(e)
    case Ok(t) => Finish(t)
  }

  function Tokenize(shell: Shell, command: string): Result<seq<Token>, TokenError> {
    RunToEnd(shell, INITIAL, command)
  }

  function Values(tokens: seq<Token>): (values: seq<string>)
    ensures |values| == |tokens|
    ensures forall i :: 0 <= i < |tokens| ==> values[i] == tokens[i].value
  {
    seq(|tokens|, i requires 0 <= i < |tokens| => tokens[i].value)
  }

  function WordsOf(r: Result<seq<Token>, TokenError>): Option<seq<string>> {
    match r
    case Err(_) => None
    case Ok(tokens) => Some(Values(tokens))
  }

  /** The token values of a command, which is all that a shell passes on. */
  function Words(shell: Shell, command: string): Option<seq<string>> {
    WordsOf(Tokenize(shell, command))
  }

  // ----- Composition of runs

  function Then(shell: Shell, r: Outcome, text: string): Outcome {
    match r
    case Err(e) => Err(e)
    case Ok(s) => Run(shell, s, text)
  }

  lemma {:induction false} RunConcat(shell: Shell, s: State, first: string, second: string)
    ensures Run(shell, s, first + second) == Then(shell, Run(shell, s, first), second)
    decreases |first|
  {
    if first == "" {
      assert first + second == second;
    } else {
      assert (first + second)[1..] == first[1..] + second;
      match Step(shell, s, first[0]) {
        case Err(_) =>
        case Ok(t) => RunConcat(shell, t, first[1..], second);
      }
    }
  }

  lemma RunChain(shell: Shell, s: State, first: string, second: string)
    ensures Run(shell, s, first).Err? ==> Run(shell, s, first + second) == Run(shell, s, first)
    ensures Run(shell, s, first).Ok? ==> Run(shell, s, first + second) == Run(shell, Run(shell, s, first).value, second)
  {
    RunConcat(shell, s, first, second);
  }

  lemma RunHead(shell: Shell, s: State, c: char, rest: string)
    ensures Run(shell, s, [c] + rest) == Then(shell, Step(shell, s, c), rest)
  {
    assert ([c] + rest)[1..] == rest;
  }

  lemma RunOne(shell: Shell, s: State, c: char)
    ensures Run(shell, s, [c]) == Step(shell, s, c)
  {
    RunHead(shell, s, c, "");
    assert [c] + "" == [c];
  }

  lemma StepAdvances(shell: Shell, s: State, c: char)
    ensures var r := Step(shell, s, c); r.Ok? ==> r.value.pos == s.pos + 1 && s.tokens <= r.value.tokens
  {
  }

  lemma {:induction false} RunAdvances(shell: Shell, s: State, text: string)
    ensures var r := Run(shell, s, text); r.Ok? ==> r.value.pos == s.pos + |text| && s.tokens <= r.value.tokens
    decreases |text|
  {
    if text != "" {
      StepAdvances(shell, s, text[0]);
      match Step(shell, s, text[0]) {
        case Err(_) =>
        case Ok(t) => RunAdvances(shell, t, text[1..]);
      }
    }
  }

  // ----- The source's loops

  /** The state in which the inner loop of the source stands. */
  function Reading(tokens: seq<Token>, start: nat, value: string, quote: Option<char>, pos: nat): State {
    State(tokens, In(start, value, if quote.Some? then Quoted(quote.value) else Bare), pos)
  }

  lemma Advance(shell: Shell, s: State, command: string, i: nat)
    requires i < |command|
    ensures RunToEnd(shell, s, command[i..]) ==
            match Step(shell, s, command[i])
            case Err(e) => Err(e)
            case Ok(t) => RunToEnd(shell, t, command[i + 1..])
  {
    assert command[i..] == [command[i]] + command[i + 1..];
    RunHead(shell, s, command[i], command[i + 1..]);
  }

  /** A PowerShell quote that is not doubled has ended the string. */
  lemma QuoteNotDoubled(shell: Shell, tokens: seq<Token>, start: nat, value: string, command: string, i: nat)
    requires i <= |command| && (i < |command| ==> command[i] != '\'')
    ensures RunToEnd(shell, State(tokens, In(start, value, QuoteSeen), i), command[i..])
            == RunToEnd(shell, State(tokens, In(start, value, Bare), i), command[i..])
  {
  }

  method TokenizeShellCommand(command: string, shell: Shell) returns (r: Result<seq<Token>, TokenError>)
    ensures r == Tokenize(shell, command)
  {
    var i := 0;
    var tokens: seq<Token> := [];
    assert command[0..] == command;
    while i < |command|
      invariant i <= |command|
      invariant Tokenize(shell, command) == RunToEnd(shell, State(tokens, Between, i), command[i..])
    {
      var c := command[i];
      Advance(shell, State(tokens, Between, i), command, i);
      if IsLineBreak(c) {
        return Err(MultiCommand);
      }
      if IsCommentOrSubstitution(c, shell) {
        return Err(CommentOrSubstitution);
      }
      if IsWhitespace(c) {
        i := i + 1;
        continue;
      }
      Advance(shell, Reading(tokens, i, "", None, i), command, i);
      var token := ReadToken(command, shell, tokens, i);
      match token {
        case Err(e) => return Err(e);
        case Ok(t) =>
          tokens := tokens + [t];
          i := t.end;
      }
    }
    assert command[i..] == "";
    if tokens == [] {
      return Err(EmptyCommand);
    }
    return Ok(tokens);
  }

  /** The inner loop: the token that starts at `start`. */
  method ReadToken(command: string, shell: Shell, ghost tokens: seq<Token>, start: nat)
    returns (r: Result<Token, TokenError>)
    requires start < |command| && !IsWhitespace(command[start])
    ensures match r
            case Err(e) => RunToEnd(shell, Reading(tokens, start, "", None, start), command[start..]) == Err(e)
            case Ok(t) =>
              && t.start == start < t.end <= |command|
              && RunToEnd(shell, Reading(tokens, start, "", None, start), command[start..])
                 == RunToEnd(shell, State(tokens + [t], Between, t.end), command[t.end..])
  {
    var i, value, quote, end := start, "", None, |command|;
    ghost var whole := RunToEnd(shell, Reading(tokens, start, "", None, start), command[start..]);
    while i < |command|
      invariant start <= i <= |command| == end
      invariant i == start ==> quote.None?
      invariant whole == RunToEnd(shell, Reading(tokens, start, value, quote, i), command[i..])
    {
      var c := command[i];
      if quote.Some? {
        var error: Option<TokenError>;
        i, value, quote, error := QuotedCharacter(command, shell, tokens, start, i, value, quote.value);
        if error.Some? {
          return Err(error.value);
        }
        continue;
      }
      Advance(shell, Reading(tokens, start, value, quote, i), command, i);
      if IsLineBreak(c) {
        return Err(MultiCommand);
      }
      if IsCommentOrSubstitution(c, shell) {
        return Err(CommentOrSubstitution);
      }
      if IsWhitespace(c) {
        end := i;
        break;
      }
      if IsOperator(c) {
        return Err(Operator);
      }
      i := i + 1;
      if OpensQuote(c, shell) {
        quote := Some(c);
      } else if EscapesBare(c, shell) {
        if i == |command| {
          return Err(UnterminatedEscape);
        }
        Advance(shell, State(tokens, In(start, value, BareEscape), i), command, i);
        value := value + [command[i]];
        i := i + 1;
      } else {
        value := value + [c];
      }
    }
    if quote.Some? {
      return Err(UnterminatedQuote);
    }
    if value == "" {
      return Err(EmptyToken);
    }
    if end < |command| {
      Advance(shell, State(tokens + [Token(value, start, end)], Between, end), command, end);
    }
    return Ok(Token(value, start, end));
  }

  /** One turn of the inner loop inside quotes. */
  method QuotedCharacter(command: string, shell: Shell, ghost tokens: seq<Token>, ghost start: nat,
                         at: nat, text: string, delimiter: char)
    returns (i: nat, value: string, quote: Option<char>, error: Option<TokenError>)
    requires at < |command|
    ensures at < i <= |command|
    ensures RunToEnd(shell, Reading(tokens, start, text, Some(delimiter), at), command[at..]) ==
            match error
            case Some(e) => Err(e)
            case None => RunToEnd(shell, Reading(tokens, start, value, quote, i), command[i..])
  {
    Advance(shell, Reading(tokens, start, text, Some(delimiter), at), command, at);
    var c := command[at];
    i, value, quote, error := at + 1, text, Some(delimiter), None;
    if IsLineBreak(c) {
      error := Some(MultiCommand);
    } else if c == '`' && shell == Posix && delimiter != '\'' {
      error := Some(CommentOrSubstitution);
    } else if c == delimiter {
      if shell == PowerShell && delimiter == '\'' && i < |command| && command[i] == '\'' {
        Advance(shell, State(tokens, In(start, value, QuoteSeen), i), command, i);
        i, value := i + 1, value + ['\''];
      } else {
        if shell == PowerShell && delimiter == '\'' {
          QuoteNotDoubled(shell, tokens, start, value, command, i);
        }
        quote := None;
      }
    } else if EscapesQuoted(c, delimiter, shell) {
      if i == |command| {
        error := Some(UnterminatedEscape);
      } else {
        Advance(shell, State(tokens, In(start, value, QuotedEscape(delimiter)), i), command, i);
        i, value := i + 1, value + [command[i]];
      }
    } else {
      value := value + [c];
    }
  }
}
