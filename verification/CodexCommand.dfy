/**
 * Codex command lines: splitting the user's command, quoting tokens for a shell, and the
 * command that carries the hook overrides.
 */
module CodexCommand {
  import opened Common
  import opened TomlStrings
  import ShellTokens

  // ----- Splitting

  datatype SplitError = ShellOperator | UnterminatedQuote

  /** `Slash` is a backslash inside double quotes that may escape a quote. */
  datatype Phase = Bare | Quoted(delimiter: char) | Slash

  datatype State = State(tokens: seq<string>, current: string, phase: Phase)

  type Outcome = Result<State, SplitError>

  const INITIAL: State := State([], "", Bare)

  predicate IsOperator(c: char) {
    c == '|' || c == ';' || c == '&' || c == '<' || c == '>' || c == '\r' || c == '\n'
  }

  function StepQuoted(s: State, delimiter: char, c: char): State {
    if c == delimiter then s.(phase := Bare)
    else if delimiter == '"' && c == '\\' then s.(phase := Slash)
    else State(s.tokens, s.current + [c], Quoted(delimiter))
  }

  function Step(s: State, c: char): Outcome {
    match s.phase
    case Quoted(delimiter) => Ok(StepQuoted(s, delimiter, c))
    case Slash =>
      if c == '"' then Ok(State(s.tokens, s.current + ['"'], Quoted('"')))
      else Ok(StepQuoted(s.(current := s.current + ['\\']), '"', c))
    case Bare =>
      if c == '\'' || c == '"' then Ok(s.(phase := Quoted(c)))
      else if ShellTokens.IsWhitespace(c) then
        Ok(if s.current == "" then s else State(s.tokens + [s.current], "", Bare))
      else if IsOperator(c) then Err(ShellOperator)
      else Ok(s.(current := s.current + [c]))
  }

  function Run(s: State, text: string): Outcome
    decreases |text|
  {
    if text == "" then Ok(s)
    else match Step(s, text[0])
      case Err(e) => Err(e)
      case Ok(t) => Run(t, text[1..])
  }

  function Finish(s: State): Result<seq<string>, SplitError> {
    if !s.phase.Bare? then Err(UnterminatedQuote)
    else Ok(if s.current == "" then s.tokens else s.tokens + [s.current])
  }

  function RunToEnd(s: State, text: string): Result<seq<string>, SplitError> {
    match Run(s, text)
    case Err(e) => Err(e)
    case Ok(t) => Finish(t)
  }

  function Split(command: string): Result<seq<string>, SplitError> {
    RunToEnd(INITIAL, command)
  }

  function Then(r: Outcome, text: string): Outcome {
    match r
    case Err(e) => Err(e)
    case Ok(s) => Run(s, text)
  }

  lemma {:induction false} RunConcat(s: State, first: string, second: string)
    ensures Run(s, first).Ok? ==> Run(s, first + second) == Run(Run(s, first).value, second)
    ensures Run(s, first).Err? ==> Run(s, first + second) == Run(s, first)
    decreases |first|
  {
    if first == "" {
      assert first + second == second;
    } else {
      assert (first + second)[1..] == first[1..] + second;
      match Step(s, first[0]) {
        case Err(_) =>
        case Ok(t) => RunConcat(t, first[1..], second);
      }
    }
  }

  lemma RunHead(s: State, c: char, rest: string)
    ensures Run(s, [c] + rest) == Then(Step(s, c), rest)
  {
    assert ([c] + rest)[1..] == rest;
  }

  lemma RunOne(s: State, c: char)
    ensures Run(s, [c]) == Step(s, c)
  {
    RunHead(s, c, "");
    assert [c] + "" == [c];
  }

  lemma Advance(s: State, command: string, i: nat)
    requires i < |command|
    ensures Step(s, command[i]).Err? ==> RunToEnd(s, command[i..]) == Err(Step(s, command[i]).error)
    ensures Step(s, command[i]).Ok? ==> RunToEnd(s, command[i..]) == RunToEnd(Step(s, command[i]).value, command[i + 1..])
  {
    assert command[i..] == [command[i]] + command[i + 1..];
    RunHead(s, command[i], command[i + 1..]);
  }

  /** A backslash before anything but a double quote is itself. */
  lemma SlashIsLiteral(tokens: seq<string>, current: string, command: string, i: nat)
    requires i <= |command| && (i < |command| ==> command[i] != '"')
    ensures RunToEnd(State(tokens, current, Slash), command[i..]) ==
            RunToEnd(State(tokens, current + ['\\'], Quoted('"')), command[i..])
  {
    if i < |command| {
      Advance(State(tokens, current, Slash), command, i);
      Advance(State(tokens, current + ['\\'], Quoted('"')), command, i);
    }
  }

  /** The source's `split_command_line`, with its one character of lookahead. */
  method SplitCommandLine(command: string) returns (r: Result<seq<string>, SplitError>)
    ensures r == Split(command)
  {
    var tokens: seq<string>, current, quote: Option<char>, i := [], "", None, 0;
    assert command[0..] == command;
    while i < |command|
      invariant 0 <= i <= |command|
      invariant Split(command) ==
                RunToEnd(State(tokens, current, if quote.Some? then Quoted(quote.value) else Bare), command[i..])
    {
      var c := command[i];
      Advance(State(tokens, current, if quote.Some? then Quoted(quote.value) else Bare), command, i);
      i := i + 1;
      if quote.Some? {
        if c == quote.value {
          quote := None;
        } else if quote.value == '"' && c == '\\' {
          if i < |command| && command[i] == '"' {
            Advance(State(tokens, current, Slash), command, i);
            current, i := current + [command[i]], i + 1;
          } else {
            SlashIsLiteral(tokens, current, command, i);
            current := current + [c];
          }
        } else {
          current := current + [c];
        }
      } else if c == '\'' || c == '"' {
        quote := Some(c);
      } else if ShellTokens.IsWhitespace(c) {
        if current != "" {
          tokens, current := tokens + [current], "";
        }
      } else if IsOperator(c) {
        return Err(ShellOperator);
      } else {
        current := current + [c];
      }
    }
    assert command[i..] == "";
    if quote.Some? {
      return Err(UnterminatedQuote);
    }
    if current != "" {
      tokens := tokens + [current];
    }
    return Ok(tokens);
  }

  // ----- Quoting

  datatype Shell = PowerShell | Cmd | Posix

  function QuoteToken(token: string, shell: Shell): string {
    match shell
    case PowerShell => "'" + (Replace(token, '\'', "''") + "'")
    case Cmd => "\"" + (Replace(token, '"', "\\\"") + "\"")
    case Posix => "'" + (Replace(token, '\'', "'\"'\"'") + "'")
  }

  function Joined(tokens: seq<string>, shell: Shell): string {
    if tokens == [] then ""
    else if |tokens| == 1 then QuoteToken(tokens[0], shell)
    else QuoteToken(tokens[0], shell) + (" " + Joined(tokens[1..], shell))
  }

  /** The source's `quote_command_for_shell`. */
  function QuoteCommand(tokens: seq<string>, shell: Shell): string {
    if shell == PowerShell then "& " + Joined(tokens, shell) else Joined(tokens, shell)
  }

  // ----- POSIX

  lemma RunPosixQuote(tokens: seq<string>, current: string)
    ensures Run(State(tokens, current, Quoted('\'')), "'\"'\"'") == Ok(State(tokens, current + ['\''], Quoted('\'')))
  {
    var s := State(tokens, current, Quoted('\''));
    assert "'\"'\"'" == ['\''] + (['"'] + (['\''] + (['"'] + ['\''])));
    RunHead(s, '\'', ['"'] + (['\''] + (['"'] + ['\''])));
    RunHead(s.(phase := Bare), '"', ['\''] + (['"'] + ['\'']));
    RunHead(s.(phase := Quoted('"')), '\'', ['"'] + ['\'']);
    var t := State(tokens, current + ['\''], Quoted('"'));
    RunHead(t, '"', ['\'']);
    RunOne(t.(phase := Bare), '\'');
  }

  lemma {:induction false} RunPosixInside(tokens: seq<string>, current: string, text: string)
    ensures Run(State(tokens, current, Quoted('\'')), Replace(text, '\'', "'\"'\"'")) ==
            Ok(State(tokens, current + text, Quoted('\'')))
    decreases |text|
  {
    if text == "" {
      assert current + text == current;
    } else {
      var c, rest := text[0], text[1..];
      var piece := if c == '\'' then "'\"'\"'" else [c];
      RunConcat(State(tokens, current, Quoted('\'')), piece, Replace(rest, '\'', "'\"'\"'"));
      if c == '\'' {
        RunPosixQuote(tokens, current);
      } else {
        RunOne(State(tokens, current, Quoted('\'')), c);
      }
      RunPosixInside(tokens, current + [c], rest);
      Associative(current, [c], rest);
      assert [c] + rest == text;
    }
  }

  lemma PosixShape(token: string)
    ensures QuoteToken(token, Posix) == ['\''] + (Replace(token, '\'', "'\"'\"'") + ['\''])
  {
  }

  lemma RunPosixToken(tokens: seq<string>, token: string)
    ensures Run(State(tokens, "", Bare), QuoteToken(token, Posix)) == Ok(State(tokens, token, Bare))
  {
    var inside := Replace(token, '\'', "'\"'\"'");
    PosixShape(token);
    RunHead(State(tokens, "", Bare), '\'', inside + ['\'']);
    var open := State(tokens, "", Quoted('\''));
    RunConcat(open, inside, ['\'']);
    RunPosixInside(tokens, "", token);
    assert "" + token == token;
    RunOne(State(tokens, token, Quoted('\'')), '\'');
  }

  /** Tokens that are not empty. */
  function Nonempty(tokens: seq<string>): seq<string> {
    if tokens == [] then [] else (if tokens[0] == "" then [] else [tokens[0]]) + Nonempty(tokens[1..])
  }

  /** Splitting a quoted list gives back its tokens, without the empty ones. */
  lemma {:induction false} SplitPosixFrom(done: seq<string>, tokens: seq<string>)
    ensures RunToEnd(State(done, "", Bare), Joined(tokens, Posix)) == Ok(done + Nonempty(tokens))
    decreases |tokens|
  {
    if tokens == [] {
      assert done + [] == done;
    } else {
      var quoted, more := QuoteToken(tokens[0], Posix), if tokens[0] == "" then done else done + [tokens[0]];
      RunPosixToken(done, tokens[0]);
      if |tokens| == 1 {
        assert Nonempty(tokens[1..]) == [];
        assert done + ([tokens[0]] + []) == done + [tokens[0]];
        assert done + ([] + []) == done;
      } else {
        RunConcat(State(done, "", Bare), quoted, " " + Joined(tokens[1..], Posix));
        RunHead(State(done, tokens[0], Bare), ' ', Joined(tokens[1..], Posix));
        SplitPosixFrom(more, tokens[1..]);
        Associative(done, if tokens[0] == "" then [] else [tokens[0]], Nonempty(tokens[1..]));
        assert done + [] == done;
      }
    }
  }

  predicate AllNonempty(tokens: seq<string>) { forall i :: 0 <= i < |tokens| ==> tokens[i] != "" }

  lemma {:induction false} NonemptyAll(tokens: seq<string>)
    ensures |Nonempty(tokens)| <= |tokens|
    ensures Nonempty(tokens) == tokens <==> AllNonempty(tokens)
  {
    if tokens != [] {
      assert tokens == [tokens[0]] + tokens[1..];
      NonemptyAll(tokens[1..]);
    }
  }

  /** Under a POSIX shell splitting undoes quoting exactly for lists of nonempty tokens. */
  lemma PosixRoundTrip(tokens: seq<string>)
    ensures Split(QuoteCommand(tokens, Posix)) == Ok(tokens) <==> AllNonempty(tokens)
  {
    SplitPosixFrom([], tokens);
    NonemptyAll(tokens);
    assert [] + Nonempty(tokens) == Nonempty(tokens);
  }

  // ----- cmd

  /** The text read so far inside double quotes, counting an undecided backslash. */
  function InQuotes(tokens: seq<string>, text: string): State {
    if text != "" && text[|text| - 1] == '\\' then State(tokens, text[..|text| - 1], Slash)
    else State(tokens, text, Quoted('"'))
  }

  function CmdPiece(c: char): string { if c == '"' then "\\\"" else [c] }

  lemma RunCmdPiece(tokens: seq<string>, text: string, c: char)
    ensures Run(InQuotes(tokens, text), CmdPiece(c)) == Ok(InQuotes(tokens, text + [c]))
  {
    var s := InQuotes(tokens, text);
    assert s.phase.Slash? ==> text[..|text| - 1] + ['\\'] == text;
    assert (text + [c])[..|text|] == text;
    if c == '"' {
      assert CmdPiece(c) == ['\\'] + ['"'];
      RunHead(s, '\\', ['"']);
      RunOne(State(tokens, text, Slash), '"');
    } else {
      RunOne(s, c);
    }
  }

  lemma {:induction false} RunCmdInside(tokens: seq<string>, read: string, text: string)
    ensures Run(InQuotes(tokens, read), Replace(text, '"', "\\\"")) == Ok(InQuotes(tokens, read + text))
    decreases |text|
  {
    if text == "" {
      assert read + text == read;
    } else {
      RunConcat(InQuotes(tokens, read), CmdPiece(text[0]), Replace(text[1..], '"', "\\\""));
      RunCmdPiece(tokens, read, text[0]);
      RunCmdInside(tokens, read + [text[0]], text[1..]);
      Associative(read, [text[0]], text[1..]);
      assert [text[0]] + text[1..] == text;
    }
  }

  predicate EndsInBackslash(token: string) { token != "" && token[|token| - 1] == '\\' }

  lemma CmdShape(token: string)
    ensures QuoteToken(token, Cmd) == ['"'] + (Replace(token, '"', "\\\"") + ['"'])
  {
  }

  /** A quoted token is read whole, unless its last backslash escapes the closing quote. */
  lemma RunCmdToken(tokens: seq<string>, token: string)
    ensures Run(State(tokens, "", Bare), QuoteToken(token, Cmd)) ==
            Ok(if EndsInBackslash(token) then State(tokens, token[..|token| - 1] + ['"'], Quoted('"'))
               else State(tokens, token, Bare))
  {
    var inside := Replace(token, '"', "\\\"");
    CmdShape(token);
    RunHead(State(tokens, "", Bare), '"', inside + ['"']);
    RunConcat(InQuotes(tokens, ""), inside, ['"']);
    RunCmdInside(tokens, "", token);
    assert "" + token == token;
    RunOne(InQuotes(tokens, token), '"');
  }

  predicate CmdSafe(tokens: seq<string>) {
    forall i :: 0 <= i < |tokens| ==> tokens[i] != "" && !EndsInBackslash(tokens[i])
  }

  /** Up to the first unsafe token, splitting gives the tokens back. */
  lemma {:induction false} SplitCmdFrom(done: seq<string>, tokens: seq<string>)
    requires CmdSafe(tokens)
    ensures RunToEnd(State(done, "", Bare), Joined(tokens, Cmd)) == Ok(done + tokens)
    decreases |tokens|
  {
    if tokens == [] {
      assert done + [] == done;
    } else {
      RunCmdToken(done, tokens[0]);
      if |tokens| == 1 {
        assert [tokens[0]] == tokens;
      } else {
        RunConcat(State(done, "", Bare), QuoteToken(tokens[0], Cmd), " " + Joined(tokens[1..], Cmd));
        RunHead(State(done, tokens[0], Bare), ' ', Joined(tokens[1..], Cmd));
        SplitCmdFrom(done + [tokens[0]], tokens[1..]);
        Associative(done, [tokens[0]], tokens[1..]);
        assert [tokens[0]] + tokens[1..] == tokens;
      }
    }
  }

  /** Splitting never yields an empty token. */
  lemma {:induction false} RunTokensNonempty(s: State, text: string)
    requires AllNonempty(s.tokens)
    ensures RunToEnd(s, text).Ok? ==> AllNonempty(RunToEnd(s, text).value)
    decreases |text|
  {
    if text != "" && Step(s, text[0]).Ok? {
      RunTokensNonempty(Step(s, text[0]).value, text[1..]);
    }
  }

  /** What was read of a token stays a prefix of it. */
  lemma {:induction false} CurrentStays(s: State, text: string)
    requires s.current != ""
    ensures var r := RunToEnd(s, text);
            r.Ok? ==> |r.value| > |s.tokens| && r.value[..|s.tokens|] == s.tokens && s.current <= r.value[|s.tokens|]
    decreases |text|
  {
    if text != "" && Step(s, text[0]).Ok? {
      var t := Step(s, text[0]).value;
      if t.tokens == s.tokens {
        CurrentStays(t, text[1..]);
      } else {
        TokensStay(t, text[1..]);
        assert t.tokens == s.tokens + [s.current];
      }
    }
  }

  lemma {:induction false} TokensStay(s: State, text: string)
    ensures var r := RunToEnd(s, text); r.Ok? ==> s.tokens <= r.value
    decreases |text|
  {
    if text != "" && Step(s, text[0]).Ok? {
      TokensStay(Step(s, text[0]).value, text[1..]);
    }
  }

  /** A first token that ends in a backslash runs on behind a double quote. */
  lemma {:induction false} FirstIsLost(done: seq<string>, first: string, rest: string, tokens: seq<string>)
    requires EndsInBackslash(first) && tokens != [] && tokens[0] == first
    ensures RunToEnd(State(done, first[..|first| - 1] + ['"'], Quoted('"')), rest) != Ok(done + tokens)
  {
    var s := State(done, first[..|first| - 1] + ['"'], Quoted('"'));
    CurrentStays(s, rest);
    assert (done + tokens)[|done|] == first;
    assert s.current[|first| - 1] == '"' && first[|first| - 1] == '\\';
  }

  /** A list with a token that ends in a backslash does not come back. */
  lemma {:induction false} BackslashIsLost(done: seq<string>, tokens: seq<string>, i: nat)
    requires AllNonempty(tokens) && i < |tokens| && EndsInBackslash(tokens[i])
    requires forall j :: 0 <= j < i ==> !EndsInBackslash(tokens[j])
    ensures RunToEnd(State(done, "", Bare), Joined(tokens, Cmd)) != Ok(done + tokens)
    decreases i
  {
    var first := tokens[0];
    RunCmdToken(done, first);
    var rest := if |tokens| == 1 then "" else " " + Joined(tokens[1..], Cmd);
    assert Joined(tokens, Cmd) == QuoteToken(first, Cmd) + rest by {
      assert QuoteToken(first, Cmd) + "" == QuoteToken(first, Cmd);
    }
    RunConcat(State(done, "", Bare), QuoteToken(first, Cmd), rest);
    if i == 0 {
      FirstIsLost(done, first, rest, tokens);
    } else {
      RunHead(State(done, first, Bare), ' ', Joined(tokens[1..], Cmd));
      BackslashIsLost(done + [first], tokens[1..], i - 1);
      Associative(done, [first], tokens[1..]);
      assert [first] + tokens[1..] == tokens;
    }
  }

  /** Under cmd splitting undoes quoting exactly for nonempty tokens that do not end in a backslash. */
  lemma CmdRoundTrip(tokens: seq<string>)
    ensures Split(QuoteCommand(tokens, Cmd)) == Ok(tokens) <==> CmdSafe(tokens)
  {
    assert [] + tokens == tokens;
    if CmdSafe(tokens) {
      SplitCmdFrom([], tokens);
    } else if AllNonempty(tokens) {
      var i := FirstBackslash(tokens, 0);
      BackslashIsLost([], tokens, i);
    } else {
      RunTokensNonempty(INITIAL, QuoteCommand(tokens, Cmd));
    }
  }

  lemma {:induction false} FirstBackslash(tokens: seq<string>, from: nat) returns (i: nat)
    requires from <= |tokens| && forall j :: 0 <= j < from ==> !EndsInBackslash(tokens[j])
    requires exists j :: from <= j < |tokens| && EndsInBackslash(tokens[j])
    ensures i < |tokens| && EndsInBackslash(tokens[i]) && forall j :: 0 <= j < i ==> !EndsInBackslash(tokens[j])
    decreases |tokens| - from
  {
    if EndsInBackslash(tokens[from]) {
      i := from;
    } else {
      i := FirstBackslash(tokens, from + 1);
    }
  }

  // ----- PowerShell

  /** The call operator of a PowerShell command is refused: it never splits again. */
  lemma PowerShellNeverSplits(tokens: seq<string>)
    ensures Split(QuoteCommand(tokens, PowerShell)) == Err(ShellOperator)
  {
    var text := QuoteCommand(tokens, PowerShell);
    assert text[0] == '&';
  }

  // ----- The hook command

  /** A config override whose key and value passed the constructor's checks. */
  datatype Override = Override(key: string, value: string)

  function Argument(o: Override): string { o.key + "=" + o.value }

  function OverrideTokens(config: seq<Override>): seq<string> {
    if config == [] then [] else ["--config", Argument(config[0])] + OverrideTokens(config[1..])
  }

  const HOOK_EVENTS: seq<string> :=
    ["SessionStart", "UserPromptSubmit", "PreToolUse", "PostToolUse", "PermissionRequest", "Stop"]

  const TRUST_FLAG := "--dangerously-bypass-hook-trust"

  const COMMAND_KEY := "=[{hooks=[{type=\"command\",command="
  const WINDOWS_KEY := ",command_windows="
  const CLOSING := "}]}]"

  /** The source's `codex_hook_override`. */
  function HookOverride(event: string, command: string, windows: string): string {
    ("hooks." + event + COMMAND_KEY) + (BasicString(command) + (WINDOWS_KEY + (BasicString(windows) + CLOSING)))
  }

  function EventTokens(events: seq<string>, command: string, windows: string): seq<string> {
    if events == [] then []
    else ["-c", HookOverride(events[0], command, windows)] + EventTokens(events[1..], command, windows)
  }

  function RelayCommand(executable: string, endpoint: string, nonce: string): string {
    "\"" + executable + "\" codex-hook-relay --url " + endpoint + " --nonce " + nonce
  }

  function RelayCommandWindows(executable: string, endpoint: string, nonce: string): string {
    "& '" + Replace(executable, '\'', "''") + "' codex-hook-relay --url " + endpoint + " --nonce " + nonce
  }

  /** The source's `codex_hook_argument_tokens`, after its checks. */
  function HookTokens(executable: string, endpoint: string, nonce: string): seq<string> {
    EventTokens(HOOK_EVENTS, RelayCommand(executable, endpoint, nonce), RelayCommandWindows(executable, endpoint, nonce))
    + [TRUST_FLAG]
  }

  datatype BuildError = BadEndpoint | BadNonce | NotSplittable(error: SplitError) | EmptyCommand

  predicate IsHexDigit(c: char) { '0' <= c <= '9' || 'a' <= c <= 'f' || 'A' <= c <= 'F' }

  /** The source's `build_codex_hooks_command`; `loopback` is its test of the endpoint. */
  function BuildHooksCommand(command: string, shell: Shell, executable: string, endpoint: string, loopback: bool,
                             nonce: string, config: seq<Override>): Result<string, BuildError>
  {
    if !loopback then Err(BadEndpoint)
    else if nonce == "" || exists i :: 0 <= i < |nonce| && !IsHexDigit(nonce[i]) then Err(BadNonce)
    else match Split(command)
      case Err(e) => Err(NotSplittable(e))
      case Ok(tokens) =>
        if tokens == [] then Err(EmptyCommand)
        else Ok(QuoteCommand(tokens + (OverrideTokens(config) + HookTokens(executable, endpoint, nonce)), shell))
  }

  lemma {:induction false} OverridesNonempty(config: seq<Override>)
    ensures AllNonempty(OverrideTokens(config))
  {
    if config != [] {
      OverridesNonempty(config[1..]);
    }
  }

  lemma {:induction false} EventsSafe(events: seq<string>, command: string, windows: string)
    ensures CmdSafe(EventTokens(events, command, windows))
  {
    if events != [] {
      EventsSafe(events[1..], command, windows);
      HookOverrideEnds(events[0], command, windows);
    }
  }

  lemma HookOverrideEnds(event: string, command: string, windows: string)
    ensures var o := HookOverride(event, command, windows); o != "" && !EndsInBackslash(o)
  {
    var o := HookOverride(event, command, windows);
    assert o[|o| - 1] == ']';
  }

  lemma AddedTokensSafe(executable: string, endpoint: string, nonce: string, config: seq<Override>)
    ensures AllNonempty(OverrideTokens(config) + HookTokens(executable, endpoint, nonce))
    ensures CmdSafe(HookTokens(executable, endpoint, nonce))
  {
    OverridesNonempty(config);
    EventsSafe(HOOK_EVENTS, RelayCommand(executable, endpoint, nonce), RelayCommandWindows(executable, endpoint, nonce));
    assert TRUST_FLAG[|TRUST_FLAG| - 1] == 't';
  }

  /**
   * Under a POSIX shell the built command splits into the user's tokens, then the config
   * overrides, then the hook arguments.
   */
  lemma BuiltCommandSplits(command: string, executable: string, endpoint: string, nonce: string, config: seq<Override>)
    requires BuildHooksCommand(command, Posix, executable, endpoint, true, nonce, config).Ok?
    ensures Split(command).Ok?
    ensures Split(BuildHooksCommand(command, Posix, executable, endpoint, true, nonce, config).value) ==
            Ok(Split(command).value + (OverrideTokens(config) + HookTokens(executable, endpoint, nonce)))
  {
    var added := OverrideTokens(config) + HookTokens(executable, endpoint, nonce);
    AddedTokensSafe(executable, endpoint, nonce, config);
    RunTokensNonempty(INITIAL, command);
    NonemptyConcat(Split(command).value, added);
    PosixRoundTrip(Split(command).value + added);
  }

  predicate NoBackslashEnds(tokens: seq<string>) {
    forall t :: t in tokens ==> !EndsInBackslash(t)
  }

  lemma {:induction false} OverrideEnds(config: seq<Override>)
    ensures NoBackslashEnds(OverrideTokens(config)) <==> forall o :: o in config ==> !EndsInBackslash(o.value)
  {
    if config != [] {
      var first := config[0];
      OverrideEnds(config[1..]);
      ArgumentEnds(first);
      assert config == [first] + config[1..];
      assert OverrideTokens(config) == ["--config", Argument(first)] + OverrideTokens(config[1..]);
      assert "--config" in OverrideTokens(config) && Argument(first) in OverrideTokens(config);
    }
  }

  lemma ArgumentEnds(o: Override)
    ensures EndsInBackslash(Argument(o)) <==> EndsInBackslash(o.value)
  {
    var a := Argument(o);
    assert a[|a| - 1] == if o.value == "" then '=' else o.value[|o.value| - 1];
  }

  lemma CmdSafeConcat(a: seq<string>, b: seq<string>, c: seq<string>)
    requires AllNonempty(a) && AllNonempty(b) && CmdSafe(c)
    ensures CmdSafe(a + (b + c)) <==> NoBackslashEnds(a) && NoBackslashEnds(b)
  {
    var all := a + (b + c);
    assert forall t :: t in all <==> t in a || t in b || t in c;
    assert NoBackslashEnds(c);
    if CmdSafe(all) {
      assert NoBackslashEnds(all);
    }
  }

  /**
   * Under cmd the built command splits in the same way exactly when neither a token of the user nor
   * the value of an override ends in a backslash.
   */
  lemma BuiltCmdCommandSplits(command: string, executable: string, endpoint: string, nonce: string, config: seq<Override>)
    requires BuildHooksCommand(command, Cmd, executable, endpoint, true, nonce, config).Ok?
    ensures Split(command).Ok?
    ensures Split(BuildHooksCommand(command, Cmd, executable, endpoint, true, nonce, config).value) ==
            Ok(Split(command).value + (OverrideTokens(config) + HookTokens(executable, endpoint, nonce)))
            <==> NoBackslashEnds(Split(command).value) && forall o :: o in config ==> !EndsInBackslash(o.value)
  {
    var own, overrides, hooks := Split(command).value, OverrideTokens(config), HookTokens(executable, endpoint, nonce);
    AddedTokensSafe(executable, endpoint, nonce, config);
    RunTokensNonempty(INITIAL, command);
    OverridesNonempty(config);
    OverrideEnds(config);
    CmdSafeConcat(own, overrides, hooks);
    CmdRoundTrip(own + (overrides + hooks));
  }

  lemma NonemptyConcat(a: seq<string>, b: seq<string>)
    requires AllNonempty(a) && AllNonempty(b)
    ensures AllNonempty(a + b)
  {
  }

  /** Both TOML strings of an override are read back, each where it stands. */
  lemma HookOverrideReads(event: string, command: string, windows: string)
    ensures var o := HookOverride(event, command, windows);
            var start := |"hooks." + event + COMMAND_KEY|;
            && start <= |o|
            && ReadBasicString(o[start..]) == Some((command, WINDOWS_KEY + (BasicString(windows) + CLOSING)))
            && ReadBasicString(BasicString(windows) + CLOSING) == Some((windows, CLOSING))
  {
    var head := "hooks." + event + COMMAND_KEY;
    var tail := WINDOWS_KEY + (BasicString(windows) + CLOSING);
    assert HookOverride(event, command, windows)[|head|..] == BasicString(command) + tail;
    BasicStringRoundTrip(command, tail);
    BasicStringRoundTrip(windows, CLOSING);
  }
}
