/**
 * Rewriting a Claude startup command: quoting an argument, replacing the one
 * `--settings` argument, and appending arguments.  The theorems say what the
 * rewritten text means to the tokenizer.
 */
module ClaudeCommand {
  import opened Common
  import opened ShellTokens

  // ----- Quoting

  function QuoteShellArgument(value: string, shell: Shell): string {
    match shell
    case Posix => "'" + (Replace(value, '\'', "'\\''") + "'")
    case PowerShell => "'" + (Replace(value, '\'', "''") + "'")
    case Cmd => "\"" + (Replace(value, '"', "\"\"") + "\"")
  }

  predicate SingleLine(value: string) {
    forall c :: c in value ==> !IsLineBreak(c)
  }

  /** The values that survive quoting for a shell. */
  predicate SafeValue(value: string, shell: Shell) {
    && value != "" && SingleLine(value)
    && (shell == PowerShell ==> '`' !in value)
    && (shell == Cmd ==> '"' !in value && '^' !in value)
  }

  function Delimiter(shell: Shell): char { if shell == Cmd then '"' else '\'' }

  function Doubling(shell: Shell): string {
    match shell case Posix => "'\\''" case PowerShell => "''" case Cmd => "\"\""
  }

  /** The characters that the shell's escape character would rewrite inside quotes. */
  predicate NoEscape(value: string, shell: Shell) {
    (shell == PowerShell ==> '`' !in value) && (shell == Cmd ==> '^' !in value)
  }

  /** What a quoted value contributes: cmd drops a doubled quote. */
  function Kept(value: string, shell: Shell): string {
    if shell == Cmd then Replace(value, '"', "") else value
  }

  lemma RunDoubling(shell: Shell, tokens: seq<Token>, start: nat, value: string, pos: nat)
    ensures Run(shell, State(tokens, In(start, value, Quoted(Delimiter(shell))), pos), Doubling(shell)) ==
            Ok(State(tokens, In(start, value + (if shell == Cmd then "" else "'"), Quoted(Delimiter(shell))),
                     pos + |Doubling(shell)|))
  {
    var s := State(tokens, In(start, value, Quoted(Delimiter(shell))), pos);
    match shell {
      case Posix =>
        assert Doubling(shell) == ['\''] + (['\\'] + (['\''] + ['\'']));
        RunHead(shell, s, '\'', ['\\'] + (['\''] + ['\'']));
        var s1 := State(tokens, In(start, value, Bare), pos + 1);
        RunHead(shell, s1, '\\', ['\''] + ['\'']);
        var s2 := State(tokens, In(start, value, BareEscape), pos + 2);
        RunHead(shell, s2, '\'', ['\'']);
        RunOne(shell, State(tokens, In(start, value + ['\''], Bare), pos + 3), '\'');
      case PowerShell =>
        assert Doubling(shell) == ['\''] + ['\''];
        RunHead(shell, s, '\'', ['\'']);
        RunOne(shell, State(tokens, In(start, value, QuoteSeen), pos + 1), '\'');
      case Cmd =>
        assert Doubling(shell) == ['"'] + ['"'];
        RunHead(shell, s, '"', ['"']);
        RunOne(shell, State(tokens, In(start, value, Bare), pos + 1), '"');
        assert value + "" == value;
    }
  }

  /** What one character of a value turns into. */
  function QuotedPiece(shell: Shell, c: char): string {
    if c == Delimiter(shell) then Doubling(shell) else [c]
  }

  lemma KeptHead(shell: Shell, c: char, rest: string)
    ensures Kept([c], shell) == if shell == Cmd && c == '"' then "" else [c]
    ensures Kept([c] + rest, shell) == Kept([c], shell) + Kept(rest, shell)
  {
    assert [c][1..] == "" && ([c] + rest)[1..] == rest;
    assert Replace([c], '"', "") == if c == '"' then "" else [c];
  }

  lemma RunQuotedPiece(shell: Shell, tokens: seq<Token>, start: nat, value: string, pos: nat, c: char)
    requires NoEscape([c], shell)
    ensures var r := Run(shell, State(tokens, In(start, value, Quoted(Delimiter(shell))), pos), QuotedPiece(shell, c));
            if IsLineBreak(c) then r.Err?
            else r == Ok(State(tokens, In(start, value + Kept([c], shell), Quoted(Delimiter(shell))),
                               pos + |QuotedPiece(shell, c)|))
  {
    KeptHead(shell, c, "");
    if c == Delimiter(shell) {
      RunDoubling(shell, tokens, start, value, pos);
    } else {
      assert c in [c];
      RunOne(shell, State(tokens, In(start, value, Quoted(Delimiter(shell))), pos), c);
    }
  }

  function QuotedInside(shell: Shell, text: string): string {
    Replace(text, Delimiter(shell), Doubling(shell))
  }

  function InQuotes(shell: Shell, tokens: seq<Token>, start: nat, value: string, pos: nat): State {
    State(tokens, In(start, value, Quoted(Delimiter(shell))), pos)
  }

  lemma SplitHead(shell: Shell, text: string)
    requires text != ""
    ensures QuotedInside(shell, text) == QuotedPiece(shell, text[0]) + QuotedInside(shell, text[1..])
    ensures SingleLine(text) <==> !IsLineBreak(text[0]) && SingleLine(text[1..])
    ensures NoEscape(text, shell) <==> NoEscape([text[0]], shell) && NoEscape(text[1..], shell)
    ensures Kept(text, shell) == Kept([text[0]], shell) + Kept(text[1..], shell)
  {
    assert text == [text[0]] + text[1..];
    KeptHead(shell, text[0], text[1..]);
  }

  /** The inside of a single-line value, character after character. */
  lemma {:induction false} RunQuotedInside(shell: Shell, tokens: seq<Token>, start: nat, value: string, pos: nat,
                                           text: string)
    requires NoEscape(text, shell) && SingleLine(text)
    ensures Run(shell, InQuotes(shell, tokens, start, value, pos), QuotedInside(shell, text)) ==
            Ok(InQuotes(shell, tokens, start, value + Kept(text, shell), pos + |QuotedInside(shell, text)|))
    decreases |text|
  {
    if text == "" {
      assert value + Kept(text, shell) == value;
    } else {
      SplitHead(shell, text);
      var s, piece := InQuotes(shell, tokens, start, value, pos), QuotedPiece(shell, text[0]);
      var kept := value + Kept([text[0]], shell);
      RunQuotedPiece(shell, tokens, start, value, pos, text[0]);
      RunChain(shell, s, piece, QuotedInside(shell, text[1..]));
      RunQuotedInside(shell, tokens, start, kept, pos + |piece|, text[1..]);
      Associative(value, Kept([text[0]], shell), Kept(text[1..], shell));
    }
  }

  /** A line break inside the value is refused. */
  lemma {:induction false} RunQuotedLineBreak(shell: Shell, s: State, text: string)
    requires NoEscape(text, shell) && !SingleLine(text)
    requires s.phase.In? && s.phase.inside == Quoted(Delimiter(shell))
    ensures Run(shell, s, QuotedInside(shell, text)).Err?
    decreases |text|
  {
    SplitHead(shell, text);
    var piece := QuotedPiece(shell, text[0]);
    RunQuotedPiece(shell, s.tokens, s.phase.start, s.phase.value, s.pos, text[0]);
    RunChain(shell, s, piece, QuotedInside(shell, text[1..]));
    if Run(shell, s, piece).Ok? {
      RunQuotedLineBreak(shell, Run(shell, s, piece).value, text[1..]);
    }
  }

  /** The state just after the closing quote of a word. */
  function Closed(shell: Shell): Inside { if shell == PowerShell then QuoteSeen else Bare }

  lemma QuotedShape(shell: Shell, value: string)
    ensures QuoteShellArgument(value, shell) == [Delimiter(shell)] + (QuotedInside(shell, value) + [Delimiter(shell)])
  {
  }

  /** A whole quoted value, read where a bare token `prefix` stands. */
  lemma RunQuoted(shell: Shell, tokens: seq<Token>, start: nat, prefix: string, pos: nat, value: string)
    requires NoEscape(value, shell)
    ensures var w := QuoteShellArgument(value, shell);
            var r := Run(shell, State(tokens, In(start, prefix, Bare), pos), w);
            if SingleLine(value)
            then r == Ok(State(tokens, In(start, prefix + Kept(value, shell), Closed(shell)), pos + |w|))
            else r.Err?
  {
    var d, inside := Delimiter(shell), QuotedInside(shell, value);
    QuotedShape(shell, value);
    RunHead(shell, State(tokens, In(start, prefix, Bare), pos), d, inside + [d]);
    var open := InQuotes(shell, tokens, start, prefix, pos + 1);
    assert Step(shell, State(tokens, In(start, prefix, Bare), pos), d) == Ok(open);
    RunChain(shell, open, inside, [d]);
    if SingleLine(value) {
      RunQuotedInside(shell, tokens, start, prefix, pos + 1, value);
      RunOne(shell, Run(shell, open, inside).value, d);
    } else {
      RunQuotedLineBreak(shell, open, value);
    }
  }

  /** Between tokens, a character that is not whitespace starts an empty bare token. */
  lemma EnterToken(shell: Shell, tokens: seq<Token>, pos: nat, text: string)
    requires text != "" && !IsWhitespace(text[0])
    ensures Run(shell, State(tokens, Between, pos), text) == Run(shell, State(tokens, In(pos, "", Bare), pos), text)
  {
  }

  // Values with an escape character are caught by counting: every escape
  // character that reaches the output used up two of the input.

  function Count(text: string, c: char): nat {
    if text == "" then 0 else (if text[0] == c then 1 else 0) + Count(text[1..], c)
  }

  lemma {:induction false} CountConcat(a: string, b: string, c: char)
    ensures Count(a + b, c) == Count(a, c) + Count(b, c)
  {
    if a == "" {
      assert a + b == b;
    } else {
      assert (a + b)[1..] == a[1..] + b;
      CountConcat(a[1..], b, c);
    }
  }

  lemma CountSnoc(text: string, last: char, c: char)
    ensures Count(text + [last], c) == Count(text, c) + (if last == c then 1 else 0)
  {
    CountConcat(text, [last], c);
    assert [last][1..] == "";
  }

  lemma {:induction false} CountZero(text: string, c: char)
    ensures Count(text, c) == 0 <==> c !in text
  {
    if text != "" {
      assert text == [text[0]] + text[1..];
      CountZero(text[1..], c);
    }
  }

  lemma {:induction false} CountReplace(text: string, d: char, with: string, c: char)
    requires c != d && c !in with
    ensures Count(Replace(text, d, with), c) == Count(text, c)
  {
    if text != "" {
      CountReplace(text[1..], d, with, c);
      var piece := if text[0] == d then with else [text[0]];
      CountConcat(piece, Replace(text[1..], d, with), c);
      CountZero(with, c);
      assert [text[0]][1..] == "";
    }
  }

  function EscapeCharacter(shell: Shell): char
    requires shell != Posix
  {
    if shell == PowerShell then '`' else '^'
  }

  function Emitted(tokens: seq<Token>, c: char): nat {
    if tokens == [] then 0 else Emitted(tokens[..|tokens| - 1], c) + Count(tokens[|tokens| - 1].value, c)
  }

  /** Twice the escape characters emitted so far, and one for an open escape. */
  function Spent(s: State, c: char): nat {
    2 * Emitted(s.tokens, c) +
    (if s.phase.Between? then 0
     else 2 * Count(s.phase.value, c) + (if s.phase.inside.BareEscape? || s.phase.inside.QuotedEscape? then 1 else 0))
  }

  lemma EmittedSnoc(tokens: seq<Token>, t: Token, c: char)
    ensures Emitted(tokens + [t], c) == Emitted(tokens, c) + Count(t.value, c)
  {
    assert (tokens + [t])[..|tokens|] == tokens;
  }

  lemma StepBareSpends(shell: Shell, s: State, start: nat, value: string, c: char)
    requires shell != Posix
    ensures var e := EscapeCharacter(shell);
            var r := StepBare(shell, s, start, value, c);
            r.Ok? ==> Spent(r.value, e) <= 2 * Emitted(s.tokens, e) + 2 * Count(value, e) + (if c == e then 1 else 0)
  {
    var e := EscapeCharacter(shell);
    if IsWhitespace(c) {
      EmittedSnoc(s.tokens, Token(value, start, s.pos), e);
    } else if !OpensQuote(c, shell) && !EscapesBare(c, shell) {
      CountSnoc(value, c, e);
    }
  }

  lemma StepSpends(shell: Shell, s: State, c: char)
    requires shell != Posix
    ensures var e := EscapeCharacter(shell);
            var r := Step(shell, s, c);
            r.Ok? ==> Spent(r.value, e) <= Spent(s, e) + (if c == e then 1 else 0)
  {
    var e := EscapeCharacter(shell);
    match s.phase {
      case Between => StepBareSpends(shell, s, s.pos, "", c);
      case In(start, value, inside) =>
        StepBareSpends(shell, s, start, value, c);
        CountSnoc(value, c, e);
    }
  }

  lemma {:induction false} RunSpends(shell: Shell, s: State, text: string)
    requires shell != Posix
    ensures var e := EscapeCharacter(shell);
            var r := Run(shell, s, text);
            r.Ok? ==> Spent(r.value, e) <= Spent(s, e) + Count(text, e)
    decreases |text|
  {
    if text != "" {
      StepSpends(shell, s, text[0]);
      match Step(shell, s, text[0]) {
        case Err(_) =>
        case Ok(t) => RunSpends(shell, t, text[1..]);
      }
    }
  }

  lemma FinishSpends(s: State, c: char)
    ensures Finish(s).Ok? ==> 2 * Emitted(Finish(s).value, c) <= Spent(s, c)
  {
    if s.phase.In? {
      EmittedSnoc(s.tokens, Token(s.phase.value, s.phase.start, s.pos), c);
    }
  }

  lemma EscapedValueIsLost(shell: Shell, value: string)
    requires !NoEscape(value, shell)
    ensures Words(shell, QuoteShellArgument(value, shell)) != Some([value])
  {
    var e, d, with := EscapeCharacter(shell), Delimiter(shell), Doubling(shell);
    var w := QuoteShellArgument(value, shell);
    var inside := Replace(value, d, with);
    QuotedShape(shell, value);
    RunSpends(shell, INITIAL, w);
    CountConcat([d], inside + [d], e);
    CountConcat(inside, [d], e);
    assert [d][1..] == "";
    CountReplace(value, d, with, e);
    CountZero(value, e);
    if Words(shell, w) == Some([value]) {
      var tokens := Tokenize(shell, w).value;
      assert tokens == [tokens[0]] && Values(tokens)[0] == tokens[0].value == value;
      assert Emitted(tokens, e) == Count(value, e) by {
        assert tokens[..0] == [];
      }
      var s := Run(shell, INITIAL, w).value;
      FinishSpends(s, e);
    }
  }

  lemma {:induction false} ReplaceNothing(text: string, c: char)
    ensures |Replace(text, c, "")| <= |text|
    ensures Replace(text, c, "") == text <==> c !in text
  {
    if text != "" {
      assert text == [text[0]] + text[1..];
      ReplaceNothing(text[1..], c);
    }
  }

  lemma OneWord(tokens: seq<Token>, word: string, value: string)
    requires |tokens| == 1 && tokens[0].value == "" + word
    ensures Values(tokens) == [value] <==> word == value
  {
    assert "" + word == word;
    assert Values(tokens)[0] == word;
  }

  lemma UnescapedQuote(shell: Shell, value: string)
    requires NoEscape(value, shell)
    ensures Words(shell, QuoteShellArgument(value, shell)) == Some([value])
            <==> SingleLine(value) && value != "" && Kept(value, shell) == value
  {
    RunQuoted(shell, [], 0, "", 0, value);
    EnterToken(shell, [], 0, QuoteShellArgument(value, shell));
    if SingleLine(value) && "" + Kept(value, shell) != "" {
      var tokens := Tokenize(shell, QuoteShellArgument(value, shell)).value;
      assert |tokens| == 1 && tokens[0].value == "" + Kept(value, shell);
      OneWord(tokens, Kept(value, shell), value);
    }
  }

  /** Quoting is undone by the tokenizer exactly for the values of the safe class. */
  lemma QuoteRoundTrip(shell: Shell, value: string)
    ensures Words(shell, QuoteShellArgument(value, shell)) == Some([value]) <==> SafeValue(value, shell)
  {
    if !NoEscape(value, shell) {
      EscapedValueIsLost(shell, value);
    } else {
      ReplaceNothing(value, '"');
      UnescapedQuote(shell, value);
    }
  }

  // ----- Where tokens stand in a command

  lemma RunSnoc(shell: Shell, s: State, text: string)
    requires text != ""
    ensures var n := |text| - 1;
            Run(shell, s, text) ==
            match Run(shell, s, text[..n]) case Err(e) => Err(e) case Ok(t) => Step(shell, t, text[n])
  {
    var n := |text| - 1;
    assert text == text[..n] + [text[n]];
    RunConcat(shell, s, text[..n], [text[n]]);
    if Run(shell, s, text[..n]).Ok? {
      RunOne(shell, Run(shell, s, text[..n]).value, text[n]);
    }
  }

  predicate Complete(inside: Inside) { inside.Bare? || inside.QuoteSeen? }

  /** The run that reached the start of token `k`, and the run that reached its end. */
  ghost predicate Spans(shell: Shell, command: string, tokens: seq<Token>, k: nat)
    requires k < |tokens|
  {
    var t := tokens[k];
    && t.value != "" && t.start <= t.end <= |command|
    && Run(shell, INITIAL, command[..t.start]) == Ok(State(tokens[..k], Between, t.start))
    && (exists inside :: Complete(inside) &&
          Run(shell, INITIAL, command[..t.end]) == Ok(State(tokens[..k], In(t.start, t.value, inside), t.end)))
    && (t.end < |command| ==> IsWhitespace(command[t.end]) && !IsLineBreak(command[t.end]))
  }

  ghost predicate Located(shell: Shell, command: string, s: State) {
    && s.pos == |command|
    && (forall k :: 0 <= k < |s.tokens| ==> Spans(shell, command, s.tokens, k) && s.tokens[k].end < |command|)
    && (s.phase.In? ==>
          && s.phase.start <= |command|
          && Run(shell, INITIAL, command[..s.phase.start]) == Ok(State(s.tokens, Between, s.phase.start)))
  }

  lemma SpansExtend(shell: Shell, command: string, longer: string, tokens: seq<Token>, more: seq<Token>, k: nat)
    requires k < |tokens| && tokens <= more && command <= longer
    requires Spans(shell, command, tokens, k) && tokens[k].end < |command|
    ensures Spans(shell, longer, more, k)
  {
    var t := tokens[k];
    assert more[..k] == tokens[..k];
    assert longer[..t.start] == command[..t.start] && longer[..t.end] == command[..t.end];
    assert longer[t.end] == command[t.end];
  }

  lemma {:induction false} RunLocated(shell: Shell, command: string)
    requires Run(shell, INITIAL, command).Ok?
    ensures Located(shell, command, Run(shell, INITIAL, command).value)
    decreases |command|
  {
    if command != "" {
      var n := |command| - 1;
      RunSnoc(shell, INITIAL, command);
      RunLocated(shell, command[..n]);
      StepLocated(shell, command, Run(shell, INITIAL, command[..n]).value);
    }
  }

  lemma EarlierSpans(shell: Shell, command: string, tokens: seq<Token>, more: seq<Token>)
    requires command != "" && tokens <= more
    requires forall k :: 0 <= k < |tokens| ==>
               Spans(shell, command[..|command| - 1], tokens, k) && tokens[k].end < |command| - 1
    ensures forall k :: 0 <= k < |tokens| ==> Spans(shell, command, more, k) && more[k].end < |command|
  {
    forall k | 0 <= k < |tokens|
      ensures Spans(shell, command, more, k)
    {
      SpansExtend(shell, command[..|command| - 1], command, tokens, more, k);
    }
  }

  lemma {:induction false} StepLocated(shell: Shell, command: string, s: State)
    requires command != "" && Run(shell, INITIAL, command[..|command| - 1]) == Ok(s)
    requires Located(shell, command[..|command| - 1], s)
    requires Step(shell, s, command[|command| - 1]).Ok?
    ensures Located(shell, command, Step(shell, s, command[|command| - 1]).value)
  {
    var t := Step(shell, s, command[|command| - 1]).value;
    StepAdvances(shell, s, command[|command| - 1]);
    StepSpans(shell, command, s, t);
    if t.phase.In? {
      StepStart(shell, command, s, t);
    }
  }

  lemma {:induction false} StepSpans(shell: Shell, command: string, s: State, t: State)
    requires command != "" && Run(shell, INITIAL, command[..|command| - 1]) == Ok(s)
    requires Located(shell, command[..|command| - 1], s)
    requires Step(shell, s, command[|command| - 1]) == Ok(t)
    ensures forall k :: 0 <= k < |t.tokens| ==> Spans(shell, command, t.tokens, k) && t.tokens[k].end < |command|
  {
    StepAdvances(shell, s, command[|command| - 1]);
    EarlierSpans(shell, command, s.tokens, t.tokens);
    if |t.tokens| > |s.tokens| {
      StepCompletes(shell, command, s, t);
    } else {
      assert t.tokens == s.tokens;
    }
  }

  /** A step keeps the start of an open token, or opens one where it stands. */
  lemma {:induction false} StepStart(shell: Shell, command: string, s: State, t: State)
    requires command != "" && Run(shell, INITIAL, command[..|command| - 1]) == Ok(s)
    requires Located(shell, command[..|command| - 1], s)
    requires Step(shell, s, command[|command| - 1]) == Ok(t) && t.phase.In?
    ensures t.phase.start <= |command|
    ensures Run(shell, INITIAL, command[..t.phase.start]) == Ok(State(t.tokens, Between, t.phase.start))
  {
    var n := |command| - 1;
    assert t.tokens == s.tokens;
    if s.phase.In? {
      assert t.phase.start == s.phase.start;
      assert command[..s.phase.start] == command[..n][..s.phase.start];
    } else {
      assert t.phase.start == n;
    }
  }

  /** The token that a step completes spans what was read for it. */
  lemma {:induction false} StepCompletes(shell: Shell, command: string, s: State, t: State)
    requires command != "" && Run(shell, INITIAL, command[..|command| - 1]) == Ok(s)
    requires Located(shell, command[..|command| - 1], s)
    requires Step(shell, s, command[|command| - 1]) == Ok(t) && |t.tokens| > |s.tokens|
    ensures |t.tokens| == |s.tokens| + 1 && Spans(shell, command, t.tokens, |s.tokens|)
    ensures t.tokens[|s.tokens|].end < |command|
  {
    var n := |command| - 1;
    var token := t.tokens[|s.tokens|];
    assert t.tokens == s.tokens + [token];
    assert t.tokens[..|s.tokens|] == s.tokens;
    assert command[..token.start] == command[..n][..token.start];
    assert Complete(s.phase.inside);
  }

  lemma TokensLocated(shell: Shell, command: string, k: nat)
    requires Tokenize(shell, command).Ok? && k < |Tokenize(shell, command).value|
    ensures Spans(shell, command, Tokenize(shell, command).value, k)
  {
    RunLocated(shell, command);
    var s, tokens := Run(shell, INITIAL, command).value, Tokenize(shell, command).value;
    if k < |s.tokens| {
      SpansExtend(shell, command, command, s.tokens, tokens, k);
    } else {
      assert tokens == s.tokens + [tokens[k]];
      assert tokens[..k] == s.tokens;
      assert command[..|command|] == command;
      assert Complete(s.phase.inside);
    }
  }

  // ----- What follows a token does not depend on what came before it

  /** The words of the rest of a command, read from between tokens. */
  function RestWords(shell: Shell, text: string): Option<seq<string>> {
    match Run(shell, INITIAL, text)
    case Err(_) => None
    case Ok(s) =>
      if s.phase.Between? then Some(Values(s.tokens))
      else WordsOf(Finish(s))
  }

  function Prepend(words: seq<string>, rest: Option<seq<string>>): Option<seq<string>> {
    if rest.Some? then Some(words + rest.value) else None
  }

  /** Two states that differ only in positions and in the tokens before. */
  ghost predicate Alike(s: State, a: nat, t: State, b: nat) {
    && a <= |s.tokens| && b <= |t.tokens|
    && Values(s.tokens[a..]) == Values(t.tokens[b..])
    && (s.phase.Between? <==> t.phase.Between?)
    && (s.phase.In? ==> s.phase.value == t.phase.value && s.phase.inside == t.phase.inside)
  }

  lemma ValuesSnoc(tokens: seq<Token>, a: nat, t: Token)
    requires a <= |tokens|
    ensures Values((tokens + [t])[a..]) == Values(tokens[a..]) + [t.value]
  {
    assert (tokens + [t])[a..] == tokens[a..] + [t];
  }

  lemma BareAlike(shell: Shell, s: State, a: nat, t: State, b: nat, i: nat, j: nat, value: string, c: char)
    requires a <= |s.tokens| && b <= |t.tokens| && Values(s.tokens[a..]) == Values(t.tokens[b..])
    ensures var r, q := StepBare(shell, s, i, value, c), StepBare(shell, t, j, value, c);
            if r.Ok? then q.Ok? && Alike(r.value, a, q.value, b) else q.Err?
  {
    if IsWhitespace(c) {
      ValuesSnoc(s.tokens, a, Token(value, i, s.pos));
      ValuesSnoc(t.tokens, b, Token(value, j, t.pos));
    }
  }

  lemma {:induction false} StepAlike(shell: Shell, s: State, a: nat, t: State, b: nat, c: char)
    requires Alike(s, a, t, b)
    ensures var r, q := Step(shell, s, c), Step(shell, t, c);
            if r.Ok? then q.Ok? && Alike(r.value, a, q.value, b) else q.Err?
  {
    if s.phase.Between? {
      BareAlike(shell, s, a, t, b, s.pos, t.pos, "", c);
    } else if s.phase.inside.Bare? || (s.phase.inside.QuoteSeen? && c != '\'') {
      BareAlike(shell, s, a, t, b, s.phase.start, t.phase.start, s.phase.value, c);
    }
  }

  lemma {:induction false} RunAlike(shell: Shell, s: State, a: nat, t: State, b: nat, text: string)
    requires Alike(s, a, t, b)
    ensures var r, q := Run(shell, s, text), Run(shell, t, text);
            if r.Ok? then q.Ok? && Alike(r.value, a, q.value, b) else q.Err?
    decreases |text|
  {
    if text != "" {
      StepAlike(shell, s, a, t, b, text[0]);
      if Step(shell, s, text[0]).Ok? {
        RunAlike(shell, Step(shell, s, text[0]).value, a, Step(shell, t, text[0]).value, b, text[1..]);
      }
    }
  }

  lemma ValuesSplit(tokens: seq<Token>, n: nat)
    requires n <= |tokens|
    ensures Values(tokens) == Values(tokens[..n]) + Values(tokens[n..])
  {
  }

  /** The end of the command gives alike words to states that are alike. */
  lemma FinishAlike(s: State, a: nat, t: State, b: nat)
    requires Alike(s, a, t, b) && s.phase.In?
    ensures Finish(s).Ok? <==> Finish(t).Ok?
    ensures Finish(s).Ok? ==> Values(Finish(s).value[a..]) == Values(Finish(t).value[b..])
  {
    ValuesSnoc(s.tokens, a, Token(s.phase.value, s.phase.start, s.pos));
    ValuesSnoc(t.tokens, b, Token(t.phase.value, t.phase.start, t.pos));
  }

  /** The words of a whole command in terms of the tokens before and the text after. */
  lemma WordsFromBetween(shell: Shell, tokens: seq<Token>, pos: nat, text: string)
    requires tokens != []
    ensures WordsOf(RunToEnd(shell, State(tokens, Between, pos), text)) ==
            Prepend(Values(tokens), RestWords(shell, text))
  {
    var n := |tokens|;
    var s := State(tokens, Between, pos);
    RunAlike(shell, s, n, INITIAL, 0, text);
    RunAdvances(shell, s, text);
    if Run(shell, s, text).Ok? {
      var r, q := Run(shell, s, text).value, Run(shell, INITIAL, text).value;
      if r.phase.Between? {
        assert r.tokens[..n] == tokens && q.tokens[0..] == q.tokens;
        ValuesSplit(r.tokens, n);
      } else {
        FinishAlike(r, n, q, 0);
        if Finish(r).Ok? {
          assert Finish(r).value[..n] == tokens && Finish(q).value[0..] == Finish(q).value;
          ValuesSplit(Finish(r).value, n);
        }
      }
    }
  }

  /** The end of a command, or whitespace that ends a token. */
  predicate EndsToken(text: string) {
    text == "" || (IsWhitespace(text[0]) && !IsLineBreak(text[0]))
  }

  lemma WordsFromToken(shell: Shell, s: State, text: string)
    requires s.phase.In? && Complete(s.phase.inside) && s.phase.value != "" && EndsToken(text)
    ensures WordsOf(RunToEnd(shell, s, text)) ==
            Prepend(Values(s.tokens) + [s.phase.value], RestWords(shell, text))
  {
    var token := Token(s.phase.value, s.phase.start, s.pos);
    var more := s.tokens + [token];
    assert Values(more) == Values(s.tokens) + [s.phase.value];
    if text == "" {
      assert RestWords(shell, text) == Some([]);
      assert Values(more) + [] == Values(more);
    } else {
      WordsFromBetween(shell, more, s.pos, text);
      assert Step(shell, s, text[0]) == Ok(State(more, Between, s.pos + 1));
    }
  }

  /** A token that starts the command: the words before it are none. */
  lemma WordsFromStart(shell: Shell, text: string)
    requires text != "" && !IsWhitespace(text[0])
    ensures RestWords(shell, text) == Words(shell, text)
    ensures RestWords(shell, text) == WordsOf(RunToEnd(shell, State([], In(0, "", Bare), 0), text))
  {
    EnterToken(shell, [], 0, text);
    NeverBetweenEmpty(shell, State([], In(0, "", Bare), 0), text);
  }

  lemma {:induction false} NeverBetweenEmpty(shell: Shell, s: State, text: string)
    requires s.tokens != [] || s.phase.In?
    ensures var r := Run(shell, s, text); r.Ok? ==> r.value.tokens != [] || r.value.phase.In?
    decreases |text|
  {
    if text != "" && Step(shell, s, text[0]).Ok? {
      NeverBetweenEmpty(shell, Step(shell, s, text[0]).value, text[1..]);
    }
  }

  /** Leading whitespace is skipped. */
  lemma RestAfterSpace(shell: Shell, text: string)
    ensures RestWords(shell, " " + text) == RestWords(shell, text)
  {
    RunHead(shell, INITIAL, ' ', text);
    var s := State([], Between, 1);
    assert Step(shell, INITIAL, ' ') == Ok(s);
    RestFromAnywhere(shell, 1, text);
  }

  lemma RestFromAnywhere(shell: Shell, pos: nat, text: string)
    ensures RestWords(shell, text) ==
            match Run(shell, State([], Between, pos), text)
            case Err(_) => None
            case Ok(s) => if s.phase.Between? then Some(Values(s.tokens)) else WordsOf(Finish(s))
  {
    var s := State([], Between, pos);
    RunAlike(shell, s, 0, INITIAL, 0, text);
    if Run(shell, s, text).Ok? {
      var r, q := Run(shell, s, text).value, Run(shell, INITIAL, text).value;
      if r.phase.Between? {
        assert r.tokens[0..] == r.tokens && q.tokens[0..] == q.tokens;
      } else {
        FinishAlike(r, 0, q, 0);
        if Finish(r).Ok? {
          assert Finish(r).value[0..] == Finish(r).value && Finish(q).value[0..] == Finish(q).value;
        }
      }
    }
  }

  /** Reading on from between tokens, whether or not there were tokens before. */
  lemma WordsFromAnywhere(shell: Shell, tokens: seq<Token>, pos: nat, text: string)
    requires text != "" && !IsWhitespace(text[0])
    ensures WordsOf(RunToEnd(shell, State(tokens, Between, pos), text)) ==
            Prepend(Values(tokens), RestWords(shell, text))
  {
    if tokens != [] {
      WordsFromBetween(shell, tokens, pos, text);
    } else {
      RestFromAnywhere(shell, pos, text);
      EnterToken(shell, [], pos, text);
      NeverBetweenEmpty(shell, State([], In(pos, "", Bare), pos), text);
      PrependNone(RestWords(shell, text));
    }
  }

  lemma PrependNone(rest: Option<seq<string>>)
    ensures Prepend([], rest) == rest
  {
    if rest.Some? {
      assert [] + rest.value == rest.value;
    }
  }
}
