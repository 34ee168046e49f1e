/**
 * What rewriting a Claude startup command means: the settings argument that the
 * overlay replaces, the arguments that are appended, and the words that the
 * tokenizer reads in the rewritten command.
 */
module ClaudeRewrite {
  import opened Common
  import opened ShellTokens
  import opened ClaudeCommand
  import opened ClaudeSpaces

  // ----- The settings argument

  const SETTINGS := "--settings"
  const SETTINGS_PREFIX := "--settings="

  datatype SettingsArgument = SettingsArgument(value: string, start: nat, end: nat)

  datatype SettingsError = MissingValue | Ambiguous

  /** A settings argument in a list of words: its first word, its width and its value. */
  datatype Hit = Hit(first: nat, width: nat, value: string)

  type Search = Result<Option<Hit>, SettingsError>

  /** The settings argument that starts at word `i`, if one does. */
  function HitAt(words: seq<string>, i: nat): Search
    requires i < |words|
  {
    if words[i] == SETTINGS then
      if i + 1 < |words| then Ok(Some(Hit(i, 2, words[i + 1]))) else Err(MissingValue)
    else if StartsWith(words[i], SETTINGS_PREFIX) then
      var value := words[i][|SETTINGS_PREFIX|..];
      if value == "" then Err(MissingValue) else Ok(Some(Hit(i, 1, value)))
    else Ok(None)
  }

  function FindSettings(words: seq<string>, i: nat, found: Option<Hit>): Search
    decreases |words| - i
  {
    if i >= |words| then Ok(found)
    else match HitAt(words, i)
      case Err(e) => Err(e)
      case Ok(None) => FindSettings(words, i + 1, found)
      case Ok(Some(hit)) =>
        if found.Some? then Err(Ambiguous) else FindSettings(words, i + hit.width, Some(hit))
  }

  function ArgumentOf(tokens: seq<Token>, hit: Option<Hit>): Option<SettingsArgument>
    requires hit.Some? ==> hit.value.width > 0 && hit.value.first + hit.value.width <= |tokens|
  {
    match hit
    case None => None
    case Some(h) => Some(SettingsArgument(h.value, tokens[h.first].start, tokens[h.first + h.width - 1].end))
  }

  lemma {:induction false} HitInRange(words: seq<string>, i: nat, found: Option<Hit>)
    requires found.Some? ==> found.value.width > 0 && found.value.first + found.value.width <= |words|
    ensures var r := FindSettings(words, i, found);
            r.Ok? && r.value.Some? ==> r.value.value.width > 0 && r.value.value.first + r.value.value.width <= |words|
    decreases |words| - i
  {
    if i < |words| && HitAt(words, i).Ok? {
      match HitAt(words, i).value {
        case None => HitInRange(words, i + 1, found);
        case Some(hit) =>
          if found.None? {
            HitInRange(words, i + hit.width, Some(hit));
          }
      }
    }
  }

  /** The source's `find_settings_argument`. */
  method FindSettingsArgument(tokens: seq<Token>, argumentStart: nat)
    returns (r: Result<Option<SettingsArgument>, SettingsError>)
    ensures match FindSettings(Values(tokens), argumentStart, None)
            case Err(e) => r == Err(e)
            case Ok(hit) =>
              && (hit.Some? ==> hit.value.width > 0 && hit.value.first + hit.value.width <= |tokens|)
              && r == Ok(ArgumentOf(tokens, hit))
  {
    var found: Option<SettingsArgument> := None;
    var index := argumentStart;
    ghost var hit: Option<Hit> := None;
    while index < |tokens|
      invariant FindSettings(Values(tokens), argumentStart, None) == FindSettings(Values(tokens), index, hit)
      invariant hit.Some? ==> hit.value.width > 0 && hit.value.first + hit.value.width <= |tokens|
      invariant found == ArgumentOf(tokens, hit)
      decreases |tokens| - index
    {
      var token := tokens[index];
      var candidate: Option<SettingsArgument> := None;
      ghost var first := index;
      ghost var here := HitAt(Values(tokens), index);
      if token.value == SETTINGS {
        if index + 1 >= |tokens| {
          return Err(MissingValue);
        }
        candidate := Some(SettingsArgument(tokens[index + 1].value, token.start, tokens[index + 1].end));
        index := index + 1;
      } else if StartsWith(token.value, SETTINGS_PREFIX) {
        var value := token.value[|SETTINGS_PREFIX|..];
        if value == "" {
          return Err(MissingValue);
        }
        candidate := Some(SettingsArgument(value, token.start, token.end));
      }
      if candidate.Some? {
        if found.Some? {
          return Err(Ambiguous);
        }
        found, hit := candidate, here.value;
      }
      index := index + 1;
    }
    return Ok(found);
  }

  // ----- Replacing it

  /** The words of the command with the settings argument replaced. */
  function Replaced(words: seq<string>, hit: Hit, path: string): seq<string>
    requires hit.first + hit.width <= |words|
  {
    words[..hit.first] + ([SETTINGS, path] + words[hit.first + hit.width..])
  }

  /** After the one argument, the rest of the words holds no other. */
  lemma {:induction false} RestAlike(words: seq<string>, i: nat, found: Hit, other: seq<string>, j: nat, hit: Hit)
    requires i <= |words| && j <= |other| && words[i..] == other[j..]
    requires FindSettings(words, i, Some(found)).Ok?
    ensures FindSettings(words, i, Some(found)) == Ok(Some(found))
    ensures FindSettings(other, j, Some(hit)) == Ok(Some(hit))
    decreases |words| - i
  {
    if i < |words| {
      assert words[i] == words[i..][0] == other[j..][0] == other[j];
      assert words[i + 1..] == words[i..][1..] == other[j..][1..] == other[j + 1..];
      RestAlike(words, i + 1, found, other, j + 1, hit);
    }
  }

  /** A search of the replaced words finds the new path, and finds it once. */
  lemma {:induction false} FindReplaced(words: seq<string>, i: nat, hit: Hit, path: string)
    requires FindSettings(words, i, None) == Ok(Some(hit))
    ensures hit.width > 0 && i <= hit.first && hit.first + hit.width <= |words|
    ensures FindSettings(Replaced(words, hit, path), i, None) == Ok(Some(Hit(hit.first, 2, path)))
    decreases |words| - i
  {
    HitInRange(words, i, None);
    match HitAt(words, i).value {
      case None =>
        FindReplaced(words, i + 1, hit, path);
        var other := Replaced(words, hit, path);
        assert other[i] == words[i] && other[i] != SETTINGS && !StartsWith(other[i], SETTINGS_PREFIX);
      case Some(h) =>
        assert FindSettings(words, i + h.width, Some(h)) == Ok(Some(hit));
        FoundStays(words, i + h.width, h);
        var other := Replaced(words, hit, path);
        assert other[i] == SETTINGS && other[i + 1] == path;
        assert other[i + 2..] == words[i + h.width..];
        RestAlike(words, i + h.width, h, other, i + 2, Hit(i, 2, path));
    }
  }

  lemma {:induction false} FoundStays(words: seq<string>, i: nat, found: Hit)
    requires FindSettings(words, i, Some(found)).Ok?
    ensures FindSettings(words, i, Some(found)) == Ok(Some(found))
    decreases |words| - i
  {
    if i < |words| {
      FoundStays(words, i + 1, found);
    }
  }

  function SettingsReplacement(shell: Shell, path: string): string {
    SETTINGS + (" " + QuoteShellArgument(path, shell))
  }

  /** The startup command of the overlay when a settings argument was given. */
  function ReplaceSettings(command: string, argument: SettingsArgument, shell: Shell, path: string): string
    requires argument.start <= argument.end <= |command|
  {
    command[..argument.start] + (SettingsReplacement(shell, path) + command[argument.end..])
  }

  // ----- Words as they are rendered into a command

  predicate IsPlain(c: char) {
    'a' <= c <= 'z' || 'A' <= c <= 'Z' || '0' <= c <= '9' || c == '-'
  }

  predicate FlagLike(argument: string) {
    StartsWith(argument, "--") && forall c :: c in argument[2..] ==> IsPlain(c)
  }

  function Rendered(argument: string, shell: Shell): string {
    if FlagLike(argument) then argument else QuoteShellArgument(argument, shell)
  }

  /** The state after a word of value `value`, given what stood before it. */
  ghost predicate ReadWord(r: Outcome, tokens: seq<Token>, start: nat, value: string) {
    && r.Ok? && r.value.tokens == tokens && r.value.phase.In? && r.value.phase.start == start
    && r.value.phase.value == value && Complete(r.value.phase.inside)
  }

  lemma {:induction false} RunPlain(shell: Shell, tokens: seq<Token>, start: nat, prefix: string, pos: nat, word: string)
    requires forall c :: c in word ==> IsPlain(c)
    ensures Run(shell, State(tokens, In(start, prefix, Bare), pos), word) ==
            Ok(State(tokens, In(start, prefix + word, Bare), pos + |word|))
    decreases |word|
  {
    if word == "" {
      assert prefix + word == prefix;
    } else {
      assert word == [word[0]] + word[1..] && IsPlain(word[0]);
      assert Step(shell, State(tokens, In(start, prefix, Bare), pos), word[0]) ==
             Ok(State(tokens, In(start, prefix + [word[0]], Bare), pos + 1));
      RunPlain(shell, tokens, start, prefix + [word[0]], pos + 1, word[1..]);
      Associative(prefix, [word[0]], word[1..]);
    }
  }

  lemma FlagIsPlain(argument: string)
    requires FlagLike(argument)
    ensures forall c :: c in argument ==> IsPlain(c)
  {
    assert argument == "--" + argument[2..];
  }

  lemma RunQuotedWord(shell: Shell, tokens: seq<Token>, start: nat, prefix: string, pos: nat, value: string)
    requires SafeValue(value, shell)
    ensures ReadWord(Run(shell, State(tokens, In(start, prefix, Bare), pos), QuoteShellArgument(value, shell)),
                     tokens, start, prefix + value)
  {
    RunQuoted(shell, tokens, start, prefix, pos, value);
    ReplaceNothing(value, '"');
  }

  function Joined(arguments: seq<string>, shell: Shell): string
    requires arguments != []
  {
    if |arguments| == 1 then Rendered(arguments[0], shell)
    else Rendered(arguments[0], shell) + (" " + Joined(arguments[1..], shell))
  }

  // ----- The theorems

  lemma {:induction false} RestOfQuoted(shell: Shell, path: string, rest: string)
    requires SafeValue(path, shell) && EndsToken(rest)
    ensures RestWords(shell, QuoteShellArgument(path, shell) + rest) == Prepend([path], RestWords(shell, rest))
  {
    var quoted := QuoteShellArgument(path, shell);
    QuotedShape(shell, path);
    var s := State([], In(0, "", Bare), 0);
    WordsFromStart(shell, quoted + rest);
    RunQuotedWord(shell, [], 0, "", 0, path);
    assert "" + path == path && Values([]) + [path] == [path];
    RunChain(shell, s, quoted, rest);
    WordsFromToken(shell, Run(shell, s, quoted).value, rest);
  }

  lemma {:induction false} RestOfFlag(shell: Shell, flag: string, rest: string)
    requires FlagLike(flag) && EndsToken(rest)
    ensures RestWords(shell, flag + rest) == Prepend([flag], RestWords(shell, rest))
  {
    FlagIsPlain(flag);
    var s := State([], In(0, "", Bare), 0);
    assert IsPlain(flag[0]);
    WordsFromStart(shell, flag + rest);
    RunPlain(shell, [], 0, "", 0, flag);
    assert "" + flag == flag && Values([]) + [flag] == [flag];
    RunChain(shell, s, flag, rest);
    WordsFromToken(shell, Run(shell, s, flag).value, rest);
  }

  /** A quoted value is the first word, and what follows is read as before, exactly for safe values. */
  lemma {:induction false} RestOfQuotedExactly(shell: Shell, value: string, rest: string, after: seq<string>)
    requires EndsToken(rest) && RestWords(shell, rest) == Some(after)
    ensures RestWords(shell, QuoteShellArgument(value, shell) + rest) == Some([value] + after)
            <==> SafeValue(value, shell)
  {
    if SafeValue(value, shell) {
      RestOfQuoted(shell, value, rest);
    } else if RestWords(shell, QuoteShellArgument(value, shell) + rest) == Some([value] + after) {
      QuotedFirst(shell, value, rest);
    }
  }

  lemma SameRest(first: string, a: seq<string>, b: seq<string>)
    ensures [first] + a == [first] + b <==> a == b
  {
    assert ([first] + a)[1..] == a && ([first] + b)[1..] == b;
  }

  lemma {:induction false} RestOfFlagAndQuoted(shell: Shell, flag: string, value: string, rest: string, after: seq<string>)
    requires FlagLike(flag) && EndsToken(rest) && RestWords(shell, rest) == Some(after)
    ensures RestWords(shell, (flag + (" " + QuoteShellArgument(value, shell))) + rest) == Some([flag, value] + after)
            <==> SafeValue(value, shell)
  {
    var tail := QuoteShellArgument(value, shell) + rest;
    assert (flag + (" " + QuoteShellArgument(value, shell))) + rest == flag + (" " + tail);
    assert [flag, value] + after == [flag] + ([value] + after);
    RestOfFlag(shell, flag, " " + tail);
    RestAfterSpace(shell, tail);
    RestOfQuotedExactly(shell, value, rest, after);
    if RestWords(shell, tail).Some? {
      SameRest(flag, RestWords(shell, tail).value, [value] + after);
    }
  }

  lemma {:induction false} RestOfFlagAndQuotedAlone(shell: Shell, flag: string, value: string)
    requires FlagLike(flag)
    ensures RestWords(shell, flag + (" " + QuoteShellArgument(value, shell))) == Some([flag, value]) <==> SafeValue(value, shell)
  {
    var text := flag + (" " + QuoteShellArgument(value, shell));
    assert RestWords(shell, "") == Some([]) && text + "" == text && [flag, value] + [] == [flag, value];
    RestOfFlagAndQuoted(shell, flag, value, "", []);
  }

  /** `--settings <path>` is read as these two words exactly for safe paths. */
  lemma {:induction false} RestOfReplacement(shell: Shell, path: string, rest: string, after: seq<string>)
    requires EndsToken(rest) && RestWords(shell, rest) == Some(after)
    ensures RestWords(shell, SettingsReplacement(shell, path) + rest) == Some([SETTINGS, path] + after)
            <==> SafeValue(path, shell)
  {
    RestOfFlagAndQuoted(shell, SETTINGS, path, rest, after);
  }

  /** The words of a command from the start of one of its tokens, and from its end. */
  lemma {:induction false} WordsAround(shell: Shell, command: string, first: nat, last: nat)
    requires Tokenize(shell, command).Ok? && first <= last < |Tokenize(shell, command).value|
    ensures var tokens := Tokenize(shell, command).value;
            && tokens[first].start <= tokens[last].end <= |command|
            && EndsToken(command[tokens[last].end..])
            && RestWords(shell, command[tokens[last].end..]) == Some(Values(tokens)[last + 1..])
  {
    var tokens := Tokenize(shell, command).value;
    TokensLocated(shell, command, first);
    TokensLocated(shell, command, last);
    StartsOrdered(shell, command, first, last);
    var t := tokens[last];
    var after := command[t.end..];
    assert command == command[..t.end] + after;
    RunChain(shell, INITIAL, command[..t.end], after);
    WordsFromToken(shell, Run(shell, INITIAL, command[..t.end]).value, after);
    SplitAtToken(tokens, last);
    SameTail(Values(tokens[..last]) + [t.value], RestWords(shell, after).value, Values(tokens)[last + 1..]);
  }

  lemma SplitAtToken(tokens: seq<Token>, k: nat)
    requires k < |tokens|
    ensures Values(tokens) == (Values(tokens[..k]) + [tokens[k].value]) + Values(tokens)[k + 1..]
  {
  }

  lemma SameTail(a: seq<string>, b: seq<string>, c: seq<string>)
    requires a + b == a + c
    ensures b == c
  {
    assert (a + b)[|a|..] == b && (a + c)[|a|..] == c;
  }

  lemma StartsOrdered(shell: Shell, command: string, first: nat, last: nat)
    requires Tokenize(shell, command).Ok? && first <= last < |Tokenize(shell, command).value|
    ensures Tokenize(shell, command).value[first].start <= Tokenize(shell, command).value[last].end
  {
    var tokens := Tokenize(shell, command).value;
    TokensLocated(shell, command, first);
    TokensLocated(shell, command, last);
    if tokens[last].end < tokens[first].start {
      var near, far := command[..tokens[last].end], command[..tokens[first].start];
      assert far == near + far[|near|..];
      RunChain(shell, INITIAL, near, far[|near|..]);
      RunAdvances(shell, Run(shell, INITIAL, near).value, far[|near|..]);
    }
  }

  /**
   * Replacing the settings argument changes that argument and nothing else: the rewritten
   * command is read as the same words with `--settings` and the path in place of the old
   * argument, exactly when the path is safe for the shell; and a second search of those
   * words finds exactly the new path.
   */
  lemma {:induction false} ReplaceSettingsMeaning(shell: Shell, command: string, argumentStart: nat, hit: Hit, path: string)
    requires Tokenize(shell, command).Ok?
    requires FindSettings(Values(Tokenize(shell, command).value), argumentStart, None) == Ok(Some(hit))
    ensures var tokens := Tokenize(shell, command).value;
            && hit.width > 0 && hit.first + hit.width <= |tokens|
            && var argument := ArgumentOf(tokens, Some(hit)).value;
            && argument.start <= argument.end <= |command|
            && (Words(shell, ReplaceSettings(command, argument, shell, path)) == Some(Replaced(Values(tokens), hit, path))
                <==> SafeValue(path, shell))
            && FindSettings(Replaced(Values(tokens), hit, path), argumentStart, None) ==
               Ok(Some(Hit(hit.first, 2, path)))
  {
    FindReplaced(Values(Tokenize(shell, command).value), argumentStart, hit, path);
    ReplaceHitMeaning(shell, command, hit, path);
  }

  lemma {:induction false} ReplaceHitMeaning(shell: Shell, command: string, hit: Hit, path: string)
    requires Tokenize(shell, command).Ok? && hit.width > 0 && hit.first + hit.width <= |Tokenize(shell, command).value|
    ensures var tokens := Tokenize(shell, command).value;
            var argument := ArgumentOf(tokens, Some(hit)).value;
            && argument.start <= argument.end <= |command|
            && (Words(shell, ReplaceSettings(command, argument, shell, path)) == Some(Replaced(Values(tokens), hit, path))
                <==> SafeValue(path, shell))
  {
    ReplaceRange(shell, command, hit.first, hit.first + hit.width - 1, path);
  }

  /** Replacing the text of tokens `first` to `last` replaces those words, for safe paths. */
  lemma {:induction false} ReplaceRange(shell: Shell, command: string, first: nat, last: nat, path: string)
    requires Tokenize(shell, command).Ok? && first <= last < |Tokenize(shell, command).value|
    ensures var tokens := Tokenize(shell, command).value;
            var start, end := tokens[first].start, tokens[last].end;
            && start <= end <= |command|
            && (Words(shell, command[..start] + (SettingsReplacement(shell, path) + command[end..])) ==
                Some(Values(tokens)[..first] + ([SETTINGS, path] + Values(tokens)[last + 1..]))
                <==> SafeValue(path, shell))
  {
    var tokens := Tokenize(shell, command).value;
    WordsAround(shell, command, first, last);
    TokensLocated(shell, command, first);
    var start, after := tokens[first].start, command[tokens[last].end..];
    var middle := SettingsReplacement(shell, path) + after;
    RestOfReplacement(shell, path, after, Values(tokens)[last + 1..]);
    RunChain(shell, INITIAL, command[..start], middle);
    assert middle[0] == '-';
    WordsFromAnywhere(shell, tokens[..first], start, middle);
    assert Values(tokens[..first]) == Values(tokens)[..first];
    PrependExactly(Values(tokens)[..first], RestWords(shell, middle), [SETTINGS, path] + Values(tokens)[last + 1..]);
  }

  lemma PrependExactly(words: seq<string>, rest: Option<seq<string>>, after: seq<string>)
    ensures Prepend(words, rest) == Some(words + after) <==> rest == Some(after)
  {
    if rest.Some? && words + rest.value == words + after {
      SameTail(words, rest.value, after);
    }
  }

  predicate EndsInWhitespace(command: string) {
    command != "" && IsWhitespace(command[|command| - 1])
  }

  function Separator(command: string): string {
    if EndsInWhitespace(command) then "" else " "
  }

  /** The command that appending the arguments produces. */
  function Appended(command: string, shell: Shell, arguments: seq<string>): string
    requires arguments != []
  {
    command + (Separator(command) + Joined(arguments, shell))
  }

  /** The command ends inside a token, in a whitespace character that was escaped. */
  predicate EndsInEscapedWhitespace(command: string, tokens: seq<Token>) {
    EndsInWhitespace(command) && tokens != [] && tokens[|tokens| - 1].end == |command|
  }

  /** Where the run of a tokenizable command stands at its end. */
  lemma {:induction false} EndOfCommand(shell: Shell, command: string)
    requires Tokenize(shell, command).Ok?
    ensures var s, tokens := Run(shell, INITIAL, command).value, Tokenize(shell, command).value;
            && tokens != []
            && (s.phase.Between? ==> tokens == s.tokens && EndsInWhitespace(command)
                                     && tokens[|tokens| - 1].end < |command|)
            && (s.phase.In? ==> tokens == s.tokens + [Token(s.phase.value, s.phase.start, |command|)]
                                && s.phase.value != "" && Complete(s.phase.inside))
            && (s.phase.In? && EndsInWhitespace(command) ==> s.phase.inside.Bare?)
  {
    RunLocated(shell, command);
    if command != "" {
      RunSnoc(shell, INITIAL, command);
      LastStep(shell, Run(shell, INITIAL, command[..|command| - 1]).value, command[|command| - 1]);
    }
  }

  lemma LastStep(shell: Shell, s: State, c: char)
    ensures var r := Step(shell, s, c);
            && (r.Ok? && r.value.phase.Between? ==> IsWhitespace(c))
            && (r.Ok? && r.value.phase.In? && IsWhitespace(c) && Complete(r.value.phase.inside) ==>
                  r.value.phase.inside.Bare?)
  {
  }

  // ----- Arguments joined after a command

  lemma FlagIsSafe(shell: Shell, flag: string)
    requires FlagLike(flag)
    ensures SafeValue(flag, shell)
  {
    FlagIsPlain(flag);
  }

  /** A rendered argument is read as itself, and what follows as before, exactly when it is safe. */
  lemma {:induction false} RestOfRendered(shell: Shell, argument: string, rest: string, after: seq<string>)
    requires EndsToken(rest)
    ensures RestWords(shell, Rendered(argument, shell) + rest) == Some([argument] + after)
            <==> SafeValue(argument, shell) && RestWords(shell, rest) == Some(after)
  {
    if FlagLike(argument) {
      FlagIsSafe(shell, argument);
      RestOfFlag(shell, argument, rest);
    } else if SafeValue(argument, shell) {
      RestOfQuoted(shell, argument, rest);
    } else if RestWords(shell, QuoteShellArgument(argument, shell) + rest) == Some([argument] + after) {
      QuotedFirst(shell, argument, rest);
    }
    PrependExactly([argument], RestWords(shell, rest), after);
  }

  /** Joined arguments are read back exactly when all of them are safe. */
  lemma {:induction false} RestOfJoined(shell: Shell, arguments: seq<string>)
    requires arguments != []
    ensures RestWords(shell, Joined(arguments, shell)) == Some(arguments)
            <==> forall a :: a in arguments ==> SafeValue(a, shell)
    ensures RestWords(shell, " " + Joined(arguments, shell)) == RestWords(shell, Joined(arguments, shell))
    decreases |arguments|
  {
    var first, rest := arguments[0], arguments[1..];
    RestAfterSpace(shell, Joined(arguments, shell));
    assert arguments == [first] + rest;
    if |arguments| == 1 {
      RestOfRendered(shell, first, "", []);
      assert Rendered(first, shell) + "" == Rendered(first, shell) && rest == [];
      assert RestWords(shell, "") == Some([]);
    } else {
      RestOfRendered(shell, first, " " + Joined(rest, shell), rest);
      RestOfJoined(shell, rest);
    }
  }

  lemma {:induction false} SpacesOfJoined(shell: Shell, arguments: seq<string>)
    requires arguments != []
    ensures Spaces(Joined(arguments, shell)) == SpacesIn(arguments) + |arguments| - 1
    decreases |arguments|
  {
    var first, rest := arguments[0], arguments[1..];
    assert arguments == [first] + rest;
    SpacesInConcat([first], rest);
    assert SpacesIn([first]) == Spaces(first) by {
      SpacesInSnoc([], first);
      assert [] + [first] == [first];
    }
    SpacesOfRendered(shell, first);
    if |arguments| > 1 {
      SpacesOfJoined(shell, rest);
      SpacesConcat(Rendered(first, shell), " " + Joined(rest, shell));
      SpacesConcat(" ", Joined(rest, shell));
    }
  }

  lemma {:induction false} SpacesOfRendered(shell: Shell, argument: string)
    ensures Spaces(Rendered(argument, shell)) == Spaces(argument)
  {
    SpacesOfQuoted(shell, argument);
  }

  /**
   * Appending adds exactly the given arguments as new words if and only if all of them are safe
   * and the command does not end in an escaped whitespace character: after one no separator is
   * added, and the first argument runs into the last word.
   */
  lemma {:induction false} AppendMeaning(shell: Shell, command: string, arguments: seq<string>)
    requires Tokenize(shell, command).Ok? && arguments != []
    ensures var tokens := Tokenize(shell, command).value;
            Words(shell, Appended(command, shell, arguments)) == Some(Values(tokens) + arguments)
            <==> !EndsInEscapedWhitespace(command, tokens) && forall a :: a in arguments ==> SafeValue(a, shell)
  {
    EndOfCommand(shell, command);
    var joined := Joined(arguments, shell);
    SpacesOfJoined(shell, arguments);
    RestOfJoined(shell, arguments);
    AppendTextMeaning(shell, command, joined, arguments);
  }

  /** Any text that starts a word, put after a command with a separator where the source puts one. */
  lemma {:induction false} AppendTextMeaning(shell: Shell, command: string, text: string, words: seq<string>)
    requires Tokenize(shell, command).Ok? && words != []
    requires text != "" && Spaces(text) == SpacesIn(words) + |words| - 1
    requires RestWords(shell, " " + text) == RestWords(shell, text)
    ensures var tokens := Tokenize(shell, command).value;
            Words(shell, command + (Separator(command) + text)) == Some(Values(tokens) + words)
            <==> !EndsInEscapedWhitespace(command, tokens) && RestWords(shell, text) == Some(words)
  {
    EndOfCommand(shell, command);
    if Run(shell, INITIAL, command).value.phase.In? && EndsInWhitespace(command) {
      RunsOn(shell, command, text, words);
    } else {
      Separates(shell, command, text, words);
    }
  }

  /** After an escaped whitespace character there is not enough whitespace for that many new words. */
  lemma {:induction false} RunsOn(shell: Shell, command: string, text: string, words: seq<string>)
    requires Tokenize(shell, command).Ok? && EndsInWhitespace(command) && words != []
    requires Run(shell, INITIAL, command).value.phase.In?
    requires Spaces(text) == SpacesIn(words) + |words| - 1
    ensures Words(shell, command + (Separator(command) + text)) != Some(Values(Tokenize(shell, command).value) + words)
  {
    EndOfCommand(shell, command);
    var s, tokens := Run(shell, INITIAL, command).value, Tokenize(shell, command).value;
    assert Separator(command) + text == text;
    RunChain(shell, INITIAL, command, text);
    WordsHold(shell, s, text);
    assert Values(tokens) == Values(s.tokens) + [s.phase.value];
    SpacesInSnoc(Values(s.tokens), s.phase.value);
    SpacesInConcat(Values(tokens), words);
  }

  lemma {:induction false} Separates(shell: Shell, command: string, text: string, words: seq<string>)
    requires Tokenize(shell, command).Ok?
    requires Run(shell, INITIAL, command).value.phase.In? ==> !EndsInWhitespace(command)
    requires RestWords(shell, " " + text) == RestWords(shell, text)
    ensures Words(shell, command + (Separator(command) + text)) == Some(Values(Tokenize(shell, command).value) + words)
            <==> RestWords(shell, text) == Some(words)
  {
    EndOfCommand(shell, command);
    var s, tokens := Run(shell, INITIAL, command).value, Tokenize(shell, command).value;
    if s.phase.In? {
      RunChain(shell, INITIAL, command, " " + text);
      WordsFromToken(shell, s, " " + text);
      assert Values(tokens) == Values(s.tokens) + [s.phase.value];
    } else {
      assert "" + text == text;
      RunChain(shell, INITIAL, command, text);
      WordsFromBetween(shell, s.tokens, s.pos, text);
    }
    PrependExactly(Values(tokens), RestWords(shell, text), words);
  }

  // ----- The overlay of a command without a settings argument

  function AppendSettings(command: string, shell: Shell, path: string): string {
    command + (Separator(command) + SettingsReplacement(shell, path))
  }

  lemma {:induction false} FindAppended(words: seq<string>, i: nat, path: string)
    requires i <= |words| && FindSettings(words, i, None) == Ok(None)
    ensures FindSettings(words + [SETTINGS, path], i, None) == Ok(Some(Hit(|words|, 2, path)))
    decreases |words| - i
  {
    var more := words + [SETTINGS, path];
    if i < |words| {
      if HitAt(words, i).value.Some? {
        var hit := HitAt(words, i).value.value;
        FoundStays(words, i + hit.width, hit);
        assert false;
      }
      assert more[i] == words[i];
      FindAppended(words, i + 1, path);
    } else {
      assert more[i] == SETTINGS && more[i + 1] == path;
    }
  }

  lemma {:induction false} SpacesOfFlagAndQuoted(shell: Shell, flag: string, value: string)
    requires FlagLike(flag)
    ensures Spaces(flag + (" " + QuoteShellArgument(value, shell))) == SpacesIn([flag, value]) + 1
  {
    SpacesOfQuoted(shell, value);
    SpacesOfFlag(flag, QuoteShellArgument(value, shell));
    SpacesOfTwo(flag, value);
  }

  lemma {:induction false} SpacesOfFlag(flag: string, text: string)
    requires FlagLike(flag)
    ensures Spaces(flag) == 0 && Spaces(flag + (" " + text)) == 1 + Spaces(text)
  {
    FlagIsPlain(flag);
    forall c | c in flag
      ensures !IsWhitespace(c)
    {
      assert IsPlain(c);
    }
    SpacesNone(flag);
    SpacesConcat(flag, " " + text);
    SpacesConcat(" ", text);
  }

  lemma {:induction false} SpacesOfTwo(a: string, b: string)
    ensures SpacesIn([a, b]) == Spaces(a) + Spaces(b)
  {
    SpacesInSnoc([a], b);
    SpacesInSnoc([], a);
    assert [a] + [b] == [a, b] && [] + [a] == [a];
  }

  /**
   * Without a settings argument the overlay adds `--settings` and the path as two new words, which
   * a second search finds, if and only if the path is safe for the shell and the command does not
   * end in an escaped whitespace character.
   */
  lemma {:induction false} AppendSettingsMeaning(shell: Shell, command: string, argumentStart: nat, path: string)
    requires Tokenize(shell, command).Ok? && argumentStart <= |Tokenize(shell, command).value|
    requires FindSettings(Values(Tokenize(shell, command).value), argumentStart, None) == Ok(None)
    ensures var tokens := Tokenize(shell, command).value;
            var words := Values(tokens) + [SETTINGS, path];
            && (Words(shell, AppendSettings(command, shell, path)) == Some(words)
                <==> !EndsInEscapedWhitespace(command, tokens) && SafeValue(path, shell))
            && FindSettings(words, argumentStart, None) == Ok(Some(Hit(|tokens|, 2, path)))
  {
    FindAppended(Values(Tokenize(shell, command).value), argumentStart, path);
    AppendFlagMeaning(shell, command, SETTINGS, path);
  }

  lemma {:induction false} AppendFlagMeaning(shell: Shell, command: string, flag: string, value: string)
    requires Tokenize(shell, command).Ok? && FlagLike(flag)
    ensures var tokens := Tokenize(shell, command).value;
            Words(shell, command + (Separator(command) + (flag + (" " + QuoteShellArgument(value, shell)))))
              == Some(Values(tokens) + [flag, value])
            <==> !EndsInEscapedWhitespace(command, tokens) && SafeValue(value, shell)
  {
    var text := flag + (" " + QuoteShellArgument(value, shell));
    RestAfterSpace(shell, text);
    RestOfFlagAndQuotedAlone(shell, flag, value);
    SpacesOfFlagAndQuoted(shell, flag, value);
    AppendTextMeaning(shell, command, text, [flag, value]);
  }

  // ----- Appending provider-owned arguments

  datatype AppendError = NotTokenizable(error: TokenError) | NotClaude | BlankOrMultiline

  function Lower(text: string): string {
    if text == "" then ""
    else (if 'A' <= text[0] <= 'Z' then [text[0] - 'A' + 'a'] else [text[0]]) + Lower(text[1..])
  }

  /** What follows the last slash or backslash. */
  function AfterSlash(text: string): string
    decreases |text|
  {
    if text == "" || (text[|text| - 1] == '/' || text[|text| - 1] == '\\') then ""
    else AfterSlash(text[..|text| - 1]) + [text[|text| - 1]]
  }

  function Basename(value: string): string { Lower(AfterSlash(value)) }

  function SkipYes(words: seq<string>, i: nat): nat
    decreases |words| - i
  {
    if i < |words| && (words[i] == "-y" || words[i] == "--yes") then SkipYes(words, i + 1) else i
  }

  const PACKAGE := "@anthropic-ai/claude-code"

  predicate IsPackage(word: string) {
    StartsWith(word, PACKAGE) && (|word| == |PACKAGE| || (word[|PACKAGE|] == '@' && |word| > |PACKAGE| + 1))
  }

  /** The source's `claude_argument_start`: where the arguments of a directly recognized Claude command start. */
  function ArgumentStart(words: seq<string>): Option<nat> {
    if words == [] then None
    else
      var executable := Basename(words[0]);
      if executable in ["claude", "claude.exe", "claude.cmd", "claude.ps1"] then Some(1)
      else if executable !in ["npx", "npx.exe", "npx.cmd"] then None
      else
        var i := SkipYes(words, 1);
        if i < |words| && IsPackage(words[i]) then Some(i + 1) else None
  }

  method ClaudeArgumentStart(tokens: seq<Token>) returns (start: Option<nat>)
    ensures start == ArgumentStart(Values(tokens))
    ensures start.Some? ==> 0 < start.value <= |tokens|
  {
    if tokens == [] {
      return None;
    }
    var executable := Basename(tokens[0].value);
    if executable in ["claude", "claude.exe", "claude.cmd", "claude.ps1"] {
      return Some(1);
    }
    if executable !in ["npx", "npx.exe", "npx.cmd"] {
      return None;
    }
    var index := 1;
    while index < |tokens| && (tokens[index].value == "-y" || tokens[index].value == "--yes")
      invariant 1 <= index <= |tokens| && SkipYes(Values(tokens), index) == SkipYes(Values(tokens), 1)
    {
      index := index + 1;
    }
    if index >= |tokens| || !IsPackage(tokens[index].value) {
      return None;
    }
    return Some(index + 1);
  }

  /** The source's `append_claude_cli_arguments`. */
  function AppendClaudeArguments(command: string, shell: Shell, arguments: seq<string>): Result<string, AppendError> {
    match Tokenize(shell, command)
    case Err(e) => Err(NotTokenizable(e))
    case Ok(tokens) =>
      if ArgumentStart(Values(tokens)).None? then Err(NotClaude)
      else if arguments == [] then Ok(command)
      else if exists a :: a in arguments && (a == "" || !SingleLine(a)) then Err(BlankOrMultiline)
      else Ok(Appended(command, shell, arguments))
  }

  /**
   * What the source appends is read as the old words and the arguments, if and only if the arguments
   * are safe for the shell and the command does not end in an escaped whitespace character.
   */
  lemma {:induction false} AppendClaudeMeaning(command: string, shell: Shell, arguments: seq<string>)
    requires AppendClaudeArguments(command, shell, arguments).Ok?
    ensures Tokenize(shell, command).Ok?
    ensures var tokens := Tokenize(shell, command).value;
            Words(shell, AppendClaudeArguments(command, shell, arguments).value) == Some(Values(tokens) + arguments)
            <==> || arguments == []
                 || (!EndsInEscapedWhitespace(command, tokens) && forall a :: a in arguments ==> SafeValue(a, shell))
  {
    if arguments == [] {
      assert Values(Tokenize(shell, command).value) + arguments == Values(Tokenize(shell, command).value);
    } else {
      AppendMeaning(shell, command, arguments);
    }
  }

  /** Under a POSIX shell the source's own guard is the whole safe class. */
  lemma {:induction false} AppendPosixMeaning(command: string, arguments: seq<string>)
    requires AppendClaudeArguments(command, Posix, arguments).Ok?
    ensures Tokenize(Posix, command).Ok?
    ensures var tokens := Tokenize(Posix, command).value;
            Words(Posix, AppendClaudeArguments(command, Posix, arguments).value) == Some(Values(tokens) + arguments)
            <==> arguments == [] || !EndsInEscapedWhitespace(command, tokens)
  {
    AppendClaudeMeaning(command, Posix, arguments);
  }

  predicate IsLower(c: char) { 'a' <= c <= 'z' }

  predicate AllLower(word: string) { forall i :: 0 <= i < |word| ==> IsLower(word[i]) }

  lemma {:induction false} PlainBasename(word: string)
    requires AllLower(word)
    ensures Basename(word) == word
  {
    PlainAfterSlash(word);
    PlainLower(word);
  }

  lemma {:induction false} PlainAfterSlash(word: string)
    requires AllLower(word)
    ensures AfterSlash(word) == word
    decreases |word|
  {
    if word != "" {
      assert IsLower(word[|word| - 1]);
      PlainAfterSlash(word[..|word| - 1]);
    }
  }

  lemma {:induction false} PlainLower(word: string)
    requires AllLower(word)
    ensures Lower(word) == word
  {
    if word != "" {
      assert IsLower(word[0]);
      PlainLower(word[1..]);
    }
  }

  /** A space, one letter and an escaped space. */
  const ESCAPED_SPACE := " " + ("x" + ("\\" + " "))

  /** One letter and an escaped space are one word. */
  lemma {:induction false} RunEscapedSpace(tokens: seq<Token>, n: nat)
    ensures Run(Posix, State(tokens, Between, n), "x" + ("\\" + " ")) == Ok(State(tokens, In(n, "x ", Bare), n + 3))
  {
    var one := "" + ['x'];
    RunHead(Posix, State(tokens, Between, n), 'x', "\\" + " ");
    assert Step(Posix, State(tokens, Between, n), 'x') == Ok(State(tokens, In(n, one, Bare), n + 1));
    RunHead(Posix, State(tokens, In(n, one, Bare), n + 1), '\\', " ");
    assert Step(Posix, State(tokens, In(n, one, Bare), n + 1), '\\') == Ok(State(tokens, In(n, one, BareEscape), n + 2));
    RunOne(Posix, State(tokens, In(n, one, BareEscape), n + 2), ' ');
    assert one + [' '] == "x ";
  }

  /** A plain word and a space are read as a token. */
  lemma {:induction false} RunWordAndSpace(word: string, tail: string)
    requires word != "" && forall c :: c in word ==> IsPlain(c)
    ensures Run(Posix, INITIAL, word + ([' '] + tail)) ==
            Run(Posix, State([Token(word, 0, |word|)], Between, |word| + 1), tail)
  {
    var s, t := State([], In(0, "", Bare), 0), State([], In(0, word, Bare), |word|);
    assert IsPlain(word[0]);
    EnterToken(Posix, [], 0, word + ([' '] + tail));
    RunPlain(Posix, [], 0, "", 0, word);
    assert "" + word == word;
    RunChain(Posix, s, word, [' '] + tail);
    RunHead(Posix, t, ' ', tail);
    SpaceEndsToken(word);
  }

  lemma SpaceEndsToken(word: string)
    requires word != ""
    ensures Step(Posix, State([], In(0, word, Bare), |word|), ' ')
            == Ok(State([Token(word, 0, |word|)], Between, |word| + 1))
  {
    assert [] + [Token(word, 0, |word|)] == [Token(word, 0, |word|)];
  }

  lemma {:induction false} TokensOfEscapedSpace(word: string)
    requires word != "" && forall c :: c in word ==> IsPlain(c)
    ensures Tokenize(Posix, word + ESCAPED_SPACE) == Ok([Token(word, 0, |word|), Token("x ", |word| + 1, |word| + 4)])
  {
    var first, second := Token(word, 0, |word|), Token("x ", |word| + 1, |word| + 4);
    RunWordAndSpace(word, "x" + ("\\" + " "));
    RunEscapedSpace([first], |word| + 1);
    assert [first] + [second] == [first, second];
  }

  /** The source accepts `claude x\ `, and what it appends does not become words of its own. */
  lemma {:induction false} EscapedSpaceRunsOn(claude: string, arguments: seq<string>)
    requires claude == "claude"
    requires arguments != [] && forall a :: a in arguments ==> a != "" && SingleLine(a)
    ensures var r := AppendClaudeArguments(claude + ESCAPED_SPACE, Posix, arguments);
            && r.Ok? && Words(Posix, claude + ESCAPED_SPACE) == Some([claude, "x "])
            && Words(Posix, r.value) != Some([claude, "x "] + arguments)
  {
    assert AllLower(claude);
    forall c | c in claude
      ensures IsPlain(c)
    {
      assert IsLower(c);
    }
    TokensOfEscapedSpace(claude);
    PlainBasename(claude);
    RecognizedRunsOn(claude, claude + ESCAPED_SPACE, arguments);
  }

  lemma {:induction false} RecognizedRunsOn(claude: string, command: string, arguments: seq<string>)
    requires claude == "claude" && Basename(claude) == claude
    requires arguments != [] && forall a :: a in arguments ==> a != "" && SingleLine(a)
    requires command != "" && command[|command| - 1] == ' ' && |command| == |claude| + 4
    requires Tokenize(Posix, command) == Ok([Token(claude, 0, |claude|), Token("x ", |claude| + 1, |claude| + 4)])
    ensures var r := AppendClaudeArguments(command, Posix, arguments);
            && r.Ok? && Words(Posix, command) == Some([claude, "x "])
            && Words(Posix, r.value) != Some([claude, "x "] + arguments)
  {
    assert Values(Tokenize(Posix, command).value) == [claude, "x "];
    AppendPosixMeaning(command, arguments);
  }
}
