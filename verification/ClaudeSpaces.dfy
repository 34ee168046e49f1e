/**
 * A conservation law of the shell tokenizer: every whitespace character that it reads either
 * ends a token, or goes into one, or is skipped.  It decides what happens to values outside
 * the safe class of a shell, whose quotes may open and close in unforeseen places.
 */
module ClaudeSpaces {
  import opened Common
  import opened ShellTokens
  import opened ClaudeCommand

  function Spaces(text: string): nat {
    if text == "" then 0 else (if IsWhitespace(text[0]) then 1 else 0) + Spaces(text[1..])
  }

  lemma {:induction false} SpacesConcat(a: string, b: string)
    ensures Spaces(a + b) == Spaces(a) + Spaces(b)
  {
    if a == "" {
      assert a + b == b;
    } else {
      assert (a + b)[1..] == a[1..] + b;
      SpacesConcat(a[1..], b);
    }
  }

  lemma {:induction false} SpacesSnoc(text: string, c: char)
    ensures Spaces(text + [c]) == Spaces(text) + (if IsWhitespace(c) then 1 else 0)
  {
    SpacesConcat(text, [c]);
    assert [c][1..] == "";
  }

  lemma {:induction false} SpacesPrefix(a: string, b: string)
    requires a <= b
    ensures Spaces(a) <= Spaces(b)
  {
    assert b == a + b[|a|..];
    SpacesConcat(a, b[|a|..]);
  }

  lemma {:induction false} SpacesNone(text: string)
    requires forall c :: c in text ==> !IsWhitespace(c)
    ensures Spaces(text) == 0
  {
    if text != "" {
      assert text[0] in text;
      SpacesNone(text[1..]);
    }
  }

  lemma {:induction false} SpacesReplace(text: string, d: char, with: string)
    requires !IsWhitespace(d) && forall c :: c in with ==> !IsWhitespace(c)
    ensures Spaces(Replace(text, d, with)) == Spaces(text)
  {
    if text != "" {
      SpacesReplace(text[1..], d, with);
      var piece := if text[0] == d then with else [text[0]];
      SpacesConcat(piece, Replace(text[1..], d, with));
      SpacesNone(with);
      assert [text[0]][1..] == "";
    }
  }

  /** Quoting adds no whitespace. */
  lemma {:induction false} SpacesOfQuoted(shell: Shell, value: string)
    ensures Spaces(QuoteShellArgument(value, shell)) == Spaces(value)
  {
    var d, inside := Delimiter(shell), QuotedInside(shell, value);
    QuotedShape(shell, value);
    SpacesReplace(value, d, Doubling(shell));
    SpacesSnoc(inside, d);
    SpacesConcat([d], inside + [d]);
    assert [d][1..] == "";
  }

  // ----- The first word

  predicate QuotesAreQuotes(inside: Inside) {
    inside.Quoted? || inside.QuotedEscape? ==> inside.delimiter == '"' || inside.delimiter == '\''
  }

  /** Reading the first token of a command. */
  predicate Starting(s: State) {
    s.tokens == [] && s.phase.In? && QuotesAreQuotes(s.phase.inside)
  }

  /** After reading on, the first token is still open, or it has ended. */
  ghost predicate FirstWord(s: State, t: State, read: string)
    requires Starting(s)
  {
    && (t.tokens == [] ==>
          && Starting(t) && s.phase.value <= t.phase.value
          && Spaces(t.phase.value) == Spaces(s.phase.value) + Spaces(read))
    && (t.tokens != [] ==>
          && s.phase.value <= t.tokens[0].value
          && Spaces(t.tokens[0].value) < Spaces(s.phase.value) + Spaces(read))
  }

  lemma {:induction false} StepBareFirst(shell: Shell, s: State, c: char)
    requires Starting(s)
    requires StepBare(shell, s, s.phase.start, s.phase.value, c).Ok?
    ensures FirstWord(s, StepBare(shell, s, s.phase.start, s.phase.value, c).value, [c])
  {
    SpacesSnoc(s.phase.value, c);
    assert [c][1..] == "";
  }

  lemma {:induction false} StepFirst(shell: Shell, s: State, c: char)
    requires Starting(s) && Step(shell, s, c).Ok?
    ensures FirstWord(s, Step(shell, s, c).value, [c])
  {
    SpacesSnoc(s.phase.value, c);
    assert [c][1..] == "";
    if s.phase.inside.Bare? || (s.phase.inside.QuoteSeen? && c != '\'') {
      StepBareFirst(shell, s, c);
    }
  }

  lemma {:induction false} RunFirst(shell: Shell, s: State, text: string)
    requires Starting(s) && Run(shell, s, text).Ok?
    ensures FirstWord(s, Run(shell, s, text).value, text)
    decreases |text|
  {
    if text != "" {
      var t := Step(shell, s, text[0]).value;
      StepFirst(shell, s, text[0]);
      assert text == [text[0]] + text[1..];
      SpacesConcat([text[0]], text[1..]);
      if t.tokens == [] {
        RunFirst(shell, t, text[1..]);
      } else {
        RunAdvances(shell, t, text[1..]);
      }
    }
  }

  /** What is read into the first token stays at its start. */
  lemma {:induction false} FirstWordGrows(shell: Shell, s: State, text: string)
    requires Starting(s) && RunToEnd(shell, s, text).Ok?
    ensures var tokens := RunToEnd(shell, s, text).value; tokens != [] && s.phase.value <= tokens[0].value
  {
    RunFirst(shell, s, text);
  }

  /** A quoted value that comes out as the first word is safe, whatever token ends and text follow it. */
  lemma {:induction false} QuotedFirst(shell: Shell, value: string, rest: string)
    requires EndsToken(rest)
    requires var words := RestWords(shell, QuoteShellArgument(value, shell) + rest);
             words.Some? && words.value != [] && words.value[0] == value
    ensures SafeValue(value, shell)
  {
    var quoted := QuoteShellArgument(value, shell);
    var s := State([], In(0, "", Bare), 0);
    QuotedShape(shell, value);
    WordsFromStart(shell, quoted + rest);
    RunChain(shell, s, quoted, rest);
    RunFirst(shell, s, quoted);
    SpacesOfQuoted(shell, value);
    var r := Run(shell, s, quoted).value;
    RunAdvances(shell, r, rest);
    if r.tokens == [] && Complete(r.phase.inside) {
      ClosedFirst(shell, value, r, rest);
    } else if r.tokens == [] && rest != "" {
      OpenFirst(shell, r, rest);
    }
  }

  /** A value that is closed where its quotes end is the first word by itself. */
  lemma {:induction false} ClosedFirst(shell: Shell, value: string, r: State, rest: string)
    requires Run(shell, State([], In(0, "", Bare), 0), QuoteShellArgument(value, shell)) == Ok(r)
    requires r.tokens == [] && r.phase.In? && Complete(r.phase.inside) && EndsToken(rest)
    requires RunToEnd(shell, r, rest).Ok? && RunToEnd(shell, r, rest).value != []
    requires RunToEnd(shell, r, rest).value[0].value == value
    ensures SafeValue(value, shell)
  {
    var quoted := QuoteShellArgument(value, shell);
    QuotedShape(shell, value);
    if rest != "" {
      var t := Step(shell, r, rest[0]).value;
      assert t.tokens == [Token(r.phase.value, r.phase.start, r.pos)];
      RunAdvances(shell, t, rest[1..]);
    }
    assert r.phase.value == value && value != "";
    EnterToken(shell, [], 0, quoted);
    assert Values(Finish(r).value) == [value];
    QuoteRoundTrip(shell, value);
  }

  /** A value whose quotes are still open takes the following whitespace in. */
  lemma {:induction false} OpenFirst(shell: Shell, r: State, rest: string)
    requires Starting(r) && !Complete(r.phase.inside)
    requires rest != "" && IsWhitespace(rest[0]) && RunToEnd(shell, r, rest).Ok?
    ensures var tokens := RunToEnd(shell, r, rest).value;
            tokens != [] && Spaces(tokens[0].value) > Spaces(r.phase.value)
  {
    var t := Step(shell, r, rest[0]).value;
    assert t.tokens == [] && t.phase.In? && t.phase.value == r.phase.value + [rest[0]];
    SpacesSnoc(r.phase.value, rest[0]);
    FirstWordGrows(shell, t, rest[1..]);
    SpacesPrefix(t.phase.value, RunToEnd(shell, r, rest).value[0].value);
  }

  // ----- The whole text

  function SpacesIn(words: seq<string>): nat {
    if words == [] then 0 else SpacesIn(words[..|words| - 1]) + Spaces(words[|words| - 1])
  }

  lemma {:induction false} SpacesInSnoc(words: seq<string>, word: string)
    ensures SpacesIn(words + [word]) == SpacesIn(words) + Spaces(word)
  {
    assert (words + [word])[..|words|] == words;
  }

  /** The whitespace in all values, and one for each token that has ended. */
  function Held(s: State): nat {
    SpacesIn(Values(s.tokens)) + |s.tokens| + (if s.phase.In? then Spaces(s.phase.value) else 0)
  }

  lemma {:induction false} StepBareHolds(shell: Shell, s: State, start: nat, value: string, c: char)
    ensures var r := StepBare(shell, s, start, value, c);
            r.Ok? ==> Held(r.value) <= SpacesIn(Values(s.tokens)) + |s.tokens| + Spaces(value)
                                       + (if IsWhitespace(c) then 1 else 0)
  {
    SpacesSnoc(value, c);
    if IsWhitespace(c) && value != "" {
      SpacesInSnoc(Values(s.tokens), value);
      assert Values(s.tokens + [Token(value, start, s.pos)]) == Values(s.tokens) + [value];
    }
  }

  /** Inside quotes or after an escape a step reads the character into the value or drops it. */
  lemma {:induction false} StepInside(shell: Shell, s: State, c: char)
    requires s.phase.In? && !s.phase.inside.Bare? && !(s.phase.inside.QuoteSeen? && c != '\'')
    ensures var r := Step(shell, s, c);
            r.Ok? ==> && r.value.tokens == s.tokens && r.value.phase.In?
                      && (r.value.phase.value == s.phase.value || r.value.phase.value == s.phase.value + [c])
  {
  }

  lemma {:induction false} StepHolds(shell: Shell, s: State, c: char)
    ensures var r := Step(shell, s, c);
            r.Ok? ==> Held(r.value) <= Held(s) + (if IsWhitespace(c) then 1 else 0)
  {
    if s.phase.Between? {
      StepBareHolds(shell, s, s.pos, "", c);
    } else if s.phase.inside.Bare? || (s.phase.inside.QuoteSeen? && c != '\'') {
      StepBareHolds(shell, s, s.phase.start, s.phase.value, c);
    } else {
      StepInside(shell, s, c);
      SpacesSnoc(s.phase.value, c);
    }
  }

  lemma {:induction false} RunHolds(shell: Shell, s: State, text: string)
    ensures var r := Run(shell, s, text); r.Ok? ==> Held(r.value) <= Held(s) + Spaces(text)
    decreases |text|
  {
    if text != "" {
      StepHolds(shell, s, text[0]);
      match Step(shell, s, text[0]) {
        case Err(_) =>
        case Ok(t) => RunHolds(shell, t, text[1..]);
      }
    }
  }

  /** The words of a command have no more whitespace and ends than its text provides. */
  lemma {:induction false} WordsHold(shell: Shell, s: State, text: string)
    ensures var words := WordsOf(RunToEnd(shell, s, text));
            words.Some? ==> SpacesIn(words.value) + |words.value| <= Held(s) + Spaces(text) + 1
  {
    RunHolds(shell, s, text);
    if RunToEnd(shell, s, text).Ok? {
      var r := Run(shell, s, text).value;
      if r.phase.In? {
        SpacesInSnoc(Values(r.tokens), r.phase.value);
        assert Values(Finish(r).value) == Values(r.tokens) + [r.phase.value];
      }
    }
  }

  lemma {:induction false} SpacesInConcat(a: seq<string>, b: seq<string>)
    ensures SpacesIn(a + b) == SpacesIn(a) + SpacesIn(b)
    decreases |b|
  {
    if b == [] {
      assert a + b == a;
    } else {
      var n := |b| - 1;
      assert (a + b)[..|a + b| - 1] == a + b[..n];
      SpacesInConcat(a, b[..n]);
    }
  }
}
