/** Which commands count as Claude commands, and which settings argument they carry. */
module ClaudeRecognition {
  import opened Common
  import opened ClaudeRewrite

  // ----- The settings argument

  /** One argument: any other word, or the settings in one of their two forms. */
  datatype Item = Other(word: string) | Spaced(value: string) | Equals(value: string)

  predicate LegalItem(item: Item) {
    match item
    case Other(word) => word != "--settings" && !("--settings=" <= word)
    case Spaced(_) => true
    case Equals(value) => value != ""
  }

  predicate LegalItems(items: seq<Item>) { forall item :: item in items ==> LegalItem(item) }

  function PrintItem(item: Item): seq<string> {
    match item
    case Other(word) => [word]
    case Spaced(value) => ["--settings", value]
    case Equals(value) => ["--settings=" + value]
  }

  function PrintItems(items: seq<Item>): seq<string> {
    if items == [] then [] else PrintItem(items[0]) + PrintItems(items[1..])
  }

  function Count(items: seq<Item>): nat {
    if items == [] then 0 else (if items[0].Other? then 0 else 1) + Count(items[1..])
  }

  /** The last settings argument, from word `i` on; `found` when there is none. */
  function LastHit(items: seq<Item>, i: nat, found: Option<Hit>): Option<Hit> {
    if items == [] then found
    else LastHit(items[1..], i + |PrintItem(items[0])|, HitOf(items[0], i, found))
  }

  lemma {:induction false} ItemHit(words: seq<string>, i: nat, item: Item, rest: seq<string>)
    requires i <= |words| && words[i..] == PrintItem(item) + rest && LegalItem(item)
    ensures i < |words|
    ensures HitAt(words, i) == Ok(if item.Other? then None else Some(Hit(i, |PrintItem(item)|, item.value)))
  {
    assert words[i] == words[i..][0];
    match item {
      case Other(word) =>
      case Spaced(value) => assert words[i + 1] == words[i..][1];
      case Equals(value) => assert ("--settings=" + value)[|SETTINGS_PREFIX|..] == value;
    }
  }

  /** What is found once an item at word `i` was read. */
  function HitOf(item: Item, i: nat, found: Option<Hit>): Option<Hit> {
    if item.Other? then found else Some(Hit(i, |PrintItem(item)|, item.value))
  }

  lemma {:induction false} ItemFound(words: seq<string>, i: nat, item: Item, rest: seq<string>, found: Option<Hit>)
    requires i <= |words| && words[i..] == PrintItem(item) + rest && LegalItem(item)
    ensures i + |PrintItem(item)| <= |words| && words[i + |PrintItem(item)|..] == rest
    ensures FindSettings(words, i, found) ==
            if !item.Other? && found.Some? then Err(Ambiguous)
            else FindSettings(words, i + |PrintItem(item)|, HitOf(item, i, found))
  {
    ItemHit(words, i, item, rest);
    assert words[i + |PrintItem(item)|..] == words[i..][|PrintItem(item)|..];
  }

  /** Reading items goes on behind them, unless they hold a second settings argument. */
  lemma {:induction false} ItemsFound(words: seq<string>, i: nat, items: seq<Item>, rest: seq<string>, found: Option<Hit>)
    requires i <= |words| && words[i..] == PrintItems(items) + rest && LegalItems(items)
    ensures FindSettings(words, i, found) ==
            if Count(items) + (if found.Some? then 1 else 0) > 1 then Err(Ambiguous)
            else FindSettings(words, i + |PrintItems(items)|, LastHit(items, i, found))
    decreases |items|
  {
    if items != [] {
      var item, after := items[0], PrintItems(items[1..]) + rest;
      assert item in items;
      Associative(PrintItem(item), PrintItems(items[1..]), rest);
      ItemFound(words, i, item, after, found);
      ItemsFound(words, i + |PrintItem(item)|, items[1..], rest, HitOf(item, i, found));
    }
  }

  /** No settings argument, exactly one, or an ambiguity. */
  lemma {:induction false} SettingsExactly(before: seq<string>, items: seq<Item>)
    requires LegalItems(items)
    ensures FindSettings(before + PrintItems(items), |before|, None) ==
            if Count(items) > 1 then Err(Ambiguous) else Ok(LastHit(items, |before|, None))
    ensures LastHit(items, |before|, None).None? <==> Count(items) == 0
  {
    var words := before + PrintItems(items);
    assert words[|before|..] == PrintItems(items) + [];
    ItemsFound(words, |before|, items, [], None);
    LastHitCounts(items, |before|, None);
  }

  lemma {:induction false} LastHitCounts(items: seq<Item>, i: nat, found: Option<Hit>)
    ensures LastHit(items, i, found).None? <==> Count(items) == 0 && found.None?
    ensures Count(items) == 0 ==> LastHit(items, i, found) == found
    decreases |items|
  {
    if items != [] {
      LastHitCounts(items[1..], i + |PrintItem(items[0])|, HitOf(items[0], i, found));
    }
  }

  /** A settings flag at the end, or one with nothing behind its equals sign, lacks its value. */
  lemma {:induction false} SettingsMissing(before: seq<string>, items: seq<Item>, rest: seq<string>)
    requires LegalItems(items) && (rest == ["--settings"] || (rest != [] && rest[0] == "--settings="))
    ensures FindSettings(before + (PrintItems(items) + rest), |before|, None) ==
            if Count(items) > 1 then Err(Ambiguous) else Err(MissingValue)
  {
    var words := before + (PrintItems(items) + rest);
    assert words[|before|..] == PrintItems(items) + rest;
    ItemsFound(words, |before|, items, rest, None);
    var n := |before| + |PrintItems(items)|;
    assert words[n..] == rest && words[n] == rest[0];
    assert rest[0] == "--settings=" ==> rest[0][|SETTINGS_PREFIX|..] == "";
  }

  /** Every list of words is items, up to its end or up to a flag that lacks its value. */
  lemma {:induction false} ReadItems(words: seq<string>) returns (items: seq<Item>, rest: seq<string>)
    ensures LegalItems(items) && words == PrintItems(items) + rest
    ensures rest == [] || rest == ["--settings"] || rest[0] == "--settings="
    decreases |words|
  {
    if words == [] || words == ["--settings"] || words[0] == "--settings=" {
      items, rest := [], words;
    } else {
      var item :=
        if words[0] == "--settings" then Spaced(words[1])
        else if "--settings=" <= words[0] then Equals(words[0][|SETTINGS_PREFIX|..])
        else Other(words[0]);
      assert item.Equals? ==> words[0] == "--settings=" + item.value;
      var width := |PrintItem(item)|;
      assert words == PrintItem(item) + words[width..];
      items, rest := ReadItems(words[width..]);
      Associative(PrintItem(item), PrintItems(items), rest);
      assert ([item] + items)[1..] == items;
      items := [item] + items;
    }
  }

  // ----- The executable

  predicate IsSlash(c: char) { c == '/' || c == '\\' }

  /** A path and the name at its end. */
  predicate EndsInName(word: string, directory: string, name: string) {
    && word == directory + name && (directory == "" || IsSlash(directory[|directory| - 1]))
    && forall c :: c in name ==> !IsSlash(c)
  }

  function LowerCase(c: char): char { if 'A' <= c <= 'Z' then c - 'A' + 'a' else c }

  /** Equal but for the case of ASCII letters, where `lower` is in lower case. */
  predicate Spells(name: string, lower: string) {
    |name| == |lower| && forall i :: 0 <= i < |name| ==> LowerCase(name[i]) == lower[i]
  }

  lemma {:induction false} NameAfterSlash(word: string, directory: string, name: string)
    requires EndsInName(word, directory, name)
    ensures AfterSlash(word) == name
    decreases |name|
  {
    if name == "" {
      assert word == directory;
    } else {
      var n := |name| - 1;
      assert name[n] in name && word[|word| - 1] == name[n];
      assert word[..|word| - 1] == directory + name[..n];
      NameAfterSlash(word[..|word| - 1], directory, name[..n]);
      assert name[..n] + [name[n]] == name;
    }
  }

  lemma {:induction false} LowerSpells(name: string, lower: string)
    ensures Lower(name) == lower <==> Spells(name, lower)
    decreases |name|
  {
    if name != "" {
      var first := LowerCase(name[0]);
      assert Lower(name) == [first] + Lower(name[1..]);
      LowerSpells(name[1..], Lower(name[1..]));
      if lower != "" {
        LowerSpells(name[1..], lower[1..]);
        assert lower == [lower[0]] + lower[1..];
        if Spells(name, lower) {
          assert Spells(name[1..], lower[1..]);
        }
      }
    }
  }

  predicate IsClaude(name: string) {
    Spells(name, "claude") || Spells(name, "claude.exe") || Spells(name, "claude.cmd") || Spells(name, "claude.ps1")
  }

  predicate IsNpx(name: string) { Spells(name, "npx") || Spells(name, "npx.exe") || Spells(name, "npx.cmd") }

  lemma {:induction false} BasenameExactly(word: string, directory: string, name: string)
    requires EndsInName(word, directory, name)
    ensures Basename(word) in ["claude", "claude.exe", "claude.cmd", "claude.ps1"] <==> IsClaude(name)
    ensures Basename(word) in ["npx", "npx.exe", "npx.cmd"] <==> IsNpx(name)
  {
    NameAfterSlash(word, directory, name);
    LowerSpells(name, "claude");
    LowerSpells(name, "claude.exe");
    LowerSpells(name, "claude.cmd");
    LowerSpells(name, "claude.ps1");
    LowerSpells(name, "npx");
    LowerSpells(name, "npx.exe");
    LowerSpells(name, "npx.cmd");
  }

  predicate SaysYes(words: seq<string>) { forall w :: w in words ==> w == "-y" || w == "--yes" }

  /** The package, or the package at a version that is not empty. */
  predicate NamesPackage(word: string) {
    word == "@anthropic-ai/claude-code"
    || (|word| > 26 && word[..26] == "@anthropic-ai/claude-code@")
  }

  lemma {:induction false} SkipsYes(words: seq<string>, i: nat, yes: seq<string>, rest: seq<string>)
    requires i <= |words| && words[i..] == yes + rest && SaysYes(yes)
    requires rest != [] ==> rest[0] != "-y" && rest[0] != "--yes"
    ensures SkipYes(words, i) == i + |yes|
    decreases |yes|
  {
    if yes == [] {
      assert words[i..] == rest;
      assert rest != [] ==> words[i] == rest[0];
    } else {
      assert words[i] == words[i..][0] == yes[0] && yes[0] in yes;
      assert words[i + 1..] == words[i..][1..] == yes[1..] + rest;
      assert forall w :: w in yes[1..] ==> w in yes;
      SkipsYes(words, i + 1, yes[1..], rest);
    }
  }

  lemma PackageExactly(word: string)
    ensures IsPackage(word) <==> NamesPackage(word)
  {
    assert |PACKAGE| == 25;
    if |word| > 25 {
      assert word[..26] == word[..25] + [word[25]];
      assert "@anthropic-ai/claude-code@" == PACKAGE + ['@'];
    }
  }

  /**
   * A command is a Claude command exactly when it names Claude, whatever the directory and the case of
   * the letters, or npx with any number of yes flags and the package; the arguments start behind that.
   */
  lemma {:induction false} RecognizedExactly(directory: string, name: string, yes: seq<string>, rest: seq<string>)
    requires EndsInName(directory + name, directory, name) && SaysYes(yes)
    requires rest != [] ==> rest[0] != "-y" && rest[0] != "--yes"
    ensures ArgumentStart([directory + name] + (yes + rest)) ==
            if IsClaude(name) then Some(1)
            else if IsNpx(name) && rest != [] && NamesPackage(rest[0]) then Some(|yes| + 2)
            else None
  {
    var words := [directory + name] + (yes + rest);
    BasenameExactly(directory + name, directory, name);
    assert words[1..] == yes + rest;
    SkipsYes(words, 1, yes, rest);
    if rest != [] {
      assert words[1 + |yes|] == rest[0];
      PackageExactly(rest[0]);
    }
  }

  /** Every command has such a form. */
  lemma {:induction false} ReadCommand(words: seq<string>)
    returns (directory: string, name: string, yes: seq<string>, rest: seq<string>)
    requires words != []
    ensures words == [directory + name] + (yes + rest) && EndsInName(directory + name, directory, name) && SaysYes(yes)
    ensures rest != [] ==> rest[0] != "-y" && rest[0] != "--yes"
  {
    directory, name := ReadPath(words[0]);
    yes, rest := ReadYes(words[1..]);
  }

  lemma {:induction false} ReadPath(word: string) returns (directory: string, name: string)
    ensures EndsInName(word, directory, name)
    decreases |word|
  {
    if word == "" || IsSlash(word[|word| - 1]) {
      directory, name := word, "";
    } else {
      var n := |word| - 1;
      directory, name := ReadPath(word[..n]);
      assert word == directory + (name + [word[n]]);
      name := name + [word[n]];
    }
  }

  lemma {:induction false} ReadYes(words: seq<string>) returns (yes: seq<string>, rest: seq<string>)
    ensures words == yes + rest && SaysYes(yes) && (rest != [] ==> rest[0] != "-y" && rest[0] != "--yes")
    decreases |words|
  {
    if words == [] || (words[0] != "-y" && words[0] != "--yes") {
      yes, rest := [], words;
    } else {
      yes, rest := ReadYes(words[1..]);
      assert words == [words[0]] + (yes + rest);
      yes := [words[0]] + yes;
    }
  }
}
