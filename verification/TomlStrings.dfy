/**
 * TOML basic strings as the Codex launcher writes them, and a reader for them that
 * follows the String section of TOML v1.0.0.
 */
module TomlStrings {
  import opened Common

  // ----- Writing

  function UpperHex(n: nat): char
    requires n < 16
  {
    if n < 10 then (0x30 + n) as char else (0x41 + (n - 10)) as char
  }

  function EscapeCharacter(c: char): string {
    var x := c as int;
    if c == '"' then "\\\"" else if c == '\\' then "\\\\"
    else if x == 0x08 then "\\b" else if x == 0x09 then "\\t" else if x == 0x0A then "\\n"
    else if x == 0x0C then "\\f" else if x == 0x0D then "\\r"
    else if x < 0x20 || x == 0x7F then ['\\', 'u', '0', '0', UpperHex(x / 16), UpperHex(x % 16)]
    else [c]
  }

  function EscapeText(value: string): string {
    if value == "" then "" else EscapeCharacter(value[0]) + EscapeText(value[1..])
  }

  function BasicString(value: string): string {
    "\"" + (EscapeText(value) + "\"")
  }

  lemma {:induction false} EscapeConcat(a: string, b: string)
    ensures EscapeText(a + b) == EscapeText(a) + EscapeText(b)
  {
    if a == "" {
      assert a + b == b;
    } else {
      assert (a + b)[0] == a[0] && (a + b)[1..] == a[1..] + b;
      EscapeConcat(a[1..], b);
      Associative(EscapeCharacter(a[0]), EscapeText(a[1..]), EscapeText(b));
    }
  }

  lemma EscapeSnoc(value: string, i: nat)
    requires i < |value|
    ensures EscapeText(value[..i + 1]) == EscapeText(value[..i]) + EscapeCharacter(value[i])
  {
    assert value[..i + 1] == value[..i] + [value[i]];
    EscapeConcat(value[..i], [value[i]]);
    assert [value[i]][1..] == "";
    assert EscapeCharacter(value[i]) + "" == EscapeCharacter(value[i]);
  }

  /** The source's `toml_basic_string`. */
  method TomlBasicString(value: string) returns (encoded: string)
    ensures encoded == BasicString(value)
  {
    encoded := "\"";
    for i := 0 to |value|
      invariant encoded == "\"" + EscapeText(value[..i])
    {
      EscapeSnoc(value, i);
      Associative("\"", EscapeText(value[..i]), EscapeCharacter(value[i]));
      encoded := encoded + EscapeCharacter(value[i]);
    }
    assert value[..|value|] == value;
    Associative("\"", EscapeText(value), "\"");
    encoded := encoded + "\"";
  }

  // ----- Reading

  function HexValue(c: char): Option<nat> {
    var x := c as int;
    if 0x30 <= x <= 0x39 then Some(x - 0x30)
    else if 0x41 <= x <= 0x46 then Some(x - 0x41 + 10)
    else if 0x61 <= x <= 0x66 then Some(x - 0x61 + 10)
    else None
  }

  function HexNumber(digits: string): Option<nat> {
    if digits == "" then Some(0)
    else match (HexNumber(digits[..|digits| - 1]), HexValue(digits[|digits| - 1]))
      case (Some(n), Some(d)) => Some(16 * n + d)
      case _ => None
  }

  predicate IsScalar(n: nat) { n < 0xD800 || 0xE000 <= n < 0x11_0000 }

  /** A Unicode escape with the given number of digits: the character and what follows. */
  function ReadUnicode(s: string, digits: nat): (r: Option<(char, string)>)
    ensures r.Some? ==> |r.value.1| <= |s|
  {
    if |s| < digits then None
    else match HexNumber(s[..digits])
      case None => None
      case Some(n) => if IsScalar(n) then Some((n as char, s[digits..])) else None
  }

  /** What follows a backslash: the character it denotes and the rest. */
  function ReadEscape(s: string): (r: Option<(char, string)>)
    ensures r.Some? ==> |r.value.1| < |s|
  {
    if s == "" then None
    else
      var rest := s[1..];
      match s[0]
      case 'b' => Some((0x08 as char, rest))
      case 't' => Some((0x09 as char, rest))
      case 'n' => Some((0x0A as char, rest))
      case 'f' => Some((0x0C as char, rest))
      case 'r' => Some((0x0D as char, rest))
      case '"' => Some(('"', rest))
      case '\\' => Some(('\\', rest))
      case 'u' => ReadUnicode(rest, 4)
      case 'U' => ReadUnicode(rest, 8)
      case _ => None
  }

  /** Control characters other than tab must be escaped. */
  predicate MustEscape(c: char) {
    var x := c as int;
    x <= 0x08 || 0x0A <= x <= 0x1F || x == 0x7F
  }

  /** The content up to the closing quote, and what follows the quote. */
  function ReadContent(s: string): Option<(string, string)>
    decreases |s|
  {
    if s == "" then None
    else if s[0] == '"' then Some(("", s[1..]))
    else if s[0] == '\\' then
      match ReadEscape(s[1..])
      case None => None
      case Some((c, rest)) =>
        match ReadContent(rest)
        case None => None
        case Some((text, after)) => Some(([c] + text, after))
    else if MustEscape(s[0]) then None
    else match ReadContent(s[1..])
      case None => None
      case Some((text, after)) => Some(([s[0]] + text, after))
  }

  /** A basic string at the start of a text: its value, and what follows it. */
  function ReadBasicString(s: string): Option<(string, string)> {
    if s == "" || s[0] != '"' then None else ReadContent(s[1..])
  }

  // ----- Round trip

  lemma HexOfByte(x: nat)
    requires x < 256
    ensures HexNumber(['0', '0', UpperHex(x / 16), UpperHex(x % 16)]) == Some(x)
  {
    var hi, lo := UpperHex(x / 16), UpperHex(x % 16);
    assert HexValue(hi) == Some(x / 16) && HexValue(lo) == Some(x % 16);
    var s := ['0', '0', hi, lo];
    assert s[..3] == ['0', '0', hi] && s[..3][..2] == ['0', '0'] && s[..3][..2][..1] == ['0'] && s[..3][..2][..1][..0] == "";
    assert HexNumber(['0']) == Some(0);
    assert HexNumber(['0', '0']) == Some(0);
    assert HexNumber(['0', '0', hi]) == Some(x / 16);
  }

  lemma ReadEscapedCharacter(c: char, rest: string)
    ensures EscapeCharacter(c) != [c] ==>
              EscapeCharacter(c)[0] == '\\' && ReadEscape(EscapeCharacter(c)[1..] + rest) == Some((c, rest))
    ensures EscapeCharacter(c) == [c] ==> c != '"' && c != '\\' && !MustEscape(c)
  {
    var e := EscapeCharacter(c);
    var x := c as int;
    if |e| == 2 {
      assert e[1..] + rest == [e[1]] + rest;
      assert ([e[1]] + rest)[1..] == rest;
    } else if |e| == 6 {
      HexOfByte(x);
      var digits := ['0', '0', UpperHex(x / 16), UpperHex(x % 16)];
      assert e[1..] + rest == ['u'] + (digits + rest);
      assert (['u'] + (digits + rest))[1..] == digits + rest;
      assert (digits + rest)[..4] == digits && (digits + rest)[4..] == rest;
    }
  }

  lemma ReadOne(c: char, s: string)
    ensures ReadContent(EscapeCharacter(c) + s) ==
            match ReadContent(s) case None => None case Some((text, after)) => Some(([c] + text, after))
  {
    var e := EscapeCharacter(c);
    ReadEscapedCharacter(c, s);
    if e == [c] {
      assert (e + s)[1..] == s;
    } else {
      assert (e + s)[1..] == e[1..] + s;
    }
  }

  lemma {:induction false} ReadEscapedText(value: string, rest: string)
    ensures ReadContent(EscapeText(value) + (['"'] + rest)) == Some((value, rest))
    decreases |value|
  {
    if value == "" {
      assert "" + (['"'] + rest) == ['"'] + rest;
      assert (['"'] + rest)[1..] == rest;
    } else {
      ReadEscapedText(value[1..], rest);
      var tail := EscapeText(value[1..]) + (['"'] + rest);
      Associative(EscapeCharacter(value[0]), EscapeText(value[1..]), ['"'] + rest);
      ReadOne(value[0], tail);
      assert [value[0]] + value[1..] == value;
    }
  }

  /** Every written string is read back, wherever it stands in a longer text. */
  lemma BasicStringRoundTrip(value: string, rest: string)
    ensures ReadBasicString(BasicString(value) + rest) == Some((value, rest))
  {
    var s := BasicString(value) + rest;
    assert s[1..] == EscapeText(value) + (['"'] + rest);
    ReadEscapedText(value, rest);
  }
}
