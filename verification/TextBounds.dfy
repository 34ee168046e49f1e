/** Byte lengths of text, truncation at character boundaries, and the bound on provider text. */
module TextBounds {
  import opened Common

  /** The length of a character in UTF-8. */
  function Utf8Length(c: char): (n: nat)
    ensures 1 <= n <= 4
  {
    var x := c as int;
    if x < 0x80 then 1 else if x < 0x800 then 2 else if x < 0x10000 then 3 else 4
  }

  function Utf8Bytes(text: string): nat {
    if text == "" then 0 else Utf8Length(text[0]) + Utf8Bytes(text[1..])
  }

  lemma {:induction false} Utf8Concat(a: string, b: string)
    ensures Utf8Bytes(a + b) == Utf8Bytes(a) + Utf8Bytes(b)
  {
    if a == "" {
      assert a + b == b;
    } else {
      assert (a + b)[1..] == a[1..] + b;
      Utf8Concat(a[1..], b);
    }
  }

  lemma Utf8Snoc(text: string, n: nat)
    requires n < |text|
    ensures Utf8Bytes(text[..n + 1]) == Utf8Bytes(text[..n]) + Utf8Length(text[n])
  {
    assert text[..n + 1] == text[..n] + [text[n]];
    Utf8Concat(text[..n], [text[n]]);
    assert [text[n]][1..] == "";
  }

  lemma {:induction false} Utf8PrefixMonotone(text: string, m: nat, n: nat)
    requires m <= n <= |text|
    ensures Utf8Bytes(text[..m]) <= Utf8Bytes(text[..n])
    ensures m < n ==> Utf8Bytes(text[..m]) < Utf8Bytes(text[..n])
    decreases n - m
  {
    if m < n {
      Utf8Snoc(text, n - 1);
      Utf8PrefixMonotone(text, m, n - 1);
    }
  }

  // ----- Truncation at a byte limit

  /** The character index that starts at a byte offset, if the offset is a character boundary. */
  function BoundaryAt(text: string, offset: nat): (n: Option<nat>)
    ensures n.Some? ==> n.value <= |text|
    decreases |text|
  {
    if offset == 0 then Some(0)
    else if text == "" || offset < Utf8Length(text[0]) then None
    else match BoundaryAt(text[1..], offset - Utf8Length(text[0]))
      case None => None
      case Some(n) => Some(n + 1)
  }

  lemma {:induction false} BoundaryIsPrefix(text: string, offset: nat)
    ensures match BoundaryAt(text, offset)
            case Some(n) => Utf8Bytes(text[..n]) == offset
            case None => forall n :: 0 <= n <= |text| ==> Utf8Bytes(text[..n]) != offset
    decreases |text|
  {
    if offset == 0 {
      assert text[..0] == "";
    } else if text == "" {
    } else {
      forall n | 1 <= n <= |text|
        ensures Utf8Bytes(text[..n]) == Utf8Length(text[0]) + Utf8Bytes(text[1..][..n - 1])
      {
        assert text[..n][1..] == text[1..][..n - 1];
      }
      if offset >= Utf8Length(text[0]) {
        BoundaryIsPrefix(text[1..], offset - Utf8Length(text[0]));
      }
      forall n | 0 <= n <= |text| && BoundaryAt(text, offset).None?
        ensures Utf8Bytes(text[..n]) != offset
      {
        if n > 0 && offset >= Utf8Length(text[0]) {
          assert Utf8Bytes(text[1..][..n - 1]) != offset - Utf8Length(text[0]);
        }
      }
    }
  }

  /** `p` is the longest prefix of `text` of at most `limit` bytes. */
  ghost predicate IsLongestPrefix(p: string, text: string, limit: nat) {
    && p <= text && Utf8Bytes(p) <= limit
    && (forall n :: |p| < n <= |text| ==> Utf8Bytes(text[..n]) > limit)
  }

  lemma LongestPrefixUnique(p: string, r: string, text: string, limit: nat)
    requires IsLongestPrefix(p, text, limit) && IsLongestPrefix(r, text, limit)
    ensures p == r
  {
    assert p == text[..|p|] && r == text[..|r|];
  }

  /** The longest prefix of at most `limit` bytes. */
  function LongestPrefix(text: string, limit: nat): (p: string)
    ensures p <= text
  {
    if text == "" || Utf8Length(text[0]) > limit then ""
    else [text[0]] + LongestPrefix(text[1..], limit - Utf8Length(text[0]))
  }

  lemma {:induction false} LongestPrefixIsLongest(text: string, limit: nat)
    ensures IsLongestPrefix(LongestPrefix(text, limit), text, limit)
    decreases |text|
  {
    var p := LongestPrefix(text, limit);
    if text == "" {
    } else if Utf8Length(text[0]) > limit {
      forall n | 0 < n <= |text|
        ensures Utf8Bytes(text[..n]) > limit
      {
        assert text[..n][0] == text[0];
      }
    } else {
      var left := limit - Utf8Length(text[0]);
      LongestPrefixIsLongest(text[1..], left);
      assert p[1..] == LongestPrefix(text[1..], left);
      forall n | |p| < n <= |text|
        ensures Utf8Bytes(text[..n]) > limit
      {
        assert text[..n][1..] == text[1..][..n - 1];
      }
    }
  }

  lemma WholeFits(text: string, limit: nat)
    requires Utf8Bytes(text) <= limit
    ensures LongestPrefix(text, limit) == text
  {
    LongestPrefixIsLongest(text, limit);
    assert text[..|text|] == text;
    LongestPrefixUnique(text, LongestPrefix(text, limit), text, limit);
  }

  /** The source's `utf8_prefix_by_bytes`: steps back from the limit to a character boundary. */
  method Utf8PrefixByBytes(text: string, maxBytes: nat) returns (p: string)
    ensures p == LongestPrefix(text, maxBytes)
  {
    if Utf8Bytes(text) <= maxBytes {
      WholeFits(text, maxBytes);
      return text;
    }
    var end := maxBytes;
    while end > 0 && BoundaryAt(text, end).None?
      invariant 0 <= end <= maxBytes
      invariant forall n :: 0 <= n <= |text| && Utf8Bytes(text[..n]) <= maxBytes ==> Utf8Bytes(text[..n]) <= end
    {
      BoundaryIsPrefix(text, end);
      end := end - 1;
    }
    BoundaryIsPrefix(text, end);
    var n := BoundaryAt(text, end).value;
    p := text[..n];
    forall m | n < m <= |text|
      ensures Utf8Bytes(text[..m]) > maxBytes
    {
      Utf8PrefixMonotone(text, n, m);
    }
    LongestPrefixIsLongest(text, maxBytes);
    LongestPrefixUnique(p, LongestPrefix(text, maxBytes), text, maxBytes);
  }

  // ----- JSON string escaping, section 7 of RFC 8259, in the form a serializer writes

  function HexDigit(n: nat): char
    requires n < 16
  {
    if n < 10 then (0x30 + n) as char else (0x61 + (n - 10)) as char
  }

  function EscapeCharacter(c: char): string {
    var x := c as int;
    if c == '"' then "\\\"" else if c == '\\' then "\\\\"
    else if x == 0x08 then "\\b" else if x == 0x09 then "\\t" else if x == 0x0A then "\\n"
    else if x == 0x0C then "\\f" else if x == 0x0D then "\\r"
    else if x < 0x20 then "\\u00" + [HexDigit(x / 16), HexDigit(x % 16)]
    else [c]
  }

  function EscapeText(text: string): string {
    if text == "" then "" else EscapeCharacter(text[0]) + EscapeText(text[1..])
  }

  /** The source's `json_string_character_bytes`. */
  function EncodedLength(c: char): nat {
    var x := c as int;
    if c == '"' || c == '\\' || x == 0x08 || x == 0x09 || x == 0x0A || x == 0x0C || x == 0x0D then 2
    else if x <= 0x1F then 6
    else Utf8Length(c)
  }

  function EncodedBytes(text: string): nat {
    if text == "" then 0 else EncodedLength(text[0]) + EncodedBytes(text[1..])
  }

  predicate AllAscii(text: string) {
    text == "" || (text[0] as int < 0x80 && AllAscii(text[1..]))
  }

  lemma {:induction false} OneByteEach(text: string)
    requires AllAscii(text)
    ensures Utf8Bytes(text) == |text|
  {
    if text != "" {
      OneByteEach(text[1..]);
    }
  }

  lemma EscapeIsAscii(c: char)
    requires c == '"' || c == '\\' || c as int < 0x20
    ensures AllAscii(EscapeCharacter(c))
    ensures |EscapeCharacter(c)| == EncodedLength(c)
  {
    var x := c as int;
    var e := EscapeCharacter(c);
    if |e| == 2 {
      assert e[1..][1..] == "";
    } else {
      var hi, lo := HexDigit(x / 16), HexDigit(x % 16);
      AsciiHead(lo, "");
      AsciiHead(hi, [lo]);
      AsciiHead('0', [hi, lo]);
      AsciiHead('0', ['0', hi, lo]);
      AsciiHead('u', ['0', '0', hi, lo]);
      AsciiHead('\\', ['u', '0', '0', hi, lo]);
      assert e == ['\\', 'u', '0', '0', hi, lo];
    }
  }

  lemma AsciiHead(c: char, rest: string)
    requires c as int < 0x80 && AllAscii(rest)
    ensures AllAscii([c] + rest)
  {
    assert ([c] + rest)[1..] == rest;
  }

  lemma EscapedCharacterLength(c: char)
    ensures Utf8Bytes(EscapeCharacter(c)) == EncodedLength(c)
  {
    var x := c as int;
    if c == '"' || c == '\\' || x < 0x20 {
      EscapeIsAscii(c);
      OneByteEach(EscapeCharacter(c));
    } else {
      assert [c][1..] == "";
    }
  }

  /** The length that the source counts is the length of the serialized text. */
  lemma {:induction false} EncodedBytesIsEscapedLength(text: string)
    ensures EncodedBytes(text) == Utf8Bytes(EscapeText(text))
  {
    if text != "" {
      EscapedCharacterLength(text[0]);
      EncodedBytesIsEscapedLength(text[1..]);
      Utf8Concat(EscapeCharacter(text[0]), EscapeText(text[1..]));
    }
  }

  lemma {:induction false} EncodedConcat(a: string, b: string)
    ensures EncodedBytes(a + b) == EncodedBytes(a) + EncodedBytes(b)
  {
    if a == "" {
      assert a + b == b;
    } else {
      assert (a + b)[1..] == a[1..] + b;
      EncodedConcat(a[1..], b);
    }
  }

  lemma EncodedSnoc(text: string, n: nat)
    requires n < |text|
    ensures EncodedBytes(text[..n + 1]) == EncodedBytes(text[..n]) + EncodedLength(text[n])
  {
    assert text[..n + 1] == text[..n] + [text[n]];
    EncodedConcat(text[..n], [text[n]]);
    assert [text[n]][1..] == "";
  }

  // ----- The bound on provider text

  const MAX_TEXT_BYTES: nat := 49152
  const MARKER := "\n[truncated by DevManager]"
  const BUDGET: nat := 49125

  predicate Fits(text: string, n: nat)
    requires n <= |text|
  {
    Utf8Bytes(text[..n]) <= BUDGET && EncodedBytes(text[..n]) <= BUDGET
  }

  /** `n` characters fit and no longer prefix does. */
  ghost predicate IsLongestFit(text: string, n: nat) {
    n < |text| && Fits(text, n) && forall m :: n < m <= |text| ==> !Fits(text, m)
  }

  lemma {:induction false} FitsShrinks(text: string, m: nat, n: nat)
    requires m <= n <= |text| && Fits(text, n)
    ensures Fits(text, m)
    decreases n - m
  {
    if m < n {
      Utf8Snoc(text, n - 1);
      EncodedSnoc(text, n - 1);
      FitsShrinks(text, m, n - 1);
    }
  }

  function LongestFit(text: string, n: nat): (m: nat)
    requires n <= |text|
    ensures m <= n
  {
    if n == 0 || Fits(text, n) then n else LongestFit(text, n - 1)
  }

  /** The text that the source's `bounded_text` gives. */
  function Bounded(text: string): string {
    if Fits(text, |text|) then text else text[..LongestFit(text, |text|)] + MARKER
  }

  lemma {:induction false} LongestFitIs(text: string, m: nat, n: nat)
    requires m <= n <= |text| && Fits(text, m) && forall k :: m < k <= n ==> !Fits(text, k)
    ensures LongestFit(text, n) == m
    decreases n
  {
    if m < n {
      LongestFitIs(text, m, n - 1);
    }
  }

  predicate IsPlain(c: char) {
    0x20 <= c as int < 0x80 && c != '"' && c != '\\'
  }

  lemma {:induction false} PlainLength(text: string)
    requires forall c :: c in text ==> IsPlain(c)
    ensures Utf8Bytes(text) == EncodedBytes(text) == |text|
  {
    if text != "" {
      assert IsPlain(text[0]);
      PlainLength(text[1..]);
    }
  }

  lemma MarkerShape(marker: string)
    requires marker == MARKER
    ensures |marker| == 26 && marker[0] == '\n'
    ensures forall c :: c in marker[1..] ==> IsPlain(c)
  {
    assert forall c :: c in marker ==> c == '\n' || IsPlain(c);
    assert forall c :: c in "[truncated by DevManager]" ==> IsPlain(c);
    assert marker[1..] == "[truncated by DevManager]";
  }

  /** The marker takes 26 bytes and 27 when serialized, which the budget sets aside. */
  lemma {:induction false} MarkerLengths(marker: string)
    requires marker == MARKER
    ensures Utf8Bytes(marker) == |marker| == 26 && EncodedBytes(marker) == 27
    ensures BUDGET == MAX_TEXT_BYTES - (|marker| + 1)
  {
    MarkerShape(marker);
    PlainLength(marker[1..]);
  }

  /** The source's `bounded_text`. */
  method BoundedText(text: string) returns (r: string)
    ensures r == Bounded(text)
    ensures Fits(text, |text|) ==> r == text
    ensures !Fits(text, |text|) ==> exists n: nat :: IsLongestFit(text, n) && r == text[..n] + MARKER
    ensures Utf8Bytes(r) <= MAX_TEXT_BYTES
    ensures Utf8Bytes(EscapeText(r)) <= MAX_TEXT_BYTES
  {
    var raw, encoded, i := 0, 0, 0;
    while i < |text|
      invariant 0 <= i <= |text| && Fits(text, i)
      invariant raw == Utf8Bytes(text[..i]) && encoded == EncodedBytes(text[..i])
    {
      Utf8Snoc(text, i);
      EncodedSnoc(text, i);
      var nextRaw, nextEncoded := raw + Utf8Length(text[i]), encoded + EncodedLength(text[i]);
      if nextRaw > BUDGET || nextEncoded > BUDGET {
        r := text[..i] + MARKER;
        Truncated(text, i);
        LongestFitIs(text, i, |text|);
        return;
      }
      raw, encoded, i := nextRaw, nextEncoded, i + 1;
    }
    assert text[..|text|] == text;
    EncodedBytesIsEscapedLength(text);
    return text;
  }

  lemma Truncated(text: string, i: nat)
    requires i < |text| && Fits(text, i) && !Fits(text, i + 1)
    ensures IsLongestFit(text, i)
    ensures Utf8Bytes(text[..i] + MARKER) <= MAX_TEXT_BYTES
    ensures Utf8Bytes(EscapeText(text[..i] + MARKER)) <= MAX_TEXT_BYTES
    ensures !Fits(text, |text|)
  {
    forall m | i < m <= |text|
      ensures !Fits(text, m)
    {
      if Fits(text, m) {
        FitsShrinks(text, i + 1, m);
      }
    }
    MarkedLengths(text[..i], MARKER);
  }

  lemma MarkedLengths(text: string, marker: string)
    requires marker == MARKER && Utf8Bytes(text) <= BUDGET && EncodedBytes(text) <= BUDGET
    ensures Utf8Bytes(text + marker) <= MAX_TEXT_BYTES
    ensures Utf8Bytes(EscapeText(text + marker)) <= MAX_TEXT_BYTES
  {
    MarkerLengths(marker);
    Utf8Concat(text, marker);
    EncodedConcat(text, marker);
    EncodedBytesIsEscapedLength(text + marker);
  }
}
