/**
 * Deduplication keys: a prefix followed by length-prefixed components.  Strings are their
 * UTF-8 bytes, as lengths are counted in bytes.
 */
module DeduplicationKeys {
  import opened Common

  type Bytes = seq<byte>

  const COLON: byte := 0x3A

  // ----- Encoding

  function Decimal(n: nat): Bytes {
    if n < 10 then [(0x30 + n) as byte] else Decimal(n / 10) + [(0x30 + n % 10) as byte]
  }

  function Component(c: Bytes): Bytes {
    [COLON] + (Decimal(|c|) + ([COLON] + c))
  }

  function Components(cs: seq<Bytes>): Bytes {
    if cs == [] then [] else Component(cs[0]) + Components(cs[1..])
  }

  function Encode(prefix: Bytes, cs: seq<Bytes>): Bytes {
    prefix + Components(cs)
  }

  /** The source's `scoped_deduplication_key`. */
  function ScopedKey(prefix: Bytes, session: Bytes, id: Bytes): Bytes {
    Encode(prefix, [session, id])
  }

  /** The source's `scoped_message_deduplication_key`. */
  function ScopedMessageKey(prefix: Bytes, session: Bytes, turn: Bytes, message: Bytes): Bytes {
    Encode(prefix, [session, turn, message])
  }

  // ----- Decoding

  /** The bytes before the first colon. */
  function UntilColon(s: Bytes): (r: Bytes)
    ensures r <= s
  {
    if s == [] || s[0] == COLON then [] else [s[0]] + UntilColon(s[1..])
  }

  predicate IsDigit(b: byte) { 0x30 <= b <= 0x39 }

  function Number(s: Bytes): Option<nat> {
    if s == [] then None
    else if !IsDigit(s[|s| - 1]) then None
    else
      var digit := (s[|s| - 1] as int - 0x30) as nat;
      if |s| == 1 then Some(digit)
      else match Number(s[..|s| - 1])
        case None => None
        case Some(n) => Some(10 * n + digit)
  }

  /** One component and what follows it. */
  function DecodeComponent(s: Bytes): (r: Option<(Bytes, Bytes)>)
    ensures r.Some? ==> |r.value.1| < |s|
  {
    if s == [] || s[0] != COLON then None
    else
      var digits := UntilColon(s[1..]);
      match Number(digits)
      case None => None
      case Some(n) =>
        var start := 1 + |digits| + 1;
        if start + n <= |s| then Some((s[start..start + n], s[start + n..])) else None
  }

  function DecodeComponents(s: Bytes): Option<seq<Bytes>>
    decreases |s|
  {
    if s == [] then Some([])
    else match DecodeComponent(s)
      case None => None
      case Some((c, rest)) =>
        match DecodeComponents(rest)
        case None => None
        case Some(cs) => Some([c] + cs)
  }

  function Decode(s: Bytes): Option<(Bytes, seq<Bytes>)> {
    var prefix := UntilColon(s);
    match DecodeComponents(s[|prefix|..])
    case None => None
    case Some(cs) => Some((prefix, cs))
  }

  // ----- Round trip

  predicate NoColon(s: Bytes) { COLON !in s }

  lemma {:induction false} DecimalDigits(n: nat)
    ensures Decimal(n) != [] && forall b :: b in Decimal(n) ==> IsDigit(b)
  {
    if n >= 10 {
      DecimalDigits(n / 10);
    }
  }

  lemma {:induction false} NumberOfDecimal(n: nat)
    ensures Number(Decimal(n)) == Some(n)
  {
    if n >= 10 {
      NumberOfDecimal(n / 10);
      DecimalDigits(n / 10);
      var d := Decimal(n);
      assert d[..|d| - 1] == Decimal(n / 10);
    }
  }

  lemma {:induction false} UntilColonStops(s: Bytes, rest: Bytes)
    requires NoColon(s) && (rest == [] || rest[0] == COLON)
    ensures UntilColon(s + rest) == s
  {
    if s == [] {
      assert s + rest == rest;
    } else {
      assert (s + rest)[1..] == s[1..] + rest;
      UntilColonStops(s[1..], rest);
    }
  }

  lemma DecodeComponentOf(c: Bytes, rest: Bytes)
    ensures DecodeComponent(Component(c) + rest) == Some((c, rest))
  {
    var digits := Decimal(|c|);
    var s := Component(c) + rest;
    DecimalDigits(|c|);
    NumberOfDecimal(|c|);
    assert s[1..] == digits + ([COLON] + (c + rest));
    UntilColonStops(digits, [COLON] + (c + rest));
    var start := 1 + |digits| + 1;
    assert s[start..start + |c|] == c && s[start + |c|..] == rest;
  }

  lemma {:induction false} DecodeComponentsOf(cs: seq<Bytes>)
    ensures DecodeComponents(Components(cs)) == Some(cs)
    decreases |cs|
  {
    if cs != [] {
      DecodeComponentOf(cs[0], Components(cs[1..]));
      DecodeComponentsOf(cs[1..]);
      assert [cs[0]] + cs[1..] == cs;
    }
  }

  /** Decoding undoes encoding for every colon-free prefix and every list of components. */
  lemma KeyRoundTrip(prefix: Bytes, cs: seq<Bytes>)
    requires NoColon(prefix)
    ensures Decode(Encode(prefix, cs)) == Some((prefix, cs))
  {
    UntilColonStops(prefix, Components(cs));
    assert Encode(prefix, cs)[|prefix|..] == Components(cs);
    DecodeComponentsOf(cs);
  }

  /** Keys are equal only if the prefixes and all components are. */
  lemma KeysInjective(p: Bytes, cs: seq<Bytes>, q: Bytes, ds: seq<Bytes>)
    requires NoColon(p) && NoColon(q)
    ensures Encode(p, cs) == Encode(q, ds) <==> p == q && cs == ds
  {
    KeyRoundTrip(p, cs);
    KeyRoundTrip(q, ds);
  }

  // ----- The keys of tools that subagents use

  /** "claude-subagent" */
  const SUBAGENT: Bytes := [99, 108, 97, 117, 100, 101, 45, 115, 117, 98, 97, 103, 101, 110, 116]

  /** "claude-tool" */
  const TOOL: Bytes := [99, 108, 97, 117, 100, 101, 45, 116, 111, 111, 108]

  /** "claude-subagent-tool" */
  const SUBAGENT_TOOL: Bytes := SUBAGENT + [45, 116, 111, 111, 108]

  function SubagentToolKey(session: Bytes, agent: Bytes, tool: Bytes): Bytes {
    ScopedKey(SUBAGENT_TOOL, ScopedKey(SUBAGENT, session, agent), tool)
  }

  lemma PairsEqual(a: Bytes, b: Bytes, c: Bytes, d: Bytes)
    ensures [a, b] == [c, d] <==> a == c && b == d
  {
    assert [a, b][0] == a && [a, b][1] == b && [c, d][0] == c && [c, d][1] == d;
  }

  /** Injectivity survives nesting: distinct (session, agent, tool) triples never share a key. */
  lemma SubagentToolKeysInjective(s: Bytes, a: Bytes, t: Bytes, s': Bytes, a': Bytes, t': Bytes)
    ensures SubagentToolKey(s, a, t) == SubagentToolKey(s', a', t') <==> s == s' && a == a' && t == t'
  {
    var inner, inner' := ScopedKey(SUBAGENT, s, a), ScopedKey(SUBAGENT, s', a');
    KeysInjective(SUBAGENT, [s, a], SUBAGENT, [s', a']);
    PairsEqual(s, a, s', a');
    KeysInjective(SUBAGENT_TOOL, [inner, t], SUBAGENT_TOOL, [inner', t']);
    PairsEqual(inner, t, inner', t');
  }

  /** A tool of a subagent and a tool of the session itself never share a key. */
  lemma ToolKindsDisjoint(s: Bytes, a: Bytes, t: Bytes, session: Bytes, tool: Bytes)
    ensures SubagentToolKey(s, a, t) != ScopedKey(TOOL, session, tool)
  {
    KeysInjective(SUBAGENT_TOOL, [ScopedKey(SUBAGENT, s, a), t], TOOL, [session, tool]);
  }

  /** The message keys and the two-component keys never coincide either. */
  lemma MessageKeysInjective(p: Bytes, s: Bytes, t: Bytes, m: Bytes, s': Bytes, t': Bytes, m': Bytes)
    requires NoColon(p)
    ensures ScopedMessageKey(p, s, t, m) == ScopedMessageKey(p, s', t', m') <==> s == s' && t == t' && m == m'
    ensures ScopedMessageKey(p, s, t, m) != ScopedKey(p, s', t')
  {
    KeysInjective(p, [s, t, m], p, [s', t']);
    KeysInjective(p, [s, t, m], p, [s', t', m']);
    if [s, t, m] == [s', t', m'] {
      assert [s, t, m][0] == [s', t', m'][0] && [s, t, m][1] == [s', t', m'][1] && [s, t, m][2] == [s', t', m'][2];
    }
  }
}
