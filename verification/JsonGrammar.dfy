/**
 * Concrete JSON syntax in the form of RFC 8259, sections 2 to 7, with every
 * piece of optional whitespace kept in the tree, and the measures that the
 * Claude hook limits speak about.
 */
module JsonGrammar {
  import opened Common

  const TAB: byte := 0x09
  const LF: byte := 0x0A
  const FF: byte := 0x0C
  const CR: byte := 0x0D
  const SPACE: byte := 0x20
  const QUOTE: byte := 0x22
  const PLUS: byte := 0x2B
  const COMMA: byte := 0x2C
  const MINUS: byte := 0x2D
  const DOT: byte := 0x2E
  const SLASH: byte := 0x2F
  const COLON: byte := 0x3A
  const OPEN_ARRAY: byte := 0x5B
  const BACKSLASH: byte := 0x5C
  const CLOSE_ARRAY: byte := 0x5D
  const LOWER_F: byte := 0x66
  const LOWER_N: byte := 0x6E
  const LOWER_T: byte := 0x74
  const LOWER_U: byte := 0x75
  const OPEN_OBJECT: byte := 0x7B
  const CLOSE_OBJECT: byte := 0x7D

  /** One unit of string content: a literal byte or an escape sequence. */
  datatype Unit =
    | Literal(b: byte)
    | Escape(b: byte)
    | UnicodeEscape(h0: byte, h1: byte, h2: byte, h3: byte)

  datatype Value =
    | Atom(text: seq<byte>)
    | Text(units: seq<Unit>)
    | Array(pad: seq<byte>, elements: Elements)
    | Object(pad: seq<byte>, members: Members)

  /** The pad of a container is printed only when the container is empty. */
  datatype Elements =
    | NoElement
    | Element(before: seq<byte>, value: Value, after: seq<byte>, rest: Elements)

  datatype Members =
    | NoMember
    | Member(before: seq<byte>, key: seq<Unit>, afterKey: seq<byte>,
             beforeValue: seq<byte>, value: Value, after: seq<byte>, rest: Members)

  // ----- Well-formedness

  predicate IsDigit(b: byte) { 0x30 <= b <= 0x39 }

  predicate IsHexDigit(b: byte) {
    IsDigit(b) || 0x41 <= b <= 0x46 || 0x61 <= b <= 0x66
  }

  predicate IsSpace(b: byte) { b == SPACE || b == LF || b == CR || b == TAB }

  predicate LegalSpace(s: seq<byte>) { forall b :: b in s ==> IsSpace(b) }

  predicate Digits(s: seq<byte>) {
    s != [] && forall b :: b in s ==> IsDigit(b)
  }

  /** int = zero / ( digit1-9 *DIGIT ) */
  predicate IntegerPart(s: seq<byte>) {
    Digits(s) && (s[0] == 0x30 ==> |s| == 1)
  }

  predicate FractionPart(s: seq<byte>) {
    s == [] || (s[0] == DOT && Digits(s[1..]))
  }

  predicate ExponentPart(s: seq<byte>) {
    || s == []
    || (&& (s[0] == 0x65 || s[0] == 0x45)
        && |s| > 1
        && (Digits(s[1..]) || ((s[1] == PLUS || s[1] == MINUS) && Digits(s[2..]))))
  }

  /** number = [ minus ] int [ frac ] [ exp ] */
  ghost predicate IsNumber(s: seq<byte>) {
    exists sign: seq<byte>, whole: seq<byte>, fraction: seq<byte>, exponent: seq<byte> ::
      && s == sign + whole + fraction + exponent
      && (sign == [] || sign == [MINUS])
      && IntegerPart(whole) && FractionPart(fraction) && ExponentPart(exponent)
  }

  ghost predicate LegalAtom(s: seq<byte>) {
    || s == [0x74, 0x72, 0x75, 0x65]        // true
    || s == [0x66, 0x61, 0x6C, 0x73, 0x65]  // false
    || s == [0x6E, 0x75, 0x6C, 0x6C]        // null
    || IsNumber(s)
  }

  predicate LegalUnit(u: Unit) {
    match u
    case Literal(b) => b >= SPACE && b != QUOTE && b != BACKSLASH
    case Escape(b) =>
      b == QUOTE || b == BACKSLASH || b == SLASH || b == 0x62 || b == LOWER_F
      || b == LOWER_N || b == 0x72 || b == LOWER_T
    case UnicodeEscape(h0, h1, h2, h3) =>
      IsHexDigit(h0) && IsHexDigit(h1) && IsHexDigit(h2) && IsHexDigit(h3)
  }

  predicate LegalUnits(us: seq<Unit>) { forall u :: u in us ==> LegalUnit(u) }

  ghost predicate Legal(v: Value) {
    match v
    case Atom(text) => LegalAtom(text)
    case Text(units) => LegalUnits(units)
    case Array(pad, elements) => LegalSpace(pad) && LegalElements(elements)
    case Object(pad, members) => LegalSpace(pad) && LegalMembers(members)
  }

  ghost predicate LegalElements(e: Elements) {
    match e
    case NoElement => true
    case Element(before, value, after, rest) =>
      LegalSpace(before) && Legal(value) && LegalSpace(after) && LegalElements(rest)
  }

  ghost predicate LegalMembers(m: Members) {
    match m
    case NoMember => true
    case Member(before, key, afterKey, beforeValue, value, after, rest) =>
      && LegalSpace(before) && LegalUnits(key) && LegalSpace(afterKey)
      && LegalSpace(beforeValue) && Legal(value) && LegalSpace(after) && LegalMembers(rest)
  }

  // ----- Printing

  function PrintUnit(u: Unit): seq<byte> {
    match u
    case Literal(b) => [b]
    case Escape(b) => [BACKSLASH, b]
    case UnicodeEscape(h0, h1, h2, h3) => [BACKSLASH, LOWER_U, h0, h1, h2, h3]
  }

  function PrintUnits(us: seq<Unit>): seq<byte> {
    if us == [] then [] else PrintUnit(us[0]) + PrintUnits(us[1..])
  }

  function PrintText(us: seq<Unit>): seq<byte> {
    [QUOTE] + (PrintUnits(us) + [QUOTE])
  }

  function Print(v: Value): seq<byte> {
    match v
    case Atom(text) => text
    case Text(units) => PrintText(units)
    case Array(pad, elements) =>
      [OPEN_ARRAY] + ((if elements.NoElement? then pad else PrintElements(elements)) + [CLOSE_ARRAY])
    case Object(pad, members) =>
      [OPEN_OBJECT] + ((if members.NoMember? then pad else PrintMembers(members)) + [CLOSE_OBJECT])
  }

  function PrintElements(e: Elements): seq<byte>
    requires e.Element?
  {
    var one := e.before + (Print(e.value) + e.after);
    if e.rest.NoElement? then one else one + ([COMMA] + PrintElements(e.rest))
  }

  function PrintEntry(before: seq<byte>, key: seq<Unit>, afterKey: seq<byte>,
                      beforeValue: seq<byte>, value: seq<byte>, after: seq<byte>): seq<byte>
  {
    before + (PrintText(key) + (afterKey + ([COLON] + (beforeValue + (value + after)))))
  }

  function PrintMembers(m: Members): seq<byte>
    requires m.Member?
  {
    var one := PrintEntry(m.before, m.key, m.afterKey, m.beforeValue, Print(m.value), m.after);
    if m.rest.NoMember? then one else one + ([COMMA] + PrintMembers(m.rest))
  }

  // ----- The measures that the hook limits bound

  function Max(a: nat, b: nat): nat { if a < b then b else a }

  /** Nesting depth, counted in containers. */
  function Depth(v: Value): nat {
    match v
    case Atom(_) => 0
    case Text(_) => 0
    case Array(_, elements) => 1 + DepthOfElements(elements)
    case Object(_, members) => 1 + DepthOfMembers(members)
  }

  function DepthOfElements(e: Elements): nat {
    match e
    case NoElement => 0
    case Element(_, value, _, rest) => Max(Depth(value), DepthOfElements(rest))
  }

  function DepthOfMembers(m: Members): nat {
    match m
    case NoMember => 0
    case Member(_, _, _, _, value, _, rest) => Max(Depth(value), DepthOfMembers(rest))
  }

  /** Containers, scalars, strings and keys. */
  function Nodes(v: Value): nat {
    match v
    case Atom(_) => 1
    case Text(_) => 1
    case Array(_, elements) => 1 + NodesOfElements(elements)
    case Object(_, members) => 1 + NodesOfMembers(members)
  }

  function NodesOfElements(e: Elements): nat {
    match e
    case NoElement => 0
    case Element(_, value, _, rest) => Nodes(value) + NodesOfElements(rest)
  }

  function NodesOfMembers(m: Members): nat {
    match m
    case NoMember => 0
    case Member(_, _, _, _, value, _, rest) => 1 + Nodes(value) + NodesOfMembers(rest)
  }

  function ElementCount(e: Elements): nat {
    match e
    case NoElement => 0
    case Element(_, _, _, rest) => 1 + ElementCount(rest)
  }

  function MemberCount(m: Members): nat {
    match m
    case NoMember => 0
    case Member(_, _, _, _, _, _, rest) => 1 + MemberCount(rest)
  }

  const MAX_NESTING: nat := 8
  const MAX_STRING_BYTES: nat := 4096
  const MAX_MAP_ENTRIES: nat := 32
  const MAX_ARRAY_ELEMENTS: nat := 32
  const MAX_TOTAL_NODES: nat := 256

  /** The limit leaves 4095 bytes for content: the closing quote is counted. */
  predicate ShortText(us: seq<Unit>) { |PrintUnits(us)| < MAX_STRING_BYTES }

  /** Every string, array and object in the tree is small enough. */
  predicate SmallParts(v: Value) {
    match v
    case Atom(_) => true
    case Text(units) => ShortText(units)
    case Array(_, elements) => ElementCount(elements) <= MAX_ARRAY_ELEMENTS && SmallElements(elements)
    case Object(_, members) => MemberCount(members) <= MAX_MAP_ENTRIES && SmallMembers(members)
  }

  predicate SmallElements(e: Elements) {
    match e
    case NoElement => true
    case Element(_, value, _, rest) => SmallParts(value) && SmallElements(rest)
  }

  predicate SmallMembers(m: Members) {
    match m
    case NoMember => true
    case Member(_, key, _, _, value, _, rest) => ShortText(key) && SmallParts(value) && SmallMembers(rest)
  }

  predicate WithinLimits(v: Value) {
    Depth(v) <= MAX_NESTING && Nodes(v) <= MAX_TOTAL_NODES && SmallParts(v)
  }
}
