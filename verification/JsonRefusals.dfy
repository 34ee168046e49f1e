/**
 * What the hook body scanner refuses, in terms of the grammar: bodies that are cut off inside
 * a container, bodies that close one too many, and bytes that start no value.
 */
module JsonRefusals {
  import opened Common
  import opened JsonGrammar
  import opened JsonScanner

  /** While `bytes` are read, the stack of open containers never gets lower than `height`. */
  predicate Stays(s: Scan, bytes: seq<byte>, height: nat)
    decreases |bytes|
  {
    |s.frames| >= height &&
    (bytes != [] && Step(s, bytes[0]).Some? ==> Stays(Step(s, bytes[0]).value, bytes[1..], height))
  }

  lemma {:induction false} StaysPrefix(s: Scan, bytes: seq<byte>, height: nat, n: nat)
    requires Stays(s, bytes, height) && n <= |bytes|
    ensures Run(s, bytes[..n]).Some? ==> |Run(s, bytes[..n]).value.frames| >= height
    decreases n
  {
    if n > 0 && Step(s, bytes[0]).Some? {
      StaysPrefix(Step(s, bytes[0]).value, bytes[1..], height, n - 1);
      assert bytes[..n][1..] == bytes[1..][..n - 1];
    }
  }

  lemma {:induction false} StaysConcat(s: Scan, a: seq<byte>, b: seq<byte>, height: nat)
    requires Stays(s, a, height)
    requires Run(s, a).Some? ==> Stays(Run(s, a).value, b, height)
    ensures Stays(s, a + b, height)
    decreases |a|
  {
    if a == [] {
      assert a + b == b;
    } else {
      assert (a + b)[0] == a[0] && (a + b)[1..] == a[1..] + b;
      if Step(s, a[0]).Some? {
        StaysConcat(Step(s, a[0]).value, a[1..], b, height);
      }
    }
  }

  lemma StaysHead(s: Scan, b: byte, rest: seq<byte>, height: nat)
    requires |s.frames| >= height
    requires Step(s, b).Some? ==> Stays(Step(s, b).value, rest, height)
    ensures Stays(s, [b] + rest, height)
  {
    assert ([b] + rest)[1..] == rest;
  }

  // ----- The lexical pieces

  lemma {:induction false} StaysSpace(s: Scan, space: seq<byte>)
    requires !s.mode.InString? && LegalSpace(space)
    ensures Stays(s, space, |s.frames|)
    decreases |space|
  {
    if space != [] {
      assert IsSpace(space[0]);
      StaysSpace(s.(mode := Plain), space[1..]);
    }
  }

  lemma {:induction false} StaysInAtom(s: Scan, bytes: seq<byte>)
    requires s.mode.InAtom? && forall b :: b in bytes ==> !EndsAtom(b)
    ensures Stays(s, bytes, |s.frames|)
    decreases |bytes|
  {
    if bytes != [] {
      assert bytes[0] in bytes;
      StaysInAtom(s, bytes[1..]);
    }
  }

  lemma {:induction false} StaysAtom(s: Scan, text: seq<byte>)
    requires s.mode.Plain? && LegalAtom(text)
    ensures Stays(s, text, |s.frames|)
  {
    AtomShape(text);
    assert text == [text[0]] + text[1..];
    if Step(s, text[0]).Some? {
      StaysInAtom(Step(s, text[0]).value, text[1..]);
    }
    StaysHead(s, text[0], text[1..], |s.frames|);
  }

  /** Bytes of a string, with the escape that is pending, up to but not including its closing quote. */
  predicate InsideString(escaped: bool, bytes: seq<byte>)
    decreases |bytes|
  {
    bytes == [] ||
    (if escaped then InsideString(false, bytes[1..])
     else bytes[0] != QUOTE && InsideString(bytes[0] == BACKSLASH, bytes[1..]))
  }

  /** Does the text end with a backslash that escapes what follows? */
  predicate Pending(escaped: bool, bytes: seq<byte>)
    decreases |bytes|
  {
    if bytes == [] then escaped else Pending(!escaped && bytes[0] == BACKSLASH, bytes[1..])
  }

  lemma {:induction false} InsideConcat(escaped: bool, a: seq<byte>, b: seq<byte>)
    requires InsideString(escaped, a) && InsideString(Pending(escaped, a), b)
    ensures InsideString(escaped, a + b) && Pending(escaped, a + b) == Pending(Pending(escaped, a), b)
    decreases |a|
  {
    if a == [] {
      assert a + b == b;
    } else {
      assert (a + b)[0] == a[0] && (a + b)[1..] == a[1..] + b;
      InsideConcat(!escaped && a[0] == BACKSLASH, a[1..], b);
    }
  }

  lemma {:induction false} HexInside(digits: seq<byte>)
    requires forall b :: b in digits ==> IsHexDigit(b)
    ensures InsideString(false, digits) && !Pending(false, digits)
  {
    if digits != [] {
      assert digits[0] in digits;
      HexInside(digits[1..]);
    }
  }

  lemma {:induction false} InsideHead(escaped: bool, b: byte, rest: seq<byte>)
    ensures InsideString(escaped, [b] + rest) <==>
            if escaped then InsideString(false, rest) else b != QUOTE && InsideString(b == BACKSLASH, rest)
    ensures Pending(escaped, [b] + rest) == Pending(!escaped && b == BACKSLASH, rest)
  {
    assert ([b] + rest)[1..] == rest;
  }

  lemma {:induction false} UnitInside(u: Unit)
    requires LegalUnit(u)
    ensures InsideString(false, PrintUnit(u)) && !Pending(false, PrintUnit(u))
  {
    match u {
      case Literal(b) =>
        InsideHead(false, b, []);
        assert PrintUnit(u) == [b] + [];
      case Escape(b) =>
        InsideHead(false, BACKSLASH, [b] + []);
        InsideHead(true, b, []);
        assert PrintUnit(u) == [BACKSLASH] + ([b] + []);
      case UnicodeEscape(h0, h1, h2, h3) =>
        var digits := [h0, h1, h2, h3];
        HexInside(digits);
        InsideHead(false, BACKSLASH, [LOWER_U] + digits);
        InsideHead(true, LOWER_U, digits);
        assert PrintUnit(u) == [BACKSLASH] + ([LOWER_U] + digits);
    }
  }

  lemma {:induction false} UnitsInside(us: seq<Unit>)
    requires LegalUnits(us)
    ensures InsideString(false, PrintUnits(us)) && !Pending(false, PrintUnits(us))
  {
    if us != [] {
      assert us[0] in us;
      UnitInside(us[0]);
      UnitsInside(us[1..]);
      InsideConcat(false, PrintUnit(us[0]), PrintUnits(us[1..]));
    }
  }

  lemma {:induction false} StaysInString(s: Scan, bytes: seq<byte>)
    requires s.mode.InString? && InsideString(s.mode.escaped, bytes)
    ensures Stays(s, bytes, |s.frames|)
    decreases |bytes|
  {
    if bytes != [] && Step(s, bytes[0]).Some? {
      StaysInString(Step(s, bytes[0]).value, bytes[1..]);
    }
  }

  lemma {:induction false} StaysText(s: Scan, us: seq<Unit>)
    requires s.mode.Plain? && LegalUnits(us)
    ensures Stays(s, PrintText(us), |s.frames|)
  {
    var inside := PrintUnits(us);
    UnitsInside(us);
    if Step(s, QUOTE).Some? {
      var open := Step(s, QUOTE).value;
      StaysInString(open, inside);
      RunUnits(open, 0, us);
      if Run(open, inside).Some? {
        var t := Run(open, inside).value;
        assert Stays(t, [QUOTE], |s.frames|) by {
          assert [QUOTE][1..] == [];
        }
      }
      StaysConcat(open, inside, [QUOTE], |s.frames|);
    }
    StaysHead(s, QUOTE, inside + [QUOTE], |s.frames|);
  }

  // ----- Values, elements and members

  lemma {:induction false} StaysValue(s: Scan, v: Value)
    requires s.mode.Plain? && Legal(v) && ValuePosition(s.frames)
    requires |s.frames| <= MAX_NESTING && s.nodes <= MAX_TOTAL_NODES
    ensures Stays(s, Print(v), |s.frames|)
    decreases v, 0
  {
    match v {
      case Atom(text) => StaysAtom(s, text);
      case Text(units) => StaysText(s, units);
      case Array(pad, elements) =>
        if Opens(s) {
          StaysInArray(s, pad, elements);
        }
        StaysContainer(s, OPEN_ARRAY, InsideOf(v), CLOSE_ARRAY);
      case Object(pad, members) =>
        if Opens(s) {
          StaysInObject(s, pad, members);
        }
        StaysContainer(s, OPEN_OBJECT, InsideOf(v), CLOSE_OBJECT);
    }
  }

  /** The text between the brackets of a container. */
  function InsideOf(v: Value): seq<byte>
    requires v.Array? || v.Object?
  {
    match v
    case Array(pad, elements) => if elements.NoElement? then pad else PrintElements(elements)
    case Object(pad, members) => if members.NoMember? then pad else PrintMembers(members)
  }

  /** Inside a container the stack is one higher; only its closing bracket lowers it. */
  lemma {:induction false} StaysContainer(s: Scan, open: byte, inside: seq<byte>, close: byte)
    requires s.mode.Plain? && (open == OPEN_ARRAY || open == OPEN_OBJECT)
    requires Opens(s) ==> Stays(Opened(s, open == OPEN_ARRAY), inside, |s.frames| + 1)
    ensures Stays(s, [open] + (inside + [close]), |s.frames|)
  {
    if Step(s, open).Some? {
      OpensWhenStepped(s, open);
      StaysToClose(Opened(s, open == OPEN_ARRAY), inside, close, |s.frames|);
    }
    StaysHead(s, open, inside + [close], |s.frames|);
  }

  lemma {:induction false} StaysToClose(s: Scan, inside: seq<byte>, close: byte, height: nat)
    requires Stays(s, inside, height + 1)
    ensures Stays(s, inside + [close], height)
  {
    StaysPrefix(s, inside, height + 1, |inside|);
    assert inside[..|inside|] == inside;
    StaysLower(s, inside, height + 1, height);
    if Run(s, inside).Some? {
      StaysLast(Run(s, inside).value, close, height);
    }
    StaysConcat(s, inside, [close], height);
  }

  lemma OpensWhenStepped(s: Scan, open: byte)
    requires s.mode.Plain? && (open == OPEN_ARRAY || open == OPEN_OBJECT) && Step(s, open).Some?
    ensures Opens(s) && Step(s, open).value == Opened(s, open == OPEN_ARRAY)
  {
  }

  /** One byte lowers the stack by one frame at most. */
  lemma StaysLast(s: Scan, b: byte, height: nat)
    requires |s.frames| >= height + 1
    ensures Stays(s, [b], height)
  {
    assert [b][1..] == [];
  }

  lemma {:induction false} StaysLower(s: Scan, bytes: seq<byte>, height: nat, lower: nat)
    requires Stays(s, bytes, height) && lower <= height
    ensures Stays(s, bytes, lower)
    decreases |bytes|
  {
    if bytes != [] && Step(s, bytes[0]).Some? {
      StaysLower(Step(s, bytes[0]).value, bytes[1..], height, lower);
    }
  }

  lemma {:induction false} StaysInArray(s: Scan, pad: seq<byte>, elements: Elements)
    requires s.mode.Plain? && LegalSpace(pad) && LegalElements(elements) && Opens(s)
    ensures Stays(Opened(s, true), InsideOf(Array(pad, elements)), |s.frames| + 1)
    decreases elements, 2
  {
    if elements.NoElement? {
      StaysSpace(Opened(s, true), pad);
    } else {
      StaysElements(Opened(s, true), NoteElement(s.frames).value, 0, elements);
    }
  }

  lemma {:induction false} StaysElements(s: Scan, outer: seq<Frame>, count: nat, e: Elements)
    requires s.mode.Plain? && s.frames == outer + [Frame(true, count, true)]
    requires e.Element? && LegalElements(e)
    requires |s.frames| <= MAX_NESTING && s.nodes <= MAX_TOTAL_NODES && count <= MAX_ARRAY_ELEMENTS
    ensures Stays(s, PrintElements(e), |s.frames|)
    decreases e, 1
  {
    var Element(before, value, after, rest) := e;
    var one := before + (Print(value) + after);
    StaysElement(s, outer, count, before, value, after);
    RunElement(s, outer, count, before, value, after);
    if !rest.NoElement? {
      if Run(s, one).Some? {
        var t := Run(s, one).value;
        var next := Scan(Plain, outer + [Frame(true, count + 1, true)], t.nodes);
        StepComma(t, outer, Frame(true, count + 1, false));
        StaysElements(next, outer, count + 1, rest);
        StaysHead(t, COMMA, PrintElements(rest), |s.frames|);
      }
      StaysConcat(s, one, [COMMA] + PrintElements(rest), |s.frames|);
    }
  }

  lemma {:induction false} StaysElement(s: Scan, outer: seq<Frame>, count: nat,
                                        before: seq<byte>, value: Value, after: seq<byte>)
    requires s.mode.Plain? && s.frames == outer + [Frame(true, count, true)]
    requires LegalSpace(before) && Legal(value) && LegalSpace(after)
    requires |s.frames| <= MAX_NESTING && s.nodes <= MAX_TOTAL_NODES && count <= MAX_ARRAY_ELEMENTS
    ensures Stays(s, before + (Print(value) + after), |s.frames|)
    decreases value, 2
  {
    PopFrame(outer, Frame(true, count, true));
    StaysSpace(s, before);
    RunSpace(s, before);
    StaysValueAndSpace(s, value, after);
    StaysConcat(s, before, Print(value) + after, |s.frames|);
  }

  lemma {:induction false} StaysValueAndSpace(s: Scan, value: Value, after: seq<byte>)
    requires s.mode.Plain? && Legal(value) && LegalSpace(after) && ValuePosition(s.frames)
    requires |s.frames| <= MAX_NESTING && s.nodes <= MAX_TOTAL_NODES
    ensures Stays(s, Print(value) + after, |s.frames|)
    decreases value, 1
  {
    StaysValue(s, value);
    RunValue(s, value);
    if Run(s, Print(value)).Some? {
      StaysSpace(Run(s, Print(value)).value, after);
    }
    StaysConcat(s, Print(value), after, |s.frames|);
  }

  lemma {:induction false} StaysInObject(s: Scan, pad: seq<byte>, members: Members)
    requires s.mode.Plain? && LegalSpace(pad) && LegalMembers(members) && Opens(s)
    ensures Stays(Opened(s, false), InsideOf(Object(pad, members)), |s.frames| + 1)
    decreases members, 2
  {
    if members.NoMember? {
      StaysSpace(Opened(s, false), pad);
    } else {
      StaysMembers(Opened(s, false), NoteElement(s.frames).value, 0, members);
    }
  }

  lemma {:induction false} StaysMembers(s: Scan, outer: seq<Frame>, count: nat, m: Members)
    requires s.mode.Plain? && s.frames == outer + [Frame(false, count, true)]
    requires m.Member? && LegalMembers(m)
    requires |s.frames| <= MAX_NESTING && s.nodes <= MAX_TOTAL_NODES && count <= MAX_MAP_ENTRIES
    ensures Stays(s, PrintMembers(m), |s.frames|)
    decreases m, 1
  {
    var Member(before, key, afterKey, beforeValue, value, after, rest) := m;
    var one := PrintEntry(before, key, afterKey, beforeValue, Print(value), after);
    StaysEntry(s, outer, count, before, key, afterKey, beforeValue, value, after);
    RunEntry(s, outer, count, before, key, afterKey, beforeValue, value, after);
    if !rest.NoMember? {
      if Run(s, one).Some? {
        var t := Run(s, one).value;
        var next := Scan(Plain, outer + [Frame(false, count + 1, true)], t.nodes);
        StepComma(t, outer, Frame(false, count + 1, false));
        StaysMembers(next, outer, count + 1, rest);
        StaysHead(t, COMMA, PrintMembers(rest), |s.frames|);
      }
      StaysConcat(s, one, [COMMA] + PrintMembers(rest), |s.frames|);
    }
  }

  lemma {:induction false} StaysEntry(s: Scan, outer: seq<Frame>, count: nat, before: seq<byte>, key: seq<Unit>,
                                      afterKey: seq<byte>, beforeValue: seq<byte>, value: Value, after: seq<byte>)
    requires s.mode.Plain? && s.frames == outer + [Frame(false, count, true)]
    requires LegalSpace(before) && LegalUnits(key) && LegalSpace(afterKey)
    requires LegalSpace(beforeValue) && Legal(value) && LegalSpace(after)
    requires |s.frames| <= MAX_NESTING && s.nodes <= MAX_TOTAL_NODES && count <= MAX_MAP_ENTRIES
    ensures Stays(s, PrintEntry(before, key, afterKey, beforeValue, Print(value), after), |s.frames|)
    decreases value, 3
  {
    var tail := afterKey + ([COLON] + (beforeValue + (Print(value) + after)));
    StaysSpace(s, before);
    RunSpace(s, before);
    StaysText(s, key);
    RunKey(s, outer, count, [], key, []);
    assert [] + (PrintText(key) + []) == PrintText(key);
    if Run(s, PrintText(key)).Some? {
      var t := Scan(Plain, outer + [Frame(false, count + 1, false)], s.nodes + 1);
      assert Run(t, []) == Some(t);
      PopFrame(outer, Frame(false, count + 1, false));
      StaysAfterKey(t, afterKey, beforeValue, value, after);
    }
    StaysConcat(s, PrintText(key), tail, |s.frames|);
    StaysConcat(s, before, PrintText(key) + tail, |s.frames|);
  }

  lemma {:induction false} StaysAfterKey(s: Scan, afterKey: seq<byte>, beforeValue: seq<byte>, value: Value, after: seq<byte>)
    requires s.mode.Plain? && ValuePosition(s.frames)
    requires LegalSpace(afterKey) && LegalSpace(beforeValue) && Legal(value) && LegalSpace(after)
    requires |s.frames| <= MAX_NESTING && s.nodes <= MAX_TOTAL_NODES
    ensures Stays(s, afterKey + ([COLON] + (beforeValue + (Print(value) + after))), |s.frames|)
    decreases value, 2
  {
    var tail := Print(value) + after;
    StaysSpace(s, afterKey);
    RunSpace(s, afterKey);
    StaysSpace(s, beforeValue);
    RunSpace(s, beforeValue);
    StaysValueAndSpace(s, value, after);
    StaysConcat(s, beforeValue, tail, |s.frames|);
    StaysHead(s, COLON, beforeValue + tail, |s.frames|);
    StaysConcat(s, afterKey, [COLON] + (beforeValue + tail), |s.frames|);
  }

  // ----- The theorems

  lemma {:induction false} CutInside(isArray: bool, inside: seq<byte>, m: nat)
    requires m <= |inside| && Stays(Opened(INITIAL, isArray), inside, 1)
    ensures !Finished(Run(INITIAL, [if isArray then OPEN_ARRAY else OPEN_OBJECT] + inside[..m]))
  {
    RunOpen(INITIAL, if isArray then OPEN_ARRAY else OPEN_OBJECT, inside[..m]);
    StaysPrefix(Opened(INITIAL, isArray), inside, 1, m);
  }

  lemma CutShape(v: Value, n: nat)
    requires (v.Array? || v.Object?) && 0 < n < |Print(v)|
    ensures n - 1 <= |InsideOf(v)|
    ensures Print(v)[..n] == [if v.Array? then OPEN_ARRAY else OPEN_OBJECT] + InsideOf(v)[..n - 1]
  {
    var open, close := if v.Array? then OPEN_ARRAY else OPEN_OBJECT, if v.Array? then CLOSE_ARRAY else CLOSE_OBJECT;
    assert Print(v) == [open] + (InsideOf(v) + [close]);
  }

  /** A body that is cut off inside a container is refused, wherever it is cut. */
  lemma {:induction false} CutOffIsRefused(before: seq<byte>, v: Value, n: nat)
    requires LegalSpace(before) && Legal(v) && (v.Array? || v.Object?) && 0 < n < |Print(v)|
    ensures !Accepts(before + Print(v)[..n])
  {
    RunConcat(INITIAL, before, Print(v)[..n]);
    RunSpace(INITIAL, before);
    CutShape(v, n);
    match v {
      case Array(pad, elements) => StaysInArray(INITIAL, pad, elements);
      case Object(pad, members) => StaysInObject(INITIAL, pad, members);
    }
    CutInside(v.Array?, InsideOf(v), n - 1);
  }

  lemma {:induction false} StringStaysOpen(s: Scan, bytes: seq<byte>, n: nat)
    requires s.mode.InString? && InsideString(s.mode.escaped, bytes) && n <= |bytes|
    ensures Run(s, bytes[..n]).Some? ==> Run(s, bytes[..n]).value.mode.InString?
    decreases n
  {
    if n > 0 && Step(s, bytes[0]).Some? {
      StringStaysOpen(Step(s, bytes[0]).value, bytes[1..], n - 1);
      assert bytes[..n][1..] == bytes[1..][..n - 1];
    }
  }

  /** A body that is cut off inside a string is refused too. */
  lemma {:induction false} CutOffStringIsRefused(before: seq<byte>, us: seq<Unit>, n: nat)
    requires LegalSpace(before) && LegalUnits(us) && 0 < n < |PrintText(us)|
    ensures !Accepts(before + PrintText(us)[..n])
  {
    var inside := PrintUnits(us);
    RunConcat(INITIAL, before, PrintText(us)[..n]);
    RunSpace(INITIAL, before);
    assert PrintText(us)[..n] == [QUOTE] + inside[..n - 1];
    RunHead(INITIAL, QUOTE, inside[..n - 1]);
    UnitsInside(us);
    if Step(INITIAL, QUOTE).Some? {
      StringStaysOpen(Step(INITIAL, QUOTE).value, inside, n - 1);
    }
  }

  /** A body that closes a bracket after its value is refused, whatever follows. */
  lemma {:induction false} ExtraCloseIsRefused(before: seq<byte>, v: Value, after: seq<byte>, close: byte, rest: seq<byte>)
    requires LegalSpace(before) && Legal(v) && LegalSpace(after) && (close == CLOSE_ARRAY || close == CLOSE_OBJECT)
    ensures !Accepts(before + (Print(v) + (after + ([close] + rest))))
  {
    RunConcat(INITIAL, before, Print(v) + (after + ([close] + rest)));
    RunSpace(INITIAL, before);
    RunConcat(INITIAL, Print(v), after + ([close] + rest));
    RunValue(INITIAL, v);
    if Run(INITIAL, Print(v)).Some? {
      var t := Run(INITIAL, Print(v)).value;
      RunConcat(t, after, [close] + rest);
      RunSpace(t, after);
      RunHead(Run(t, after).value, close, rest);
    }
  }

  /** The bytes that may stand outside strings and scalars, written out. */
  predicate MayStandBare(b: byte) {
    || b == 0x20 || b == 0x0A || b == 0x0D || b == 0x09                 // whitespace
    || b == 0x22 || b == 0x7B || b == 0x7D || b == 0x5B || b == 0x5D    // quote and brackets
    || b == 0x2C || b == 0x3A                                           // comma and colon
    || b == 0x74 || b == 0x66 || b == 0x6E || b == 0x2D || 0x30 <= b <= 0x39  // a scalar starts
  }

  lemma StrayByteFails(s: Scan, space: seq<byte>, b: byte, rest: seq<byte>)
    requires !s.mode.InString? && LegalSpace(space) && !MayStandBare(b) && (space == [] ==> s.mode.Plain?)
    ensures Run(s, space + ([b] + rest)) == None
  {
    RunConcat(s, space, [b] + rest);
    RunSpace(s, space);
    RunHead(s.(mode := Plain), b, rest);
  }

  /** A byte that starts no value is refused at the start of the body. */
  lemma StrayByteIsRefused(space: seq<byte>, b: byte, rest: seq<byte>)
    requires LegalSpace(space) && !MayStandBare(b)
    ensures !Accepts(space + ([b] + rest))
  {
    StrayByteFails(INITIAL, space, b, rest);
  }

  /** And in an array, before its first element. */
  lemma {:induction false} StrayFirstElementIsRefused(space: seq<byte>, b: byte, rest: seq<byte>)
    requires LegalSpace(space) && !MayStandBare(b)
    ensures !Accepts([OPEN_ARRAY] + (space + ([b] + rest)))
  {
    RunOpen(INITIAL, OPEN_ARRAY, space + ([b] + rest));
    StrayByteFails(Opened(INITIAL, true), space, b, rest);
  }

  /** And after any comma between elements. */
  lemma {:induction false} StrayElementIsRefused(e: Elements, space: seq<byte>, b: byte, rest: seq<byte>)
    requires e.Element? && LegalElements(e) && LegalSpace(space) && !MayStandBare(b)
    ensures !Accepts([OPEN_ARRAY] + (PrintElements(e) + ([COMMA] + (space + ([b] + rest)))))
  {
    var t := Opened(INITIAL, true);
    RunOpen(INITIAL, OPEN_ARRAY, PrintElements(e) + ([COMMA] + (space + ([b] + rest))));
    RunElements(t, [], 0, e);
    StrayAfterComma(t, PrintElements(e), Frame(true, ElementCount(e), false), space, b, rest);
  }

  lemma {:induction false} StrayAfterComma(s: Scan, one: seq<byte>, f: Frame, space: seq<byte>, b: byte, rest: seq<byte>)
    requires Run(s, one).Some? ==> !Run(s, one).value.mode.InString? && Run(s, one).value.frames == [f]
    requires LegalSpace(space) && !MayStandBare(b)
    ensures Run(s, one + ([COMMA] + (space + ([b] + rest)))) == None
  {
    var tail := space + ([b] + rest);
    RunConcat(s, one, [COMMA] + tail);
    if Run(s, one).Some? {
      var u := Run(s, one).value;
      assert u.frames == [] + [f];
      RunHead(u, COMMA, tail);
      StepComma(u, [], f);
      StrayByteFails(Step(u, COMMA).value, space, b, rest);
    }
  }
}
