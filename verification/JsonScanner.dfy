/**
 * The Claude hook body scanner.  `Run` is a byte-at-a-time machine over a stack
 * of frames; the method `ScanBounds` is the source's loop over fixed per-depth
 * arrays and is proved to compute the same verdict.  The theorem at the end says
 * what the verdict means for every legal JSON text.
 */
module JsonScanner {
  import opened Common
  import opened JsonGrammar

  /** `waiting` is "expecting a key" for an object and "awaiting a value" for an array. */
  datatype Frame = Frame(isArray: bool, count: nat, waiting: bool)

  datatype Mode = Plain | InString(escaped: bool, bytes: nat) | InAtom

  datatype Scan = Scan(mode: Mode, frames: seq<Frame>, nodes: nat)

  const INITIAL: Scan := Scan(Plain, [], 0)

  predicate StartsAtom(b: byte) {
    b == LOWER_T || b == LOWER_F || b == LOWER_N || b == MINUS || IsDigit(b)
  }

  /** The bytes that end a scalar: note the form feed, which JSON does not allow. */
  predicate EndsAtom(b: byte) {
    b == COMMA || b == CLOSE_OBJECT || b == CLOSE_ARRAY || IsSpace(b) || b == FF
  }

  function Top(frames: seq<Frame>): Frame
    requires frames != []
  {
    frames[|frames| - 1]
  }

  function WithTop(frames: seq<Frame>, f: Frame): seq<Frame>
    requires frames != []
  {
    frames[..|frames| - 1] + [f]
  }

  /** A value starts: it is an element when the innermost container is an array awaiting one. */
  function NoteElement(frames: seq<Frame>): Option<seq<Frame>> {
    if frames == [] || !Top(frames).isArray || !Top(frames).waiting then Some(frames)
    else if Top(frames).count + 1 > MAX_ARRAY_ELEMENTS then None
    else Some(WithTop(frames, Frame(true, Top(frames).count + 1, false)))
  }

  /** A string closes: it is a key when the innermost container is an object expecting one. */
  function NoteKey(frames: seq<Frame>): Option<seq<Frame>> {
    if frames == [] || Top(frames).isArray || !Top(frames).waiting then Some(frames)
    else if Top(frames).count + 1 > MAX_MAP_ENTRIES then None
    else Some(WithTop(frames, Frame(false, Top(frames).count + 1, false)))
  }

  function OpenNode(s: Scan): Option<Scan> {
    if s.nodes + 1 > MAX_TOTAL_NODES then None
    else match NoteElement(s.frames)
      case None => None
      case Some(frames) => Some(Scan(s.mode, frames, s.nodes + 1))
  }

  function StepString(s: Scan, b: byte): Option<Scan>
    requires s.mode.InString?
  {
    var n := s.mode.bytes + 1;
    if n > MAX_STRING_BYTES then None
    else if s.mode.escaped then Some(s.(mode := InString(false, n)))
    else if b == BACKSLASH then Some(s.(mode := InString(true, n)))
    else if b == QUOTE then
      match NoteKey(s.frames)
      case None => None
      case Some(frames) => Some(Scan(Plain, frames, s.nodes))
    else Some(s.(mode := InString(false, n)))
  }

  function StepPlain(s: Scan, b: byte): Option<Scan> {
    if IsSpace(b) then Some(s)
    else if b == QUOTE then
      match OpenNode(s)
      case None => None
      case Some(t) => Some(t.(mode := InString(false, 0)))
    else if b == OPEN_OBJECT || b == OPEN_ARRAY then
      match OpenNode(s)
      case None => None
      case Some(t) =>
        if |t.frames| + 1 > MAX_NESTING then None
        else Some(t.(frames := t.frames + [Frame(b == OPEN_ARRAY, 0, true)]))
    else if b == CLOSE_OBJECT || b == CLOSE_ARRAY then
      if s.frames == [] then None else Some(s.(frames := s.frames[..|s.frames| - 1]))
    else if b == COMMA then
      if s.frames == [] then Some(s)
      else Some(s.(frames := WithTop(s.frames, Top(s.frames).(waiting := true))))
    else if b == COLON then Some(s)
    else if StartsAtom(b) then
      match OpenNode(s)
      case None => None
      case Some(t) => Some(t.(mode := InAtom))
    else None
  }

  function Step(s: Scan, b: byte): Option<Scan> {
    match s.mode
    case InString(_, _) => StepString(s, b)
    case InAtom => if EndsAtom(b) then StepPlain(s.(mode := Plain), b) else Some(s)
    case Plain => StepPlain(s, b)
  }

  function Run(s: Scan, bytes: seq<byte>): Option<Scan>
    decreases |bytes|
  {
    if bytes == [] then Some(s)
    else match Step(s, bytes[0])
      case None => None
      case Some(t) => Run(t, bytes[1..])
  }

  predicate Finished(r: Option<Scan>) {
    r.Some? && !r.value.mode.InString? && r.value.frames == []
  }

  predicate Accepts(body: seq<byte>) {
    Finished(Run(INITIAL, body))
  }

  // ----- Running over a concatenation

  function Then(r: Option<Scan>, bytes: seq<byte>): Option<Scan> {
    match r
    case None => None
    case Some(s) => Run(s, bytes)
  }

  lemma {:induction false} RunConcat(s: Scan, first: seq<byte>, second: seq<byte>)
    ensures Run(s, first + second) == Then(Run(s, first), second)
    decreases |first|
  {
    if first == [] {
      assert first + second == second;
    } else {
      assert (first + second)[1..] == first[1..] + second;
      match Step(s, first[0]) {
        case None =>
        case Some(t) => RunConcat(t, first[1..], second);
      }
    }
  }

  lemma {:induction false} RunHead(s: Scan, b: byte, rest: seq<byte>)
    ensures Run(s, [b] + rest) == Then(Step(s, b), rest)
  {
    assert ([b] + rest)[1..] == rest;
  }

  lemma {:induction false} RunOne(s: Scan, b: byte)
    ensures Run(s, [b]) == Step(s, b)
  {
    match Step(s, b) {
      case None =>
      case Some(t) => assert Run(t, []) == Some(t);
    }
  }

  // ----- Lexical pieces

  function AfterSpace(m: Mode, space: seq<byte>): Mode {
    if space == [] then m else Plain
  }

  lemma {:induction false} RunSpace(s: Scan, space: seq<byte>)
    requires !s.mode.InString? && LegalSpace(space)
    ensures Run(s, space) == Some(s.(mode := AfterSpace(s.mode, space)))
    decreases |space|
  {
    if space != [] {
      assert IsSpace(space[0]);
      RunSpace(s.(mode := Plain), space[1..]);
    }
  }

  lemma NumberTailsNeverEndAtom(fraction: seq<byte>, exponent: seq<byte>)
    requires FractionPart(fraction) && ExponentPart(exponent)
    ensures forall b :: b in fraction ==> !EndsAtom(b)
    ensures forall b :: b in exponent ==> !EndsAtom(b)
  {
    if fraction != [] {
      assert fraction == [fraction[0]] + fraction[1..];
    }
    if exponent != [] {
      assert exponent == [exponent[0]] + exponent[1..];
      if !Digits(exponent[1..]) {
        assert exponent == [exponent[0], exponent[1]] + exponent[2..];
      }
    }
  }

  lemma AtomShape(s: seq<byte>)
    requires LegalAtom(s)
    ensures s != [] && StartsAtom(s[0])
    ensures forall b :: b in s ==> !EndsAtom(b)
  {
    if IsNumber(s) {
      var sign: seq<byte>, whole: seq<byte>, fraction: seq<byte>, exponent: seq<byte> :|
        && s == sign + whole + fraction + exponent
        && (sign == [] || sign == [MINUS])
        && IntegerPart(whole) && FractionPart(fraction) && ExponentPart(exponent);
      assert s[0] == MINUS || s[0] == whole[0];
      NumberTailsNeverEndAtom(fraction, exponent);
    }
  }

  lemma {:induction false} RunInsideAtom(s: Scan, bytes: seq<byte>)
    requires s.mode.InAtom?
    requires forall b :: b in bytes ==> !EndsAtom(b)
    ensures Run(s, bytes) == Some(s)
  {
    if bytes != [] {
      RunInsideAtom(s, bytes[1..]);
    }
  }

  lemma {:induction false} RunAtom(s: Scan, text: seq<byte>)
    requires s.mode.Plain? && LegalAtom(text)
    ensures Run(s, text) == match OpenNode(s) case None => None case Some(t) => Some(t.(mode := InAtom))
  {
    AtomShape(text);
    match OpenNode(s) {
      case None =>
      case Some(t) => RunInsideAtom(t.(mode := InAtom), text[1..]);
    }
  }

  /** One unit of content moves the byte count and nothing else. */
  lemma {:induction false} RunUnit(s: Scan, n: nat, u: Unit)
    requires s.mode == InString(false, n) && LegalUnit(u)
    ensures Run(s, PrintUnit(u)) ==
            if n + |PrintUnit(u)| <= MAX_STRING_BYTES
            then Some(s.(mode := InString(false, n + |PrintUnit(u)|))) else None
  {
    var p := PrintUnit(u);
    match u {
      case Literal(b) => RunOne(s, b);
      case Escape(b) =>
        RunEscaped(s, n, b, []);
        assert p == [BACKSLASH] + ([b] + []);
      case UnicodeEscape(h0, h1, h2, h3) =>
        assert p == [BACKSLASH] + ([LOWER_U] + [h0, h1, h2, h3]);
        RunUnicodeEscape(s, n, [h0, h1, h2, h3]);
    }
  }

  lemma {:induction false} RunUnicodeEscape(s: Scan, n: nat, digits: seq<byte>)
    requires s.mode == InString(false, n) && digits != [] && forall b :: b in digits ==> IsHexDigit(b)
    ensures Run(s, [BACKSLASH] + ([LOWER_U] + digits)) ==
            if n + 2 + |digits| <= MAX_STRING_BYTES
            then Some(s.(mode := InString(false, n + 2 + |digits|))) else None
  {
    RunEscaped(s, n, LOWER_U, digits);
    RunDigits(s, n + 2, digits);
  }

  /** A backslash takes the byte after it along, whatever that byte is. */
  lemma {:induction false} RunEscaped(s: Scan, n: nat, b: byte, rest: seq<byte>)
    requires s.mode == InString(false, n)
    ensures Run(s, [BACKSLASH] + ([b] + rest)) ==
            if n + 2 <= MAX_STRING_BYTES then Run(s.(mode := InString(false, n + 2)), rest) else None
  {
    RunHead(s, BACKSLASH, [b] + rest);
    assert Step(s, BACKSLASH) ==
           if n + 1 <= MAX_STRING_BYTES then Some(s.(mode := InString(true, n + 1))) else None;
    if n + 1 <= MAX_STRING_BYTES {
      RunHead(s.(mode := InString(true, n + 1)), b, rest);
    }
  }

  lemma {:induction false} RunDigits(s: Scan, n: nat, digits: seq<byte>)
    requires forall b :: b in digits ==> IsHexDigit(b)
    ensures Run(s.(mode := InString(false, n)), digits) ==
            if digits == [] || n + |digits| <= MAX_STRING_BYTES
            then Some(s.(mode := InString(false, n + |digits|))) else None
    decreases |digits|
  {
    if digits != [] {
      assert IsHexDigit(digits[0]);
      RunDigits(s, n + 1, digits[1..]);
    }
  }

  lemma {:induction false} RunUnits(s: Scan, n: nat, us: seq<Unit>)
    requires s.mode == InString(false, n) && LegalUnits(us) && n <= MAX_STRING_BYTES
    ensures Run(s, PrintUnits(us)) ==
            if n + |PrintUnits(us)| <= MAX_STRING_BYTES
            then Some(s.(mode := InString(false, n + |PrintUnits(us)|))) else None
    decreases |us|
  {
    if us != [] {
      RunConcat(s, PrintUnit(us[0]), PrintUnits(us[1..]));
      RunUnit(s, n, us[0]);
      var m := n + |PrintUnit(us[0])|;
      if m <= MAX_STRING_BYTES {
        RunUnits(s.(mode := InString(false, m)), m, us[1..]);
      }
    }
  }

  /** A whole string: opened as a node, and counted as a key where one is expected. */
  lemma {:induction false} RunText(s: Scan, us: seq<Unit>)
    requires s.mode.Plain? && LegalUnits(us)
    ensures Run(s, PrintText(us)) ==
            match OpenNode(s)
            case None => None
            case Some(t) =>
              if !ShortText(us) then None
              else match NoteKey(t.frames)
                case None => None
                case Some(frames) => Some(Scan(Plain, frames, t.nodes))
  {
    RunHead(s, QUOTE, PrintUnits(us) + [QUOTE]);
    match OpenNode(s) {
      case None =>
      case Some(t) =>
        var open := t.(mode := InString(false, 0));
        RunConcat(open, PrintUnits(us), [QUOTE]);
        RunUnits(open, 0, us);
        var n := |PrintUnits(us)|;
        if n <= MAX_STRING_BYTES {
          RunOne(t.(mode := InString(false, n)), QUOTE);
        }
    }
  }

  // ----- Values, elements and members

  /** The positions at which a value, not a key, is due. */
  predicate ValuePosition(frames: seq<Frame>) {
    frames == [] || Top(frames).isArray || !Top(frames).waiting
  }

  /** What a value needs from the limits when `frames` are open and `nodes` were counted. */
  predicate Room(depth: nat, count: nat, small: bool, frames: seq<Frame>, nodes: nat) {
    |frames| + depth <= MAX_NESTING && nodes + count <= MAX_TOTAL_NODES && small
  }

  function EndMode(v: Value): Mode {
    if v.Atom? then InAtom else Plain
  }

  lemma {:induction false} RunValue(s: Scan, v: Value)
    requires s.mode.Plain? && Legal(v) && ValuePosition(s.frames)
    requires |s.frames| <= MAX_NESTING && s.nodes <= MAX_TOTAL_NODES
    ensures Run(s, Print(v)) ==
            if Room(Depth(v), Nodes(v), SmallParts(v), s.frames, s.nodes) && NoteElement(s.frames).Some?
            then Some(Scan(EndMode(v), NoteElement(s.frames).value, s.nodes + Nodes(v)))
            else None
    decreases v, 0
  {
    match v {
      case Atom(text) => RunAtom(s, text);
      case Text(units) => RunText(s, units);
      case Array(pad, elements) => RunArray(s, pad, elements);
      case Object(pad, members) => RunObject(s, pad, members);
    }
  }

  lemma PopFrame(frames: seq<Frame>, f: Frame)
    ensures (frames + [f])[..|frames + [f]| - 1] == frames
    ensures Top(frames + [f]) == f
    ensures forall g :: WithTop(frames + [f], g) == frames + [g]
  {
  }

  predicate Opens(s: Scan) {
    s.nodes + 1 <= MAX_TOTAL_NODES && |s.frames| + 1 <= MAX_NESTING && NoteElement(s.frames).Some?
  }

  function Opened(s: Scan, isArray: bool): Scan
    requires Opens(s)
  {
    Scan(Plain, NoteElement(s.frames).value + [Frame(isArray, 0, true)], s.nodes + 1)
  }

  /** Opening a container counts a node, notes an element and pushes a fresh frame. */
  lemma {:induction false} RunOpen(s: Scan, b: byte, rest: seq<byte>)
    requires s.mode.Plain? && (b == OPEN_ARRAY || b == OPEN_OBJECT)
    ensures Run(s, [b] + rest) == if Opens(s) then Run(Opened(s, b == OPEN_ARRAY), rest) else None
  {
    RunHead(s, b, rest);
  }

  lemma {:induction false} StepClose(s: Scan, outer: seq<Frame>, f: Frame, b: byte)
    requires !s.mode.InString? && s.frames == outer + [f] && (b == CLOSE_ARRAY || b == CLOSE_OBJECT)
    ensures Run(s, [b]) == Some(Scan(Plain, outer, s.nodes))
  {
    PopFrame(outer, f);
    RunOne(s, b);
  }

  lemma StepComma(s: Scan, outer: seq<Frame>, f: Frame)
    requires !s.mode.InString? && s.frames == outer + [f]
    ensures Step(s, COMMA) == Some(Scan(Plain, outer + [f.(waiting := true)], s.nodes))
  {
    PopFrame(outer, f);
  }

  /** The scan goes on outside strings with the given frames and count, or fails. */
  predicate Reaches(r: Option<Scan>, fits: bool, frames: seq<Frame>, nodes: nat) {
    if fits then r.Some? && !r.value.mode.InString? && r.value.frames == frames && r.value.nodes == nodes
    else r == None
  }

  /** A container around contents whose effect is known. */
  lemma {:induction false} RunContainer(s: Scan, open: byte, inside: seq<byte>, close: byte,
                     depth: nat, nodes: nat, small: bool, f: Frame)
    requires s.mode.Plain? && (open == OPEN_ARRAY || open == OPEN_OBJECT)
    requires close == CLOSE_ARRAY || close == CLOSE_OBJECT
    requires Opens(s) ==>
               Reaches(Run(Opened(s, open == OPEN_ARRAY), inside),
                       Room(1 + depth, 1 + nodes, small, s.frames, s.nodes),
                       NoteElement(s.frames).value + [f], s.nodes + 1 + nodes)
    ensures Run(s, [open] + (inside + [close])) ==
            if Room(1 + depth, 1 + nodes, small, s.frames, s.nodes) && NoteElement(s.frames).Some?
            then Some(Scan(Plain, NoteElement(s.frames).value, s.nodes + 1 + nodes))
            else None
  {
    RunOpen(s, open, inside + [close]);
    if Opens(s) {
      var t := Opened(s, open == OPEN_ARRAY);
      RunConcat(t, inside, [close]);
      if Run(t, inside).Some? {
        StepClose(Run(t, inside).value, NoteElement(s.frames).value, f, close);
      }
    }
  }

  /** After one entry and a comma the next entry is due. */
  lemma {:induction false} RunComma(s: Scan, one: seq<byte>, rest: seq<byte>, fits: bool, outer: seq<Frame>, f: Frame, nodes: nat)
    requires Reaches(Run(s, one), fits, outer + [f], nodes)
    ensures Run(s, one + ([COMMA] + rest)) ==
            if fits then Run(Scan(Plain, outer + [f.(waiting := true)], nodes), rest) else None
  {
    RunConcat(s, one, [COMMA] + rest);
    if fits {
      RunHead(Run(s, one).value, COMMA, rest);
      StepComma(Run(s, one).value, outer, f);
    }
  }

  /** The room for two neighbours is the room for one and then for the other. */
  lemma RoomForBoth(d: nat, n: nat, small: bool, d': nat, n': nat, small': bool, frames: seq<Frame>, nodes: nat)
    ensures Room(Max(d, d'), n + n', small && small', frames, nodes)
            <==> Room(d, n, small, frames, nodes) && Room(d', n', small', frames, nodes + n)
  {
  }

  /** The same for a deeper stack of the same height. */
  lemma RoomInside(depth: nat, nodes: nat, small: bool, frames: seq<Frame>, inner: seq<Frame>, count: nat)
    requires |inner| == |frames| + 1
    ensures Room(1 + depth, 1 + nodes, small, frames, count) <==> Room(depth, nodes, small, inner, count + 1)
  {
  }

  lemma {:induction false} RunArray(s: Scan, pad: seq<byte>, elements: Elements)
    requires s.mode.Plain? && LegalSpace(pad) && LegalElements(elements)
    requires |s.frames| <= MAX_NESTING && s.nodes <= MAX_TOTAL_NODES
    ensures var small := ElementCount(elements) <= MAX_ARRAY_ELEMENTS && SmallElements(elements);
            Run(s, Print(Array(pad, elements))) ==
            if && Room(1 + DepthOfElements(elements), 1 + NodesOfElements(elements), small, s.frames, s.nodes)
               && NoteElement(s.frames).Some?
            then Some(Scan(Plain, NoteElement(s.frames).value, s.nodes + 1 + NodesOfElements(elements)))
            else None
    decreases elements, 2
  {
    var inside := if elements.NoElement? then pad else PrintElements(elements);
    var small := ElementCount(elements) <= MAX_ARRAY_ELEMENTS && SmallElements(elements);
    var f := Frame(true, ElementCount(elements), elements.NoElement?);
    if Opens(s) {
      var t, outer := Opened(s, true), NoteElement(s.frames).value;
      RoomInside(DepthOfElements(elements), NodesOfElements(elements), small, s.frames, t.frames, s.nodes);
      if elements.NoElement? {
        RunSpace(t, pad);
      } else {
        RunElements(t, outer, 0, elements);
      }
    }
    RunContainer(s, OPEN_ARRAY, inside, CLOSE_ARRAY, DepthOfElements(elements), NodesOfElements(elements), small, f);
  }

  lemma {:induction false} RunElements(s: Scan, outer: seq<Frame>, count: nat, e: Elements)
    requires s.mode.Plain? && s.frames == outer + [Frame(true, count, true)]
    requires e.Element? && LegalElements(e)
    requires |s.frames| <= MAX_NESTING && s.nodes <= MAX_TOTAL_NODES && count <= MAX_ARRAY_ELEMENTS
    ensures Reaches(Run(s, PrintElements(e)),
                    Room(DepthOfElements(e), NodesOfElements(e), SmallElements(e), s.frames, s.nodes)
                    && count + ElementCount(e) <= MAX_ARRAY_ELEMENTS,
                    outer + [Frame(true, count + ElementCount(e), false)], s.nodes + NodesOfElements(e))
    decreases e, 1
  {
    var Element(before, value, after, rest) := e;
    RunElement(s, outer, count, before, value, after);
    RoomForBoth(Depth(value), Nodes(value), SmallParts(value),
                DepthOfElements(rest), NodesOfElements(rest), SmallElements(rest), s.frames, s.nodes);
    if rest.NoElement? {
      assert DepthOfElements(rest) == NodesOfElements(rest) == ElementCount(rest) == 0 && SmallElements(rest);
    } else {
      var fits := Room(Depth(value), Nodes(value), SmallParts(value), s.frames, s.nodes) && count + 1 <= MAX_ARRAY_ELEMENTS;
      RunComma(s, before + (Print(value) + after), PrintElements(rest), fits,
               outer, Frame(true, count + 1, false), s.nodes + Nodes(value));
      if fits {
        RunElements(Scan(Plain, outer + [Frame(true, count + 1, true)], s.nodes + Nodes(value)), outer, count + 1, rest);
      }
    }
  }

  lemma {:induction false} RunElement(s: Scan, outer: seq<Frame>, count: nat,
                                      before: seq<byte>, value: Value, after: seq<byte>)
    requires s.mode.Plain? && s.frames == outer + [Frame(true, count, true)]
    requires LegalSpace(before) && Legal(value) && LegalSpace(after)
    requires |s.frames| <= MAX_NESTING && s.nodes <= MAX_TOTAL_NODES && count <= MAX_ARRAY_ELEMENTS
    ensures Reaches(Run(s, before + (Print(value) + after)),
                    Room(Depth(value), Nodes(value), SmallParts(value), s.frames, s.nodes)
                    && count + 1 <= MAX_ARRAY_ELEMENTS,
                    outer + [Frame(true, count + 1, false)], s.nodes + Nodes(value))
    decreases value, 2
  {
    PopFrame(outer, Frame(true, count, true));
    RunConcat(s, before, Print(value) + after);
    RunSpace(s, before);
    RunValueAndSpace(s, value, after);
  }

  lemma {:induction false} RunValueAndSpace(s: Scan, value: Value, after: seq<byte>)
    requires s.mode.Plain? && Legal(value) && LegalSpace(after) && ValuePosition(s.frames)
    requires |s.frames| <= MAX_NESTING && s.nodes <= MAX_TOTAL_NODES
    ensures NoteElement(s.frames).Some? ==>
              Reaches(Run(s, Print(value) + after),
                      Room(Depth(value), Nodes(value), SmallParts(value), s.frames, s.nodes),
                      NoteElement(s.frames).value, s.nodes + Nodes(value))
    ensures NoteElement(s.frames).None? ==> Run(s, Print(value) + after) == None
    decreases value, 1
  {
    RunConcat(s, Print(value), after);
    RunValue(s, value);
    if Run(s, Print(value)).Some? {
      RunSpace(Run(s, Print(value)).value, after);
    }
  }

  lemma {:induction false} RunObject(s: Scan, pad: seq<byte>, members: Members)
    requires s.mode.Plain? && LegalSpace(pad) && LegalMembers(members)
    requires |s.frames| <= MAX_NESTING && s.nodes <= MAX_TOTAL_NODES
    ensures var small := MemberCount(members) <= MAX_MAP_ENTRIES && SmallMembers(members);
            Run(s, Print(Object(pad, members))) ==
            if && Room(1 + DepthOfMembers(members), 1 + NodesOfMembers(members), small, s.frames, s.nodes)
               && NoteElement(s.frames).Some?
            then Some(Scan(Plain, NoteElement(s.frames).value, s.nodes + 1 + NodesOfMembers(members)))
            else None
    decreases members, 2
  {
    var inside := if members.NoMember? then pad else PrintMembers(members);
    var small := MemberCount(members) <= MAX_MAP_ENTRIES && SmallMembers(members);
    var f := Frame(false, MemberCount(members), members.NoMember?);
    if Opens(s) {
      var t, outer := Opened(s, false), NoteElement(s.frames).value;
      RoomInside(DepthOfMembers(members), NodesOfMembers(members), small, s.frames, t.frames, s.nodes);
      if members.NoMember? {
        RunSpace(t, pad);
      } else {
        RunMembers(t, outer, 0, members);
      }
    }
    RunContainer(s, OPEN_OBJECT, inside, CLOSE_OBJECT, DepthOfMembers(members), NodesOfMembers(members), small, f);
  }

  lemma {:induction false} RunMembers(s: Scan, outer: seq<Frame>, count: nat, m: Members)
    requires s.mode.Plain? && s.frames == outer + [Frame(false, count, true)]
    requires m.Member? && LegalMembers(m)
    requires |s.frames| <= MAX_NESTING && s.nodes <= MAX_TOTAL_NODES && count <= MAX_MAP_ENTRIES
    ensures Reaches(Run(s, PrintMembers(m)),
                    Room(DepthOfMembers(m), NodesOfMembers(m), SmallMembers(m), s.frames, s.nodes)
                    && count + MemberCount(m) <= MAX_MAP_ENTRIES,
                    outer + [Frame(false, count + MemberCount(m), false)], s.nodes + NodesOfMembers(m))
    decreases m, 1
  {
    var Member(before, key, afterKey, beforeValue, value, after, rest) := m;
    RunEntry(s, outer, count, before, key, afterKey, beforeValue, value, after);
    RoomForBoth(Depth(value), 1 + Nodes(value), ShortText(key) && SmallParts(value),
                DepthOfMembers(rest), NodesOfMembers(rest), SmallMembers(rest), s.frames, s.nodes);
    if rest.NoMember? {
      assert DepthOfMembers(rest) == NodesOfMembers(rest) == MemberCount(rest) == 0 && SmallMembers(rest);
    } else {
      var fits := && Room(Depth(value), 1 + Nodes(value), ShortText(key) && SmallParts(value), s.frames, s.nodes)
                  && count + 1 <= MAX_MAP_ENTRIES;
      var nodes := s.nodes + 1 + Nodes(value);
      RunComma(s, PrintEntry(before, key, afterKey, beforeValue, Print(value), after), PrintMembers(rest), fits,
               outer, Frame(false, count + 1, false), nodes);
      if fits {
        RunMembers(Scan(Plain, outer + [Frame(false, count + 1, true)], nodes), outer, count + 1, rest);
      }
    }
  }

  lemma {:induction false} RunEntry(s: Scan, outer: seq<Frame>, count: nat, before: seq<byte>, key: seq<Unit>,
                                    afterKey: seq<byte>, beforeValue: seq<byte>, value: Value, after: seq<byte>)
    requires s.mode.Plain? && s.frames == outer + [Frame(false, count, true)]
    requires LegalSpace(before) && LegalUnits(key) && LegalSpace(afterKey)
    requires LegalSpace(beforeValue) && Legal(value) && LegalSpace(after)
    requires |s.frames| <= MAX_NESTING && s.nodes <= MAX_TOTAL_NODES && count <= MAX_MAP_ENTRIES
    ensures Reaches(Run(s, PrintEntry(before, key, afterKey, beforeValue, Print(value), after)),
                    Room(Depth(value), 1 + Nodes(value), ShortText(key) && SmallParts(value), s.frames, s.nodes)
                    && count + 1 <= MAX_MAP_ENTRIES,
                    outer + [Frame(false, count + 1, false)], s.nodes + 1 + Nodes(value))
    decreases value, 2
  {
    var tail := Print(value) + after;
    RunKey(s, outer, count, before, key, afterKey + ([COLON] + (beforeValue + tail)));
    if s.nodes + 1 <= MAX_TOTAL_NODES && ShortText(key) && count + 1 <= MAX_MAP_ENTRIES {
      var t := Scan(Plain, outer + [Frame(false, count + 1, false)], s.nodes + 1);
      PopFrame(outer, Frame(false, count + 1, false));
      RunColon(t, afterKey, beforeValue, tail);
      RunValueAndSpace(t, value, after);
    }
  }

  lemma {:induction false} RunKey(s: Scan, outer: seq<Frame>, count: nat, before: seq<byte>, key: seq<Unit>, tail: seq<byte>)
    requires s.mode.Plain? && s.frames == outer + [Frame(false, count, true)]
    requires LegalSpace(before) && LegalUnits(key)
    ensures Run(s, before + (PrintText(key) + tail)) ==
            if s.nodes + 1 <= MAX_TOTAL_NODES && ShortText(key) && count + 1 <= MAX_MAP_ENTRIES
            then Run(Scan(Plain, outer + [Frame(false, count + 1, false)], s.nodes + 1), tail) else None
  {
    PopFrame(outer, Frame(false, count, true));
    RunConcat(s, before, PrintText(key) + tail);
    RunSpace(s, before);
    RunConcat(s, PrintText(key), tail);
    RunText(s, key);
  }

  lemma {:induction false} RunColon(s: Scan, before: seq<byte>, after: seq<byte>, tail: seq<byte>)
    requires s.mode.Plain? && LegalSpace(before) && LegalSpace(after)
    ensures Run(s, before + ([COLON] + (after + tail))) == Run(s, tail)
  {
    RunConcat(s, before, [COLON] + (after + tail));
    RunSpace(s, before);
    RunHead(s, COLON, after + tail);
    RunConcat(s, after, tail);
    RunSpace(s, after);
  }

  /**
   * A JSON text, printed with any legal whitespace, is accepted exactly when its
   * tree is within the hook limits.
   */
  lemma {:induction false} ScannerAgreesWithLimits(before: seq<byte>, v: Value, after: seq<byte>)
    requires LegalSpace(before) && Legal(v) && LegalSpace(after)
    ensures Accepts(before + (Print(v) + after)) <==> WithinLimits(v)
  {
    RunConcat(INITIAL, before, Print(v) + after);
    RunSpace(INITIAL, before);
    RunConcat(INITIAL, Print(v), after);
    RunValue(INITIAL, v);
    if Run(INITIAL, Print(v)).Some? {
      RunSpace(Run(INITIAL, Print(v)).value, after);
    }
  }

  // ----- The source's loop

  /** The frame kept at one depth, spread over the five arrays of the source. */
  function FrameAt(entries: seq<nat>, elements: seq<nat>, expecting: seq<bool>, inArray: seq<bool>,
                   awaiting: seq<bool>, i: nat): Frame
    requires i < |entries| == |elements| == |expecting| == |inArray| == |awaiting|
  {
    if inArray[i] then Frame(true, elements[i], awaiting[i]) else Frame(false, entries[i], expecting[i])
  }

  /** The stack of frames at depths 1 to `depth`; what lies deeper is stale. */
  ghost predicate Represents(entries: seq<nat>, elements: seq<nat>, expecting: seq<bool>, inArray: seq<bool>,
                             awaiting: seq<bool>, frames: seq<Frame>)
    requires |entries| == |elements| == |expecting| == |inArray| == |awaiting| == MAX_NESTING + 1
  {
    && |frames| <= MAX_NESTING
    && (forall i :: 0 <= i < |frames| ==>
          frames[i] == FrameAt(entries, elements, expecting, inArray, awaiting, i + 1))
    && (forall i :: 1 <= i <= |frames| ==> if inArray[i] then !expecting[i] else !awaiting[i])
  }

  /** Whether the scan of `body` from `index` on ends well. */
  ghost predicate EndsWell(s: Scan, body: seq<byte>, index: nat)
    requires index <= |body|
  {
    Finished(Run(s, body[index..]))
  }

  lemma {:induction false} EndsWellNext(s: Scan, body: seq<byte>, index: nat)
    requires index < |body|
    ensures EndsWell(s, body, index)
            <==> Step(s, body[index]).Some? && EndsWell(Step(s, body[index]).value, body, index + 1)
  {
    assert body[index..] == [body[index]] + body[index + 1..];
    RunHead(s, body[index], body[index + 1..]);
  }

  /** A scalar that is over, or is about to be ended, can be forgotten. */
  lemma {:induction false} LeaveAtom(s: Scan, body: seq<byte>, index: nat)
    requires s.mode.InAtom? && index <= |body| && (index < |body| ==> EndsAtom(body[index]))
    ensures EndsWell(s, body, index) <==> EndsWell(s.(mode := Plain), body, index)
  {
  }

  /** The local variables of the source's scan, with its five fixed per-depth arrays. */
  class Locals {
    var depth: nat
    var inString: bool
    var escaped: bool
    var stringBytes: nat
    var totalNodes: nat
    const objectEntries: array<nat>
    const arrayElements: array<nat>
    const expectingKey: array<bool>
    const inArray: array<bool>
    const awaitingValue: array<bool>
    ghost var frames: seq<Frame>

    ghost predicate Valid()
      reads this, objectEntries, arrayElements, expectingKey, inArray, awaitingValue
    {
      && objectEntries.Length == arrayElements.Length == MAX_NESTING + 1 && objectEntries != arrayElements
      && expectingKey.Length == inArray.Length == awaitingValue.Length == MAX_NESTING + 1
      && expectingKey != inArray && awaitingValue != inArray && expectingKey != awaitingValue
      && depth == |frames|
      && Represents(objectEntries[..], arrayElements[..], expectingKey[..], inArray[..], awaitingValue[..], frames)
    }

    ghost function View(): Scan
      reads this
    {
      Scan(if inString then InString(escaped, stringBytes) else Plain, frames, totalNodes)
    }

    constructor ()
      ensures Valid() && View() == INITIAL && !escaped
      ensures fresh(objectEntries) && fresh(arrayElements) && fresh(expectingKey)
      ensures fresh(inArray) && fresh(awaitingValue)
    {
      depth, inString, escaped, stringBytes, totalNodes := 0, false, false, 0, 0;
      objectEntries := new nat[MAX_NESTING + 1](_ => 0);
      arrayElements := new nat[MAX_NESTING + 1](_ => 0);
      expectingKey := new bool[MAX_NESTING + 1](_ => false);
      inArray := new bool[MAX_NESTING + 1](_ => false);
      awaitingValue := new bool[MAX_NESTING + 1](_ => false);
      frames := [];
    }

    /** One byte inside a string; false for the source's `Err`. */
    method StringByte(b: byte) returns (ok: bool)
      requires Valid() && inString
      modifies this, objectEntries, expectingKey
      ensures ok <==> Step(old(View()), b).Some?
      ensures ok ==> Valid() && View() == Step(old(View()), b).value && (!inString ==> !escaped)
    {
      if escaped {
        escaped := false;
      } else if b == BACKSLASH {
        escaped := true;
      } else if b == QUOTE {
        inString := false;
        if depth > 0 && expectingKey[depth] {
          objectEntries[depth] := objectEntries[depth] + 1;
          if objectEntries[depth] > MAX_MAP_ENTRIES {
            return false;
          }
          expectingKey[depth] := false;
          frames := WithTop(frames, Frame(false, objectEntries[depth], false));
        }
      }
      stringBytes := stringBytes + 1;
      return stringBytes <= MAX_STRING_BYTES;
    }

    /** The source's `count_hook_json_node` and `note_array_element`. */
    method CountNode() returns (ok: bool)
      requires Valid()
      modifies this`totalNodes, this`frames, arrayElements, awaitingValue
      ensures ok <==> OpenNode(old(View())).Some?
      ensures ok ==> Valid() && View() == OpenNode(old(View())).value
    {
      totalNodes := totalNodes + 1;
      if totalNodes > MAX_TOTAL_NODES {
        return false;
      }
      if depth == 0 || !inArray[depth] || !awaitingValue[depth] {
        return true;
      }
      arrayElements[depth] := arrayElements[depth] + 1;
      if arrayElements[depth] > MAX_ARRAY_ELEMENTS {
        return false;
      }
      awaitingValue[depth] := false;
      frames := WithTop(frames, Frame(true, arrayElements[depth], false));
      return true;
    }

    /** The part of an opening bracket that follows the node count. */
    method OpenContainer(isArray: bool) returns (ok: bool)
      requires Valid() && !inString
      modifies this`depth, this`frames, objectEntries, arrayElements, expectingKey, inArray, awaitingValue
      ensures ok <==> old(depth) + 1 <= MAX_NESTING
      ensures ok ==> Valid() && frames == old(frames) + [Frame(isArray, 0, true)]
    {
      depth := depth + 1;
      if depth > MAX_NESTING {
        return false;
      }
      objectEntries[depth] := 0;
      arrayElements[depth] := 0;
      expectingKey[depth] := !isArray;
      inArray[depth] := isArray;
      awaitingValue[depth] := isArray;
      frames := frames + [Frame(isArray, 0, true)];
      return true;
    }

    method Comma()
      requires Valid() && !inString
      modifies this`frames, expectingKey, awaitingValue
      ensures Valid() && Some(View()) == StepPlain(old(View()), COMMA)
    {
      if depth > 0 {
        expectingKey[depth] := !inArray[depth];
        awaitingValue[depth] := inArray[depth];
        frames := WithTop(frames, Top(frames).(waiting := true));
      }
    }

    /** One byte outside strings and scalars; the bytes of a scalar are skipped by the caller. */
    method PlainByte(b: byte) returns (ok: bool)
      requires Valid() && !inString && !escaped
      modifies this, objectEntries, arrayElements, expectingKey, inArray, awaitingValue
      ensures ok <==> StepPlain(old(View()), b).Some?
      ensures ok ==> Valid() && (!inString ==> !escaped)
      ensures ok ==> View() == if StartsAtom(b) then OpenNode(old(View())).value else StepPlain(old(View()), b).value
    {
      if b == SPACE || b == LF || b == CR || b == TAB || b == COLON {
        return true;
      } else if b == QUOTE || b == OPEN_OBJECT || b == OPEN_ARRAY || StartsAtom(b) {
        ok := CountNode();
        if ok && b == QUOTE {
          inString, stringBytes := true, 0;
        } else if ok && (b == OPEN_OBJECT || b == OPEN_ARRAY) {
          ok := OpenContainer(b == OPEN_ARRAY);
        }
      } else if b == CLOSE_OBJECT || b == CLOSE_ARRAY {
        if depth == 0 {
          return false;
        }
        depth := depth - 1;
        frames := frames[..depth];
        return true;
      } else if b == COMMA {
        Comma();
        return true;
      } else {
        return false;
      }
    }

    /** One byte; `scalar` says that a scalar starts, whose bytes the caller skips. */
    method ScanByte(b: byte) returns (ok: bool, scalar: bool)
      requires Valid() && (!inString ==> !escaped)
      modifies this, objectEntries, arrayElements, expectingKey, inArray, awaitingValue
      ensures ok <==> Step(old(View()), b).Some?
      ensures ok ==> Valid() && (!inString ==> !escaped)
      ensures ok ==> Step(old(View()), b).value == if scalar then View().(mode := InAtom) else View()
      ensures ok && scalar ==> View().mode.Plain?
    {
      if inString {
        ok := StringByte(b);
        scalar := false;
      } else {
        ok := PlainByte(b);
        scalar := StartsAtom(b);
      }
    }
  }

  /** The source's `scan_claude_hook_json_bounds`: true for `Ok`. */
  method ScanBounds(body: seq<byte>) returns (ok: bool)
    ensures ok <==> Accepts(body)
  {
    var v := new Locals();
    var index := 0;
    assert body[0..] == body;
    assert Accepts(body) <==> EndsWell(v.View(), body, 0);
    while index < |body|
      invariant index <= |body| && v.Valid() && (!v.inString ==> !v.escaped)
      invariant fresh(v) && fresh(v.objectEntries) && fresh(v.arrayElements) && fresh(v.expectingKey)
      invariant fresh(v.inArray) && fresh(v.awaitingValue)
      invariant Accepts(body) <==> EndsWell(v.View(), body, index)
    {
      var b := body[index];
      EndsWellNext(v.View(), body, index);
      var continues, scalar := v.ScanByte(b);
      if !continues {
        return false;
      }
      if scalar {
        index := SkipAtom(body, index, v.View().(mode := InAtom));
      }
      index := index + 1;
    }
    assert body[index..] == [];
    ok := !v.inString && v.depth == 0;
  }

  /** The inner loop: the last byte of the scalar that starts at `start`. */
  method SkipAtom(body: seq<byte>, start: nat, ghost s: Scan) returns (index: nat)
    requires start < |body| && s.mode.InAtom?
    ensures start <= index < |body|
    ensures index + 1 < |body| ==> EndsAtom(body[index + 1])
    ensures EndsWell(s, body, start + 1) <==> EndsWell(s.(mode := Plain), body, index + 1)
  {
    index := start;
    while index + 1 < |body|
      invariant start <= index < |body|
      invariant EndsWell(s, body, start + 1) <==> EndsWell(s, body, index + 1)
    {
      var next := body[index + 1];
      if next == COMMA || next == CLOSE_OBJECT || next == CLOSE_ARRAY || IsSpace(next) || next == FF {
        LeaveAtom(s, body, index + 1);
        return;
      }
      EndsWellNext(s, body, index + 1);
      index := index + 1;
    }
    LeaveAtom(s, body, index + 1);
  }
}
