/**
 * What the hook body scanner makes of any body, legal JSON or not: an accepted body is a sequence
 * of lexical pieces whose brackets balance, and such a sequence is accepted when it is small.
 */
module JsonPieces {
  import opened Common
  import opened JsonGrammar
  import opened JsonScanner
  import opened JsonRefusals

  datatype Piece =
    | Space(b: byte)
    | Comma
    | Colon
    | Open(b: byte)
    | Close(b: byte)
    | Text(inside: seq<byte>)
    | Scalar(text: seq<byte>)

  // ----- Legal sequences of pieces

  /** The bytes that end a scalar. */
  predicate Terminates(b: byte) {
    b == 0x2C || b == 0x7D || b == 0x5D || b == 0x20 || b == 0x0A || b == 0x0D || b == 0x09 || b == 0x0C
  }

  predicate LegalPiece(p: Piece) {
    match p
    case Space(b) => b == 0x20 || b == 0x0A || b == 0x0D || b == 0x09
    case Comma => true
    case Colon => true
    case Open(b) => b == 0x7B || b == 0x5B
    case Close(b) => b == 0x7D || b == 0x5D
    case Text(inside) => InsideString(false, inside) && !Pending(false, inside) && |inside| < MAX_STRING_BYTES
    case Scalar(text) =>
      && text != []
      && (text[0] == 0x74 || text[0] == 0x66 || text[0] == 0x6E || text[0] == 0x2D || 0x30 <= text[0] <= 0x39)
      && forall b :: b in text[1..] ==> !Terminates(b)
  }

  /** A scalar runs on until a byte that ends it. */
  predicate Ends(p: Piece, next: Piece) {
    p.Scalar? ==> next.Space? || next.Comma? || next.Close?
  }

  predicate Legal(ps: seq<Piece>) {
    ps == [] || (LegalPiece(ps[0]) && (|ps| > 1 ==> Ends(ps[0], ps[1])) && Legal(ps[1..]))
  }

  /** The brackets balance from this depth on, and never nest too deep; their kinds are not compared. */
  predicate Balanced(ps: seq<Piece>, depth: nat) {
    if ps == [] then depth == 0
    else match ps[0]
      case Open(_) => depth < MAX_NESTING && Balanced(ps[1..], depth + 1)
      case Close(_) => depth > 0 && Balanced(ps[1..], depth - 1)
      case _ => Balanced(ps[1..], depth)
  }

  function Node(p: Piece): nat { if p.Open? || p.Text? || p.Scalar? then 1 else 0 }

  function Nodes(ps: seq<Piece>): nat {
    if ps == [] then 0 else Node(ps[0]) + Nodes(ps[1..])
  }

  function PrintPiece(p: Piece): seq<byte> {
    match p
    case Space(b) => [b]
    case Comma => [COMMA]
    case Colon => [COLON]
    case Open(b) => [b]
    case Close(b) => [b]
    case Text(inside) => [QUOTE] + (inside + [QUOTE])
    case Scalar(text) => text
  }

  function PrintPieces(ps: seq<Piece>): seq<byte> {
    if ps == [] then [] else PrintPiece(ps[0]) + PrintPieces(ps[1..])
  }

  /** The body is made of legal pieces, balanced, of which at most `nodes` start a value or a key. */
  ghost predicate MadeOf(body: seq<byte>, nodes: nat) {
    exists ps :: Legal(ps) && Balanced(ps, 0) && Nodes(ps) <= nodes && body == PrintPieces(ps)
  }

  // ----- Accepted bodies

  lemma {:induction false} PrependPiece(p: Piece, ps: seq<Piece>, depth: nat) returns (more: seq<Piece>)
    requires LegalPiece(p) && Legal(ps) && (ps != [] ==> Ends(p, ps[0]))
    requires match p
             case Open(_) => depth < MAX_NESTING && Balanced(ps, depth + 1)
             case Close(_) => depth > 0 && Balanced(ps, depth - 1)
             case _ => Balanced(ps, depth)
    ensures more == [p] + ps && Legal(more) && PrintPieces(more) == PrintPiece(p) + PrintPieces(ps)
    ensures Nodes(more) == Node(p) + Nodes(ps) && Balanced(more, depth)
  {
    more := [p] + ps;
    assert more[1..] == ps;
  }

  /** The bytes of a string up to its closing quote. */
  lemma {:induction false} ParseText(s: Scan, bytes: seq<byte>) returns (k: nat, t: Scan)
    requires s.mode.InString? && Finished(Run(s, bytes))
    ensures k < |bytes| && bytes[k] == QUOTE && InsideString(s.mode.escaped, bytes[..k]) && !Pending(s.mode.escaped, bytes[..k])
    ensures s.mode.bytes + k < MAX_STRING_BYTES
    ensures t.mode.Plain? && |t.frames| == |s.frames| && t.nodes == s.nodes && Run(s, bytes) == Run(t, bytes[k + 1..])
    decreases |bytes|
  {
    var next := Step(s, bytes[0]).value;
    if next.mode.Plain? {
      k, t := 0, next;
    } else {
      k, t := ParseText(next, bytes[1..]);
      assert bytes[1..][..k] == bytes[..k + 1][1..];
      assert bytes[1..][k + 1..] == bytes[k + 2..];
      k := k + 1;
    }
  }

  /** The bytes of a scalar up to the one that ends it. */
  lemma {:induction false} ParseScalar(s: Scan, bytes: seq<byte>) returns (k: nat)
    requires s.mode.InAtom?
    ensures k <= |bytes| && (forall b :: b in bytes[..k] ==> !Terminates(b)) && (k < |bytes| ==> Terminates(bytes[k]))
    ensures Run(s, bytes) == if k < |bytes| then Run(s.(mode := Plain), bytes[k..]) else Some(s)
    decreases |bytes|
  {
    if bytes == [] {
      k := 0;
    } else if Terminates(bytes[0]) {
      k := 0;
      assert bytes[0..] == bytes;
    } else {
      k := ParseScalar(s, bytes[1..]);
      assert bytes[..k + 1] == [bytes[0]] + bytes[1..][..k];
      assert bytes[1..][k..] == bytes[k + 1..];
      k := k + 1;
    }
  }

  /** The first byte of a value or a key opens a node. */
  lemma {:induction false} Enters(s: Scan, bytes: seq<byte>) returns (t: Scan)
    requires s.mode.Plain? && bytes != [] && (bytes[0] == QUOTE || StartsAtom(bytes[0])) && Finished(Run(s, bytes))
    ensures t.mode == (if bytes[0] == QUOTE then InString(false, 0) else InAtom)
    ensures |t.frames| == |s.frames| && t.nodes == s.nodes + 1 <= MAX_TOTAL_NODES && Run(s, bytes) == Run(t, bytes[1..])
  {
    t := Step(s, bytes[0]).value;
  }

  lemma {:induction false} ParseQuoted(s: Scan, bytes: seq<byte>) returns (ps: seq<Piece>)
    requires s.mode.Plain? && bytes != [] && bytes[0] == QUOTE && Finished(Run(s, bytes))
    ensures Legal(ps) && bytes == PrintPieces(ps) && Balanced(ps, |s.frames|) && s.nodes + Nodes(ps) <= MAX_TOTAL_NODES
    decreases |bytes|, 0
  {
    var next := Enters(s, bytes);
    var tail := bytes[1..];
    var k, t := ParseText(next, tail);
    ps := Parse(t, tail[k + 1..]);
    assert bytes == [QUOTE] + (tail[..k] + [QUOTE]) + tail[k + 1..];
    ps := PrependPiece(Piece.Text(tail[..k]), ps, |s.frames|);
  }

  lemma {:induction false} ParseBare(s: Scan, bytes: seq<byte>) returns (ps: seq<Piece>)
    requires s.mode.Plain? && bytes != [] && StartsAtom(bytes[0]) && Finished(Run(s, bytes))
    ensures Legal(ps) && bytes == PrintPieces(ps) && Balanced(ps, |s.frames|) && s.nodes + Nodes(ps) <= MAX_TOTAL_NODES
    decreases |bytes|, 0
  {
    var next := Enters(s, bytes);
    var tail := bytes[1..];
    var k := ParseScalar(next, tail);
    ps := [];
    if k < |tail| {
      ps := Parse(next.(mode := Plain), tail[k..]);
      StartsWithTerminator(ps, tail[k..]);
    }
    var p := ScalarPiece(bytes, k);
    ps := PrependPiece(p, ps, |s.frames|);
  }

  lemma ScalarPiece(bytes: seq<byte>, k: nat) returns (p: Piece)
    requires bytes != [] && StartsAtom(bytes[0]) && k <= |bytes[1..]| && forall b :: b in bytes[1..][..k] ==> !Terminates(b)
    ensures p.Scalar? && LegalPiece(p) && bytes == PrintPiece(p) + bytes[1..][k..]
  {
    var text := [bytes[0]] + bytes[1..][..k];
    assert text[1..] == bytes[1..][..k];
    p := Scalar(text);
  }

  lemma StartsWithTerminator(ps: seq<Piece>, bytes: seq<byte>)
    requires Legal(ps) && bytes == PrintPieces(ps) && bytes != [] && Terminates(bytes[0])
    ensures ps != [] && (ps[0].Space? || ps[0].Comma? || ps[0].Close?)
  {
    assert PrintPiece(ps[0]) != [] && PrintPieces(ps)[0] == PrintPiece(ps[0])[0];
  }

  lemma {:induction false} Parse(s: Scan, bytes: seq<byte>) returns (ps: seq<Piece>)
    requires s.mode.Plain? && Finished(Run(s, bytes)) && s.nodes <= MAX_TOTAL_NODES
    ensures Legal(ps) && bytes == PrintPieces(ps) && Balanced(ps, |s.frames|) && s.nodes + Nodes(ps) <= MAX_TOTAL_NODES
    decreases |bytes|, 1
  {
    if bytes == [] {
      ps := [];
    } else if bytes[0] == QUOTE {
      ps := ParseQuoted(s, bytes);
    } else if StartsAtom(bytes[0]) {
      ps := ParseBare(s, bytes);
    } else {
      var b, next := bytes[0], Step(s, bytes[0]).value;
      assert bytes == [b] + bytes[1..];
      ps := Parse(next, bytes[1..]);
      ps := PrependPiece(if IsSpace(b) then Space(b) else if b == COMMA then Comma else if b == COLON then Colon
                         else if b == OPEN_OBJECT || b == OPEN_ARRAY then Open(b) else Close(b), ps, |s.frames|);
    }
  }

  /** Every accepted body is made of legal pieces, balanced, with at most 256 values and keys. */
  lemma {:induction false} AcceptedIsBalanced(body: seq<byte>)
    requires Accepts(body)
    ensures MadeOf(body, MAX_TOTAL_NODES)
  {
    var ps := Parse(INITIAL, body);
  }

  // ----- Small balanced bodies

  /** No container has counted more than was opened in all. */
  ghost predicate Counted(s: Scan) { forall f :: f in s.frames ==> f.count <= s.nodes }

  lemma {:induction false} RunStringInside(s: Scan, inside: seq<byte>)
    requires s.mode.InString? && InsideString(s.mode.escaped, inside) && s.mode.bytes + |inside| <= MAX_STRING_BYTES
    ensures Run(s, inside) == Some(s.(mode := InString(Pending(s.mode.escaped, inside), s.mode.bytes + |inside|)))
    decreases |inside|
  {
    if inside != [] {
      RunStringInside(Step(s, inside[0]).value, inside[1..]);
    }
  }

  const FEW: nat := 32

  lemma OpenNodeSmall(s: Scan)
    requires Counted(s) && s.nodes < FEW
    ensures OpenNode(s).Some?
    ensures var t := OpenNode(s).value;
            && t.mode == s.mode && |t.frames| == |s.frames| && t.nodes == s.nodes + 1 && Counted(t)
            && (forall f :: f in t.frames && !f.isArray ==> f.count < t.nodes)
  {
    if s.frames != [] {
      assert Top(s.frames) in s.frames;
      assert s.frames == s.frames[..|s.frames| - 1] + [Top(s.frames)];
    }
  }

  lemma NoteKeySmall(s: Scan)
    requires Counted(s) && s.nodes <= FEW && forall f :: f in s.frames && !f.isArray ==> f.count < s.nodes
    ensures NoteKey(s.frames).Some?
    ensures |NoteKey(s.frames).value| == |s.frames| && Counted(s.(frames := NoteKey(s.frames).value))
  {
    if s.frames != [] {
      assert Top(s.frames) in s.frames;
      assert s.frames == s.frames[..|s.frames| - 1] + [Top(s.frames)];
    }
  }

  lemma {:induction false} RunQuoted(s: Scan, inside: seq<byte>) returns (t: Scan)
    requires s.mode.Plain? && Counted(s) && s.nodes < FEW && LegalPiece(Piece.Text(inside))
    ensures Run(s, [QUOTE] + (inside + [QUOTE])) == Some(t)
    ensures t.mode.Plain? && |t.frames| == |s.frames| && t.nodes == s.nodes + 1 && Counted(t)
  {
    OpenNodeSmall(s);
    var open := OpenNode(s).value.(mode := InString(false, 0));
    RunHead(s, QUOTE, inside + [QUOTE]);
    RunConcat(open, inside, [QUOTE]);
    RunStringInside(open, inside);
    var end := open.(mode := InString(false, |inside|));
    NoteKeySmall(end);
    RunOne(end, QUOTE);
    t := Step(end, QUOTE).value;
  }

  lemma {:induction false} RunScalar(s: Scan, text: seq<byte>) returns (t: Scan)
    requires s.mode.Plain? && Counted(s) && s.nodes < FEW && LegalPiece(Scalar(text))
    ensures Run(s, text) == Some(t)
    ensures t.mode.InAtom? && |t.frames| == |s.frames| && t.nodes == s.nodes + 1 && Counted(t)
  {
    OpenNodeSmall(s);
    t := OpenNode(s).value.(mode := InAtom);
    assert text == [text[0]] + text[1..];
    RunHead(s, text[0], text[1..]);
    RunInsideAtom(t, text[1..]);
  }

  /** Any other piece is one byte. */
  lemma {:induction false} RunByte(s: Scan, p: Piece, b: byte) returns (t: Scan)
    requires s.mode.Plain? && Counted(s) && LegalPiece(p) && !p.Text? && !p.Scalar? && PrintPiece(p) == [b]
    requires (p.Open? ==> |s.frames| < MAX_NESTING && s.nodes < FEW) && (p.Close? ==> s.frames != [])
    ensures Step(s, b) == Some(t) && t.mode.Plain? && t.nodes == s.nodes + Node(p) && Counted(t)
    ensures |t.frames| == if p.Open? then |s.frames| + 1 else if p.Close? then |s.frames| - 1 else |s.frames|
  {
    if p.Open? {
      OpenNodeSmall(s);
    } else if p.Comma? && s.frames != [] {
      assert Top(s.frames) in s.frames;
    }
    t := Step(s, b).value;
  }

  /** From a scalar only its end leads on, and then as from plain text. */
  lemma {:induction false} LeaveScalar(s: Scan, p: Piece, rest: seq<byte>)
    requires s.mode.InAtom? && LegalPiece(p) && (p.Space? || p.Comma? || p.Close?)
    ensures Run(s, PrintPiece(p) + rest) == Run(s.(mode := Plain), PrintPiece(p) + rest)
  {
    var b := PrintPiece(p)[0];
    assert PrintPiece(p) == [b];
    RunHead(s, b, rest);
    RunHead(s.(mode := Plain), b, rest);
  }

  lemma {:induction false} RunPiece(s: Scan, p: Piece, depth: nat) returns (t: Scan)
    requires s.mode.Plain? && Counted(s) && LegalPiece(p) && s.nodes + Node(p) <= FEW
    requires |s.frames| == depth && (p.Open? ==> depth < MAX_NESTING) && (p.Close? ==> depth > 0)
    ensures Run(s, PrintPiece(p)) == Some(t) && t.nodes == s.nodes + Node(p) && Counted(t)
    ensures |t.frames| == if p.Open? then depth + 1 else if p.Close? then depth - 1 else depth
    ensures t.mode == if p.Scalar? then InAtom else Plain
  {
    match p {
      case Text(inside) => t := RunQuoted(s, inside);
      case Scalar(text) => t := RunScalar(s, text);
      case _ =>
        var b := PrintPiece(p)[0];
        assert PrintPiece(p) == [b];
        t := RunByte(s, p, b);
        RunOne(s, b);
    }
  }

  lemma {:induction false} RunPieces(s: Scan, ps: seq<Piece>)
    requires s.mode.Plain? && Counted(s) && Legal(ps) && Balanced(ps, |s.frames|) && s.nodes + Nodes(ps) <= FEW
    ensures Finished(Run(s, PrintPieces(ps)))
    decreases |ps|
  {
    if ps != [] {
      var rest := PrintPieces(ps[1..]);
      var t := RunPiece(s, ps[0], |s.frames|);
      RunConcat(s, PrintPiece(ps[0]), rest);
      if t.mode.InAtom? && |ps| > 1 {
        LeaveScalar(t, ps[1], PrintPieces(ps[1..][1..]));
      }
      RunPieces(t.(mode := Plain), ps[1..]);
    }
  }

  /** A body of legal pieces, balanced, with at most 32 values and keys is accepted. */
  lemma {:induction false} BalancedIsAccepted(body: seq<byte>)
    requires MadeOf(body, FEW)
    ensures Accepts(body)
  {
    var ps :| Legal(ps) && Balanced(ps, 0) && Nodes(ps) <= FEW && body == PrintPieces(ps);
    RunPieces(INITIAL, ps);
  }
}
