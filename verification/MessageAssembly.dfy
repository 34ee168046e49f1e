/**
 * The reassembly of one streamed message: numbered chunks arrive in any order and
 * possibly more than once, under a limit on their number and on their total bytes.
 */
module MessageAssembly {
  import opened Common
  import opened TextBounds

  datatype Limits = Limits(maxBatches: nat, maxBytes: nat)

  datatype Batch = Batch(delta: string, final: bool)

  datatype Record = Record(
    batches: map<nat, Batch>,
    next: nat,
    text: string,
    finalized: bool,
    truncated: bool,
    bytes: nat)

  /** What a chunk publishes: nothing, or the text so far, with the marker when it was cut, bounded. */
  datatype Outcome = Ignored | Message(text: string, streaming: bool)

  const FRESH: Record := Record(map[], 0, "", false, false, 0)

  // ----- The operation on values

  ghost function Ahead(r: Record): set<nat> {
    set i | i in r.batches && i >= r.next
  }

  /** Appends the next buffered chunk. */
  function DrainOne(r: Record): Record
    requires r.next in r.batches
  {
    var b := r.batches[r.next];
    r.(batches := r.batches[r.next := Batch("", b.final)], text := r.text + b.delta, next := r.next + 1,
       finalized := r.finalized || b.final)
  }

  lemma DrainOneShrinks(r: Record)
    requires r.next in r.batches
    ensures |Ahead(DrainOne(r))| < |Ahead(r)|
  {
    assert Ahead(DrainOne(r)) == Ahead(r) - {r.next};
  }

  /** Appends buffered chunks until one is missing or the final one was appended. */
  function Drain(r: Record): Record
    decreases |Ahead(r)|
  {
    if r.next !in r.batches then r
    else
      DrainOneShrinks(r);
      var d := DrainOne(r);
      if r.batches[r.next].final then d else Drain(d)
  }

  function Buffer(limits: Limits, r: Record, index: nat, delta: string, final: bool): Record {
    var remaining := if limits.maxBytes > r.bytes then limits.maxBytes - r.bytes else 0;
    var kept := LongestPrefix(delta, remaining);
    r.(batches := r.batches[index := Batch(kept, final)], bytes := r.bytes + Utf8Bytes(kept),
       truncated := r.truncated || Utf8Bytes(kept) < Utf8Bytes(delta))
  }

  predicate Refuses(limits: Limits, r: Record, index: nat) {
    r.finalized || index in r.batches || |r.batches| >= limits.maxBatches
  }

  function Accept(limits: Limits, r: Record, index: nat, delta: string, final: bool): Record {
    if Refuses(limits, r, index) then r else Drain(Buffer(limits, r, index, delta, final))
  }

  function Publish(before: Record, after: Record): Outcome {
    if after.next == before.next || after.text == "" then Ignored
    else Message(Bounded(if after.truncated then after.text + MARKER else after.text), !after.finalized)
  }

  // ----- The invariant, for arbitrary chunks

  /** The bytes of the deltas that are still buffered, over indices below `n`. */
  function Buffered(batches: map<nat, Batch>, n: nat): nat {
    if n == 0 then 0
    else Buffered(batches, n - 1) + (if n - 1 in batches then Utf8Bytes(batches[n - 1].delta) else 0)
  }

  /** One more than the largest index of a chunk. */
  const INDICES: nat := U64_MAX + 1

  ghost predicate Indexed(r: Record) {
    && (forall i :: i in r.batches ==> i < INDICES)
    && (forall i :: 0 <= i < r.next ==> i in r.batches && r.batches[i].delta == "")
  }

  /** The accumulated bytes are the text and the buffered deltas, and stay within the limit. */
  ghost predicate Counted(limits: Limits, r: Record) {
    r.bytes == Utf8Bytes(r.text) + Buffered(r.batches, INDICES) && r.bytes <= limits.maxBytes
  }

  ghost predicate Accounted(limits: Limits, r: Record) {
    Indexed(r) && Counted(limits, r) && |r.batches| <= limits.maxBatches
  }

  lemma {:induction false} BufferedUpdate(batches: map<nat, Batch>, index: nat, b: Batch, n: nat)
    ensures Buffered(batches[index := b], n) ==
            Buffered(batches, n)
            + (if index < n then Utf8Bytes(b.delta) - (if index in batches then Utf8Bytes(batches[index].delta) else 0) else 0)
  {
    if n > 0 {
      BufferedUpdate(batches, index, b, n - 1);
    }
  }

  lemma BufferValid(limits: Limits, r: Record, index: nat, delta: string, final: bool)
    requires Accounted(limits, r) && index < INDICES && !Refuses(limits, r, index)
    ensures Accounted(limits, Buffer(limits, r, index, delta, final))
  {
    var remaining := if limits.maxBytes > r.bytes then limits.maxBytes - r.bytes else 0;
    var kept := LongestPrefix(delta, remaining);
    LongestPrefixIsLongest(delta, remaining);
    BufferedUpdate(r.batches, index, Batch(kept, final), INDICES);
  }

  lemma DrainOneValid(limits: Limits, r: Record)
    requires Accounted(limits, r) && r.next in r.batches
    ensures Accounted(limits, DrainOne(r))
  {
    var b := r.batches[r.next];
    BufferedUpdate(r.batches, r.next, Batch("", b.final), INDICES);
    Utf8Concat(r.text, b.delta);
    assert DrainOne(r).batches.Keys == r.batches.Keys;
  }

  lemma {:induction false} DrainValid(limits: Limits, r: Record)
    requires Accounted(limits, r)
    ensures var d := Drain(r);
            && Accounted(limits, d) && r.text <= d.text && r.next <= d.next
            && d.batches.Keys == r.batches.Keys
            && (!d.finalized ==> d.next !in d.batches)
            && (r.finalized ==> d.finalized) && d.truncated == r.truncated
    decreases |Ahead(r)|
  {
    if r.next in r.batches {
      DrainOneShrinks(r);
      DrainOneValid(limits, r);
      assert DrainOne(r).batches.Keys == r.batches.Keys;
      if !r.batches[r.next].final {
        DrainValid(limits, DrainOne(r));
      }
    }
  }

  /**
   * Whatever chunk arrives: the bytes are accounted for and bounded, the number of batches is
   * bounded, and the text only grows at its end.
   */
  lemma {:induction false} AcceptKeepsAccount(limits: Limits, r: Record, index: nat, delta: string, final: bool)
    requires Accounted(limits, r) && index < INDICES
    ensures var a := Accept(limits, r, index, delta, final);
            && Accounted(limits, a) && r.text <= a.text && (r.finalized ==> a == r) && (r.truncated ==> a.truncated)
            && (a.text != r.text ==> a.next > r.next)
  {
    if !Refuses(limits, r, index) {
      BufferValid(limits, r, index, delta, final);
      DrainValid(limits, Buffer(limits, r, index, delta, final));
      NoProgressNoText(Buffer(limits, r, index, delta, final));
    }
  }

  lemma {:induction false} NoProgressNoText(r: Record)
    ensures Drain(r).next >= r.next && (Drain(r).next == r.next ==> Drain(r) == r)
    decreases |Ahead(r)|
  {
    if r.next in r.batches && !r.batches[r.next].final {
      DrainOneShrinks(r);
      NoProgressNoText(DrainOne(r));
    }
  }

  // ----- Runs over arbitrary chunks

  datatype Chunk = Chunk(index: nat, delta: string, final: bool)

  function Step(limits: Limits, r: Record, c: Chunk): Record {
    Accept(limits, r, c.index, c.delta, c.final)
  }

  ghost predicate IsRun(limits: Limits, states: seq<Record>, chunks: seq<Chunk>) {
    && |states| == |chunks| + 1 && states[0] == FRESH
    && (forall i :: 0 <= i < |chunks| ==> chunks[i].index < INDICES)
    && forall i :: 0 <= i < |chunks| ==> states[i + 1] == Step(limits, states[i], chunks[i])
  }

  lemma {:induction false} NothingBuffered(n: nat)
    ensures Buffered(map[], n) == 0
  {
    if n > 0 {
      NothingBuffered(n - 1);
    }
  }

  lemma {:induction false} RunValid(limits: Limits, states: seq<Record>, chunks: seq<Chunk>, i: nat)
    requires IsRun(limits, states, chunks) && i < |states|
    ensures Accounted(limits, states[i])
  {
    if i == 0 {
      NothingBuffered(INDICES);
    } else {
      RunValid(limits, states, chunks, i - 1);
      var c := chunks[i - 1];
      AcceptKeepsAccount(limits, states[i - 1], c.index, c.delta, c.final);
    }
  }

  /** Each text is a prefix of every later one, and a finalized message never changes. */
  lemma {:induction false} TextOnlyGrows(limits: Limits, states: seq<Record>, chunks: seq<Chunk>, i: nat, j: nat)
    requires IsRun(limits, states, chunks) && i <= j < |states|
    ensures states[i].text <= states[j].text
    ensures states[i].finalized ==> states[j] == states[i]
    decreases j
  {
    if i < j {
      TextOnlyGrows(limits, states, chunks, i, j - 1);
      RunValid(limits, states, chunks, j - 1);
      var c := chunks[j - 1];
      AcceptKeepsAccount(limits, states[j - 1], c.index, c.delta, c.final);
    }
  }

  /** A message is published as complete at most once, and nothing is published after that. */
  lemma {:induction false} PublishedCompleteOnce(limits: Limits, states: seq<Record>, chunks: seq<Chunk>, i: nat, j: nat)
    requires IsRun(limits, states, chunks) && i < j < |chunks|
    requires Publish(states[i], states[i + 1]).Message? && !Publish(states[i], states[i + 1]).streaming
    ensures Publish(states[j], states[j + 1]) == Ignored
  {
    FinalStays(limits, states, chunks, i + 1, j);
    FinalStays(limits, states, chunks, i + 1, j + 1);
  }

  lemma {:induction false} FinalStays(limits: Limits, states: seq<Record>, chunks: seq<Chunk>, i: nat, j: nat)
    requires IsRun(limits, states, chunks) && i <= j < |states| && states[i].finalized
    ensures states[j] == states[i]
  {
    TextOnlyGrows(limits, states, chunks, i, j);
  }

  // ----- One message cut into chunks: the order of arrival does not matter

  /** The chunks of one message: the last one is final. */
  function ChunkOf(deltas: seq<string>, i: nat): Chunk
    requires i < |deltas|
  {
    Chunk(i, deltas[i], i == |deltas| - 1)
  }

  function Concat(deltas: seq<string>, n: nat): string
    requires n <= |deltas|
  {
    if n == 0 then "" else Concat(deltas, n - 1) + deltas[n - 1]
  }

  /** The bytes of the chunks in `arrived` with indices below `n`. */
  function BytesOf(deltas: seq<string>, arrived: set<nat>, n: nat): nat
    requires n <= |deltas|
  {
    if n == 0 then 0
    else BytesOf(deltas, arrived, n - 1) + (if n - 1 in arrived then Utf8Bytes(deltas[n - 1]) else 0)
  }

  function TotalBytes(deltas: seq<string>, n: nat): nat
    requires n <= |deltas|
  {
    if n == 0 then 0 else TotalBytes(deltas, n - 1) + Utf8Bytes(deltas[n - 1])
  }

  /** The first index from `i` on that has not arrived. */
  function FirstMissing(arrived: set<nat>, i: nat, n: nat): (m: nat)
    requires i <= n
    ensures i <= m <= n && (m < n ==> m !in arrived) && forall k :: i <= k < m ==> k in arrived
    decreases n - i
  {
    if i == n || i !in arrived then i else FirstMissing(arrived, i + 1, n)
  }

  /** The record when exactly `arrived` have arrived and the first `m` of them were appended. */
  function Partial(deltas: seq<string>, arrived: set<nat>, m: nat): Record
    requires m <= |deltas|
  {
    Record(map i | i in arrived && i < |deltas| :: Batch(if i < m then "" else deltas[i], i == |deltas| - 1),
           m, Concat(deltas, m), m == |deltas|, false, BytesOf(deltas, arrived, |deltas|))
  }

  /** The record that a set of arrivals leads to, in whatever order they came. */
  function RecordFor(deltas: seq<string>, arrived: set<nat>): Record {
    Partial(deltas, arrived, FirstMissing(arrived, 0, |deltas|))
  }

  lemma DrainOnePartial(deltas: seq<string>, arrived: set<nat>, m: nat)
    requires m < |deltas| && m in arrived
    ensures m in Partial(deltas, arrived, m).batches
    ensures DrainOne(Partial(deltas, arrived, m)) == Partial(deltas, arrived, m + 1)
  {
    var p, t := Partial(deltas, arrived, m), Partial(deltas, arrived, m + 1);
    assert p.batches[m] == Batch(deltas[m], m == |deltas| - 1);
    assert DrainOne(p).batches == t.batches;
  }

  lemma {:induction false} DrainPartial(deltas: seq<string>, arrived: set<nat>, m: nat)
    requires m < |deltas|
    ensures Drain(Partial(deltas, arrived, m)) == Partial(deltas, arrived, FirstMissing(arrived, m, |deltas|))
    decreases |deltas| - m
  {
    if m in arrived {
      DrainOnePartial(deltas, arrived, m);
      if m + 1 < |deltas| {
        DrainPartial(deltas, arrived, m + 1);
      }
    }
  }

  lemma {:induction false} BytesMore(deltas: seq<string>, arrived: set<nat>, i: nat, n: nat)
    requires n <= |deltas| && i !in arrived && i < |deltas|
    ensures BytesOf(deltas, arrived + {i}, n) == BytesOf(deltas, arrived, n) + (if i < n then Utf8Bytes(deltas[i]) else 0)
  {
    if n > 0 {
      BytesMore(deltas, arrived, i, n - 1);
    }
  }

  lemma {:induction false} BytesWithinTotal(deltas: seq<string>, arrived: set<nat>, n: nat)
    requires n <= |deltas|
    ensures BytesOf(deltas, arrived, n) <= TotalBytes(deltas, n)
  {
    if n > 0 {
      BytesWithinTotal(deltas, arrived, n - 1);
    }
  }

  lemma {:induction false} FirstMissingFrom(arrived: set<nat>, m: nat, n: nat)
    requires m <= n && forall k :: 0 <= k < m ==> k in arrived
    ensures FirstMissing(arrived, 0, n) == FirstMissing(arrived, m, n)
  {
    var a, b := FirstMissing(arrived, 0, n), FirstMissing(arrived, m, n);
    assert a < b ==> a in arrived;
    assert b < a ==> b in arrived;
  }

  ghost predicate Legitimate(deltas: seq<string>, arrived: set<nat>) {
    forall i :: i in arrived ==> i < |deltas|
  }

  lemma {:induction false} SizeWithin(arrived: set<nat>, n: nat)
    requires forall i :: i in arrived ==> i < n
    ensures |arrived| <= n
    decreases n
  {
    if n == 0 {
      assert arrived == {};
    } else {
      SizeWithin(arrived - {n - 1}, n - 1);
    }
  }

  lemma PartialBatches(deltas: seq<string>, arrived: set<nat>, m: nat, i: nat)
    requires m <= i < |deltas|
    ensures Partial(deltas, arrived, m).batches[i := Batch(deltas[i], i == |deltas| - 1)] ==
            Partial(deltas, arrived + {i}, m).batches
  {
  }

  lemma BufferPartial(limits: Limits, deltas: seq<string>, arrived: set<nat>, m: nat, i: nat)
    requires m <= i < |deltas| && i !in arrived
    requires TotalBytes(deltas, |deltas|) <= limits.maxBytes
    ensures Buffer(limits, Partial(deltas, arrived, m), i, deltas[i], i == |deltas| - 1) ==
            Partial(deltas, arrived + {i}, m)
  {
    BytesMore(deltas, arrived, i, |deltas|);
    BytesWithinTotal(deltas, arrived + {i}, |deltas|);
    PartialBatches(deltas, arrived, m, i);
    BufferWhole(limits, Partial(deltas, arrived, m), i, deltas[i], i == |deltas| - 1);
  }

  /** A chunk that fits is buffered whole. */
  lemma {:induction false} BufferWhole(limits: Limits, r: Record, index: nat, delta: string, final: bool)
    requires r.bytes + Utf8Bytes(delta) <= limits.maxBytes
    ensures Buffer(limits, r, index, delta, final) ==
            r.(batches := r.batches[index := Batch(delta, final)], bytes := r.bytes + Utf8Bytes(delta))
  {
    var remaining := if limits.maxBytes > r.bytes then limits.maxBytes - r.bytes else 0;
    WholeFits(delta, remaining);
    assert LongestPrefix(delta, remaining) == delta;
  }

  /** Within the limits one arrival adds its index to the set and does nothing else. */
  lemma ArrivalExtends(limits: Limits, deltas: seq<string>, arrived: set<nat>, i: nat)
    requires Legitimate(deltas, arrived) && i < |deltas| <= limits.maxBatches
    requires TotalBytes(deltas, |deltas|) <= limits.maxBytes
    ensures Step(limits, RecordFor(deltas, arrived), ChunkOf(deltas, i)) == RecordFor(deltas, arrived + {i})
  {
    var m := FirstMissing(arrived, 0, |deltas|);
    assert Partial(deltas, arrived, m).batches.Keys == arrived;
    if i in arrived {
      assert arrived + {i} == arrived;
    } else {
      RoomForOne(arrived, i, |deltas|);
      BufferPartial(limits, deltas, arrived, m, i);
      DrainPartial(deltas, arrived + {i}, m);
      FirstMissingFrom(arrived + {i}, m, |deltas|);
    }
  }

  lemma RoomForOne(arrived: set<nat>, i: nat, n: nat)
    requires (forall k :: k in arrived ==> k < n) && i < n && i !in arrived
    ensures |arrived| < n && FirstMissing(arrived, 0, n) <= i
  {
    SizeWithin(arrived + {i}, n);
  }

  predicate AllOf(deltas: seq<string>, arrivals: seq<nat>) {
    forall j :: 0 <= j < |arrivals| ==> arrivals[j] < |deltas|
  }

  /** The record after a list of arrivals. */
  function After(limits: Limits, deltas: seq<string>, arrivals: seq<nat>): Record
    requires AllOf(deltas, arrivals)
  {
    if arrivals == [] then FRESH
    else
      var n := |arrivals| - 1;
      Step(limits, After(limits, deltas, arrivals[..n]), ChunkOf(deltas, arrivals[n]))
  }

  lemma {:induction false} NoBytes(deltas: seq<string>, n: nat)
    requires n <= |deltas|
    ensures BytesOf(deltas, {}, n) == 0
  {
    if n > 0 {
      NoBytes(deltas, n - 1);
    }
  }

  /**
   * The record depends only on which chunks arrived: neither their order nor any duplicates
   * leave a trace, as long as the message is within the limits.
   */
  lemma {:induction false} OrderDoesNotMatter(limits: Limits, deltas: seq<string>, arrivals: seq<nat>)
    requires 0 < |deltas| <= limits.maxBatches && TotalBytes(deltas, |deltas|) <= limits.maxBytes
    requires AllOf(deltas, arrivals)
    ensures After(limits, deltas, arrivals) == RecordFor(deltas, Elements(arrivals))
    decreases |arrivals|
  {
    if arrivals == [] {
      NoBytes(deltas, |deltas|);
      assert RecordFor(deltas, {}) == FRESH;
      assert Elements(arrivals) == {};
    } else {
      var n := |arrivals| - 1;
      assert arrivals == arrivals[..n] + [arrivals[n]];
      assert Elements(arrivals) == Elements(arrivals[..n]) + {arrivals[n]};
      OrderDoesNotMatter(limits, deltas, arrivals[..n]);
      ArrivalExtends(limits, deltas, Elements(arrivals[..n]), arrivals[n]);
    }
  }

  /** Once all chunks have arrived the text is their concatenation; before that it is not complete. */
  lemma {:induction false} CompleteText(limits: Limits, deltas: seq<string>, arrivals: seq<nat>)
    requires 0 < |deltas| <= limits.maxBatches && TotalBytes(deltas, |deltas|) <= limits.maxBytes
    requires AllOf(deltas, arrivals)
    ensures var r := After(limits, deltas, arrivals);
            && !r.truncated
            && (r.finalized <==> forall i :: 0 <= i < |deltas| ==> i in arrivals)
            && (r.finalized ==> r.text == Concat(deltas, |deltas|))
            && r.next <= |deltas| && r.text == Concat(deltas, r.next)
  {
    OrderDoesNotMatter(limits, deltas, arrivals);
    var m := FirstMissing(Elements(arrivals), 0, |deltas|);
    assert forall i :: i in Elements(arrivals) <==> i in arrivals;
    if m == |deltas| {
      forall i | 0 <= i < |deltas|
        ensures i in arrivals
      {
        assert i in Elements(arrivals);
      }
    } else {
      assert m !in Elements(arrivals);
    }
  }

  // ----- Exactly when a message comes through whole

  function Range(n: nat): set<nat> {
    if n == 0 then {} else Range(n - 1) + {n - 1}
  }

  lemma {:induction false} RangeSize(n: nat)
    ensures |Range(n)| == n && forall i :: i in Range(n) <==> 0 <= i < n
  {
    if n > 0 {
      RangeSize(n - 1);
    }
  }

  /** Appended chunks have the indices 0, 1, 2, ..., so there are at least as many of them. */
  lemma DenseSize(batches: map<nat, Batch>, n: nat)
    requires forall i :: 0 <= i < n ==> i in batches
    ensures n <= |batches|
  {
    RangeSize(n);
    SubsetSize(Range(n), batches.Keys);
  }

  lemma {:induction false} ConcatBytes(deltas: seq<string>, n: nat)
    requires n <= |deltas|
    ensures Utf8Bytes(Concat(deltas, n)) == TotalBytes(deltas, n)
  {
    if n > 0 {
      ConcatBytes(deltas, n - 1);
      Utf8Concat(Concat(deltas, n - 1), deltas[n - 1]);
    }
  }

  /** Only the last chunk is final, so a message is final only when all of it was appended. */
  ghost predicate FinalIsLast(n: nat, r: Record) {
    && (forall i :: i in r.batches ==> i < n && (r.batches[i].final <==> i == n - 1))
    && (r.finalized ==> r.next == n)
  }

  lemma {:induction false} DrainKeepsLast(n: nat, r: Record)
    requires FinalIsLast(n, r)
    ensures FinalIsLast(n, Drain(r))
    decreases |Ahead(r)|
  {
    if r.next in r.batches {
      DrainOneShrinks(r);
      assert FinalIsLast(n, DrainOne(r));
      if !r.batches[r.next].final {
        DrainKeepsLast(n, DrainOne(r));
      }
    }
  }

  lemma StepKeepsLast(limits: Limits, deltas: seq<string>, r: Record, i: nat)
    requires i < |deltas| && FinalIsLast(|deltas|, r)
    ensures FinalIsLast(|deltas|, Step(limits, r, ChunkOf(deltas, i)))
  {
    if !Refuses(limits, r, i) {
      DrainKeepsLast(|deltas|, Buffer(limits, r, i, deltas[i], i == |deltas| - 1));
    }
  }

  lemma {:induction false} AfterTracks(limits: Limits, deltas: seq<string>, arrivals: seq<nat>)
    requires |deltas| <= INDICES && AllOf(deltas, arrivals)
    ensures Accounted(limits, After(limits, deltas, arrivals)) && FinalIsLast(|deltas|, After(limits, deltas, arrivals))
    decreases |arrivals|
  {
    if arrivals == [] {
      NothingBuffered(INDICES);
    } else {
      var n := |arrivals| - 1;
      var r, i := After(limits, deltas, arrivals[..n]), arrivals[n];
      AfterTracks(limits, deltas, arrivals[..n]);
      AcceptKeepsAccount(limits, r, i, deltas[i], i == |deltas| - 1);
      StepKeepsLast(limits, deltas, r, i);
    }
  }

  /** A message of more chunks than the limit is never final, whatever arrives in whatever order. */
  lemma TooManyChunks(limits: Limits, deltas: seq<string>, arrivals: seq<nat>)
    requires limits.maxBatches < |deltas| <= INDICES && AllOf(deltas, arrivals)
    ensures !After(limits, deltas, arrivals).finalized
  {
    AfterTracks(limits, deltas, arrivals);
    var r := After(limits, deltas, arrivals);
    if r.finalized {
      DenseSize(r.batches, |deltas|);
    }
  }

  /** A message of more bytes than the limit never has its whole text. */
  lemma TooManyBytes(limits: Limits, deltas: seq<string>, arrivals: seq<nat>)
    requires |deltas| <= INDICES && TotalBytes(deltas, |deltas|) > limits.maxBytes && AllOf(deltas, arrivals)
    ensures After(limits, deltas, arrivals).text != Concat(deltas, |deltas|)
  {
    AfterTracks(limits, deltas, arrivals);
    ConcatBytes(deltas, |deltas|);
  }

  /**
   * When all chunks of a message arrive, in any order and with any duplicates, the message ends up
   * final with its whole text exactly when both its chunks and its bytes are within the limits.
   */
  lemma WholeExactly(limits: Limits, deltas: seq<string>, arrivals: seq<nat>)
    requires 0 < |deltas| <= INDICES && AllOf(deltas, arrivals)
    requires forall i :: 0 <= i < |deltas| ==> i in arrivals
    ensures var r := After(limits, deltas, arrivals);
            r.finalized && r.text == Concat(deltas, |deltas|)
            <==> |deltas| <= limits.maxBatches && TotalBytes(deltas, |deltas|) <= limits.maxBytes
  {
    if |deltas| > limits.maxBatches {
      TooManyChunks(limits, deltas, arrivals);
    } else if TotalBytes(deltas, |deltas|) > limits.maxBytes {
      TooManyBytes(limits, deltas, arrivals);
    } else {
      CompleteText(limits, deltas, arrivals);
    }
  }

  /** What the arrival at place `j` publishes. */
  function PublishedAt(limits: Limits, deltas: seq<string>, arrivals: seq<nat>, j: nat): Outcome
    requires AllOf(deltas, arrivals) && j < |arrivals|
  {
    Publish(After(limits, deltas, arrivals[..j]), After(limits, deltas, arrivals[..j + 1]))
  }

  lemma {:induction false} AfterNext(limits: Limits, deltas: seq<string>, arrivals: seq<nat>, j: nat)
    requires AllOf(deltas, arrivals) && j < |arrivals|
    ensures After(limits, deltas, arrivals[..j + 1]) ==
            Step(limits, After(limits, deltas, arrivals[..j]), ChunkOf(deltas, arrivals[j]))
  {
    assert arrivals[..j + 1][..j] == arrivals[..j];
  }

  /** Once final, the record stays as it is. */
  lemma {:induction false} FinalAfter(limits: Limits, deltas: seq<string>, arrivals: seq<nat>, j: nat, k: nat)
    requires AllOf(deltas, arrivals) && j <= k <= |arrivals| && After(limits, deltas, arrivals[..j]).finalized
    ensures After(limits, deltas, arrivals[..k]) == After(limits, deltas, arrivals[..j])
    decreases k
  {
    if j < k {
      FinalAfter(limits, deltas, arrivals, j, k - 1);
      AfterNext(limits, deltas, arrivals, k - 1);
    }
  }

  /** Where a property that does not hold at first comes to hold. */
  lemma {:induction false} Turns(n: nat, holds: nat -> bool) returns (j: nat)
    requires !holds(0) && holds(n)
    ensures j < n && !holds(j) && holds(j + 1)
  {
    if holds(n - 1) {
      j := Turns(n - 1, holds);
    } else {
      j := n - 1;
    }
  }

  ghost predicate FinalAt(limits: Limits, deltas: seq<string>, arrivals: seq<nat>, j: nat)
    requires AllOf(deltas, arrivals)
  {
    j <= |arrivals| && After(limits, deltas, arrivals[..j]).finalized
  }

  /** Before the completing arrival messages are published as streaming, after it nothing is. */
  lemma {:induction false} EarlierStreams(limits: Limits, deltas: seq<string>, arrivals: seq<nat>, j: nat, k: nat)
    requires AllOf(deltas, arrivals) && k < j < |arrivals| && !FinalAt(limits, deltas, arrivals, j)
    ensures PublishedAt(limits, deltas, arrivals, k).Message? ==> PublishedAt(limits, deltas, arrivals, k).streaming
  {
    if FinalAt(limits, deltas, arrivals, k + 1) {
      FinalAfter(limits, deltas, arrivals, k + 1, j);
    }
  }

  lemma {:induction false} LaterIgnored(limits: Limits, deltas: seq<string>, arrivals: seq<nat>, j: nat, k: nat)
    requires AllOf(deltas, arrivals) && j < k < |arrivals| && FinalAt(limits, deltas, arrivals, j + 1)
    ensures PublishedAt(limits, deltas, arrivals, k) == Ignored
  {
    var r := After(limits, deltas, arrivals[..j + 1]);
    FinalAfter(limits, deltas, arrivals, j + 1, k);
    FinalAfter(limits, deltas, arrivals, j + 1, k + 1);
    assert Publish(r, r) == Ignored;
  }

  lemma {:induction false} EndsFinal(limits: Limits, deltas: seq<string>, arrivals: seq<nat>)
    requires 0 < |deltas| <= limits.maxBatches && TotalBytes(deltas, |deltas|) <= limits.maxBytes
    requires AllOf(deltas, arrivals) && forall i :: 0 <= i < |deltas| ==> i in arrivals
    ensures !FinalAt(limits, deltas, arrivals, 0) && FinalAt(limits, deltas, arrivals, |arrivals|)
  {
    assert arrivals[..0] == [] && arrivals[..|arrivals|] == arrivals;
    CompleteText(limits, deltas, arrivals);
  }

  /**
   * Within the limits, when all chunks of a message arrive and its text is not empty, exactly one
   * arrival publishes the message as complete, and it publishes the whole text, bounded.
   */
  lemma {:induction false} PublishedCompleteExactlyOnce(limits: Limits, deltas: seq<string>, arrivals: seq<nat>)
    returns (j: nat)
    requires 0 < |deltas| <= limits.maxBatches && TotalBytes(deltas, |deltas|) <= limits.maxBytes
    requires AllOf(deltas, arrivals) && forall i :: 0 <= i < |deltas| ==> i in arrivals
    requires Concat(deltas, |deltas|) != ""
    ensures j < |arrivals| && PublishedAt(limits, deltas, arrivals, j) == Message(Bounded(Concat(deltas, |deltas|)), false)
    ensures forall k :: 0 <= k < j && PublishedAt(limits, deltas, arrivals, k).Message? ==>
              PublishedAt(limits, deltas, arrivals, k).streaming
    ensures forall k :: j < k < |arrivals| ==> PublishedAt(limits, deltas, arrivals, k) == Ignored
  {
    EndsFinal(limits, deltas, arrivals);
    j := Turns(|arrivals|, (i: nat) => FinalAt(limits, deltas, arrivals, i));
    CompletionPublishes(limits, deltas, arrivals, j);
    forall k | 0 <= k < j && PublishedAt(limits, deltas, arrivals, k).Message?
      ensures PublishedAt(limits, deltas, arrivals, k).streaming
    {
      EarlierStreams(limits, deltas, arrivals, j, k);
    }
    forall k | j < k < |arrivals|
      ensures PublishedAt(limits, deltas, arrivals, k) == Ignored
    {
      LaterIgnored(limits, deltas, arrivals, j, k);
    }
  }

  lemma {:induction false} CompletionPublishes(limits: Limits, deltas: seq<string>, arrivals: seq<nat>, j: nat)
    requires 0 < |deltas| <= limits.maxBatches && TotalBytes(deltas, |deltas|) <= limits.maxBytes
    requires AllOf(deltas, arrivals) && j < |arrivals| && Concat(deltas, |deltas|) != ""
    requires !FinalAt(limits, deltas, arrivals, j) && FinalAt(limits, deltas, arrivals, j + 1)
    ensures PublishedAt(limits, deltas, arrivals, j) == Message(Bounded(Concat(deltas, |deltas|)), false)
  {
    OrderDoesNotMatter(limits, deltas, arrivals[..j]);
    OrderDoesNotMatter(limits, deltas, arrivals[..j + 1]);
  }

  /** For instance, two one-byte chunks are never a final message when only one chunk is allowed. */
  lemma OneChunkAllowed(a: char, b: char, maxBytes: nat)
    ensures !After(Limits(1, maxBytes), [[a], [b]], [0, 1]).finalized
    ensures !After(Limits(1, maxBytes), [[a], [b]], [1, 0]).finalized
  {
    TooManyChunks(Limits(1, maxBytes), [[a], [b]], [0, 1]);
    TooManyChunks(Limits(1, maxBytes), [[a], [b]], [1, 0]);
  }

  /** The first chunk of a message arrives first: what is kept of it starts the text. */
  lemma {:induction false} InOrderStarts(limits: Limits, x: string, y: string)
    requires limits.maxBatches >= 2 && x != "" && Utf8Length(x[0]) <= limits.maxBytes
    ensures var r := Step(limits, Step(limits, FRESH, Chunk(0, x, false)), Chunk(1, y, true));
            r.text != "" && r.text[0] == x[0]
  {
    var kept := LongestPrefix(x, limits.maxBytes);
    var buffered := Buffer(limits, FRESH, 0, x, false);
    assert buffered.batches == map[0 := Batch(kept, false)];
    var one := DrainOne(buffered);
    assert one.text == "" + kept == kept && kept[0] == x[0];
    assert one.batches.Keys == {0} && one.next == 1;
    assert Drain(one) == one && Step(limits, FRESH, Chunk(0, x, false)) == one;
    var second := Buffer(limits, one, 1, y, true);
    assert |one.batches| == 1 by {
      assert |one.batches| == |one.batches.Keys|;
    }
    assert Drain(second) == DrainOne(second);
  }

  /** It arrives last and finds no room: the text starts with the second chunk. */
  lemma {:induction false} ReversedStarts(limits: Limits, x: string, y: string)
    requires limits.maxBatches >= 2 && x != "" && y != "" && Utf8Length(y[0]) <= limits.maxBytes
    requires Utf8Length(x[0]) > limits.maxBytes - Utf8Bytes(LongestPrefix(y, limits.maxBytes))
    ensures var r := Step(limits, Step(limits, FRESH, Chunk(1, y, true)), Chunk(0, x, false));
            r.text != "" && r.text[0] == y[0]
  {
    var kept := LongestPrefix(y, limits.maxBytes);
    LongestPrefixIsLongest(y, limits.maxBytes);
    var second := Buffer(limits, FRESH, 1, y, true);
    assert second.batches == map[1 := Batch(kept, true)] && second.next == 0;
    assert Drain(second) == second && Step(limits, FRESH, Chunk(1, y, true)) == second;
    assert |second.batches| == 1 by {
      assert second.batches.Keys == {1} && |second.batches| == |second.batches.Keys|;
    }
    var both := Buffer(limits, second, 0, x, false);
    assert LongestPrefix(x, limits.maxBytes - Utf8Bytes(kept)) == "";
    assert both.batches[0] == Batch("", false) && both.batches[1] == Batch(kept, true);
    var one := DrainOne(both);
    assert one.text == "" + "" && one.next == 1 && one.batches[1] == Batch(kept, true);
    assert Drain(one) == DrainOne(one) && DrainOne(one).text == "" + kept == kept;
    assert kept[0] == y[0];
  }

  /**
   * When the bytes run out the order can matter: of two chunks that start differently, the one that
   * comes first decides how the text starts, if the second alone leaves no room for the first.
   */
  lemma {:induction false} OrderMattersWhenCut(limits: Limits, x: string, y: string)
    requires limits.maxBatches >= 2 && x != "" && y != "" && x[0] != y[0]
    requires Utf8Length(x[0]) <= limits.maxBytes && Utf8Length(y[0]) <= limits.maxBytes
    requires Utf8Length(x[0]) > limits.maxBytes - Utf8Bytes(LongestPrefix(y, limits.maxBytes))
    ensures After(limits, [x, y], [0, 1]).text != After(limits, [x, y], [1, 0]).text
  {
    InOrderStarts(limits, x, y);
    ReversedStarts(limits, x, y);
    var deltas := [x, y];
    assert [0, 1][..1] == [0] && [1, 0][..1] == [1] && [0][..0] == [] && [1][..0] == [];
    assert After(limits, deltas, [0]) == Step(limits, FRESH, Chunk(0, x, false));
    assert After(limits, deltas, [1]) == Step(limits, FRESH, Chunk(1, y, true));
  }

  // ----- The object

  class MessageRecord {
    const limits: Limits
    var batches: map<nat, Batch>
    var nextIndex: nat
    var text: string
    var finalized: bool
    var truncated: bool
    var accumulatedBytes: nat

    ghost function View(): Record
      reads this
    {
      Record(batches, nextIndex, text, finalized, truncated, accumulatedBytes)
    }

    /** The limit on batches is a machine word. */
    ghost predicate Valid()
      reads this
    {
      Accounted(limits, View()) && limits.maxBatches <= U64_MAX
    }

    constructor (limits: Limits)
      requires limits.maxBatches <= U64_MAX
      ensures Valid() && View() == FRESH && this.limits == limits
    {
      this.limits := limits;
      batches, nextIndex, text, finalized, truncated, accumulatedBytes := map[], 0, "", false, false, 0;
      NothingBuffered(INDICES);
    }

    /** The source's `message_display`, from the record on. */
    method Display(index: nat, delta: string, final: bool) returns (outcome: Outcome)
      requires Valid() && index <= U64_MAX
      modifies this
      ensures Valid() && View() == Accept(limits, old(View()), index, delta, final)
      ensures outcome == Publish(old(View()), View())
      ensures outcome.Message? ==> Utf8Bytes(outcome.text) <= MAX_TEXT_BYTES && Utf8Bytes(EscapeText(outcome.text)) <= MAX_TEXT_BYTES
    {
      if finalized || index in batches || |batches| >= limits.maxBatches {
        return Ignored;
      }
      BufferChunk(index, delta, final);
      var advanced := DrainReady();
      if !advanced || text == "" {
        return Ignored;
      }
      var bounded := BoundedText(if truncated then text + MARKER else text);
      return Message(bounded, !finalized);
    }

    method BufferChunk(index: nat, delta: string, final: bool)
      requires Valid() && index <= U64_MAX && !Refuses(limits, View(), index)
      modifies this
      ensures Valid() && View() == Buffer(limits, old(View()), index, delta, final)
    {
      ghost var before := View();
      BufferValid(limits, before, index, delta, final);
      var remaining := if limits.maxBytes > accumulatedBytes then limits.maxBytes - accumulatedBytes else 0;
      var bounded := Utf8PrefixByBytes(delta, remaining);
      var keptBytes := Utf8Bytes(bounded);
      if keptBytes < Utf8Bytes(delta) {
        truncated := true;
      }
      accumulatedBytes := accumulatedBytes + keptBytes;
      batches := batches[index := Batch(bounded, final)];
      assert View() == Buffer(limits, before, index, delta, final);
    }

    /** The drain loop. */
    method DrainReady() returns (advanced: bool)
      requires Valid()
      modifies this
      ensures Valid() && View() == Drain(old(View()))
      ensures advanced <==> nextIndex != old(nextIndex)
    {
      advanced := false;
      ghost var before := View();
      while nextIndex in batches
        invariant Valid() && Drain(View()) == Drain(before)
        invariant nextIndex >= before.next && (advanced <==> nextIndex != before.next)
        decreases |Ahead(View())|
      {
        DrainOneShrinks(View());
        var final := DrainNext();
        advanced := true;
        if final {
          break;
        }
      }
    }

    /** One turn of the drain loop: its saturating counter never saturates, so the loop ends. */
    method DrainNext() returns (final: bool)
      requires Valid() && nextIndex in batches
      modifies this
      ensures Valid() && View() == DrainOne(old(View()))
      ensures final == old(batches)[old(nextIndex)].final
    {
      DenseSize(batches, nextIndex + 1);
      DrainOneValid(limits, View());
      var batch := batches[nextIndex];
      batches := batches[nextIndex := Batch("", batch.final)];
      text := text + batch.delta;
      nextIndex := SaturatingNext(nextIndex);
      if batch.final {
        finalized := true;
      }
      return batch.final;
    }
  }
}
