/**
 * What a chunk publishes. A reference account keeps, for every chunk that is taken, what is kept of
 * it, and never drains or clears anything; the record and its publications follow from the account.
 */
module MessagePublication {
  import opened Common
  import opened TextBounds
  import opened MessageAssembly

  /** What was kept of each chunk, its bytes, and the bytes of all chunks that were taken. */
  datatype Account = Account(kept: map<nat, Batch>, bytes: nat, offered: nat)

  const NOTHING: Account := Account(map[], 0, 0)

  ghost function From(kept: map<nat, Batch>, i: nat): set<nat> {
    set k | k in kept && k >= i
  }

  lemma FromShrinks(kept: map<nat, Batch>, i: nat)
    requires i in kept
    ensures |From(kept, i + 1)| < |From(kept, i)|
  {
    assert From(kept, i + 1) == From(kept, i) - {i};
  }

  /** The number of chunks, counted from `i`, up to the first missing one or to the final one. */
  function Front(kept: map<nat, Batch>, i: nat): (n: nat)
    ensures i <= n && (forall k :: i <= k < n ==> k in kept) && (forall k :: i <= k < n - 1 ==> !kept[k].final)
    ensures n !in kept || (i < n && kept[n - 1].final)
    decreases |From(kept, i)|
  {
    if i !in kept then i
    else if kept[i].final then i + 1
    else
      FromShrinks(kept, i);
      Front(kept, i + 1)
  }

  predicate Complete(kept: map<nat, Batch>) {
    var n := Front(kept, 0);
    n > 0 && kept[n - 1].final
  }

  function Joined(kept: map<nat, Batch>, n: nat): string
    requires forall k :: 0 <= k < n ==> k in kept
  {
    if n == 0 then "" else Joined(kept, n - 1) + kept[n - 1].delta
  }

  function Text(kept: map<nat, Batch>): string { Joined(kept, Front(kept, 0)) }

  /** A chunk is taken unless the message is complete, the index is known or there are too many. */
  function Take(limits: Limits, a: Account, c: Chunk): Account {
    if Complete(a.kept) || c.index in a.kept || |a.kept| >= limits.maxBatches then a
    else
      var delta := LongestPrefix(c.delta, if a.bytes < limits.maxBytes then limits.maxBytes - a.bytes else 0);
      Account(a.kept[c.index := Batch(delta, c.final)], a.bytes + Utf8Bytes(delta), a.offered + Utf8Bytes(c.delta))
  }

  function AccountAfter(limits: Limits, chunks: seq<Chunk>): Account {
    if chunks == [] then NOTHING
    else Take(limits, AccountAfter(limits, chunks[..|chunks| - 1]), chunks[|chunks| - 1])
  }

  // ----- The record of an account

  /** The first `m` kept chunks are cleared. */
  function Cleared(kept: map<nat, Batch>, m: nat): map<nat, Batch> {
    map k | k in kept :: Batch(if k < m then "" else kept[k].delta, kept[k].final)
  }

  /** The first `m` kept chunks were appended to the text. */
  ghost predicate Appended(kept: map<nat, Batch>, m: nat, r: Record) {
    && (forall k :: 0 <= k < m ==> k in kept)
    && r.next == m && r.text == Joined(kept, m) && r.batches == Cleared(kept, m)
  }

  ghost predicate Placed(a: Account, r: Record) {
    Appended(a.kept, Front(a.kept, 0), r) && r.finalized == Complete(a.kept)
  }

  ghost predicate Weighed(limits: Limits, a: Account, r: Record) {
    && r.bytes == a.bytes <= limits.maxBytes && a.bytes <= a.offered
    && (r.truncated <==> a.offered > limits.maxBytes) && (!r.truncated ==> a.bytes == a.offered)
  }

  lemma SameRefusal(limits: Limits, a: Account, r: Record, c: Chunk)
    requires Placed(a, r)
    ensures r.batches.Keys == a.kept.Keys
    ensures Refuses(limits, r, c.index) <==> Complete(a.kept) || c.index in a.kept || |a.kept| >= limits.maxBatches
  {
    assert r.batches.Keys == a.kept.Keys;
    assert |r.batches.Keys| == |r.batches| && |a.kept.Keys| == |a.kept|;
  }

  lemma {:induction false} JoinedWithout(kept: map<nat, Batch>, index: nat, b: Batch, n: nat)
    requires (forall k :: 0 <= k < n ==> k in kept) && n <= index
    ensures Joined(kept[index := b], n) == Joined(kept, n)
  {
    if n > 0 {
      JoinedWithout(kept, index, b, n - 1);
    }
  }

  lemma {:induction false} DrainOneAppends(kept: map<nat, Batch>, m: nat, r: Record)
    requires Appended(kept, m, r) && m in kept
    ensures m in r.batches && r.batches[m] == kept[m] && Appended(kept, m + 1, DrainOne(r))
  {
    assert r.batches[m] == kept[m];
    assert DrainOne(r).batches == Cleared(kept, m + 1);
  }

  lemma {:induction false} DrainAppends(kept: map<nat, Batch>, m: nat, r: Record)
    requires Appended(kept, m, r)
    ensures Appended(kept, Front(kept, m), Drain(r))
    decreases |From(kept, m)|
  {
    if m in kept {
      DrainOneAppends(kept, m, r);
      FromShrinks(kept, m);
      if !kept[m].final {
        DrainAppends(kept, m + 1, DrainOne(r));
      }
    }
  }

  lemma {:induction false} DrainFinalizes(kept: map<nat, Batch>, m: nat, r: Record)
    requires Appended(kept, m, r) && !r.finalized
    ensures Drain(r).finalized <==> Front(kept, m) > m && kept[Front(kept, m) - 1].final
    decreases |From(kept, m)|
  {
    if m in kept {
      DrainOneAppends(kept, m, r);
      FromShrinks(kept, m);
      if !kept[m].final {
        DrainFinalizes(kept, m + 1, DrainOne(r));
      }
    }
  }

  /** Draining from a place before which no chunk is final. */
  lemma {:induction false} DrainPlaces(a: Account, m: nat, r: Record)
    requires Appended(a.kept, m, r) && !r.finalized && forall k :: 0 <= k < m ==> !a.kept[k].final
    ensures Placed(a, Drain(r))
  {
    DrainAppends(a.kept, m, r);
    DrainFinalizes(a.kept, m, r);
    FrontFrom(a.kept, m);
  }

  lemma {:induction false} FrontFrom(kept: map<nat, Batch>, m: nat)
    requires forall k :: 0 <= k < m ==> k in kept && !kept[k].final
    ensures Front(kept, 0) == Front(kept, m)
  {
    var a, b := Front(kept, 0), Front(kept, m);
    assert a > 0 ==> a - 1 in kept;
    assert b > m ==> b - 1 in kept;
  }

  lemma ClearedUpdate(kept: map<nat, Batch>, m: nat, index: nat, b: Batch)
    requires m <= index
    ensures Cleared(kept, m)[index := b] == Cleared(kept[index := b], m)
  {
  }

  lemma {:induction false} BufferKeeps(kept: map<nat, Batch>, r: Record, index: nat, b: Batch)
    requires Appended(kept, r.next, r) && index !in kept
    ensures Appended(kept[index := b], r.next, r.(batches := r.batches[index := b]))
  {
    JoinedWithout(kept, index, b, r.next);
    ClearedUpdate(kept, r.next, index, b);
  }

  /** A chunk is cut exactly when its bytes exceed the room that is left. */
  lemma {:induction false} StepWeighed(limits: Limits, a: Account, r: Record, c: Chunk)
    requires Placed(a, r) && Weighed(limits, a, r)
    ensures Weighed(limits, Take(limits, a, c), Step(limits, r, c))
  {
    SameRefusal(limits, a, r, c);
    if !Refuses(limits, r, c.index) {
      var room := limits.maxBytes - a.bytes;
      LongestPrefixIsLongest(c.delta, room);
      if Utf8Bytes(c.delta) <= room {
        WholeFits(c.delta, room);
      }
      DrainWeighs(Buffer(limits, r, c.index, c.delta, c.final));
    }
  }

  lemma {:induction false} DrainWeighs(r: Record)
    ensures Drain(r).bytes == r.bytes && Drain(r).truncated == r.truncated
    decreases |MessageAssembly.Ahead(r)|
  {
    if r.next in r.batches && !r.batches[r.next].final {
      DrainOneShrinks(r);
      DrainWeighs(DrainOne(r));
    }
  }

  lemma {:induction false} StepPlaced(limits: Limits, a: Account, r: Record, c: Chunk)
    requires Placed(a, r) && Weighed(limits, a, r)
    ensures Placed(Take(limits, a, c), Step(limits, r, c))
  {
    SameRefusal(limits, a, r, c);
    if !Refuses(limits, r, c.index) {
      var t, b := Take(limits, a, c), Buffer(limits, r, c.index, c.delta, c.final);
      TakePlaced(limits, a, r, c);
      assert forall k :: 0 <= k < r.next ==> !a.kept[k].final;
      DrainPlaces(t, r.next, b);
    }
  }

  lemma {:induction false} TakePlaced(limits: Limits, a: Account, r: Record, c: Chunk)
    requires Placed(a, r) && Weighed(limits, a, r) && !Refuses(limits, r, c.index)
    ensures var t, b := Take(limits, a, c), Buffer(limits, r, c.index, c.delta, c.final);
            Appended(t.kept, r.next, b) && !b.finalized && c.index !in a.kept && c.index in t.kept
            && t.kept == a.kept[c.index := t.kept[c.index]]
  {
    SameRefusal(limits, a, r, c);
    var t, b := Take(limits, a, c), Buffer(limits, r, c.index, c.delta, c.final);
    BufferKeeps(a.kept, r, c.index, t.kept[c.index]);
    assert b.batches == r.batches[c.index := t.kept[c.index]];
  }

  lemma {:induction false} RunFollows(limits: Limits, states: seq<Record>, chunks: seq<Chunk>, i: nat)
    requires IsRun(limits, states, chunks) && i < |states|
    ensures Placed(AccountAfter(limits, chunks[..i]), states[i])
    ensures Weighed(limits, AccountAfter(limits, chunks[..i]), states[i])
  {
    if i > 0 {
      RunFollows(limits, states, chunks, i - 1);
      assert chunks[..i][..i - 1] == chunks[..i - 1];
      StepPlaced(limits, AccountAfter(limits, chunks[..i - 1]), states[i - 1], chunks[i - 1]);
      StepWeighed(limits, AccountAfter(limits, chunks[..i - 1]), states[i - 1], chunks[i - 1]);
    }
  }

  /**
   * Over any run and under any limits: the text is what was kept of the chunks up to the first
   * missing or final one, and it is marked as cut exactly when more bytes were taken than allowed.
   */
  lemma {:induction false} RecordFollowsAccount(limits: Limits, states: seq<Record>, chunks: seq<Chunk>, i: nat)
    requires IsRun(limits, states, chunks) && i < |states|
    ensures var a := AccountAfter(limits, chunks[..i]);
            && states[i].text == Text(a.kept) && states[i].finalized == Complete(a.kept)
            && states[i].next == Front(a.kept, 0) && states[i].batches.Keys == a.kept.Keys
            && (states[i].truncated <==> a.offered > limits.maxBytes)
  {
    RunFollows(limits, states, chunks, i);
  }

  /**
   * Over any run and under any limits: a chunk publishes the whole text after it, with the marker
   * exactly when more bytes were taken than allowed, as streaming unless the message is complete;
   * one that appends nothing, or leaves the text empty, publishes nothing.
   */
  lemma {:induction false} PublishedExactly(limits: Limits, states: seq<Record>, chunks: seq<Chunk>, i: nat)
    requires IsRun(limits, states, chunks) && i < |chunks|
    ensures var a, b := AccountAfter(limits, chunks[..i]), AccountAfter(limits, chunks[..i + 1]);
            Publish(states[i], states[i + 1]) ==
            if Front(b.kept, 0) == Front(a.kept, 0) || Text(b.kept) == "" then Ignored
            else Message(Bounded(Text(b.kept) + (if b.offered > limits.maxBytes then MARKER else "")), !Complete(b.kept))
  {
    RunFollows(limits, states, chunks, i);
    RunFollows(limits, states, chunks, i + 1);
    NothingMore(states[i + 1].text);
  }

  lemma NothingMore(s: string)
    ensures s + "" == s
  {
  }

  // ----- One message within the limits

  /**
   * Within the limits an arrival publishes the text up to the first chunk that is still missing,
   * as streaming while one is; an arrival that fills no gap at the front publishes nothing.
   */
  lemma {:induction false} StreamedExactly(limits: Limits, deltas: seq<string>, arrivals: seq<nat>, j: nat)
    requires 0 < |deltas| <= limits.maxBatches && TotalBytes(deltas, |deltas|) <= limits.maxBytes
    requires AllOf(deltas, arrivals) && j < |arrivals|
    ensures var m0, m := FirstMissing(Elements(arrivals[..j]), 0, |deltas|), FirstMissing(Elements(arrivals[..j + 1]), 0, |deltas|);
            PublishedAt(limits, deltas, arrivals, j) ==
            if m == m0 || Concat(deltas, m) == "" then Ignored
            else Message(Bounded(Concat(deltas, m)), m < |deltas|)
  {
    OrderDoesNotMatter(limits, deltas, arrivals[..j]);
    OrderDoesNotMatter(limits, deltas, arrivals[..j + 1]);
  }
}
