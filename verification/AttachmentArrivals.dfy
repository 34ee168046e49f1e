/** What observing a snapshot does to a workspace, in terms of the workspace and the snapshot alone. */
module AttachmentArrivals {
  import opened Common
  import opened Attachments
  import opened AttachmentLaws
  import opened AttachmentOverlay

  /** Where an id stands first. */
  function FirstIndex(ids: seq<Id>, id: Id): (n: nat)
    requires id in ids
    ensures n < |ids| && ids[n] == id && forall m :: 0 <= m < n ==> ids[m] != id
  {
    if ids[0] == id then 0 else 1 + FirstIndex(ids[1..], id)
  }

  ghost predicate Brings(snapshot: Snapshot, id: Id) {
    exists a :: a in snapshot.annotations && a.id == id
  }

  // ----- The saved annotations

  lemma {:induction false} SavedMembers(known: map<Id, Annotation>, annotations: seq<Annotation>, id: Id)
    ensures id in Saved(known, annotations) <==> id in known || exists a :: a in annotations && a.id == id
    decreases |annotations|
  {
    if annotations != [] {
      var first, rest := annotations[0], annotations[1..];
      SavedMembers(known[first.id := first], rest, id);
      assert annotations == [first] + rest;
      assert first in annotations;
    }
  }

  /** Of several annotations with one id the last is kept. */
  lemma {:induction false} SavedLast(known: map<Id, Annotation>, annotations: seq<Annotation>, i: nat)
    requires i < |annotations| && forall j :: i < j < |annotations| ==> annotations[j].id != annotations[i].id
    ensures annotations[i].id in Saved(known, annotations)
    ensures Saved(known, annotations)[annotations[i].id] == annotations[i]
  {
    var a, before, after := annotations[i], annotations[..i], annotations[i + 1..];
    assert annotations == before + ([a] + after);
    SavedConcat(known, before, [a] + after);
    var saved := Saved(known, before);
    assert ([a] + after)[1..] == after;
    SavedElsewhere(saved[a.id := a], after, a.id);
  }

  // ----- The waiting list

  /** May an id join, whatever waits already? */
  predicate Qualifies(id: Id, tombstones: seq<Id>, known: set<Id>, saved: set<Id>) {
    id !in tombstones && id !in known && id in saved
  }

  lemma {:induction false} JoinedMembers(pending: seq<Id>, ids: seq<Id>, tombstones: seq<Id>, known: set<Id>, saved: set<Id>, id: Id)
    ensures id in Joined(pending, ids, tombstones, known, saved)
            <==> id in pending || (id in ids && Qualifies(id, tombstones, known, saved))
    decreases |ids|
  {
    if ids != [] {
      var next := if Joins(ids[0], tombstones, known, saved, pending) then pending + [ids[0]] else pending;
      JoinedMembers(next, ids[1..], tombstones, known, saved, id);
      assert ids == [ids[0]] + ids[1..];
    }
  }

  /** From place `n` on the list follows the order of first occurrence. */
  ghost predicate InOrder(list: seq<Id>, n: nat, ids: seq<Id>) {
    && (forall x :: n <= x < |list| ==> list[x] in ids)
    && forall x, y :: n <= x < y < |list| ==> FirstIndex(ids, list[x]) < FirstIndex(ids, list[y])
  }

  lemma {:induction false} FirstIndexLater(ids: seq<Id>, id: Id)
    requires ids != [] && id in ids[1..] && id != ids[0]
    ensures id in ids && FirstIndex(ids, id) == 1 + FirstIndex(ids[1..], id)
  {
  }

  lemma {:induction false} InOrderLater(list: seq<Id>, n: nat, ids: seq<Id>)
    requires ids != [] && InOrder(list, n, ids[1..]) && forall x :: n <= x < |list| ==> list[x] != ids[0]
    ensures InOrder(list, n, ids)
  {
    forall x | n <= x < |list|
      ensures list[x] in ids && FirstIndex(ids, list[x]) == 1 + FirstIndex(ids[1..], list[x])
    {
      FirstIndexLater(ids, list[x]);
    }
  }

  lemma {:induction false} InOrderFirst(list: seq<Id>, n: nat, ids: seq<Id>)
    requires ids != [] && n < |list| && list[n] == ids[0] && InOrder(list, n + 1, ids)
    requires forall x :: n < x < |list| ==> list[x] != ids[0]
    ensures InOrder(list, n, ids)
  {
    assert FirstIndex(ids, list[n]) == 0;
    forall x | n < x < |list|
      ensures FirstIndex(ids, list[x]) > 0
    {
      assert list[x] in ids;
    }
  }

  lemma {:induction false} JoinedInOrder(pending: seq<Id>, ids: seq<Id>, tombstones: seq<Id>, known: set<Id>, saved: set<Id>)
    requires NoDup(pending)
    ensures InOrder(Joined(pending, ids, tombstones, known, saved), |pending|, ids)
    decreases |ids|
  {
    if ids != [] {
      var first, rest := ids[0], ids[1..];
      var next := if Joins(first, tombstones, known, saved, pending) then pending + [first] else pending;
      var list := Joined(next, rest, tombstones, known, saved);
      JoinedAppends(next, rest, tombstones, known, saved);
      JoinedInOrder(next, rest, tombstones, known, saved);
      FirstNotAgain(next, list, first, tombstones, known, saved);
      InOrderLater(list, |next|, ids);
      if Joins(first, tombstones, known, saved, pending) {
        assert list[|pending|] == next[|pending|] == first;
        InOrderFirst(list, |pending|, ids);
      }
    }
  }

  lemma {:induction false} FirstNotAgain(next: seq<Id>, list: seq<Id>, first: Id, tombstones: seq<Id>, known: set<Id>, saved: set<Id>)
    requires next <= list && NoDup(list) && (first in next || !Qualifies(first, tombstones, known, saved))
    requires forall id :: id in list && id !in next ==> Qualifies(id, tombstones, known, saved)
    ensures forall x :: |next| <= x < |list| ==> list[x] != first
  {
    forall x | |next| <= x < |list|
      ensures list[x] != first
    {
      forall y | 0 <= y < |next|
        ensures next[y] != list[x]
      {
        assert list[y] == next[y];
      }
      assert list[x] !in next;
    }
  }

  // ----- The whole observation

  /**
   * After observing a snapshot an id waits exactly when it waited before, or the snapshot lists it as
   * pending, brings its annotation, and the workspace did not know it.
   */
  lemma {:induction false} ArrivesExactly(k: Key, w: Workspace, snapshot: Snapshot, id: Id)
    requires Sound(w)
    ensures id in Observed(k, w, snapshot).pending
            <==> id in w.pending || (id in snapshot.pending && id !in w.annotations && Brings(snapshot, id))
  {
    var saved := Saved(w.annotations, snapshot.annotations);
    JoinedMembers(w.pending, snapshot.pending, w.tombstones, w.annotations.Keys, saved.Keys, id);
    SavedMembers(w.annotations, snapshot.annotations, id);
  }

  /** The arrivals stand behind what waited before, each once, as they occur first in the snapshot. */
  lemma {:induction false} ArrivalsInOrder(k: Key, w: Workspace, snapshot: Snapshot)
    requires Sound(w)
    ensures var o := Observed(k, w, snapshot);
            w.pending <= o.pending && NoDup(o.pending) && InOrder(o.pending, |w.pending|, snapshot.pending)
  {
    ObservedSound(k, w, snapshot);
    JoinedInOrder(w.pending, snapshot.pending, w.tombstones, w.annotations.Keys,
                  Saved(w.annotations, snapshot.annotations).Keys);
  }

  /** The last annotation of the snapshot with an id is saved; other ids keep what they had. */
  lemma {:induction false} SavesExactly(k: Key, w: Workspace, snapshot: Snapshot, id: Id)
    ensures var o, brought := Observed(k, w, snapshot), snapshot.annotations;
            && (id in o.annotations <==> id in w.annotations || Brings(snapshot, id))
            && (id in w.annotations && !Brings(snapshot, id) ==> o.annotations[id] == w.annotations[id])
            && (forall i :: 0 <= i < |brought| && brought[i].id == id && (forall j :: i < j < |brought| ==> brought[j].id != id) ==>
                  o.annotations[id] == brought[i])
  {
    var brought := snapshot.annotations;
    SavedMembers(w.annotations, brought, id);
    if id in w.annotations && !Brings(snapshot, id) {
      SavedElsewhere(w.annotations, brought, id);
    }
    forall i | 0 <= i < |brought| && brought[i].id == id && forall j :: i < j < |brought| ==> brought[j].id != id
      ensures Observed(k, w, snapshot).annotations[id] == brought[i]
    {
      SavedLast(w.annotations, brought, i);
    }
  }

  /**
   * The revision becomes the larger one, and one more than that when ids joined although the snapshot
   * is not newer; the generation moves exactly when revision, waiting list or a waiting text changed.
   */
  lemma {:induction false} CountsExactly(k: Key, w: Workspace, snapshot: Snapshot)
    requires Sound(w)
    ensures var o := Observed(k, w, snapshot);
            && o.revision == (if snapshot.revision > w.revision then snapshot.revision
                              else if o.pending == w.pending then w.revision else SaturatingNext(w.revision))
            && (forall id :: id in w.pending ==> id in w.annotations && id in o.annotations)
            && o.generation == w.generation + (
                 if && o.revision == w.revision && o.pending == w.pending
                    && (forall id :: id in w.pending ==> o.annotations[id] == w.annotations[id]) then 0 else 1)
            && o.tombstones == w.tombstones && o.unacked == w.unacked && o.active == w.active
  {
    var m := Merged(w, snapshot);
    MergedSound(w, snapshot);
    assert |m.pending| == |w.pending| ==> m.pending == w.pending;
    SavedKeys(w.annotations, snapshot.annotations);
    SamePending(w.pending, m.annotations, w.annotations);
  }
}
