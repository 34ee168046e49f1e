/** A snapshot that the broker has overlaid, and what observing it again does. */
module AttachmentOverlay {
  import opened Common
  import opened Attachments
  import opened AttachmentLaws

  lemma {:induction false} SavedConcat(known: map<Id, Annotation>, a: seq<Annotation>, b: seq<Annotation>)
    ensures Saved(known, a + b) == Saved(Saved(known, a), b)
    decreases |a|
  {
    if a == [] {
      assert a + b == b;
    } else {
      assert (a + b)[1..] == a[1..] + b;
      SavedConcat(known[a[0].id := a[0]], a[1..], b);
    }
  }

  /** Ids that are not among the annotations are left alone. */
  lemma {:induction false} SavedElsewhere(known: map<Id, Annotation>, annotations: seq<Annotation>, id: Id)
    requires id in known && forall a :: a in annotations ==> a.id != id
    ensures id in Saved(known, annotations) && Saved(known, annotations)[id] == known[id]
    decreases |annotations|
  {
    if annotations != [] {
      assert annotations[0] in annotations;
      SavedElsewhere(known[annotations[0].id := annotations[0]], annotations[1..], id);
    }
  }

  /** Appending missing annotations as they are known saves the same. */
  lemma {:induction false} MissingSaveNothing(known: map<Id, Annotation>, existing: seq<Annotation>, more: seq<Annotation>)
    requires forall a :: a in more ==> a.id in known && known[a.id] == a
    ensures Saved(known, WithMissing(existing, more)) == Saved(known, existing)
    decreases |more|
  {
    if more != [] {
      var first := more[0];
      assert first in more;
      if exists a :: a in existing && a.id == first.id {
        MissingSaveNothing(known, existing, more[1..]);
      } else {
        MissingSaveNothing(known, existing + [first], more[1..]);
        SavedConcat(known, existing, [first]);
        SavedElsewhere(known, existing, first.id);
        var saved := Saved(known, existing);
        assert Saved(saved, [first]) == Saved(saved[first.id := first], []) == saved[first.id := first];
        assert saved[first.id := first] == saved;
      }
    }
  }

  lemma {:induction false} PendingAreSaved(pending: seq<Id>, annotations: map<Id, Annotation>)
    requires OwnIds(annotations)
    ensures forall a :: a in PendingAnnotations(pending, annotations) ==> a.id in annotations && annotations[a.id] == a
  {
    if pending != [] {
      PendingAreSaved(pending[1..], annotations);
    }
  }

  /** Two maps show the same pending annotations exactly when they agree on the pending ids. */
  lemma {:induction false} SamePending(pending: seq<Id>, a: map<Id, Annotation>, b: map<Id, Annotation>)
    requires forall id :: id in pending ==> id in a && id in b
    ensures PendingAnnotations(pending, a) == PendingAnnotations(pending, b) <==> forall id :: id in pending ==> a[id] == b[id]
  {
    if pending != [] {
      var id, rest := pending[0], pending[1..];
      assert pending == [id] + rest;
      SamePending(rest, a, b);
      var x, y := PendingAnnotations(rest, a), PendingAnnotations(rest, b);
      assert ([a[id]] + x)[0] == a[id] && ([b[id]] + y)[0] == b[id];
      assert ([a[id]] + x)[1..] == x && ([b[id]] + y)[1..] == y;
    }
  }

  lemma {:induction false} NothingJoins(pending: seq<Id>, ids: seq<Id>, tombstones: seq<Id>, known: set<Id>, saved: set<Id>)
    requires forall id :: id in ids ==> id in pending
    ensures Joined(pending, ids, tombstones, known, saved) == pending
    decreases |ids|
  {
    if ids != [] {
      assert ids[0] in ids;
      NothingJoins(pending, ids[1..], tombstones, known, saved);
    }
  }

  /** Merging an overlaid snapshot saves its annotations and moves nothing else. */
  lemma MergedOverlay(w: Workspace, snapshot: Snapshot)
    requires Sound(w)
    ensures Merged(w, Overlaid(w, snapshot)) == w.(annotations := Saved(w.annotations, snapshot.annotations))
  {
    PendingAreSaved(w.pending, w.annotations);
    MissingSaveNothing(w.annotations, snapshot.annotations, PendingAnnotations(w.pending, w.annotations));
    var saved := Saved(w.annotations, snapshot.annotations);
    NothingJoins(w.pending, w.pending, w.tombstones, w.annotations.Keys, saved.Keys);
  }

  /**
   * Observing a snapshot that the broker overlaid changes neither the waiting list nor the revision
   * nor what is owed; and it changes the generation exactly when the snapshot brings another text for
   * an annotation that waits.
   */
  lemma OverlayIsNeutral(k: Key, w: Workspace, snapshot: Snapshot)
    requires Sound(w)
    ensures var o, saved := Observed(k, w, Overlaid(w, snapshot)), Saved(w.annotations, snapshot.annotations);
            && o.pending == w.pending && o.revision == w.revision
            && o.tombstones == w.tombstones && o.unacked == w.unacked && o.active == w.active
            && (forall id :: id in w.pending ==> id in w.annotations && id in saved)
            && (o.generation == w.generation <==> forall id :: id in w.pending ==> saved[id] == w.annotations[id])
  {
    var saved := Saved(w.annotations, snapshot.annotations);
    MergedOverlay(w, snapshot);
    SavedKeys(w.annotations, snapshot.annotations);
    SamePending(w.pending, saved, w.annotations);
  }

  /** In particular, in every reachable state, a snapshot without annotations of its own changes nothing. */
  lemma OverlayOfPlainSnapshot(q: Queue, states: seq<Broker>, events: seq<Event>, i: nat, k: Key, snapshot: Snapshot)
    requires IsRun(q, states, events) && i < |states| && k in states[i].workspaces && snapshot.annotations == []
    ensures Observe(states[i], k, Overlaid(WorkspaceOf(states[i], k), snapshot)) == states[i]
  {
    var w := WorkspaceOf(states[i], k);
    RunSound(q, states, events, k, i);
    MergedOverlay(w, snapshot);
    assert Observed(k, w, Overlaid(w, snapshot)) == w;
    assert states[i].workspaces[k := w] == states[i].workspaces;
  }
}
