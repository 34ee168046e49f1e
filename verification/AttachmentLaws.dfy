/** What every step of the attachment broker keeps, workspace by workspace. */
module AttachmentLaws {
  import opened Common
  import opened Attachments

  // ----- The invariant of one workspace

  ghost predicate Known(ids: seq<Id>, w: Workspace) {
    forall id :: id in ids ==> id in w.annotations
  }

  /** Annotations are saved under their own ids. */
  ghost predicate OwnIds(annotations: map<Id, Annotation>) {
    forall id :: id in annotations ==> annotations[id].id == id
  }

  /** Waiting and tombstoned ids are saved annotations, and no id is both. */
  ghost predicate Sound(w: Workspace) {
    && NoDup(w.pending) && Known(w.pending, w) && Known(w.tombstones, w) && OwnIds(w.annotations)
    && (forall id :: id in w.tombstones ==> id !in w.pending)
    && (w.active.Some? ==> Known(w.active.value.ids, w))
  }

  /**
   * One workspace within a lifetime: annotations are never forgotten, an id that is known
   * and does not wait never waits again, and the two counters tell every change, the
   * revision until it saturates.
   */
  ghost predicate Evolves(w: Workspace, t: Workspace) {
    && (forall id :: id in w.annotations ==> id in t.annotations)
    && (forall id :: id in w.annotations && id !in w.pending ==> id !in t.pending)
    && w.revision <= t.revision && (w.revision == t.revision < U64_MAX ==> w.pending == t.pending)
    && w.generation <= t.generation
    && (w.generation == t.generation ==> forall id :: id in t.unacked ==> id in w.unacked)
  }

  lemma EvolvesTwice(w: Workspace, t: Workspace, u: Workspace)
    requires Evolves(w, t) && Evolves(t, u)
    ensures Evolves(w, u)
  {
  }

  // ----- Observation

  lemma {:induction false} SavedKeys(known: map<Id, Annotation>, annotations: seq<Annotation>)
    ensures forall id :: id in known ==> id in Saved(known, annotations)
    ensures OwnIds(known) ==> OwnIds(Saved(known, annotations))
    decreases |annotations|
  {
    if annotations != [] {
      SavedKeys(known[annotations[0].id := annotations[0]], annotations[1..]);
    }
  }

  /** Only new, saved, untombstoned ids are appended, each once. */
  lemma {:induction false} JoinedAppends(pending: seq<Id>, ids: seq<Id>, tombstones: seq<Id>, known: set<Id>, saved: set<Id>)
    requires NoDup(pending)
    ensures var r := Joined(pending, ids, tombstones, known, saved);
            && pending <= r && NoDup(r)
            && (forall id :: id in r && id !in pending ==> id !in known && id in saved && id !in tombstones)
    decreases |ids|
  {
    if ids != [] {
      var next := if Joins(ids[0], tombstones, known, saved, pending) then pending + [ids[0]] else pending;
      JoinedAppends(next, ids[1..], tombstones, known, saved);
    }
  }

  lemma MergedSound(w: Workspace, snapshot: Snapshot)
    requires Sound(w)
    ensures var m := Merged(w, snapshot); Sound(m) && Evolves(w, m) && w.pending <= m.pending
    ensures Merged(w, snapshot).unacked == w.unacked && Merged(w, snapshot).generation == w.generation
  {
    var saved := Saved(w.annotations, snapshot.annotations);
    SavedKeys(w.annotations, snapshot.annotations);
    JoinedAppends(w.pending, snapshot.pending, w.tombstones, w.annotations.Keys, saved.Keys);
  }

  lemma ObservedSound(k: Key, w: Workspace, snapshot: Snapshot)
    requires Sound(w)
    ensures var o := Observed(k, w, snapshot); Sound(o) && Evolves(w, o) && w.pending <= o.pending
    ensures Observed(k, w, snapshot).unacked == w.unacked && Observed(k, w, snapshot).active == w.active
  {
    MergedSound(w, snapshot);
  }

  // ----- Removal

  lemma EvictMembers(tombstones: seq<Id>, q: Queue)
    ensures forall id :: id in Evict(tombstones, q) ==> id in tombstones
  {
  }

  /** Tombstones are added, and nothing else moves. */
  lemma {:induction false} TombstonesAdded(w: Workspace, ids: seq<Id>, q: Queue)
    ensures var t := AddTombstones(w, ids, q);
            && t == w.(tombstones := t.tombstones, unacked := t.unacked)
            && (forall id :: id in t.tombstones ==> id in w.tombstones || id in ids)
            && w.unacked <= t.unacked
            && (forall id :: id in t.unacked ==> id in w.unacked || id in ids)
            && (forall id :: id in ids && id !in w.tombstones ==> id in t.unacked)
    decreases |ids|
  {
    if ids != [] {
      var next := AddTombstone(w, ids[0], q);
      EvictMembers(w.tombstones, q);
      TombstonesAdded(next, ids[1..], q);
      assert ids == [ids[0]] + ids[1..];
      var t := AddTombstones(w, ids, q);
      forall id | id in ids && id !in w.tombstones
        ensures id in t.unacked
      {
        if id == ids[0] {
          assert id in next.unacked && next.unacked == t.unacked[..|next.unacked|];
        } else {
          assert id !in next.tombstones;
        }
      }
    }
  }

  lemma CommittedSound(w: Workspace, q: Queue)
    requires Sound(w) && w.active.Some?
    ensures var c := Committed(w, q);
            && Sound(c) && Evolves(w, c)
            && c.pending == Without(w.pending, Elements(w.active.value.ids))
            && c.annotations == w.annotations && c.active == None
            && (|c.pending| == |w.pending| ==> c.unacked == w.unacked)
            && (forall id :: id in w.pending && id !in c.pending ==> id in c.unacked)
  {
    var ids := w.active.value.ids;
    var rest := Without(w.pending, Elements(ids));
    WithoutElements(w.pending, Elements(ids));
    WithoutNoDup(w.pending, Elements(ids));
    WithoutShorter(w.pending, Elements(ids));
    TombstonesAdded(w.(active := None, pending := rest, revision := SaturatingNext(w.revision)), ids, q);
  }

  lemma DetachedSound(w: Workspace, id: Id, q: Queue)
    requires Sound(w)
    ensures var d := Detached(w, id, q);
            && Sound(d) && Evolves(w, d)
            && d.pending == Without(w.pending, {id})
            && d.annotations == w.annotations && d.active == w.active
            && (|d.pending| == |w.pending| ==> d.unacked == w.unacked)
            && (id in w.pending ==> id in d.unacked)
  {
    WithoutElements(w.pending, {id});
    WithoutNoDup(w.pending, {id});
    WithoutShorter(w.pending, {id});
    EvictMembers(w.tombstones, q);
  }

  // ----- One step of the broker, seen from one workspace

  /** Events that leave the workspace as it is, up to its active reservation. */
  predicate Unchanged(w: Workspace, t: Workspace) {
    t.(active := None) == w.(active := None)
  }

  /** The ids of an active reservation are those that waited when it was made. */
  lemma ReserveSound(b: Broker, session: SessionId, opens: bool, k: Key)
    requires Sound(WorkspaceOf(b, k))
    ensures var t := WorkspaceOf(Reserve(b, session, opens).0, k);
            Unchanged(WorkspaceOf(b, k), t) && Sound(t)
  {
  }

  lemma ReleaseSound(b: Broker, e: Event, k: Key)
    requires Sound(WorkspaceOf(b, k)) && (e.DoBind? || e.DoRenew? || e.DoUnbind? || e.DoRollback?)
    ensures var t := WorkspaceOf(Apply(Limited, b, e), k);
            Unchanged(WorkspaceOf(b, k), t) && Sound(t) && (t.active.Some? ==> t.active == WorkspaceOf(b, k).active)
    ensures Apply(Limited, b, e) == Apply(Unlimited, b, e)
  {
  }

  /** A step keeps the workspace sound, and moves it forward unless it ends the lifetime. */
  ghost predicate Moves(b: Broker, t: Broker, e: Event, k: Key) {
    && Sound(WorkspaceOf(t, k))
    && (!EndsLifetime(e, k) ==> Evolves(WorkspaceOf(b, k), WorkspaceOf(t, k)))
  }

  lemma ObserveMoves(q: Queue, b: Broker, e: Event, k: Key)
    requires Sound(WorkspaceOf(b, k)) && e.DoObserve?
    ensures Moves(b, Apply(q, b, e), e, k)
  {
    ObservedSound(k, WorkspaceOf(b, k), e.snapshot);
  }

  lemma CommitMoves(q: Queue, b: Broker, e: Event, k: Key)
    requires Sound(WorkspaceOf(b, k)) && e.DoCommit?
    ensures Moves(b, Apply(q, b, e), e, k)
  {
    if e.token.key == k && Refusal(b, e.token).None? {
      CommittedSound(WorkspaceOf(b, k), q);
    }
  }

  lemma DetachMoves(q: Queue, b: Broker, e: Event, k: Key)
    requires Sound(WorkspaceOf(b, k)) && e.DoDetach?
    ensures Moves(b, Apply(q, b, e), e, k)
  {
    DetachedSound(WorkspaceOf(b, k), e.id, q);
  }

  lemma EndMoves(q: Queue, b: Broker, e: Event, k: Key)
    requires Sound(WorkspaceOf(b, k)) && (e.DoAcknowledge? || e.DoReset? || e.DoRetire?)
    ensures Moves(b, Apply(q, b, e), e, k)
  {
  }

  lemma StepSound(q: Queue, b: Broker, e: Event, k: Key)
    requires Sound(WorkspaceOf(b, k))
    ensures Moves(b, Apply(q, b, e), e, k)
  {
    if e.DoObserve? {
      ObserveMoves(q, b, e, k);
    } else if e.DoCommit? {
      CommitMoves(q, b, e, k);
    } else if e.DoDetach? {
      DetachMoves(q, b, e, k);
    } else if e.DoReserve? {
      ReserveSound(b, e.session, e.opens, k);
    } else if e.DoAcknowledge? || e.DoReset? || e.DoRetire? {
      EndMoves(q, b, e, k);
    } else {
      ReleaseSound(b, e, k);
    }
  }

  // ----- Runs

  lemma RunSound(q: Queue, states: seq<Broker>, events: seq<Event>, k: Key, i: nat)
    requires IsRun(q, states, events) && i < |states|
    ensures Sound(WorkspaceOf(states[i], k))
  {
    forall m | 0 <= m < i && Sound(WorkspaceOf(states[m], k))
      ensures Sound(WorkspaceOf(states[m + 1], k))
    {
      assert StepAt(q, states, events, m);
      StepSound(q, states[m], events[m], k);
    }
    Chain(0, i, (m: nat) => m < |states| && Sound(WorkspaceOf(states[m], k)));
  }

  lemma RunEvolves(q: Queue, states: seq<Broker>, events: seq<Event>, k: Key, i: nat, j: nat)
    requires IsRun(q, states, events) && i <= j < |states| && OneLifetime(events, k, i, j)
    ensures Evolves(WorkspaceOf(states[i], k), WorkspaceOf(states[j], k))
  {
    var w := WorkspaceOf(states[i], k);
    forall m | i <= m < j && Evolves(w, WorkspaceOf(states[m], k))
      ensures Evolves(w, WorkspaceOf(states[m + 1], k))
    {
      RunSound(q, states, events, k, m);
      assert StepAt(q, states, events, m);
      StepSound(q, states[m], events[m], k);
      EvolvesTwice(w, WorkspaceOf(states[m], k), WorkspaceOf(states[m + 1], k));
    }
    Chain(i, j, (m: nat) => m < |states| && Evolves(w, WorkspaceOf(states[m], k)));
  }
}
