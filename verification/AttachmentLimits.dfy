/**
 * Where the guarantees of the attachment broker end: a saturated revision tells nothing,
 * and an acknowledgement that outlives a workspace can clear what it never listed.
 */
module AttachmentLimits {
  import opened Common
  import opened Attachments
  import opened AttachmentLaws
  import opened AttachmentRuns

  // ----- Fresh ids

  lemma {:induction false} Longest(ids: set<Id>) returns (n: nat)
    ensures forall id :: id in ids ==> |id| <= n
  {
    n := 0;
    if x :| x in ids {
      n := Longest(ids - {x});
      n := if n < |x| then |x| else n;
    }
  }

  lemma FreshId(ids: set<Id>) returns (x: Id)
    ensures x !in ids
  {
    var n := Longest(ids);
    x := seq(n + 1, _ => 'x');
  }

  // ----- One annotation that is saved with the next revision, or detached

  function SaveOne(id: Id, revision: Revision): Snapshot {
    Snapshot([Annotation(id, "")], [id], revision)
  }

  /** Saving a new annotation makes it wait last, tells every projection apart and owes nothing new. */
  lemma {:induction false} SavedOne(k: Key, w: Workspace, id: Id, revision: Revision)
    requires Sound(w) && id !in w.annotations
    ensures var o := Observed(k, w, SaveOne(id, revision));
            && o.pending == w.pending + [id] && o.unacked == w.unacked && o.tombstones == w.tombstones
            && o.generation == w.generation + 1
            && (revision > w.revision ==> o.revision == revision)
  {
    var saved := w.annotations[id := Annotation(id, "")];
    assert Saved(w.annotations, [Annotation(id, "")]) == Saved(saved, []) == saved;
    assert Joined(w.pending, [id], w.tombstones, w.annotations.Keys, saved.Keys)
        == Joined(w.pending + [id], [], w.tombstones, w.annotations.Keys, saved.Keys) == w.pending + [id];
  }

  lemma {:induction false} DetachedOnly(w: Workspace, id: Id, q: Queue)
    requires w.pending == [id] && id !in w.tombstones
    ensures var d := Detached(w, id, q);
            && d.pending == [] && d.unacked == w.unacked + [id] && d.generation == w.generation + 1
            && d.revision == SaturatingNext(w.revision)
  {
    assert Without([id], {id}) == Without([], {id}) == [];
  }

  lemma FreshSound()
    ensures Sound(FRESH)
  {
  }

  // ----- The revision as a cursor

  ghost predicate Faithful(q: Queue, v: Revision) {
    forall states: seq<Broker>, events: seq<Event>, k: Key, i: nat, j: nat ::
      && IsRun(q, states, events) && i <= j < |states| && OneLifetime(events, k, i, j)
      && WorkspaceOf(states[i], k).revision == v && WorkspaceOf(states[j], k).revision == v
      ==> WorkspaceOf(states[i], k).pending == WorkspaceOf(states[j], k).pending
  }

  /** A snapshot at the largest revision, and then a detachment: the revision stays and the list does not. */
  lemma SaturatedRevision(q: Queue, k: Key, id: Id)
    ensures var one := Observe(EMPTY, k, SaveOne(id, U64_MAX));
            var two := Detach(one, k, id, q);
            && WorkspaceOf(one, k).revision == WorkspaceOf(two, k).revision == U64_MAX
            && WorkspaceOf(one, k).pending == [id] && WorkspaceOf(two, k).pending == []
  {
    FreshSound();
    SavedOne(k, FRESH, id, U64_MAX);
    DetachedOnly(Observed(k, FRESH, SaveOne(id, U64_MAX)), id, q);
  }

  /** Equal revisions mean equal waiting lists exactly for the revisions below the largest. */
  lemma FaithfulExactly(q: Queue, v: Revision)
    ensures Faithful(q, v) <==> v < U64_MAX
  {
    if v < U64_MAX {
      forall states: seq<Broker>, events: seq<Event>, k: Key, i: nat, j: nat
        | && IsRun(q, states, events) && i <= j < |states| && OneLifetime(events, k, i, j)
          && WorkspaceOf(states[i], k).revision == v && WorkspaceOf(states[j], k).revision == v
        ensures WorkspaceOf(states[i], k).pending == WorkspaceOf(states[j], k).pending
      {
        RevisionIsFaithful(q, states, events, k, i, j);
      }
    } else {
      var k := FreshId({});
      var states, events := SaturatedRun(q, k, k);
      assert OneLifetime(events, k, 1, 2);
    }
  }

  lemma TwoSteps(q: Queue, first: Event, second: Event)
    ensures var one := Apply(q, EMPTY, first);
            IsRun(q, [EMPTY, one, Apply(q, one, second)], [first, second])
  {
  }

  lemma SaturatedRun(q: Queue, k: Key, id: Id) returns (states: seq<Broker>, events: seq<Event>)
    ensures IsRun(q, states, events) && |states| == 3 && OneLifetime(events, k, 1, 2)
    ensures WorkspaceOf(states[1], k).revision == WorkspaceOf(states[2], k).revision == U64_MAX
    ensures WorkspaceOf(states[1], k).pending != WorkspaceOf(states[2], k).pending
  {
    var first, second := DoObserve(k, SaveOne(id, U64_MAX)), DoDetach(k, id);
    var one := Apply(q, EMPTY, first);
    SaturatedRevision(q, k, id);
    TwoSteps(q, first, second);
    states, events := [EMPTY, one, Apply(q, one, second)], [first, second];
  }

  // ----- Acknowledgements that outlive their workspace

  /** One annotation is saved and detached. */
  function SavedAndDetached(q: Queue, b: Broker, k: Key, id: Id): Broker {
    Detach(Observe(b, k, SaveOne(id, 1)), k, id, q)
  }

  lemma DetachedFirst(q: Queue, b: Broker, k: Key, id: Id)
    requires k !in b.workspaces
    ensures var w := WorkspaceOf(SavedAndDetached(q, b, k, id), k); w.unacked == [id] && w.generation == 2
  {
    FreshSound();
    SavedOne(k, FRESH, id, 1);
    DetachedOnly(Observed(k, FRESH, SaveOne(id, 1)), id, q);
  }

  /** An acknowledgement captured before a reset is accepted after it and clears a removal it never listed. */
  lemma StaleAcknowledgement(q: Queue, k: Key, a: Id, b: Id)
    requires a != b
    ensures var one := SavedAndDetached(q, EMPTY, k, a);
            ClearsUnlisted(SavedAndDetached(q, Reset(one, k), k, b), ProjectionOf(k, WorkspaceOf(one, k)))
  {
    var one := SavedAndDetached(q, EMPTY, k, a);
    DetachedFirst(q, EMPTY, k, a);
    DetachedFirst(q, Reset(one, k), k, b);
    assert b in WorkspaceOf(SavedAndDetached(q, Reset(one, k), k, b), k).unacked;
  }

  /** The events continue from the given state. */
  ghost predicate Continues(q: Queue, b: Broker, states: seq<Broker>, events: seq<Event>) {
    && |states| == |events| + 1 && states[0] == b
    && forall i :: 0 <= i < |events| ==> states[i + 1] == Apply(q, states[i], events[i])
  }

  /** The acknowledgement is accepted and clears a removal that the projection does not list. */
  ghost predicate ClearsUnlisted(b: Broker, p: Projection) {
    && Acknowledge(b, p).1
    && exists id :: && id in WorkspaceOf(b, p.key).unacked && id !in p.tombstones
                    && id !in WorkspaceOf(Acknowledge(b, p).0, p.key).unacked
  }

  ghost predicate CanClearUnlisted(q: Queue, b: Broker, p: Projection) {
    exists states, events ::
      Continues(q, b, states, events) && OneLifetime(events, p.key, 0, |events|) && ClearsUnlisted(states[|events|], p)
  }

  /** Something waits only after one change of the projection, and is owed only after two. */
  ghost predicate CountsChanges(w: Workspace) {
    (w.pending != [] ==> w.generation >= 1) && (w.unacked != [] ==> w.generation >= 2)
  }

  ghost predicate Counting(b: Broker, k: Key) {
    Sound(WorkspaceOf(b, k)) && CountsChanges(WorkspaceOf(b, k))
  }

  lemma ObservedCounts(k: Key, w: Workspace, snapshot: Snapshot)
    requires Sound(w) && CountsChanges(w)
    ensures CountsChanges(Observed(k, w, snapshot))
  {
    MergedSound(w, snapshot);
  }

  lemma CommittedCounts(w: Workspace, q: Queue)
    requires Sound(w) && CountsChanges(w) && w.active.Some?
    ensures CountsChanges(Committed(w, q))
  {
    var ids := w.active.value.ids;
    WithoutShorter(w.pending, Elements(ids));
    TombstonesAdded(w.(active := None, pending := Without(w.pending, Elements(ids)),
                       revision := SaturatingNext(w.revision)), ids, q);
  }

  lemma DetachedCounts(w: Workspace, id: Id, q: Queue)
    requires CountsChanges(w)
    ensures CountsChanges(Detached(w, id, q))
  {
    WithoutShorter(w.pending, {id});
  }

  lemma StepCounts(q: Queue, b: Broker, e: Event, k: Key)
    requires Counting(b, k)
    ensures Counting(Apply(q, b, e), k)
  {
    var w := WorkspaceOf(b, k);
    StepSound(q, b, e, k);
    if e.DoObserve? {
      ObservedCounts(k, w, e.snapshot);
    } else if e.DoCommit? {
      if e.token.key == k && Refusal(b, e.token).None? {
        CommittedCounts(w, q);
      }
    } else if e.DoDetach? {
      DetachedCounts(w, e.id, q);
    } else if e.DoReserve? {
      ReserveSound(b, e.session, e.opens, k);
    } else if !(e.DoAcknowledge? || e.DoReset? || e.DoRetire?) {
      ReleaseSound(b, e, k);
    }
  }

  lemma ContinuesCounting(q: Queue, b: Broker, states: seq<Broker>, events: seq<Event>, k: Key)
    requires Continues(q, b, states, events) && Counting(b, k)
    ensures Counting(states[|events|], k)
  {
    forall m | 0 <= m < |events| && Counting(states[m], k)
      ensures Counting(states[m + 1], k)
    {
      StepCounts(q, states[m], events[m], k);
    }
    Chain(0, |events|, (m: nat) => m < |states| && Counting(states[m], k));
  }

  lemma ContinueOne(q: Queue, b: Broker, states: seq<Broker>, events: seq<Event>, e: Event)
    requires Continues(q, b, states, events)
    ensures Continues(q, b, states + [Apply(q, states[|events|], e)], events + [e])
  {
    var more, all := states + [Apply(q, states[|events|], e)], events + [e];
    forall i | 0 <= i < |all|
      ensures more[i + 1] == Apply(q, more[i], all[i])
    {
      if i < |events| {
        assert more[i] == states[i] && more[i + 1] == states[i + 1] && all[i] == events[i];
      }
    }
  }

  /** Any generation from two on is reached by a workspace that owes one given removal. */
  lemma {:induction false} OwingAt(q: Queue, b: Broker, k: Key, id: Id, generation: nat)
    returns (states: seq<Broker>, events: seq<Event>)
    requires k !in b.workspaces && generation >= 2
    ensures Continues(q, b, states, events) && OneLifetime(events, k, 0, |events|)
    ensures var w := WorkspaceOf(states[|events|], k); Sound(w) && w.unacked == [id] && w.generation == generation
    ensures k in states[|events|].workspaces
  {
    var e: Event;
    if generation == 2 {
      var one := Observe(b, k, SaveOne(id, 1));
      states, events := [b, one], [DoObserve(k, SaveOne(id, 1))];
      e := DoDetach(k, id);
      FreshSound();
      SavedOne(k, FRESH, id, 1);
      DetachedOnly(Observed(k, FRESH, SaveOne(id, 1)), id, q);
      StepSound(q, b, events[0], k);
    } else {
      states, events := OwingAt(q, b, k, id, generation - 1);
      var w := WorkspaceOf(states[|events|], k);
      var x := FreshId(w.annotations.Keys);
      e := DoObserve(k, SaveOne(x, 0));
      SavedOne(k, w, x, 0);
    }
    var last := states[|events|];
    StepSound(q, last, e, k);
    ContinueOne(q, b, states, events, e);
    states, events := states + [Apply(q, last, e)], events + [e];
  }

  /**
   * A projection captured before the workspace was reset can, in some continuation, be accepted
   * and clear a removal that it never listed, exactly when its generation is at least two.
   */
  lemma StaleAcknowledgementExactly(q: Queue, b: Broker, p: Projection)
    requires p.key !in b.workspaces
    ensures CanClearUnlisted(q, b, p) <==> p.generation >= 2
  {
    if CanClearUnlisted(q, b, p) {
      var states, events :|
        Continues(q, b, states, events) && OneLifetime(events, p.key, 0, |events|) && ClearsUnlisted(states[|events|], p);
      FreshSound();
      ContinuesCounting(q, b, states, events, p.key);
    }
    if p.generation >= 2 {
      var id := FreshId(Elements(p.tombstones));
      var states, events := OwingAt(q, b, p.key, id, p.generation);
      assert id in WorkspaceOf(states[|events|], p.key).unacked;
      assert ClearsUnlisted(states[|events|], p);
    }
  }
}
