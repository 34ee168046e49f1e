/** Who may commit, and what a rollback gives back. */
module AttachmentHolders {
  import opened Common
  import opened Attachments
  import opened AttachmentLaws
  import opened AttachmentRuns
  import opened AttachmentCommits

  /** The events that end the reservation that a token stands for. */
  predicate Ends(b: Broker, e: Event, t: Token) {
    match e
    case DoBind(session, k) => session == t.session || k == t.key
    case DoRenew(p) => IsBound(b, p) && p.session == t.session
    case DoUnbind(p) => IsBound(b, p) && p.session == t.session
    case DoCommit(u) => u.(ids := []) == t.(ids := [])
    case DoRollback(u) => u.(ids := []) == t.(ids := [])
    case DoReset(k) => k == t.key
    case DoRetire(k) => k == t.key
    case _ => false
  }

  ghost predicate Holds(b: Broker, t: Token) { HasActive(b, t.key, ActiveOf(t)) }

  lemma StepEndsByBinding(q: Queue, b: Broker, e: Event, t: Token)
    requires Bound(b) && Holds(b, t) && (e.DoBind? || e.DoRenew? || e.DoUnbind?)
    ensures Holds(Apply(q, b, e), t) <==> !Ends(b, e, t)
  {
    assert Live(b, t.key, ActiveOf(t));
    assert e.DoBind? ==> (HeldByReplaced(b, t.key, e.session, e.key) <==> Ends(b, e, t));
  }

  lemma StepEndsByToken(q: Queue, b: Broker, e: Event, t: Token)
    requires Bound(b) && Holds(b, t) && (e.DoCommit? || e.DoRollback?)
    ensures Holds(Apply(q, b, e), t) <==> !Ends(b, e, t)
  {
    assert Live(b, t.key, ActiveOf(t));
    if e.DoCommit? && Refusal(b, e.token).None? {
      CommitClears(b.workspaces[e.token.key], q);
    }
  }

  lemma StepEnds(q: Queue, b: Broker, e: Event, t: Token)
    requires Bound(b) && Holds(b, t)
    ensures Holds(Apply(q, b, e), t) <==> !Ends(b, e, t)
  {
    if e.DoBind? || e.DoRenew? || e.DoUnbind? {
      StepEndsByBinding(q, b, e, t);
    } else if e.DoCommit? || e.DoRollback? {
      StepEndsByToken(q, b, e, t);
    } else if e.DoDetach? {
      DetachKeepsActive(WorkspaceOf(b, e.key), e.id, q);
    }
  }

  /** A token is accepted while its reservation is active. */
  lemma AcceptedWhileHeld(b: Broker, t: Token)
    requires Bound(b) && Holds(b, t)
    ensures Refusal(b, t).None?
  {
    assert Live(b, t.key, ActiveOf(t));
  }

  /**
   * The token of a reservation is accepted at a later state exactly when no event in between ended
   * the reservation: another binding of the session or the workspace, a renewal, an unbinding, a
   * commit or rollback with that token, or a reset or retirement of the workspace.
   */
  lemma {:induction false} AcceptedExactly(q: Queue, states: seq<Broker>, events: seq<Event>, i: nat, j: nat, reserved: Token)
    requires IsRun(q, states, events) && i < j < |states|
    requires events[i].DoReserve? && Reserve(states[i], events[i].session, events[i].opens).1 == Some(reserved)
    ensures Refusal(states[j], reserved).None? <==> forall m :: i < m < j ==> !Ends(states[m], events[m], reserved)
  {
    ReservedAt(q, states, events, i, reserved);
    if Refusal(states[j], reserved).None? {
      HeldWhenAccepted(q, states, events, i, j, reserved);
      forall m | i < m < j
        ensures !Ends(states[m], events[m], reserved)
      {
        HeldSince(q, states, events, i, j, m, reserved);
        HeldSince(q, states, events, i, j, m + 1, reserved);
        RunBound(q, states, events, m);
        assert StepAt(q, states, events, m);
        StepEnds(q, states[m], events[m], reserved);
      }
    }
    if forall m :: i < m < j ==> !Ends(states[m], events[m], reserved) {
      HeldUntilEnded(q, states, events, i, j, reserved);
      RunBound(q, states, events, j);
      AcceptedWhileHeld(states[j], reserved);
    }
  }

  lemma {:induction false} HeldUntilEnded(q: Queue, states: seq<Broker>, events: seq<Event>, i: nat, j: nat, reserved: Token)
    requires IsRun(q, states, events) && i < j < |states| && Holds(states[i + 1], reserved)
    requires forall m :: i < m < j ==> !Ends(states[m], events[m], reserved)
    ensures Holds(states[j], reserved)
    decreases j
  {
    if i + 1 < j {
      HeldUntilEnded(q, states, events, i, j - 1, reserved);
      RunBound(q, states, events, j - 1);
      assert StepAt(q, states, events, j - 1);
      StepEnds(q, states[j - 1], events[j - 1], reserved);
    }
  }

  lemma {:induction false} HeldSince(q: Queue, states: seq<Broker>, events: seq<Event>, i: nat, j: nat, m: nat, reserved: Token)
    requires IsRun(q, states, events) && i < m <= j < |states| && Holds(states[j], reserved)
    requires states[i + 1].nextReservation == reserved.reservation
    ensures Holds(states[m], reserved)
  {
    ActiveSinceIssued(q, states, events, reserved.key, i + 1, j, m, ActiveOf(reserved));
  }

  lemma {:induction false} HeldWhenAccepted(q: Queue, states: seq<Broker>, events: seq<Event>, i: nat, j: nat, reserved: Token)
    requires IsRun(q, states, events) && i < j < |states| && Refusal(states[j], reserved).None?
    requires Holds(states[i + 1], reserved) && states[i + 1].nextReservation == reserved.reservation
    ensures Holds(states[j], reserved)
  {
    var a := states[j].workspaces[reserved.key].active.value;
    ActiveSinceIssued(q, states, events, reserved.key, i + 1, j, i + 1, a);
  }

  /**
   * An accepted rollback releases the reservation and changes nothing else: what waits goes on
   * waiting, and the same session can reserve all of it at once.
   */
  lemma RollbackReleases(q: Queue, states: seq<Broker>, events: seq<Event>, i: nat, t: Token)
    requires IsRun(q, states, events) && i < |states| && Refusal(states[i], t).None?
    ensures var b, r := states[i], Rollback(states[i], t).0;
            && Rollback(b, t).1.Ok?
            && WorkspaceOf(r, t.key) == WorkspaceOf(b, t.key).(active := None)
            && (forall k :: k != t.key ==> WorkspaceOf(r, k) == WorkspaceOf(b, k))
            && r == b.(workspaces := r.workspaces) && r.workspaces.Keys == b.workspaces.Keys
            && Refusal(r, t) == Some(StaleReservation)
            && (WorkspaceOf(b, t.key).pending != [] ==>
                  var again := Reserve(r, t.session, true).1;
                  && again.Some? && again.value.ids == WorkspaceOf(b, t.key).pending
                  && again.value.reservation > t.reservation)
  {
    RunBound(q, states, events, i);
  }

  /** What is listed as removed does not wait, and is known. */
  ghost predicate ListedIsGone(w: Workspace) {
    forall id :: id in w.unacked ==> id in w.annotations && id !in w.pending
  }

  lemma StepListedIsGone(q: Queue, b: Broker, e: Event, k: Key)
    requires Sound(WorkspaceOf(b, k)) && ListedIsGone(WorkspaceOf(b, k))
    ensures ListedIsGone(WorkspaceOf(Apply(q, b, e), k))
  {
    var w, t := WorkspaceOf(b, k), WorkspaceOf(Apply(q, b, e), k);
    StepSound(q, b, e, k);
    if e.DoCommit? && e.token.key == k && Refusal(b, e.token).None? {
      CommittedListed(w, q);
    } else if e.DoDetach? && e.key == k {
      DetachedListed(w, e.id, q);
    } else if e.DoObserve? {
      ObservedSound(k, w, e.snapshot);
    } else if e.DoReserve? {
      ReserveSound(b, e.session, e.opens, k);
    } else if e.DoBind? || e.DoRenew? || e.DoUnbind? || e.DoRollback? {
      ReleaseSound(b, e, k);
    }
  }

  lemma CommittedListed(w: Workspace, q: Queue)
    requires Sound(w) && ListedIsGone(w) && w.active.Some?
    ensures ListedIsGone(Committed(w, q))
  {
    var ids := w.active.value.ids;
    var rest := Without(w.pending, Elements(ids));
    CommittedSound(w, q);
    WithoutElements(w.pending, Elements(ids));
    TombstonesAdded(w.(active := None, pending := rest, revision := SaturatingNext(w.revision)), ids, q);
  }

  lemma DetachedListed(w: Workspace, id: Id, q: Queue)
    requires Sound(w) && ListedIsGone(w)
    ensures ListedIsGone(Detached(w, id, q))
  {
    DetachedSound(w, id, q);
    WithoutElements(w.pending, {id});
    WithoutShorter(w.pending, {id});
  }

  /** In every reachable state no waiting annotation is listed as removed. */
  lemma ListedNeverWaits(q: Queue, states: seq<Broker>, events: seq<Event>, k: Key, i: nat)
    requires IsRun(q, states, events) && i < |states|
    ensures ListedIsGone(WorkspaceOf(states[i], k))
  {
    forall m | 0 <= m < i && ListedIsGone(WorkspaceOf(states[m], k))
      ensures ListedIsGone(WorkspaceOf(states[m + 1], k))
    {
      RunSound(q, states, events, k, m);
      assert StepAt(q, states, events, m);
      StepListedIsGone(q, states[m], events[m], k);
    }
    Chain(0, i, (m: nat) => m < |states| && ListedIsGone(WorkspaceOf(states[m], k)));
  }

  // ----- The tombstone queue

  lemma {:induction false} AddedWithin(w: Workspace, ids: seq<Id>)
    requires |w.tombstones| <= MAX_TOMBSTONES && NoDup(w.tombstones)
    ensures |AddTombstones(w, ids, Limited).tombstones| <= MAX_TOMBSTONES && NoDup(AddTombstones(w, ids, Limited).tombstones)
    decreases |ids|
  {
    if ids != [] {
      AddedWithin(AddTombstone(w, ids[0], Limited), ids[1..]);
    }
  }

  ghost predicate QueueWithin(w: Workspace) { |w.tombstones| <= MAX_TOMBSTONES && NoDup(w.tombstones) }

  lemma StepQueueWithin(b: Broker, e: Event, k: Key)
    requires QueueWithin(WorkspaceOf(b, k))
    ensures QueueWithin(WorkspaceOf(Apply(Limited, b, e), k))
  {
    var w := WorkspaceOf(b, k);
    if e.DoCommit? && e.token.key == k && Refusal(b, e.token).None? {
      var ids := w.active.value.ids;
      AddedWithin(w.(active := None, pending := Without(w.pending, Elements(ids)), revision := SaturatingNext(w.revision)), ids);
    } else if e.DoDetach? && e.key == k {
      AddedWithin(w.(pending := Without(w.pending, {e.id}), revision := SaturatingNext(w.revision)), [e.id]);
    }
  }

  /** In every reachable state at most 512 tombstones are kept, each once. */
  lemma TombstonesWithin(states: seq<Broker>, events: seq<Event>, k: Key, i: nat)
    requires IsRun(Limited, states, events) && i < |states|
    ensures QueueWithin(WorkspaceOf(states[i], k))
  {
    forall m | 0 <= m < i && QueueWithin(WorkspaceOf(states[m], k))
      ensures QueueWithin(WorkspaceOf(states[m + 1], k))
    {
      assert StepAt(Limited, states, events, m);
      StepQueueWithin(states[m], events[m], k);
    }
    Chain(0, i, (m: nat) => m < |states| && QueueWithin(WorkspaceOf(states[m], k)));
  }

  /** A binding takes the place of those of its session and its workspace and leaves all others. */
  lemma BindLeavesOthers(q: Queue, states: seq<Broker>, events: seq<Event>, i: nat, session: SessionId, k: Key)
    requires IsRun(q, states, events) && i < |states|
    ensures var b, r := states[i], Bind(states[i], session, k);
            && session in r.bindings && r.bindings[session].key == k
            && r.bindings[session].generation > b.nextGeneration
            && (forall s :: s != session ==>
                  (s in r.bindings <==> s in b.bindings && b.bindings[s].key != k)
                  && (s in r.bindings ==> r.bindings[s] == b.bindings[s]))
            && (forall j :: j in b.workspaces && j != k && !(session in b.bindings && b.bindings[session].key == j) ==>
                  WorkspaceOf(r, j) == WorkspaceOf(b, j))
  {
    RunBound(q, states, events, i);
  }
}
