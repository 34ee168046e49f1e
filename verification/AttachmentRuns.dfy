/** The attachment broker over whole runs: the theorems. */
module AttachmentRuns {
  import opened Common
  import opened Attachments
  import opened AttachmentLaws

  // ----- Waiting ids within one lifetime

  /** Each annotation id enters the waiting list at most once. */
  lemma EntersAtMostOnce(q: Queue, states: seq<Broker>, events: seq<Event>, k: Key, i: nat, j: nat, id: Id)
    requires IsRun(q, states, events) && i < j < |events| && OneLifetime(events, k, i, j + 1)
    requires id !in WorkspaceOf(states[i], k).pending && id in WorkspaceOf(states[i + 1], k).pending
    ensures !(id !in WorkspaceOf(states[j], k).pending && id in WorkspaceOf(states[j + 1], k).pending)
  {
    RunSound(q, states, events, k, i + 1);
    RunEvolves(q, states, events, k, i + 1, j);
    RunEvolves(q, states, events, k, j, j + 1);
  }

  ghost predicate EverPending(states: seq<Broker>, k: Key, i: nat, j: nat, id: Id)
    requires i <= j < |states|
  {
    exists m :: i <= m <= j && id in WorkspaceOf(states[m], k).pending
  }

  ghost predicate RemovedAt(states: seq<Broker>, k: Key, m: nat, id: Id)
    requires m + 1 < |states|
  {
    id in WorkspaceOf(states[m], k).pending && id !in WorkspaceOf(states[m + 1], k).pending
  }

  ghost predicate RemovedByCommit(states: seq<Broker>, events: seq<Event>, k: Key, i: nat, j: nat, id: Id)
    requires i <= j < |states| == |events| + 1
  {
    exists m :: i <= m < j && events[m].DoCommit? && RemovedAt(states, k, m, id)
  }

  ghost predicate RemovedByDetach(states: seq<Broker>, events: seq<Event>, k: Key, i: nat, j: nat, id: Id)
    requires i <= j < |states| == |events| + 1
  {
    exists m :: i <= m < j && events[m].DoDetach? && RemovedAt(states, k, m, id)
  }

  /** Within a lifetime only a commit or a detachment removes. */
  lemma RemovalHasCause(q: Queue, b: Broker, e: Event, k: Key, id: Id)
    requires Sound(WorkspaceOf(b, k)) && !EndsLifetime(e, k)
    requires id in WorkspaceOf(b, k).pending && id !in WorkspaceOf(Apply(q, b, e), k).pending
    ensures e.DoCommit? || e.DoDetach?
  {
    if e.DoObserve? {
      ObservedSound(k, WorkspaceOf(b, k), e.snapshot);
    } else if e.DoBind? || e.DoRenew? || e.DoUnbind? || e.DoRollback? {
      ReleaseSound(b, e, k);
    } else if e.DoReserve? {
      ReserveSound(b, e.session, e.opens, k);
    }
  }

  lemma {:induction false} LeavesSomewhere(states: seq<Broker>, k: Key, m: nat, j: nat, id: Id) returns (at: nat)
    requires m <= j < |states|
    requires id in WorkspaceOf(states[m], k).pending && id !in WorkspaceOf(states[j], k).pending
    ensures m <= at < j && RemovedAt(states, k, at, id)
    decreases j - m
  {
    if id in WorkspaceOf(states[m + 1], k).pending {
      at := LeavesSomewhere(states, k, m + 1, j, id);
    } else {
      at := m;
    }
  }

  /** After a removal the id is known and never waits again. */
  lemma RemovedForGood(q: Queue, states: seq<Broker>, events: seq<Event>, k: Key, m: nat, j: nat, id: Id)
    requires IsRun(q, states, events) && m < j < |states| && OneLifetime(events, k, m, j)
    requires RemovedAt(states, k, m, id)
    ensures id !in WorkspaceOf(states[j], k).pending
  {
    RunSound(q, states, events, k, m);
    RunEvolves(q, states, events, k, m, m + 1);
    RunEvolves(q, states, events, k, m + 1, j);
  }

  /**
   * The ids that ever waited are the disjoint union of those that still wait, those that
   * a commit removed and those that a detachment removed.
   */
  lemma PendingPartition(q: Queue, states: seq<Broker>, events: seq<Event>, k: Key, i: nat, j: nat, id: Id)
    requires IsRun(q, states, events) && i <= j < |states| && OneLifetime(events, k, i, j)
    ensures var waits := id in WorkspaceOf(states[j], k).pending;
            var committed, detached := RemovedByCommit(states, events, k, i, j, id), RemovedByDetach(states, events, k, i, j, id);
            && (EverPending(states, k, i, j, id) <==> waits || committed || detached)
            && !(waits && committed) && !(waits && detached) && !(committed && detached)
  {
    if EverPending(states, k, i, j, id) && id !in WorkspaceOf(states[j], k).pending {
      var m :| i <= m <= j && id in WorkspaceOf(states[m], k).pending;
      var at := LeavesSomewhere(states, k, m, j, id);
      RunSound(q, states, events, k, at);
      assert StepAt(q, states, events, at);
      RemovalHasCause(q, states[at], events[at], k, id);
    }
    forall m | i <= m < j && RemovedAt(states, k, m, id)
      ensures id !in WorkspaceOf(states[j], k).pending
    {
      RemovedForGood(q, states, events, k, m, j, id);
    }
    forall m, n | i <= m < j && i <= n < j && RemovedAt(states, k, m, id) && RemovedAt(states, k, n, id)
      ensures m == n
    {
      if m < n {
        RemovedForGood(q, states, events, k, m, n, id);
      } else if n < m {
        RemovedForGood(q, states, events, k, n, m, id);
      }
    }
  }

  /** The revision is a faithful cursor until it saturates: equal revisions mean equal waiting lists. */
  lemma RevisionIsFaithful(q: Queue, states: seq<Broker>, events: seq<Event>, k: Key, i: nat, j: nat)
    requires IsRun(q, states, events) && i <= j < |states| && OneLifetime(events, k, i, j)
    ensures WorkspaceOf(states[i], k).revision <= WorkspaceOf(states[j], k).revision
    ensures WorkspaceOf(states[i], k).revision == WorkspaceOf(states[j], k).revision < U64_MAX ==>
              WorkspaceOf(states[i], k).pending == WorkspaceOf(states[j], k).pending
  {
    RunEvolves(q, states, events, k, i, j);
  }

  // ----- Removals and acknowledgements

  /** An acknowledgement clears only tombstones that its captured projection listed. */
  lemma AckClearsOnlyListed(q: Queue, states: seq<Broker>, events: seq<Event>, k: Key, i: nat, j: nat, id: Id)
    requires IsRun(q, states, events) && i <= j < |events| && OneLifetime(events, k, i, j)
    requires events[j] == DoAcknowledge(ProjectionOf(k, WorkspaceOf(states[i], k)))
    requires id in WorkspaceOf(states[j], k).unacked && id !in WorkspaceOf(states[j + 1], k).unacked
    ensures id in events[j].projection.tombstones
  {
    assert StepAt(q, states, events, j);
    RunEvolves(q, states, events, k, i, j);
  }

  lemma StepListsRemoval(q: Queue, b: Broker, e: Event, k: Key, id: Id)
    requires Sound(WorkspaceOf(b, k)) && !EndsLifetime(e, k)
    requires id in WorkspaceOf(b, k).pending && id !in WorkspaceOf(Apply(q, b, e), k).pending
    ensures id in WorkspaceOf(Apply(q, b, e), k).unacked
  {
    RemovalHasCause(q, b, e, k, id);
    if e.DoCommit? {
      CommittedSound(WorkspaceOf(b, k), q);
    } else {
      DetachedSound(WorkspaceOf(b, k), e.id, q);
      WithoutElements(WorkspaceOf(b, k).pending, {e.id});
    }
  }

  /** A removal is listed from the step that makes it. */
  lemma {:induction false} RemovalIsListed(q: Queue, states: seq<Broker>, events: seq<Event>, k: Key, m: nat, id: Id)
    requires IsRun(q, states, events) && m < |events| && !EndsLifetime(events[m], k) && RemovedAt(states, k, m, id)
    ensures id in WorkspaceOf(states[m + 1], k).unacked
  {
    assert StepAt(q, states, events, m);
    RunSound(q, states, events, k, m);
    StepListsRemoval(q, states[m], events[m], k, id);
  }

  /** A tombstone stays listed, and the workspace dirty, until an acknowledgement of the workspace. */
  lemma {:induction false} ListedUntilAck(q: Queue, b: Broker, e: Event, k: Key, id: Id)
    requires Sound(WorkspaceOf(b, k)) && !EndsLifetime(e, k) && id in WorkspaceOf(b, k).unacked
    ensures id in WorkspaceOf(Apply(q, b, e), k).unacked || (e.DoAcknowledge? && e.projection.key == k)
  {
    var w := WorkspaceOf(b, k);
    if e.DoObserve? {
      ObservedSound(k, w, e.snapshot);
    } else if e.DoCommit? {
      if e.token.key == k && Refusal(b, e.token).None? {
        var ids := w.active.value.ids;
        var rest := Without(w.pending, Elements(ids));
        var before := w.(active := None, pending := rest, revision := SaturatingNext(w.revision));
        TombstonesAdded(before, ids, q);
        var t := AddTombstones(before, ids, q);
        assert t.unacked[..|w.unacked|] == w.unacked;
      }
    } else if e.DoBind? || e.DoRenew? || e.DoUnbind? || e.DoRollback? {
      ReleaseSound(b, e, k);
    } else if e.DoReserve? {
      ReserveSound(b, e.session, e.opens, k);
    }
  }

  predicate Acknowledges(e: Event, k: Key) { e.DoAcknowledge? && e.projection.key == k }

  ghost predicate ClearedAt(states: seq<Broker>, events: seq<Event>, k: Key, n: nat, id: Id)
    requires n < |events| && |states| == |events| + 1
  {
    && Acknowledges(events[n], k)
    && id in WorkspaceOf(states[n], k).unacked && id !in WorkspaceOf(states[n + 1], k).unacked
  }

  lemma {:induction false} ListedOrCleared(states: seq<Broker>, events: seq<Event>, k: Key, i: nat, j: nat, id: Id)
    requires i <= j < |states| == |events| + 1 && id in WorkspaceOf(states[i], k).unacked
    requires forall n :: i <= n < j && id in WorkspaceOf(states[n], k).unacked ==>
               id in WorkspaceOf(states[n + 1], k).unacked || Acknowledges(events[n], k)
    ensures id in WorkspaceOf(states[j], k).unacked || exists n :: i <= n < j && ClearedAt(states, events, k, n, id)
    decreases j
  {
    if i < j {
      ListedOrCleared(states, events, k, i, j - 1, id);
      if id in WorkspaceOf(states[j - 1], k).unacked && id !in WorkspaceOf(states[j], k).unacked {
        assert id !in WorkspaceOf(states[j - 1 + 1], k).unacked;
        assert ClearedAt(states, events, k, j - 1, id);
      }
    }
  }

  /** No removal is lost: it stays listed until an acknowledgement of the workspace clears it. */
  lemma NoRemovalLost(q: Queue, states: seq<Broker>, events: seq<Event>, k: Key, m: nat, j: nat, id: Id)
    requires IsRun(q, states, events) && m < j < |states| && OneLifetime(events, k, m, j)
    requires RemovedAt(states, k, m, id)
    ensures || id in WorkspaceOf(states[j], k).unacked
            || exists n :: m < n < j && ClearedAt(states, events, k, n, id)
  {
    RemovalIsListed(q, states, events, k, m, id);
    forall n | m + 1 <= n < j && id in WorkspaceOf(states[n], k).unacked
      ensures id in WorkspaceOf(states[n + 1], k).unacked || Acknowledges(events[n], k)
    {
      assert StepAt(q, states, events, n);
      RunSound(q, states, events, k, n);
      ListedUntilAck(q, states[n], events[n], k, id);
    }
    ListedOrCleared(states, events, k, m + 1, j, id);
  }

  lemma StepDirty(q: Queue, b: Broker, e: Event, k: Key)
    requires Sound(WorkspaceOf(b, k))
    requires DirtyIfOwed(b, k)
    ensures DirtyIfOwed(Apply(q, b, e), k)
  {
    var w := WorkspaceOf(b, k);
    if e.DoObserve? {
      ObservedSound(k, w, e.snapshot);
    } else if e.DoCommit? {
      if e.token.key == k && Refusal(b, e.token).None? {
        CommittedSound(w, q);
      }
    } else if e.DoDetach? {
      DetachedSound(w, e.id, q);
    } else if e.DoBind? || e.DoRenew? || e.DoUnbind? || e.DoRollback? {
      ReleaseSound(b, e, k);
    } else if e.DoReserve? {
      ReserveSound(b, e.session, e.opens, k);
    }
  }

  ghost predicate DirtyIfOwed(b: Broker, k: Key) {
    k in b.workspaces && b.workspaces[k].unacked != [] ==> k in b.dirty
  }

  /** In every reachable state a workspace with tombstones to acknowledge is dirty. */
  lemma OwedIsDirty(q: Queue, states: seq<Broker>, events: seq<Event>, k: Key, i: nat)
    requires IsRun(q, states, events) && i < |states|
    ensures k in states[i].workspaces && states[i].workspaces[k].unacked != [] ==> k in states[i].dirty
  {
    forall m | 0 <= m < i && DirtyIfOwed(states[m], k)
      ensures DirtyIfOwed(states[m + 1], k)
    {
      assert StepAt(q, states, events, m);
      RunSound(q, states, events, k, m);
      StepDirty(q, states[m], events[m], k);
    }
    Chain(0, i, (m: nat) => m < |states| && DirtyIfOwed(states[m], k));
  }

  // ----- Bindings and reservations

  ghost predicate Keyed(b: Broker) {
    forall s :: s in b.bindings ==> b.bindings[s].session == s && b.bindings[s].generation <= b.nextGeneration
  }

  /** A workspace has at most one session binding. */
  ghost predicate OneSessionPerWorkspace(b: Broker) {
    forall s, t :: s in b.bindings && t in b.bindings && s != t ==> b.bindings[s].key != b.bindings[t].key
  }

  /** The active reservation of a workspace belongs to the live binding generation. */
  predicate Live(b: Broker, k: Key, a: Active) {
    a.session in b.bindings && b.bindings[a.session].key == k && b.bindings[a.session].generation == a.bindingGeneration
  }

  ghost predicate ReservationsLive(b: Broker) {
    forall k :: k in b.workspaces && b.workspaces[k].active.Some? ==> Live(b, k, b.workspaces[k].active.value)
  }

  ghost predicate ReservationsIssued(b: Broker) {
    forall k :: k in b.workspaces && b.workspaces[k].active.Some? ==>
      b.workspaces[k].active.value.reservation <= b.nextReservation
  }

  ghost predicate ReservationsDistinct(b: Broker) {
    forall j, k :: && j in b.workspaces && k in b.workspaces && j != k
                   && b.workspaces[j].active.Some? && b.workspaces[k].active.Some? ==>
      b.workspaces[j].active.value.reservation != b.workspaces[k].active.value.reservation
  }

  ghost predicate Bound(b: Broker) {
    && Keyed(b) && OneSessionPerWorkspace(b)
    && ReservationsLive(b) && ReservationsIssued(b) && ReservationsDistinct(b)
  }

  /** Steps other than a reservation make no reservation active. */
  lemma ActiveBefore(q: Queue, b: Broker, e: Event, k: Key)
    requires k in Apply(q, b, e).workspaces && Apply(q, b, e).workspaces[k].active.Some?
    ensures || (k in b.workspaces && b.workspaces[k].active == Apply(q, b, e).workspaces[k].active)
            || (e.DoReserve? && Apply(q, b, e).nextReservation == b.nextReservation + 1
                && Apply(q, b, e).workspaces[k].active.value.reservation == b.nextReservation + 1)
    ensures Apply(q, b, e).nextReservation >= b.nextReservation
  {
    if e.DoCommit? {
      if Refusal(b, e.token).None? {
        CommitClears(WorkspaceOf(b, e.token.key), q);
      }
    } else if e.DoDetach? {
      DetachKeepsActive(WorkspaceOf(b, e.key), e.id, q);
    }
  }

  lemma CommitClears(w: Workspace, q: Queue)
    requires w.active.Some?
    ensures Committed(w, q).active == None
  {
    TombstonesAdded(w.(active := None, pending := Without(w.pending, Elements(w.active.value.ids)),
                       revision := SaturatingNext(w.revision)), w.active.value.ids, q);
  }

  lemma DetachKeepsActive(w: Workspace, id: Id, q: Queue)
    ensures Detached(w, id, q).active == w.active
  {
  }

  lemma StepIssued(q: Queue, b: Broker, e: Event)
    requires ReservationsIssued(b)
    ensures ReservationsIssued(Apply(q, b, e))
  {
    var t := Apply(q, b, e);
    forall k | k in t.workspaces && t.workspaces[k].active.Some?
      ensures t.workspaces[k].active.value.reservation <= t.nextReservation
    {
      ActiveBefore(q, b, e, k);
    }
  }

  lemma StepDistinct(q: Queue, b: Broker, e: Event)
    requires ReservationsIssued(b) && ReservationsDistinct(b)
    ensures ReservationsDistinct(Apply(q, b, e))
  {
    var t := Apply(q, b, e);
    if !e.DoReserve? {
      forall k | k in t.workspaces && t.workspaces[k].active.Some?
        ensures k in b.workspaces && b.workspaces[k].active == t.workspaces[k].active
      {
        ActiveBefore(q, b, e, k);
      }
    }
  }

  lemma StepKeyed(q: Queue, b: Broker, e: Event)
    requires Keyed(b)
    ensures Keyed(Apply(q, b, e)) && b.nextGeneration <= Apply(q, b, e).nextGeneration
  {
  }

  lemma StepOneSession(q: Queue, b: Broker, e: Event)
    requires Keyed(b) && OneSessionPerWorkspace(b)
    ensures OneSessionPerWorkspace(Apply(q, b, e))
  {
  }

  lemma BindLive(q: Queue, b: Broker, e: Event)
    requires Keyed(b) && ReservationsLive(b) && e.DoBind?
    ensures ReservationsLive(Apply(q, b, e))
  {
    var t := Apply(q, b, e);
    forall k | k in t.workspaces && t.workspaces[k].active.Some?
      ensures Live(t, k, t.workspaces[k].active.value)
    {
      assert Live(b, k, b.workspaces[k].active.value);
      assert !HeldByReplaced(b, k, e.session, e.key);
    }
  }

  lemma RebindLive(q: Queue, b: Broker, e: Event)
    requires Keyed(b) && OneSessionPerWorkspace(b) && ReservationsLive(b) && (e.DoRenew? || e.DoUnbind? || e.DoRetire?)
    ensures ReservationsLive(Apply(q, b, e))
  {
    var t := Apply(q, b, e);
    forall k | k in t.workspaces && t.workspaces[k].active.Some?
      ensures Live(t, k, t.workspaces[k].active.value)
    {
      ActiveBefore(q, b, e, k);
      assert Live(b, k, b.workspaces[k].active.value);
    }
  }

  lemma SameBindingsLive(q: Queue, b: Broker, e: Event)
    requires ReservationsLive(b) && !e.DoBind? && !e.DoRenew? && !e.DoUnbind? && !e.DoRetire? && !e.DoReserve?
    ensures ReservationsLive(Apply(q, b, e))
  {
    var t := Apply(q, b, e);
    forall k | k in t.workspaces && t.workspaces[k].active.Some?
      ensures Live(t, k, t.workspaces[k].active.value)
    {
      ActiveBefore(q, b, e, k);
      assert t.bindings == b.bindings;
    }
  }

  lemma ReserveLive(q: Queue, b: Broker, e: Event)
    requires Keyed(b) && ReservationsLive(b) && e.DoReserve?
    ensures ReservationsLive(Apply(q, b, e))
  {
  }

  lemma StepBound(q: Queue, b: Broker, e: Event)
    requires Bound(b)
    ensures Bound(Apply(q, b, e))
  {
    StepKeyed(q, b, e);
    StepOneSession(q, b, e);
    StepIssued(q, b, e);
    StepDistinct(q, b, e);
    if e.DoBind? {
      BindLive(q, b, e);
    } else if e.DoReserve? {
      ReserveLive(q, b, e);
    } else if e.DoRenew? || e.DoUnbind? || e.DoRetire? {
      RebindLive(q, b, e);
    } else {
      SameBindingsLive(q, b, e);
    }
  }

  /** In every reachable state a workspace has one binding and its reservation belongs to it. */
  lemma RunBound(q: Queue, states: seq<Broker>, events: seq<Event>, i: nat)
    requires IsRun(q, states, events) && i < |states|
    ensures Bound(states[i])
  {
    forall m | 0 <= m < i && Bound(states[m])
      ensures Bound(states[m + 1])
    {
      assert StepAt(q, states, events, m);
      StepBound(q, states[m], events[m]);
    }
    Chain(0, i, (m: nat) => m < |states| && Bound(states[m]));
  }
}
