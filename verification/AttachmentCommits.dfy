/** What a commit of the attachment broker does, over whole runs; and the tombstone queue. */
module AttachmentCommits {
  import opened Common
  import opened Attachments
  import opened AttachmentLaws
  import opened AttachmentRuns

  predicate Commits(b: Broker, e: Event) {
    e.DoCommit? && Refusal(b, e.token).None?
  }

  // ----- At most once

  /** A reservation that was issued and is active nowhere. */
  ghost predicate Spent(b: Broker, reservation: nat) {
    && reservation <= b.nextReservation
    && forall k :: k in b.workspaces && b.workspaces[k].active.Some? ==>
         b.workspaces[k].active.value.reservation != reservation
  }

  lemma StepKeepsSpent(q: Queue, b: Broker, e: Event, reservation: nat)
    requires Spent(b, reservation)
    ensures Spent(Apply(q, b, e), reservation)
  {
    var t := Apply(q, b, e);
    CounterGrows(q, b, e);
    forall k | k in t.workspaces && t.workspaces[k].active.Some?
      ensures t.workspaces[k].active.value.reservation != reservation
    {
      ActiveBefore(q, b, e, k);
    }
  }

  lemma CounterGrows(q: Queue, b: Broker, e: Event)
    ensures Apply(q, b, e).nextReservation >= b.nextReservation
    ensures Apply(q, b, e).nextGeneration >= b.nextGeneration
  {
  }

  lemma CommitSpends(q: Queue, b: Broker, e: Event)
    requires Bound(b) && Commits(b, e)
    ensures Spent(Apply(q, b, e), e.token.reservation)
  {
    var t := Apply(q, b, e);
    CommitClears(b.workspaces[e.token.key], q);
    forall k | k in t.workspaces && t.workspaces[k].active.Some?
      ensures t.workspaces[k].active.value.reservation != e.token.reservation
    {
      assert k != e.token.key && t.workspaces[k] == b.workspaces[k];
    }
  }

  lemma RunKeepsSpent(q: Queue, states: seq<Broker>, events: seq<Event>, i: nat, j: nat, reservation: nat)
    requires IsRun(q, states, events) && i <= j < |states| && Spent(states[i], reservation)
    ensures Spent(states[j], reservation)
  {
    forall m | i <= m < j && Spent(states[m], reservation)
      ensures Spent(states[m + 1], reservation)
    {
      assert StepAt(q, states, events, m);
      StepKeepsSpent(q, states[m], events[m], reservation);
    }
    Chain(i, j, (m: nat) => m < |states| && Spent(states[m], reservation));
  }

  /** Each reservation commits at most once. */
  lemma CommitsAtMostOnce(q: Queue, states: seq<Broker>, events: seq<Event>, i: nat, j: nat)
    requires IsRun(q, states, events) && i < j < |events|
    requires Commits(states[i], events[i]) && Commits(states[j], events[j])
    ensures events[i].token.reservation != events[j].token.reservation
  {
    RunBound(q, states, events, i);
    assert StepAt(q, states, events, i);
    CommitSpends(q, states[i], events[i]);
    RunKeepsSpent(q, states, events, i + 1, j, events[i].token.reservation);
  }

  // ----- Never after a rebinding

  /** No live binding of the session to the workspace has that generation, and none ever will. */
  ghost predicate Outdated(b: Broker, session: SessionId, k: Key, generation: nat) {
    && generation <= b.nextGeneration
    && !(session in b.bindings && b.bindings[session].key == k && b.bindings[session].generation == generation)
  }

  lemma StepKeepsOutdated(q: Queue, b: Broker, e: Event, session: SessionId, k: Key, generation: nat)
    requires Outdated(b, session, k, generation)
    ensures Outdated(Apply(q, b, e), session, k, generation)
  {
  }

  /** The events that replace the binding of a session, or of a workspace. */
  predicate Rebinds(b: Broker, e: Event, session: SessionId, k: Key) {
    || (e.DoBind? && (e.session == session || e.key == k))
    || (e.DoRenew? && IsBound(b, e.binding) && e.binding.session == session)
    || (e.DoUnbind? && IsBound(b, e.binding) && e.binding.session == session)
    || (e.DoRetire? && e.key == k)
  }

  lemma RebindOutdates(q: Queue, b: Broker, e: Event, session: SessionId, k: Key, generation: nat)
    requires Keyed(b) && Rebinds(b, e, session, k) && generation <= b.nextGeneration
    ensures Outdated(Apply(q, b, e), session, k, generation)
  {
  }

  /** A token of a generation that was handed out before a rebinding never commits after it. */
  lemma NeverCommitsAfterRebind(q: Queue, states: seq<Broker>, events: seq<Event>, i: nat, j: nat)
    requires IsRun(q, states, events) && i < j < |events| && events[j].DoCommit?
    requires Rebinds(states[i], events[i], events[j].token.session, events[j].token.key)
    requires events[j].token.bindingGeneration <= states[i].nextGeneration
    ensures Refusal(states[j], events[j].token) == Some(StaleBinding)
    ensures states[j + 1] == states[j]
  {
    var t := events[j].token;
    assert StepAt(q, states, events, i);
    assert StepAt(q, states, events, j);
    RunBound(q, states, events, i);
    RebindOutdates(q, states[i], events[i], t.session, t.key, t.bindingGeneration);
    forall m | i + 1 <= m < j && Outdated(states[m], t.session, t.key, t.bindingGeneration)
      ensures Outdated(states[m + 1], t.session, t.key, t.bindingGeneration)
    {
      assert StepAt(q, states, events, m);
      StepKeepsOutdated(q, states[m], events[m], t.session, t.key, t.bindingGeneration);
    }
    Chain(i + 1, j, (m: nat) => m < |states| && Outdated(states[m], t.session, t.key, t.bindingGeneration));
  }

  /** Rebinding never leaves waiting ids behind a dead reservation. */
  lemma RebindingUnblocks(q: Queue, states: seq<Broker>, events: seq<Event>, i: nat, session: SessionId, k: Key)
    requires IsRun(q, states, events) && i < |states|
    requires WorkspaceOf(Bind(states[i], session, k), k).pending != []
    ensures var b := Bind(states[i], session, k);
            && WorkspaceOf(b, k).active == None
            && Reserve(b, session, true).1.Some?
            && Reserve(b, session, true).1.value.ids == WorkspaceOf(states[i], k).pending
  {
    RunBound(q, states, events, i);
    var b := states[i];
    if b.workspaces[k].active.Some? {
      assert Live(b, k, b.workspaces[k].active.value);
      assert HeldByReplaced(b, k, session, k);
    }
  }

  // ----- What a commit leaves

  /** The ids that joined after state `i` and were not detached since, in their order of arrival. */
  ghost function Survivors(states: seq<Broker>, events: seq<Event>, k: Key, i: nat, j: nat): seq<Id>
    requires i <= j < |states| == |events| + 1
    decreases j
  {
    if i == j then []
    else
      var earlier := Survivors(states, events, k, i, j - 1);
      var e := events[j - 1];
      if e.DoObserve? && e.key == k then earlier + Arrivals(WorkspaceOf(states[j - 1], k), WorkspaceOf(states[j], k))
      else if e.DoDetach? && e.key == k then Without(earlier, {e.id})
      else earlier
  }

  /** What one observation appended to the waiting list. */
  function Arrivals(w: Workspace, t: Workspace): seq<Id> {
    if |w.pending| <= |t.pending| then t.pending[|w.pending|..] else []
  }

  ghost predicate HasActive(b: Broker, k: Key, a: Active) {
    k in b.workspaces && b.workspaces[k].active == Some(a)
  }

  lemma WithoutBoth(p: seq<Id>, a: set<Id>, b: set<Id>)
    ensures Without(Without(p, a), b) == Without(Without(p, b), a)
  {
    WithoutTwice(p, a, b);
    WithoutTwice(p, b, a);
    assert a + b == b + a;
  }

  /** While a reservation stays active, the waiting ids beside it change as `Survivors` says. */
  lemma StepBesideActive(q: Queue, b: Broker, e: Event, k: Key, a: Active)
    requires Sound(WorkspaceOf(b, k)) && HasActive(b, k, a) && HasActive(Apply(q, b, e), k, a)
    requires ReservationsIssued(b)
    ensures var p, r := WorkspaceOf(b, k), WorkspaceOf(Apply(q, b, e), k);
            Without(r.pending, Elements(a.ids)) ==
            var beside := Without(p.pending, Elements(a.ids));
            if e.DoObserve? && e.key == k then beside + Arrivals(p, r)
            else if e.DoDetach? && e.key == k then Without(beside, {e.id})
            else beside
  {
    var p := WorkspaceOf(b, k);
    if e.DoObserve? && e.key == k {
      ObserveBeside(p, e.snapshot, k, a);
    } else if e.DoDetach? && e.key == k {
      DetachedSound(p, e.id, q);
      WithoutBoth(p.pending, {e.id}, Elements(a.ids));
    } else if e.DoCommit? {
      if Refusal(b, e.token).None? {
        CommitClears(WorkspaceOf(b, e.token.key), q);
      }
    } else if e.DoBind? || e.DoRenew? || e.DoUnbind? || e.DoRollback? {
      ReleaseSound(b, e, k);
    } else if e.DoReserve? {
      ReserveSound(b, e.session, e.opens, k);
    }
  }

  lemma ObserveBeside(w: Workspace, snapshot: Snapshot, k: Key, a: Active)
    requires Sound(w) && w.active == Some(a)
    ensures var o := Observed(k, w, snapshot);
            Without(o.pending, Elements(a.ids)) == Without(w.pending, Elements(a.ids)) + Arrivals(w, o)
  {
    var o := Observed(k, w, snapshot);
    MergedSound(w, snapshot);
    var arrived := Arrivals(w, o);
    assert o.pending == w.pending + arrived;
    WithoutConcat(w.pending, arrived, Elements(a.ids));
    JoinedAppends(w.pending, snapshot.pending, w.tombstones, w.annotations.Keys,
                  Saved(w.annotations, snapshot.annotations).Keys);
    forall id | id in arrived
      ensures id !in Elements(a.ids)
    {
      assert id in o.pending && id !in w.pending by {
        NotInPrefix(w.pending, arrived, id);
      }
    }
    WithoutShorter(arrived, Elements(a.ids));
  }

  lemma NotInPrefix(p: seq<Id>, arrived: seq<Id>, id: Id)
    requires NoDup(p + arrived) && id in arrived
    ensures id !in p && id in p + arrived
  {
    var i :| 0 <= i < |arrived| && arrived[i] == id;
    assert (p + arrived)[|p| + i] == id;
    forall j | 0 <= j < |p|
      ensures p[j] != id
    {
      assert (p + arrived)[j] == p[j];
    }
  }

  lemma {:induction false} ChainActive(states: seq<Broker>, k: Key, i: nat, j: nat, n: nat, a: Active)
    requires i <= n <= j < |states| && HasActive(states[j], k, a)
    requires forall m :: i <= m < j && HasActive(states[m + 1], k, a) ==> HasActive(states[m], k, a)
    ensures HasActive(states[n], k, a)
    decreases j - n
  {
    if n < j {
      ChainActive(states, k, i, j, n + 1, a);
      assert HasActive(states[n + 1], k, a);
    }
  }

  lemma {:induction false} CounterMonotone(q: Queue, states: seq<Broker>, events: seq<Event>, i: nat, j: nat)
    requires IsRun(q, states, events) && i <= j < |states|
    ensures states[i].nextReservation <= states[j].nextReservation
    decreases j
  {
    if i < j {
      CounterMonotone(q, states, events, i, j - 1);
      assert StepAt(q, states, events, j - 1);
      CounterGrows(q, states[j - 1], events[j - 1]);
    }
  }

  /** A reservation that is active was active, in the same workspace, ever since it was issued. */
  lemma ActiveSinceIssued(q: Queue, states: seq<Broker>, events: seq<Event>, k: Key, i: nat, j: nat, n: nat, a: Active)
    requires IsRun(q, states, events) && i <= n <= j < |states|
    requires HasActive(states[j], k, a) && a.reservation <= states[i].nextReservation
    ensures HasActive(states[n], k, a)
  {
    forall m | i <= m < j && HasActive(states[m + 1], k, a)
      ensures HasActive(states[m], k, a)
    {
      CounterMonotone(q, states, events, i, m);
      assert StepAt(q, states, events, m);
      ActiveBefore(q, states[m], events[m], k);
    }
    ChainActive(states, k, i, j, n, a);
  }

  ghost predicate BesideIs(states: seq<Broker>, events: seq<Event>, k: Key, i: nat, n: nat, a: Active)
    requires i <= n < |states| == |events| + 1
  {
    Without(WorkspaceOf(states[n], k).pending, Elements(a.ids)) == Survivors(states, events, k, i, n)
  }

  lemma {:induction false} WithoutSelf(p: seq<Id>, dropped: set<Id>)
    requires forall id :: id in p ==> id in dropped
    ensures Without(p, dropped) == []
  {
    if p != [] {
      WithoutSelf(p[1..], dropped);
    }
  }

  lemma {:induction false} BesideSurvives(q: Queue, states: seq<Broker>, events: seq<Event>, k: Key, i: nat, j: nat, a: Active)
    requires IsRun(q, states, events) && i <= j < |states|
    requires HasActive(states[j], k, a) && a.reservation <= states[i].nextReservation
    requires WorkspaceOf(states[i], k).pending == a.ids
    ensures BesideIs(states, events, k, i, j, a)
  {
    WithoutSelf(a.ids, Elements(a.ids));
    forall m | i <= m < j && BesideIs(states, events, k, i, m, a)
      ensures BesideIs(states, events, k, i, m + 1, a)
    {
      RunSound(q, states, events, k, m);
      RunBound(q, states, events, m);
      ActiveSinceIssued(q, states, events, k, i, j, m, a);
      ActiveSinceIssued(q, states, events, k, i, j, m + 1, a);
      assert StepAt(q, states, events, m);
      StepBesideActive(q, states[m], events[m], k, a);
    }
    Chain(i, j, (m: nat) => i <= m < |states| && BesideIs(states, events, k, i, m, a));
  }

  /**
   * A commit leaves waiting exactly the ids that joined after its reservation and were not
   * detached since, in their order of arrival, whatever ids the presented token lists.
   */
  lemma {:induction false} CommitLeavesLaterArrivals(q: Queue, states: seq<Broker>, events: seq<Event>, i: nat, j: nat, reserved: Token)
    requires IsRun(q, states, events) && i < j < |events|
    requires events[i].DoReserve? && Reserve(states[i], events[i].session, events[i].opens).1 == Some(reserved)
    requires Commits(states[j], events[j]) && events[j].token.reservation == reserved.reservation
    ensures events[j].token.key == reserved.key
    ensures WorkspaceOf(states[j + 1], reserved.key).pending == Survivors(states, events, reserved.key, i + 1, j)
  {
    ReservedAt(q, states, events, i, reserved);
    CommitsReserved(q, states, events, i, j, reserved);
    CommitLeavesSurvivors(q, states, events, i + 1, j, reserved.key, ActiveOf(reserved));
  }

  lemma ReservedAt(q: Queue, states: seq<Broker>, events: seq<Event>, i: nat, reserved: Token)
    requires IsRun(q, states, events) && i < |events|
    requires events[i].DoReserve? && Reserve(states[i], events[i].session, events[i].opens).1 == Some(reserved)
    ensures states[i + 1].nextReservation == reserved.reservation
    ensures HasActive(states[i + 1], reserved.key, ActiveOf(reserved))
    ensures WorkspaceOf(states[i + 1], reserved.key).pending == ActiveOf(reserved).ids
  {
    assert StepAt(q, states, events, i);
    AfterReserve(q, states[i], events[i], reserved);
  }

  lemma {:induction false} CommitLeavesSurvivors(q: Queue, states: seq<Broker>, events: seq<Event>, i: nat, j: nat, k: Key, a: Active)
    requires IsRun(q, states, events) && i <= j < |events|
    requires HasActive(states[j], k, a) && a.reservation <= states[i].nextReservation
    requires WorkspaceOf(states[i], k).pending == a.ids
    requires Commits(states[j], events[j]) && events[j].token.key == k
    ensures WorkspaceOf(states[j + 1], k).pending == Survivors(states, events, k, i, j)
  {
    BesideSurvives(q, states, events, k, i, j, a);
    CommitTakesActive(q, states, events, j, k, a);
  }

  lemma CommitTakesActive(q: Queue, states: seq<Broker>, events: seq<Event>, j: nat, k: Key, a: Active)
    requires IsRun(q, states, events) && j < |events|
    requires Commits(states[j], events[j]) && events[j].token.key == k && HasActive(states[j], k, a)
    ensures WorkspaceOf(states[j + 1], k).pending == Without(WorkspaceOf(states[j], k).pending, Elements(a.ids))
  {
    assert StepAt(q, states, events, j);
    RunSound(q, states, events, k, j);
    CommittedSound(states[j].workspaces[k], q);
  }

  /** The reservation number alone identifies the workspace and the reserved ids. */
  lemma CommitsReserved(q: Queue, states: seq<Broker>, events: seq<Event>, i: nat, j: nat, reserved: Token)
    requires IsRun(q, states, events) && i < j < |events|
    requires events[i].DoReserve? && Reserve(states[i], events[i].session, events[i].opens).1 == Some(reserved)
    requires Commits(states[j], events[j]) && events[j].token.reservation == reserved.reservation
    ensures events[j].token.key == reserved.key && HasActive(states[j], reserved.key, ActiveOf(reserved))
  {
    var key, a := events[j].token.key, states[j].workspaces[events[j].token.key].active.value;
    ReservedAt(q, states, events, i, reserved);
    ActiveSinceIssued(q, states, events, key, i + 1, j, i + 1, a);
    RunBound(q, states, events, i + 1);
    SameReservation(states[i + 1], reserved.key, ActiveOf(reserved), key, a);
  }

  function ActiveOf(token: Token): Active {
    Active(token.reservation, token.session, token.bindingGeneration, token.ids)
  }

  lemma SameReservation(b: Broker, j: Key, a: Active, k: Key, c: Active)
    requires ReservationsDistinct(b) && HasActive(b, j, a) && HasActive(b, k, c) && a.reservation == c.reservation
    ensures j == k && a == c
  {
  }

  lemma AfterReserve(q: Queue, b: Broker, e: Event, reserved: Token)
    requires e.DoReserve? && Reserve(b, e.session, e.opens).1 == Some(reserved)
    ensures var t := Apply(q, b, e);
            && t.nextReservation == reserved.reservation
            && HasActive(t, reserved.key, ActiveOf(reserved))
            && WorkspaceOf(t, reserved.key).pending == reserved.ids
  {
  }

  // ----- The limited tombstone queue refines an unlimited one

  /**
   * A workspace of the limited broker beside one of the unlimited: they differ only in the two lists
   * of tombstones.  The limited broker owes at least as much, and what it owes in excess was removed
   * and acknowledged before, and its tombstone evicted.
   */
  ghost predicate SimilarWorkspace(w: Workspace, t: Workspace) {
    && t == w.(tombstones := t.tombstones, unacked := t.unacked)
    && (forall id :: id in w.tombstones ==> id in t.tombstones)
    && (forall id :: id in t.unacked ==> id in w.unacked)
    && (forall id :: id in w.unacked && id !in t.unacked ==> id in t.tombstones)
  }

  lemma TombstoneSimilar(w: Workspace, t: Workspace, id: Id)
    requires SimilarWorkspace(w, t)
    ensures SimilarWorkspace(AddTombstone(w, id, Limited), AddTombstone(t, id, Unlimited))
  {
    EvictMembers(w.tombstones, Limited);
  }

  lemma {:induction false} TombstonesSimilar(w: Workspace, t: Workspace, ids: seq<Id>)
    requires SimilarWorkspace(w, t)
    ensures SimilarWorkspace(AddTombstones(w, ids, Limited), AddTombstones(t, ids, Unlimited))
    decreases |ids|
  {
    if ids != [] {
      TombstoneSimilar(w, t, ids[0]);
      TombstonesSimilar(AddTombstone(w, ids[0], Limited), AddTombstone(t, ids[0], Unlimited), ids[1..]);
    }
  }

  ghost predicate Similar(b: Broker, c: Broker) {
    && c == b.(workspaces := c.workspaces)
    && b.workspaces.Keys == c.workspaces.Keys
    && (forall k :: k in b.workspaces ==> SimilarWorkspace(b.workspaces[k], c.workspaces[k]))
  }

  /** The tombstone test admits and refuses nothing that the known-annotation test does not. */
  lemma {:induction false} TombstonesNeverMatter(pending: seq<Id>, ids: seq<Id>, tombstones: seq<Id>,
                                                 known: set<Id>, saved: set<Id>)
    requires forall id :: id in tombstones ==> id in known
    ensures Joined(pending, ids, tombstones, known, saved) == Joined(pending, ids, [], known, saved)
    decreases |ids|
  {
    if ids != [] {
      var next := if Joins(ids[0], tombstones, known, saved, pending) then pending + [ids[0]] else pending;
      TombstonesNeverMatter(next, ids[1..], tombstones, known, saved);
    }
  }

  lemma ObservedSimilar(k: Key, w: Workspace, t: Workspace, snapshot: Snapshot)
    requires Sound(w) && Sound(t) && SimilarWorkspace(w, t)
    ensures SimilarWorkspace(Observed(k, w, snapshot), Observed(k, t, snapshot))
  {
    var saved := Saved(w.annotations, snapshot.annotations).Keys;
    TombstonesNeverMatter(w.pending, snapshot.pending, w.tombstones, w.annotations.Keys, saved);
    TombstonesNeverMatter(t.pending, snapshot.pending, t.tombstones, t.annotations.Keys, saved);
  }

  lemma CommittedSimilar(w: Workspace, t: Workspace)
    requires SimilarWorkspace(w, t) && w.active.Some?
    ensures SimilarWorkspace(Committed(w, Limited), Committed(t, Unlimited))
  {
    var ids := w.active.value.ids;
    var rest := Without(w.pending, Elements(ids));
    TombstonesSimilar(w.(active := None, pending := rest, revision := SaturatingNext(w.revision)),
                      t.(active := None, pending := rest, revision := SaturatingNext(t.revision)), ids);
  }

  lemma DetachedSimilar(w: Workspace, t: Workspace, id: Id)
    requires SimilarWorkspace(w, t)
    ensures SimilarWorkspace(Detached(w, id, Limited), Detached(t, id, Unlimited))
  {
    var rest := Without(w.pending, {id});
    TombstoneSimilar(w.(pending := rest, revision := SaturatingNext(w.revision)),
                     t.(pending := rest, revision := SaturatingNext(t.revision)), id);
  }

  lemma SimilarEverywhere(b: Broker, c: Broker, k: Key)
    requires Similar(b, c)
    ensures SimilarWorkspace(WorkspaceOf(b, k), WorkspaceOf(c, k))
  {
  }

  lemma UpdateSimilar(b: Broker, c: Broker, k: Key, w: Workspace, t: Workspace)
    requires Similar(b, c) && SimilarWorkspace(w, t)
    ensures Similar(WithWorkspace(b, k, w), WithWorkspace(c, k, t))
  {
  }

  lemma ObserveSimilar(b: Broker, c: Broker, k: Key, snapshot: Snapshot)
    requires Similar(b, c) && Sound(WorkspaceOf(b, k)) && Sound(WorkspaceOf(c, k))
    ensures Similar(Observe(b, k, snapshot), Observe(c, k, snapshot))
  {
    SimilarEverywhere(b, c, k);
    var w, t := WorkspaceOf(b, k), WorkspaceOf(c, k);
    ObservedSimilar(k, w, t, snapshot);
    UpdateSimilar(b, c, k, Observed(k, w, snapshot), Observed(k, t, snapshot));
  }

  lemma CommitSimilar(b: Broker, c: Broker, token: Token)
    requires Similar(b, c)
    ensures Similar(Commit(b, token, Limited).0, Commit(c, token, Unlimited).0)
    ensures Refusal(b, token) == Refusal(c, token)
  {
    SimilarEverywhere(b, c, token.key);
    if Refusal(b, token).None? {
      var w, t := b.workspaces[token.key], c.workspaces[token.key];
      CommittedSimilar(w, t);
      UpdateSimilar(b, c, token.key, Committed(w, Limited), Committed(t, Unlimited));
    }
  }

  lemma DetachSimilar(b: Broker, c: Broker, k: Key, id: Id)
    requires Similar(b, c)
    ensures Similar(Detach(b, k, id, Limited), Detach(c, k, id, Unlimited))
  {
    SimilarEverywhere(b, c, k);
    var w, t := WorkspaceOf(b, k), WorkspaceOf(c, k);
    DetachedSimilar(w, t, id);
    UpdateSimilar(b, c, k, Detached(w, id, Limited), Detached(t, id, Unlimited));
  }

  lemma BindSimilar(b: Broker, c: Broker, session: SessionId, k: Key)
    requires Similar(b, c)
    ensures Similar(Bind(b, session, k), Bind(c, session, k))
  {
    var x, y := Bind(b, session, k), Bind(c, session, k);
    BindElsewhere(b, c.workspaces, session, k);
    forall j | j in x.workspaces
      ensures SimilarWorkspace(x.workspaces[j], y.workspaces[j])
    {
      BoundSimilar(b, c, session, k, j);
    }
  }

  /** The bindings do not depend on the workspaces. */
  lemma BindElsewhere(b: Broker, workspaces: map<Key, Workspace>, session: SessionId, k: Key)
    ensures var x, y := Bind(b, session, k), Bind(b.(workspaces := workspaces), session, k);
            && y == x.(workspaces := y.workspaces)
            && x.workspaces.Keys == b.workspaces.Keys && y.workspaces.Keys == workspaces.Keys
  {
  }

  lemma BoundSimilar(b: Broker, c: Broker, session: SessionId, k: Key, j: Key)
    requires Similar(b, c) && j in b.workspaces
    ensures SimilarWorkspace(Bind(b, session, k).workspaces[j], Bind(c, session, k).workspaces[j])
  {
    ReleasedSimilar(b.workspaces[j], c.workspaces[j]);
    HeldSimilar(b, c, j, session, k);
  }

  lemma ReleasedSimilar(w: Workspace, t: Workspace)
    requires SimilarWorkspace(w, t)
    ensures SimilarWorkspace(w.(active := None), t.(active := None))
  {
  }

  lemma HeldSimilar(b: Broker, c: Broker, j: Key, session: SessionId, k: Key)
    requires Similar(b, c)
    ensures HeldByReplaced(b, j, session, k) <==> HeldByReplaced(c, j, session, k)
  {
    SimilarEverywhere(b, c, j);
  }

  lemma ReserveSimilar(b: Broker, c: Broker, session: SessionId, opens: bool)
    requires Similar(b, c)
    ensures Similar(Reserve(b, session, opens).0, Reserve(c, session, opens).0)
  {
  }

  lemma ReleaseSimilar(b: Broker, c: Broker, binding: Binding)
    requires Similar(b, c)
    ensures Similar(Renew(b, binding).0, Renew(c, binding).0) && Similar(Unbind(b, binding).0, Unbind(c, binding).0)
  {
  }

  lemma RollbackSimilar(b: Broker, c: Broker, token: Token)
    requires Similar(b, c)
    ensures Similar(Rollback(b, token).0, Rollback(c, token).0)
  {
  }

  lemma {:induction false} EndSimilar(b: Broker, c: Broker, e: Event)
    requires Similar(b, c) && (e.DoAcknowledge? || e.DoReset? || e.DoRetire?)
    ensures Similar(Apply(Limited, b, e), Apply(Unlimited, c, e))
  {
  }

  lemma StepSimilar(b: Broker, c: Broker, e: Event)
    requires Similar(b, c)
    requires e.DoObserve? ==> Sound(WorkspaceOf(b, e.key)) && Sound(WorkspaceOf(c, e.key))
    ensures Similar(Apply(Limited, b, e), Apply(Unlimited, c, e))
  {
    if e.DoObserve? {
      ObserveSimilar(b, c, e.key, e.snapshot);
    } else if e.DoCommit? {
      CommitSimilar(b, c, e.token);
    } else if e.DoDetach? {
      DetachSimilar(b, c, e.key, e.id);
    } else if e.DoBind? {
      BindSimilar(b, c, e.session, e.key);
    } else if e.DoReserve? {
      ReserveSimilar(b, c, e.session, e.opens);
    } else if e.DoRenew? || e.DoUnbind? {
      ReleaseSimilar(b, c, e.binding);
    } else if e.DoRollback? {
      RollbackSimilar(b, c, e.token);
    } else {
      EndSimilar(b, c, e);
    }
  }

  /**
   * The 512-entry tombstone queue refines an unlimited one: over the same events the two brokers agree
   * on every waiting list, revision, binding, reservation, refusal and dirty mark.  They can differ in
   * what is listed as removed: an eviction can only make the limited broker list again an id whose
   * removal was listed and acknowledged before.
   */
  lemma EvictionOnlyRelists(limited: seq<Broker>, unlimited: seq<Broker>, events: seq<Event>, i: nat)
    requires IsRun(Limited, limited, events) && IsRun(Unlimited, unlimited, events) && i < |limited|
    ensures Similar(limited[i], unlimited[i])
    ensures forall k :: SimilarWorkspace(WorkspaceOf(limited[i], k), WorkspaceOf(unlimited[i], k))
    ensures forall token :: Refusal(limited[i], token) == Refusal(unlimited[i], token)
  {
    forall m | 0 <= m < i && Similar(limited[m], unlimited[m])
      ensures Similar(limited[m + 1], unlimited[m + 1])
    {
      if events[m].DoObserve? {
        RunSound(Limited, limited, events, events[m].key, m);
        RunSound(Unlimited, unlimited, events, events[m].key, m);
      }
      assert StepAt(Limited, limited, events, m) && StepAt(Unlimited, unlimited, events, m);
      StepSimilar(limited[m], unlimited[m], events[m]);
    }
    Chain(0, i, (m: nat) => m < |limited| == |unlimited| && Similar(limited[m], unlimited[m]));
    forall k
      ensures SimilarWorkspace(WorkspaceOf(limited[i], k), WorkspaceOf(unlimited[i], k))
    {
      SimilarEverywhere(limited[i], unlimited[i], k);
    }
    forall token
      ensures Refusal(limited[i], token) == Refusal(unlimited[i], token)
    {
      CommitSimilar(limited[i], unlimited[i], token);
    }
  }
}
