/**
 * The attachment broker as an object that updates its fields in place.  Every method is
 * proved to make exactly the step of module Attachments, with the limited queue.
 */
module AttachmentBroker {
  import opened Common
  import opened Attachments

  /** Adds a tombstone, evicting the oldest ones until there is room. */
  method PushTombstone(w: Workspace, id: Id) returns (t: Workspace)
    ensures t == AddTombstone(w, id, Limited)
    ensures id !in w.tombstones && |w.tombstones| <= MAX_TOMBSTONES ==>
              t.tombstones == (if |w.tombstones| < MAX_TOMBSTONES then w.tombstones else w.tombstones[1..]) + [id]
  {
    if id in w.tombstones {
      return w;
    }
    var queue := w.tombstones;
    while |queue| >= MAX_TOMBSTONES
      invariant |queue| <= |w.tombstones| && queue == w.tombstones[|w.tombstones| - |queue|..]
      invariant |w.tombstones| >= MAX_TOMBSTONES ==> |queue| >= MAX_TOMBSTONES - 1
      invariant |w.tombstones| < MAX_TOMBSTONES ==> |queue| == |w.tombstones|
      decreases |queue|
    {
      queue := queue[1..];
    }
    assert queue == Evict(w.tombstones, Limited);
    return w.(tombstones := queue + [id], unacked := w.unacked + [id]);
  }

  method PushTombstones(w: Workspace, ids: seq<Id>) returns (t: Workspace)
    ensures t == AddTombstones(w, ids, Limited)
  {
    t := w;
    for i := 0 to |ids|
      invariant AddTombstones(t, ids[i..], Limited) == AddTombstones(w, ids, Limited)
    {
      t := PushTombstone(t, ids[i]);
      assert ids[i..][1..] == ids[i + 1..];
    }
  }

  method SaveAnnotations(known: map<Id, Annotation>, annotations: seq<Annotation>) returns (saved: map<Id, Annotation>)
    ensures saved == Saved(known, annotations)
  {
    saved := known;
    for i := 0 to |annotations|
      invariant Saved(saved, annotations[i..]) == Saved(known, annotations)
    {
      saved := saved[annotations[i].id := annotations[i]];
      assert annotations[i..][1..] == annotations[i + 1..];
    }
  }

  /** Appends the snapshot's ids that may join; also says whether any did. */
  method JoinPending(pending: seq<Id>, ids: seq<Id>, tombstones: seq<Id>, known: set<Id>, saved: map<Id, Annotation>)
    returns (waiting: seq<Id>, added: bool)
    ensures waiting == Joined(pending, ids, tombstones, known, saved.Keys)
    ensures added <==> |waiting| > |pending|
  {
    waiting, added := pending, false;
    for i := 0 to |ids|
      invariant Joined(waiting, ids[i..], tombstones, known, saved.Keys) == Joined(pending, ids, tombstones, known, saved.Keys)
      invariant |waiting| >= |pending| && (added <==> |waiting| > |pending|)
    {
      assert ids[i..][1..] == ids[i + 1..];
      if ids[i] in tombstones || ids[i] in known || ids[i] !in saved || ids[i] in waiting {
        continue;
      }
      waiting, added := waiting + [ids[i]], true;
    }
  }

  // ----- The loop over the bindings that a new binding replaces

  ghost predicate StoredUnderOwnSession(b: Broker) {
    forall s :: s in b.bindings ==> b.bindings[s].session == s
  }

  ghost function ReplacedSessions(b: Broker, session: SessionId, k: Key): set<SessionId> {
    set s | s in b.bindings && Replaces(b.bindings[s], session, k)
  }

  predicate HeldBySession(b: Broker, j: Key, s: SessionId) {
    && j in b.workspaces && b.workspaces[j].active.Some? && b.workspaces[j].active.value.session == s
    && s in b.bindings && b.bindings[s].key == j
    && b.bindings[s].generation == b.workspaces[j].active.value.bindingGeneration
  }

  /** The workspaces with the reservations of the given sessions' bindings released. */
  ghost function ReleasedFor(b: Broker, gone: set<SessionId>): map<Key, Workspace> {
    map j | j in b.workspaces ::
      if exists s :: s in gone && HeldBySession(b, j, s) then b.workspaces[j].(active := None) else b.workspaces[j]
  }

  lemma ReleasedNone(b: Broker)
    ensures ReleasedFor(b, {}) == b.workspaces && b.bindings - {} == b.bindings
  {
  }

  lemma ReleasedOne(b: Broker, gone: set<SessionId>, s: SessionId)
    requires StoredUnderOwnSession(b) && s in b.bindings && s !in gone
    ensures var p := b.bindings[s];
            ReleasedFor(b, gone + {s}) ==
            if p.key in b.workspaces
            then ReleasedFor(b, gone)[p.key := Released(ReleasedFor(b, gone)[p.key], p.session, p.generation)]
            else ReleasedFor(b, gone)
  {
    var p := b.bindings[s];
    forall j | j in b.workspaces
      ensures (exists r :: r in gone + {s} && HeldBySession(b, j, r)) <==>
              (exists r :: r in gone && HeldBySession(b, j, r)) || HeldBySession(b, j, s)
    {
      if HeldBySession(b, j, s) {
        assert s in gone + {s};
      }
      if r :| r in gone && HeldBySession(b, j, r) {
        assert r in gone + {s};
      }
    }
  }

  lemma ReleasedAll(b: Broker, session: SessionId, k: Key)
    requires StoredUnderOwnSession(b)
    ensures var gone := ReplacedSessions(b, session, k);
            && ReleasedFor(b, gone) == Bind(b, session, k).workspaces
            && (b.bindings - gone)[session := Binding(session, k, b.nextGeneration + 1)] == Bind(b, session, k).bindings
  {
    var gone := ReplacedSessions(b, session, k);
    forall j | j in b.workspaces
      ensures (exists s :: s in gone && HeldBySession(b, j, s)) <==> HeldByReplaced(b, j, session, k)
    {
      if HeldByReplaced(b, j, session, k) {
        var s := b.workspaces[j].active.value.session;
        assert s in gone && HeldBySession(b, j, s);
      }
    }
  }

  class AttachmentBroker {
    var nextGeneration: nat
    var nextReservation: nat
    var bindings: map<SessionId, Binding>
    var workspaces: map<Key, Workspace>
    var dirty: set<Key>

    ghost function View(): Broker
      reads this
    {
      Broker(nextGeneration, nextReservation, bindings, workspaces, dirty)
    }

    /** Bindings are stored under their own session. */
    ghost predicate Valid()
      reads this
    {
      StoredUnderOwnSession(View())
    }

    constructor ()
      ensures Valid() && View() == EMPTY
    {
      nextGeneration, nextReservation := 0, 0;
      bindings, workspaces, dirty := map[], map[], {};
    }

    method ObserveWorkspace(k: Key, snapshot: Snapshot) returns (p: Projection)
      requires Valid()
      modifies this
      ensures Valid() && View() == Observe(old(View()), k, snapshot)
      ensures p == ProjectionOf(k, WorkspaceOf(View(), k))
    {
      var w := if k in workspaces then workspaces[k] else FRESH;
      var before := ProjectionOf(k, w);
      var known := w.annotations.Keys;
      var saved := SaveAnnotations(w.annotations, snapshot.annotations);
      var previous := w.revision;
      var revision := if snapshot.revision > w.revision then snapshot.revision else w.revision;
      var pending, added := JoinPending(w.pending, snapshot.pending, w.tombstones, known, saved);
      if added && snapshot.revision <= previous {
        revision := SaturatingNext(revision);
      }
      var merged := w.(annotations := saved, pending := pending, revision := revision);
      assert merged == Merged(w, snapshot);
      if ProjectionOf(k, merged) != before {
        merged := merged.(generation := merged.generation + 1);
        dirty := dirty + {k};
      }
      workspaces := workspaces[k := merged];
      return ProjectionOf(k, merged);
    }

    method BindSession(session: SessionId, k: Key) returns (binding: Binding)
      requires Valid()
      modifies this
      ensures Valid() && View() == Bind(old(View()), session, k)
      ensures binding == Binding(session, k, nextGeneration)
    {
      ghost var before := View();
      nextGeneration := nextGeneration + 1;
      var replaced := set s | s in bindings && Replaces(bindings[s], session, k);
      ghost var gone: set<SessionId> := {};
      ReleasedNone(before);
      while replaced != {}
        invariant gone + replaced == ReplacedSessions(before, session, k) && gone !! replaced
        invariant bindings == before.bindings - gone && workspaces == ReleasedFor(before, gone)
        invariant nextGeneration == before.nextGeneration + 1
        invariant nextReservation == before.nextReservation && dirty == before.dirty
        decreases replaced
      {
        var s :| s in replaced;
        var previous := bindings[s];
        ReleasedOne(before, gone, s);
        bindings := bindings - {previous.session};
        if previous.key in workspaces {
          workspaces := workspaces[previous.key := Released(workspaces[previous.key], previous.session, previous.generation)];
        }
        gone, replaced := gone + {s}, replaced - {s};
        assert bindings == before.bindings - gone;
      }
      assert gone == ReplacedSessions(before, session, k);
      ReleasedAll(before, session, k);
      binding := Binding(session, k, nextGeneration);
      bindings := bindings[session := binding];
    }

    method RenewIfMatches(expected: Binding) returns (r: Result<Binding, Error>)
      requires Valid()
      modifies this
      ensures Valid() && (View(), r) == Renew(old(View()), expected)
    {
      if expected.session !in bindings || bindings[expected.session] != expected {
        return Err(StaleBinding);
      }
      nextGeneration := nextGeneration + 1;
      var renewed := Binding(expected.session, expected.key, nextGeneration);
      if expected.key in workspaces {
        workspaces := workspaces[expected.key := Released(workspaces[expected.key], expected.session, expected.generation)];
      }
      bindings := bindings[expected.session := renewed];
      return Ok(renewed);
    }

    method UnbindIfMatches(binding: Binding) returns (matched: bool)
      requires Valid()
      modifies this
      ensures Valid() && (View(), matched) == Unbind(old(View()), binding)
    {
      if binding.session !in bindings || bindings[binding.session] != binding {
        return false;
      }
      bindings := bindings - {binding.session};
      if binding.key in workspaces {
        workspaces := workspaces[binding.key := Released(workspaces[binding.key], binding.session, binding.generation)];
      }
      return true;
    }

    method ReserveForInput(session: SessionId, opens: bool) returns (token: Option<Token>)
      requires Valid()
      modifies this
      ensures Valid() && (View(), token) == Reserve(old(View()), session, opens)
    {
      if !opens || session !in bindings {
        return None;
      }
      var binding := bindings[session];
      if binding.key !in workspaces {
        return None;
      }
      var w := workspaces[binding.key];
      if w.active.Some? || w.pending == [] {
        return None;
      }
      nextReservation := nextReservation + 1;
      var active := Active(nextReservation, binding.session, binding.generation, w.pending);
      workspaces := workspaces[binding.key := w.(active := Some(active))];
      return Some(Token(binding.session, binding.key, binding.generation, w.pending, nextReservation));
    }

    /** The checks that commit and rollback make under the lock. */
    method CheckToken(token: Token) returns (refused: Option<Error>)
      ensures refused == Refusal(View(), token)
    {
      if !(&& token.session in bindings && bindings[token.session].key == token.key
           && bindings[token.session].generation == token.bindingGeneration) {
        return Some(StaleBinding);
      }
      if token.key !in workspaces {
        return Some(StaleReservation);
      }
      var active := workspaces[token.key].active;
      if && active.Some? && active.value.reservation == token.reservation
         && active.value.session == token.session && active.value.bindingGeneration == token.bindingGeneration {
        return None;
      }
      return Some(StaleReservation);
    }

    method CommitReservation(token: Token) returns (r: Result<Projection, Error>)
      requires Valid()
      modifies this
      ensures Valid() && (View(), r) == Commit(old(View()), token, Limited)
    {
      var refused := CheckToken(token);
      if refused.Some? {
        return Err(refused.value);
      }
      var w := workspaces[token.key];
      var exact := w.active.value.ids;
      var previous := |w.pending|;
      var c := w.(active := None, pending := Without(w.pending, Elements(exact)));
      if previous != |c.pending| {
        c := PushTombstones(c.(revision := SaturatingNext(c.revision)), exact);
        c := c.(generation := c.generation + 1);
      }
      assert c == Committed(w, Limited);
      workspaces := workspaces[token.key := c];
      if previous != |c.pending| {
        dirty := dirty + {token.key};
      }
      return Ok(ProjectionOf(token.key, c));
    }

    method RollbackReservation(token: Token) returns (r: Result<(), Error>)
      requires Valid()
      modifies this
      ensures Valid() && (View(), r) == Rollback(old(View()), token)
    {
      var refused := CheckToken(token);
      if refused.Some? {
        return Err(refused.value);
      }
      workspaces := workspaces[token.key := workspaces[token.key].(active := None)];
      return Ok(());
    }

    method DetachAnnotation(k: Key, id: Id) returns (p: Projection)
      requires Valid()
      modifies this
      ensures Valid() && View() == Detach(old(View()), k, id, Limited)
      ensures p == ProjectionOf(k, WorkspaceOf(View(), k))
    {
      var w := if k in workspaces then workspaces[k] else FRESH;
      var d := w.(pending := Without(w.pending, {id}));
      var changed := |w.pending| != |d.pending|;
      if changed {
        d := PushTombstone(d.(revision := SaturatingNext(d.revision)), id);
        d := d.(generation := d.generation + 1);
        dirty := dirty + {k};
      } else {
        WithoutShorter(w.pending, {id});
      }
      workspaces := workspaces[k := d];
      return ProjectionOf(k, d);
    }

    /** The overlaid snapshot, and whether it differs from the given one. */
    method OverlaySnapshot(k: Key, snapshot: Snapshot) returns (overlaid: Snapshot, changed: bool)
      ensures overlaid == Overlaid(WorkspaceOf(View(), k), snapshot)
      ensures changed <==> overlaid != snapshot
    {
      var p := ProjectionOf(k, if k in workspaces then workspaces[k] else FRESH);
      changed := snapshot.revision != p.revision || snapshot.pending != p.pending;
      var annotations := snapshot.annotations;
      assert p.annotations[0..] == p.annotations;
      for i := 0 to |p.annotations|
        invariant WithMissing(annotations, p.annotations[i..]) == WithMissing(snapshot.annotations, p.annotations)
        invariant |annotations| >= |snapshot.annotations|
        invariant |annotations| == |snapshot.annotations| ==> annotations == snapshot.annotations
        invariant changed <==> || snapshot.revision != p.revision || snapshot.pending != p.pending
                               || |annotations| > |snapshot.annotations|
      {
        assert p.annotations[i..][1..] == p.annotations[i + 1..];
        if exists a :: a in annotations && a.id == p.annotations[i].id {
          continue;
        }
        annotations, changed := annotations + [p.annotations[i]], true;
      }
      overlaid := Snapshot(annotations, p.pending, p.revision);
    }

    method AcknowledgeDirtyProjection(p: Projection) returns (acknowledged: bool)
      requires Valid()
      modifies this
      ensures Valid() && (View(), acknowledged) == Acknowledge(old(View()), p)
    {
      if p.key !in workspaces || workspaces[p.key].generation != p.generation {
        return false;
      }
      workspaces := workspaces[p.key := workspaces[p.key].(unacked := [])];
      dirty := dirty - {p.key};
      return true;
    }

    method ResetWorkspaceState(k: Key)
      requires Valid()
      modifies this
      ensures Valid() && View() == Reset(old(View()), k)
    {
      workspaces := workspaces - {k};
      dirty := dirty - {k};
    }

    method RetireWorkspace(k: Key)
      requires Valid()
      modifies this
      ensures Valid() && View() == Retire(old(View()), k)
    {
      workspaces := workspaces - {k};
      dirty := dirty - {k};
      bindings := map s | s in bindings && bindings[s].key != k :: bindings[s];
    }
  }
}
