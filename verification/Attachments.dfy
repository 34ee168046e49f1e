/**
 * The browser attachment broker as a state machine over values: which saved
 * annotations wait to be attached to the next prompt, who may attach them, and what
 * has still to be persisted.  The revision saturates, since a snapshot may bring any
 * value; the other counters grow by one per call and are unbounded.
 */
module Attachments {
  import opened Common

  type Id = string
  type SessionId = string
  type Key = string

  const MAX_TOMBSTONES: nat := 512

  /** An unsigned 64-bit number. */
  type Revision = n: nat | n <= U64_MAX

  datatype Annotation = Annotation(id: Id, body: string)

  datatype Snapshot = Snapshot(annotations: seq<Annotation>, pending: seq<Id>, revision: Revision)

  datatype Binding = Binding(session: SessionId, key: Key, generation: nat)

  /** A reservation as the broker keeps it, and the token that its holder presents. */
  datatype Active = Active(reservation: nat, session: SessionId, bindingGeneration: nat, ids: seq<Id>)

  datatype Token = Token(session: SessionId, key: Key, bindingGeneration: nat, ids: seq<Id>, reservation: nat)

  datatype Workspace = Workspace(
    revision: Revision,
    pending: seq<Id>,
    annotations: map<Id, Annotation>,
    tombstones: seq<Id>,
    unacked: seq<Id>,
    generation: nat,
    active: Option<Active>)

  datatype Projection = Projection(
    key: Key,
    revision: Revision,
    pending: seq<Id>,
    annotations: seq<Annotation>,
    tombstones: seq<Id>,
    generation: nat)

  datatype Broker = Broker(
    nextGeneration: nat,
    nextReservation: nat,
    bindings: map<SessionId, Binding>,
    workspaces: map<Key, Workspace>,
    dirty: set<Key>)

  datatype Error = StaleBinding | StaleReservation

  /** The tombstone queue of the source, and the unlimited one that it stands for. */
  datatype Queue = Limited | Unlimited

  const FRESH: Workspace := Workspace(0, [], map[], [], [], 0, None)

  const EMPTY: Broker := Broker(0, 0, map[], map[], {})

  function WorkspaceOf(b: Broker, k: Key): Workspace {
    if k in b.workspaces then b.workspaces[k] else FRESH
  }

  function WithWorkspace(b: Broker, k: Key, w: Workspace): Broker {
    b.(workspaces := b.workspaces[k := w])
  }

  // ----- One workspace

  function Evict(tombstones: seq<Id>, q: Queue): seq<Id> {
    if q.Limited? && |tombstones| >= MAX_TOMBSTONES then tombstones[|tombstones| - (MAX_TOMBSTONES - 1)..]
    else tombstones
  }

  function AddTombstone(w: Workspace, id: Id, q: Queue): Workspace {
    if id in w.tombstones then w
    else w.(tombstones := Evict(w.tombstones, q) + [id], unacked := w.unacked + [id])
  }

  function AddTombstones(w: Workspace, ids: seq<Id>, q: Queue): Workspace
    decreases |ids|
  {
    if ids == [] then w else AddTombstones(AddTombstone(w, ids[0], q), ids[1..], q)
  }

  function Saved(known: map<Id, Annotation>, annotations: seq<Annotation>): map<Id, Annotation>
    decreases |annotations|
  {
    if annotations == [] then known
    else Saved(known[annotations[0].id := annotations[0]], annotations[1..])
  }

  /** May a snapshot's pending id join?  It must be new, saved, and not waiting already. */
  predicate Joins(id: Id, tombstones: seq<Id>, known: set<Id>, saved: set<Id>, pending: seq<Id>) {
    id !in tombstones && id !in known && id in saved && id !in pending
  }

  /** The waiting list after the pending ids of a snapshot, in order. */
  function Joined(pending: seq<Id>, ids: seq<Id>, tombstones: seq<Id>, known: set<Id>, saved: set<Id>): seq<Id>
    decreases |ids|
  {
    if ids == [] then pending
    else
      var next := if Joins(ids[0], tombstones, known, saved, pending) then pending + [ids[0]] else pending;
      Joined(next, ids[1..], tombstones, known, saved)
  }

  function PendingAnnotations(pending: seq<Id>, annotations: map<Id, Annotation>): seq<Annotation> {
    if pending == [] then []
    else if pending[0] in annotations then [annotations[pending[0]]] + PendingAnnotations(pending[1..], annotations)
    else PendingAnnotations(pending[1..], annotations)
  }

  function ProjectionOf(k: Key, w: Workspace): Projection {
    Projection(k, w.revision, w.pending, PendingAnnotations(w.pending, w.annotations), w.unacked, w.generation)
  }

  function Merged(w: Workspace, snapshot: Snapshot): Workspace {
    var saved := Saved(w.annotations, snapshot.annotations);
    var pending := Joined(w.pending, snapshot.pending, w.tombstones, w.annotations.Keys, saved.Keys);
    var raised := if snapshot.revision > w.revision then snapshot.revision else w.revision;
    var added := |pending| > |w.pending|;
    w.(annotations := saved, pending := pending,
       revision := if added && snapshot.revision <= w.revision then SaturatingNext(raised) else raised)
  }

  function Observed(k: Key, w: Workspace, snapshot: Snapshot): Workspace {
    var m := Merged(w, snapshot);
    if ProjectionOf(k, m) == ProjectionOf(k, w) then m else m.(generation := m.generation + 1)
  }

  /** The annotations of `more` whose ids are not among the existing ones are appended. */
  function WithMissing(existing: seq<Annotation>, more: seq<Annotation>): seq<Annotation>
    decreases |more|
  {
    if more == [] then existing
    else if exists a :: a in existing && a.id == more[0].id then WithMissing(existing, more[1..])
    else WithMissing(existing + [more[0]], more[1..])
  }

  /** The source's `overlay_snapshot`: the snapshot with what the broker holds to be pending. */
  function Overlaid(w: Workspace, snapshot: Snapshot): Snapshot {
    Snapshot(WithMissing(snapshot.annotations, PendingAnnotations(w.pending, w.annotations)), w.pending, w.revision)
  }

  function Released(w: Workspace, session: SessionId, generation: nat): Workspace {
    if w.active.Some? && w.active.value.session == session && w.active.value.bindingGeneration == generation
    then w.(active := None) else w
  }

  function Committed(w: Workspace, q: Queue): Workspace
    requires w.active.Some?
  {
    var ids := w.active.value.ids;
    var rest := Without(w.pending, Elements(ids));
    var done := w.(active := None, pending := rest);
    if |rest| == |w.pending| then done
    else
      var t := AddTombstones(done.(revision := SaturatingNext(done.revision)), ids, q);
      t.(generation := t.generation + 1)
  }

  function Detached(w: Workspace, id: Id, q: Queue): Workspace {
    var rest := Without(w.pending, {id});
    if |rest| == |w.pending| then w
    else
      var t := AddTombstone(w.(pending := rest, revision := SaturatingNext(w.revision)), id, q);
      t.(generation := t.generation + 1)
  }

  // ----- The broker

  function Observe(b: Broker, k: Key, snapshot: Snapshot): Broker {
    var w := WorkspaceOf(b, k);
    var o := Observed(k, w, snapshot);
    WithWorkspace(b, k, o).(dirty := if o.generation != w.generation then b.dirty + {k} else b.dirty)
  }

  /** The bindings that a new binding of this session and workspace replaces. */
  predicate Replaces(p: Binding, session: SessionId, k: Key) { p.session == session || p.key == k }

  predicate HeldByReplaced(b: Broker, k: Key, session: SessionId, target: Key) {
    k in b.workspaces && b.workspaces[k].active.Some? &&
    var a := b.workspaces[k].active.value;
    a.session in b.bindings && Replaces(b.bindings[a.session], session, target)
    && b.bindings[a.session].key == k && b.bindings[a.session].generation == a.bindingGeneration
  }

  function Bind(b: Broker, session: SessionId, k: Key): Broker {
    var g := b.nextGeneration + 1;
    var kept := map s | s in b.bindings && !Replaces(b.bindings[s], session, k) :: b.bindings[s];
    b.(nextGeneration := g,
       bindings := kept[session := Binding(session, k, g)],
       workspaces := map j | j in b.workspaces ::
         if HeldByReplaced(b, j, session, k) then b.workspaces[j].(active := None) else b.workspaces[j])
  }

  predicate IsBound(b: Broker, binding: Binding) {
    binding.session in b.bindings && b.bindings[binding.session] == binding
  }

  function ReleaseHeld(b: Broker, binding: Binding): Broker {
    if binding.key in b.workspaces
    then WithWorkspace(b, binding.key, Released(b.workspaces[binding.key], binding.session, binding.generation))
    else b
  }

  function Renew(b: Broker, expected: Binding): (Broker, Result<Binding, Error>) {
    if !IsBound(b, expected) then (b, Err(StaleBinding))
    else
      var renewed := expected.(generation := b.nextGeneration + 1);
      (ReleaseHeld(b, expected).(nextGeneration := b.nextGeneration + 1,
                                 bindings := b.bindings[expected.session := renewed]), Ok(renewed))
  }

  function Unbind(b: Broker, binding: Binding): (Broker, bool) {
    if !IsBound(b, binding) then (b, false)
    else (ReleaseHeld(b, binding).(bindings := b.bindings - {binding.session}), true)
  }

  /** `opens`: the input opens a prompt boundary. */
  function Reserve(b: Broker, session: SessionId, opens: bool): (Broker, Option<Token>) {
    if !opens || session !in b.bindings then (b, None)
    else
      var p := b.bindings[session];
      if p.key !in b.workspaces then (b, None)
      else
        var w := b.workspaces[p.key];
        if w.active.Some? || w.pending == [] then (b, None)
        else
          var r := b.nextReservation + 1;
          (WithWorkspace(b, p.key, w.(active := Some(Active(r, p.session, p.generation, w.pending))))
           .(nextReservation := r),
           Some(Token(p.session, p.key, p.generation, w.pending, r)))
  }

  /** The checks that commit and rollback share: why a token is refused, if it is. */
  function Refusal(b: Broker, token: Token): Option<Error> {
    if !(&& token.session in b.bindings && b.bindings[token.session].key == token.key
         && b.bindings[token.session].generation == token.bindingGeneration) then Some(StaleBinding)
    else if token.key !in b.workspaces then Some(StaleReservation)
    else
      var active := b.workspaces[token.key].active;
      if && active.Some? && active.value.reservation == token.reservation
         && active.value.session == token.session && active.value.bindingGeneration == token.bindingGeneration
      then None else Some(StaleReservation)
  }

  function Commit(b: Broker, token: Token, q: Queue): (Broker, Result<Projection, Error>) {
    if Refusal(b, token).Some? then (b, Err(Refusal(b, token).value))
    else
      var w := b.workspaces[token.key];
      var c := Committed(w, q);
      (WithWorkspace(b, token.key, c).(dirty := if |c.pending| != |w.pending| then b.dirty + {token.key} else b.dirty),
       Ok(ProjectionOf(token.key, c)))
  }

  function Rollback(b: Broker, token: Token): (Broker, Result<(), Error>) {
    if Refusal(b, token).Some? then (b, Err(Refusal(b, token).value))
    else (WithWorkspace(b, token.key, b.workspaces[token.key].(active := None)), Ok(()))
  }

  function Detach(b: Broker, k: Key, id: Id, q: Queue): Broker {
    var w := WorkspaceOf(b, k);
    var d := Detached(w, id, q);
    WithWorkspace(b, k, d).(dirty := if |d.pending| != |w.pending| then b.dirty + {k} else b.dirty)
  }

  function Acknowledge(b: Broker, p: Projection): (Broker, bool) {
    if p.key !in b.workspaces || b.workspaces[p.key].generation != p.generation then (b, false)
    else (WithWorkspace(b, p.key, b.workspaces[p.key].(unacked := [])).(dirty := b.dirty - {p.key}), true)
  }

  function Reset(b: Broker, k: Key): Broker {
    b.(workspaces := b.workspaces - {k}, dirty := b.dirty - {k})
  }

  function Retire(b: Broker, k: Key): Broker {
    Reset(b, k).(bindings := map s | s in b.bindings && b.bindings[s].key != k :: b.bindings[s])
  }

  // ----- Events and runs

  datatype Event =
    | DoObserve(key: Key, snapshot: Snapshot)
    | DoBind(session: SessionId, key: Key)
    | DoRenew(binding: Binding)
    | DoUnbind(binding: Binding)
    | DoReserve(session: SessionId, opens: bool)
    | DoCommit(token: Token)
    | DoRollback(token: Token)
    | DoDetach(key: Key, id: Id)
    | DoAcknowledge(projection: Projection)
    | DoReset(key: Key)
    | DoRetire(key: Key)

  function Apply(q: Queue, b: Broker, e: Event): Broker {
    match e
    case DoObserve(k, snapshot) => Observe(b, k, snapshot)
    case DoBind(session, k) => Bind(b, session, k)
    case DoRenew(binding) => Renew(b, binding).0
    case DoUnbind(binding) => Unbind(b, binding).0
    case DoReserve(session, opens) => Reserve(b, session, opens).0
    case DoCommit(token) => Commit(b, token, q).0
    case DoRollback(token) => Rollback(b, token).0
    case DoDetach(k, id) => Detach(b, k, id, q)
    case DoAcknowledge(p) => Acknowledge(b, p).0
    case DoReset(k) => Reset(b, k)
    case DoRetire(k) => Retire(b, k)
  }

  ghost predicate StepAt(q: Queue, states: seq<Broker>, events: seq<Event>, i: nat)
    requires i < |events| && |states| == |events| + 1
  {
    states[i + 1] == Apply(q, states[i], events[i])
  }

  ghost predicate IsRun(q: Queue, states: seq<Broker>, events: seq<Event>) {
    && |states| == |events| + 1 && states[0] == EMPTY
    && forall i :: 0 <= i < |events| ==> StepAt(q, states, events, i)
  }

  /** Resetting or retiring a workspace ends its lifetime. */
  predicate EndsLifetime(e: Event, k: Key) {
    (e.DoReset? || e.DoRetire?) && e.key == k
  }

  ghost predicate OneLifetime(events: seq<Event>, k: Key, i: nat, j: nat)
    requires i <= j <= |events|
  {
    forall m :: i <= m < j ==> !EndsLifetime(events[m], k)
  }
}
