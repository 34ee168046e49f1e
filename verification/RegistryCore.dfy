/**
 * What the Claude and the Codex hook registries share: a map from nonces to
 * registrations, an eviction order, a generation counter and an index of the
 * latest generation per session key.  They differ in when the index forgets a key,
 * which is the `Policy`.
 */
module RegistryCore {
  import opened Common

  type Key = string
  type Nonce = string

  datatype Entry<P> = Entry(key: Key, generation: nat, payload: P)

  datatype Registry<P> = Registry(
    registrations: map<Nonce, Entry<P>>,
    order: seq<Nonce>,
    nextGeneration: nat,
    latest: map<Key, nat>)

  datatype Registration = Registration(nonce: Nonce, key: Key, generation: nat)

  /**
   * ByKey (Claude): forget a key when its last registration goes.
   * ByGeneration (Codex): forget a key when its latest generation goes.
   */
  datatype Policy = ByKey | ByGeneration

  function Empty<P>(): Registry<P> {
    Registry(map[], [], 0, map[])
  }

  predicate IsCurrent<P>(r: Registry<P>, reg: Registration) {
    && reg.nonce in r.registrations
    && r.registrations[reg.nonce].generation == reg.generation
    && r.registrations[reg.nonce].key == reg.key
    && reg.key in r.latest && r.latest[reg.key] == reg.generation
  }

  predicate KeyUsed<P>(registrations: map<Nonce, Entry<P>>, key: Key) {
    exists n :: n in registrations && registrations[n].key == key
  }

  // ----- Operations

  predicate Forgets<P>(r: Registry<P>, policy: Policy, gone: set<Nonce>, key: Key)
    requires key in r.latest
  {
    match policy
    case ByKey => !KeyUsed(r.registrations - gone, key)
    case ByGeneration =>
      exists n :: n in gone && n in r.registrations
                  && r.registrations[n].key == key && r.registrations[n].generation == r.latest[key]
  }

  /** Removes a set of nonces. */
  function Drop<P>(r: Registry<P>, policy: Policy, gone: set<Nonce>): Registry<P> {
    Registry(r.registrations - gone, Without(r.order, gone), r.nextGeneration,
             map k | k in r.latest && !Forgets(r, policy, gone, k) :: r.latest[k])
  }

  /** Removes the oldest registrations until there is room for one more. */
  function MakeRoom<P>(r: Registry<P>, policy: Policy, limit: nat): Registry<P>
    decreases |r.order|
  {
    if |r.registrations| < limit || r.order == [] then r
    else
      var next := Drop(r, policy, {r.order[0]});
      assert |next.order| < |r.order|;
      MakeRoom(next, policy, limit)
  }

  function Insert<P>(r: Registry<P>, nonce: Nonce, key: Key, payload: P): Registry<P> {
    var generation := r.nextGeneration + 1;
    Registry(r.registrations[nonce := Entry(key, generation, payload)], r.order + [nonce], generation,
             r.latest[key := generation])
  }

  function SetPayload<P>(r: Registry<P>, nonce: Nonce, payload: P): Registry<P>
    requires nonce in r.registrations
  {
    r.(registrations := r.registrations[nonce := r.registrations[nonce].(payload := payload)])
  }

  // ----- The invariant

  ghost predicate Ordered<P>(r: Registry<P>) {
    NoDup(r.order) && forall n :: n in r.order <==> n in r.registrations
  }

  ghost predicate Bounded<P>(r: Registry<P>) {
    && (forall n :: n in r.registrations ==> 0 < r.registrations[n].generation <= r.nextGeneration)
    && (forall k :: k in r.latest ==> r.latest[k] <= r.nextGeneration)
  }

  ghost predicate Distinct<P>(r: Registry<P>) {
    forall m, n :: m in r.registrations && n in r.registrations && m != n ==>
      r.registrations[m].generation != r.registrations[n].generation
  }

  ghost predicate Dominated<P>(r: Registry<P>) {
    forall n :: n in r.registrations && r.registrations[n].key in r.latest ==>
      r.registrations[n].generation <= r.latest[r.registrations[n].key]
  }

  ghost predicate Stamped<P>(r: Registry<P>) {
    Bounded(r) && Distinct(r) && Dominated(r)
  }

  ghost predicate AllUsed<P>(r: Registry<P>) {
    forall k :: k in r.latest ==> KeyUsed(r.registrations, k)
  }

  ghost predicate Consistent<P>(r: Registry<P>) {
    Ordered(r) && Stamped(r) && AllUsed(r)
  }

  /** What each policy adds: no used key is forgotten, or every indexed generation is registered. */
  ghost predicate Indexed<P>(r: Registry<P>, policy: Policy) {
    match policy
    case ByKey => forall n :: n in r.registrations ==> r.registrations[n].key in r.latest
    case ByGeneration =>
      forall k :: k in r.latest ==>
        exists n :: n in r.registrations && r.registrations[n].key == k && r.registrations[n].generation == r.latest[k]
  }

  ghost predicate Valid<P>(r: Registry<P>, policy: Policy, limit: nat) {
    Consistent(r) && Indexed(r, policy) && |r.registrations| <= limit
  }

  lemma SubmapSize<K, V>(m: map<K, V>, gone: set<K>)
    ensures |m - gone| <= |m|
  {
    assert (m - gone).Keys <= m.Keys;
    SubsetSize((m - gone).Keys, m.Keys);
  }

  lemma DropConsistent<P>(r: Registry<P>, policy: Policy, gone: set<Nonce>)
    requires Consistent(r) && Indexed(r, policy)
    ensures Consistent(Drop(r, policy, gone))
  {
    WithoutElements(r.order, gone);
    WithoutNoDup(r.order, gone);
    var d := Drop(r, policy, gone);
    forall k | k in d.latest
      ensures KeyUsed(d.registrations, k)
    {
      if policy == ByGeneration {
        var n :| n in r.registrations && r.registrations[n].key == k && r.registrations[n].generation == r.latest[k];
        assert n in d.registrations;
      }
    }
  }

  lemma DropValid<P>(r: Registry<P>, policy: Policy, limit: nat, gone: set<Nonce>)
    requires Valid(r, policy, limit)
    ensures Valid(Drop(r, policy, gone), policy, limit)
  {
    DropConsistent(r, policy, gone);
    SubmapSize(r.registrations, gone);
    var d := Drop(r, policy, gone);
    match policy {
      case ByKey =>
        forall n | n in d.registrations
          ensures d.registrations[n].key in d.latest
        {
          assert KeyUsed(r.registrations - gone, d.registrations[n].key);
        }
      case ByGeneration =>
        forall k | k in d.latest
          ensures exists n :: n in d.registrations && d.registrations[n].key == k
                              && d.registrations[n].generation == d.latest[k]
        {
          var n :| n in r.registrations && r.registrations[n].key == k && r.registrations[n].generation == r.latest[k];
          assert n in d.registrations;
        }
    }
  }

  lemma EmptyOrder<P>(r: Registry<P>)
    requires Ordered(r) && r.order == []
    ensures |r.registrations| == 0
  {
    assert r.registrations.Keys == {};
  }

  lemma {:induction false} MakeRoomValid<P>(r: Registry<P>, policy: Policy, limit: nat, room: nat)
    requires Valid(r, policy, limit)
    ensures Valid(MakeRoom(r, policy, room), policy, limit)
    decreases |r.order|
  {
    if |r.registrations| >= room && r.order != [] {
      DropValid(r, policy, limit, {r.order[0]});
      MakeRoomValid(Drop(r, policy, {r.order[0]}), policy, limit, room);
    }
  }

  lemma DropOrdered<P>(r: Registry<P>, policy: Policy, gone: set<Nonce>)
    requires Ordered(r)
    ensures Ordered(Drop(r, policy, gone))
  {
    WithoutElements(r.order, gone);
    WithoutNoDup(r.order, gone);
  }

  /** There is room afterwards, and the counter did not move. */
  lemma {:induction false} MakeRoomSize<P>(r: Registry<P>, policy: Policy, room: nat)
    requires Ordered(r)
    ensures room > 0 ==> |MakeRoom(r, policy, room).registrations| < room
    ensures MakeRoom(r, policy, room).nextGeneration == r.nextGeneration
    decreases |r.order|
  {
    if |r.registrations| < room {
    } else if r.order == [] {
      EmptyOrder(r);
    } else {
      DropOrdered(r, policy, {r.order[0]});
      MakeRoomSize(Drop(r, policy, {r.order[0]}), policy, room);
    }
  }

  lemma NoDupSnoc<T>(s: seq<T>, x: T)
    requires NoDup(s) && x !in s
    ensures NoDup(s + [x])
  {
  }

  lemma InsertConsistent<P>(r: Registry<P>, nonce: Nonce, key: Key, payload: P)
    requires Consistent(r) && nonce !in r.registrations
    ensures Consistent(Insert(r, nonce, key, payload))
  {
    InsertOrdered(r, nonce, key, payload);
    InsertStamped(r, nonce, key, payload);
    forall k | k in Insert(r, nonce, key, payload).latest
      ensures KeyUsed(Insert(r, nonce, key, payload).registrations, k)
    {
      InsertKeepsUse(r, nonce, key, payload, k);
    }
  }

  lemma InsertOrdered<P>(r: Registry<P>, nonce: Nonce, key: Key, payload: P)
    requires Ordered(r) && nonce !in r.registrations
    ensures Ordered(Insert(r, nonce, key, payload))
  {
    NoDupSnoc(r.order, nonce);
  }

  lemma InsertStamped<P>(r: Registry<P>, nonce: Nonce, key: Key, payload: P)
    requires Stamped(r) && nonce !in r.registrations
    ensures Stamped(Insert(r, nonce, key, payload))
  {
    InsertBounded(r, nonce, key, payload);
    InsertDistinct(r, nonce, key, payload);
    InsertDominated(r, nonce, key, payload);
  }

  lemma InsertBounded<P>(r: Registry<P>, nonce: Nonce, key: Key, payload: P)
    requires Bounded(r)
    ensures Bounded(Insert(r, nonce, key, payload))
  {
  }

  lemma InsertDistinct<P>(r: Registry<P>, nonce: Nonce, key: Key, payload: P)
    requires Bounded(r) && Distinct(r)
    ensures Distinct(Insert(r, nonce, key, payload))
  {
  }

  lemma InsertDominated<P>(r: Registry<P>, nonce: Nonce, key: Key, payload: P)
    requires Bounded(r) && Dominated(r)
    ensures Dominated(Insert(r, nonce, key, payload))
  {
  }

  lemma InsertKeepsUse<P>(r: Registry<P>, nonce: Nonce, key: Key, payload: P, k: Key)
    requires nonce !in r.registrations && (k == key || KeyUsed(r.registrations, k))
    ensures KeyUsed(Insert(r, nonce, key, payload).registrations, k)
  {
    var t := Insert(r, nonce, key, payload);
    if k == key {
      assert nonce in t.registrations && t.registrations[nonce].key == k;
    } else {
      var n :| n in r.registrations && r.registrations[n].key == k;
      assert n in t.registrations && t.registrations[n].key == k;
    }
  }

  lemma InsertIndexed<P>(r: Registry<P>, policy: Policy, nonce: Nonce, key: Key, payload: P)
    requires Indexed(r, policy) && nonce !in r.registrations
    ensures Indexed(Insert(r, nonce, key, payload), policy)
  {
    var t := Insert(r, nonce, key, payload);
    if policy == ByGeneration {
      forall k | k in t.latest
        ensures exists n :: n in t.registrations && t.registrations[n].key == k
                            && t.registrations[n].generation == t.latest[k]
      {
        if k == key {
          assert nonce in t.registrations && t.registrations[nonce].generation == t.latest[k];
        } else {
          var n :| n in r.registrations && r.registrations[n].key == k && r.registrations[n].generation == r.latest[k];
          assert n in t.registrations && t.registrations[n] == r.registrations[n];
        }
      }
    }
  }

  lemma InsertValid<P>(r: Registry<P>, policy: Policy, limit: nat, nonce: Nonce, key: Key, payload: P)
    requires Valid(r, policy, limit) && |r.registrations| < limit && nonce !in r.registrations
    ensures Valid(Insert(r, nonce, key, payload), policy, limit)
    ensures IsCurrent(Insert(r, nonce, key, payload), Registration(nonce, key, r.nextGeneration + 1))
  {
    InsertConsistent(r, nonce, key, payload);
    InsertIndexed(r, policy, nonce, key, payload);
  }

  /** The same registrations with other payloads. */
  ghost predicate SameShape<P>(r: Registry<P>, t: Registry<P>) {
    && r.order == t.order && r.nextGeneration == t.nextGeneration && r.latest == t.latest
    && |r.registrations| == |t.registrations|
    && (forall n :: n in r.registrations <==> n in t.registrations)
    && (forall n :: n in r.registrations ==>
          r.registrations[n].key == t.registrations[n].key
          && r.registrations[n].generation == t.registrations[n].generation)
  }

  lemma SetPayloadShape<P>(r: Registry<P>, nonce: Nonce, payload: P)
    requires nonce in r.registrations
    ensures SameShape(r, SetPayload(r, nonce, payload))
  {
    assert SetPayload(r, nonce, payload).registrations.Keys == r.registrations.Keys;
  }

  lemma SameShapeValid<P>(r: Registry<P>, t: Registry<P>, policy: Policy, limit: nat)
    requires Valid(r, policy, limit) && SameShape(r, t)
    ensures Valid(t, policy, limit)
  {
    forall k | k in r.latest
      ensures KeyUsed(t.registrations, k)
    {
      var n :| n in r.registrations && r.registrations[n].key == k;
      assert n in t.registrations && t.registrations[n].key == k;
    }
    SameShapeStamped(r, t);
    SameShapeIndexed(r, t, policy);
  }

  lemma SameShapeStamped<P>(r: Registry<P>, t: Registry<P>)
    requires Stamped(r) && SameShape(r, t)
    ensures Stamped(t)
  {
  }

  lemma SameShapeIndexed<P>(r: Registry<P>, t: Registry<P>, policy: Policy)
    requires Indexed(r, policy) && SameShape(r, t)
    ensures Indexed(t, policy)
  {
    if policy == ByGeneration {
      forall k | k in t.latest
        ensures exists n :: n in t.registrations && t.registrations[n].key == k
                            && t.registrations[n].generation == t.latest[k]
      {
        var n :| n in r.registrations && r.registrations[n].key == k && r.registrations[n].generation == r.latest[k];
        assert n in t.registrations && t.registrations[n].generation == t.latest[k];
      }
    }
  }

  lemma SameShapeCurrent<P>(r: Registry<P>, t: Registry<P>, reg: Registration)
    requires SameShape(r, t)
    ensures IsCurrent(t, reg) <==> IsCurrent(r, reg)
  {
  }

  // ----- Consequences of the invariant

  /** At most one registration per session key is current. */
  lemma OneCurrentPerKey<P>(r: Registry<P>, a: Registration, b: Registration)
    requires Consistent(r) && IsCurrent(r, a) && IsCurrent(r, b) && a.key == b.key
    ensures a == b
  {
  }

  /** The index is no larger than the registrations. */
  lemma IndexNoLarger<P>(r: Registry<P>)
    requires Consistent(r)
    ensures |r.latest| <= |r.registrations|
  {
    KeysBounded(r.latest.Keys, r.registrations);
  }

  lemma {:induction false} KeysBounded<P>(keys: set<Key>, registrations: map<Nonce, Entry<P>>)
    requires forall k :: k in keys ==> KeyUsed(registrations, k)
    ensures |keys| <= |registrations|
    decreases |keys|
  {
    if keys != {} {
      var k :| k in keys;
      var n :| n in registrations && registrations[n].key == k;
      var fewer := registrations - {n};
      assert fewer.Keys == registrations.Keys - {n};
      forall j | j in keys - {k}
        ensures KeyUsed(fewer, j)
      {
        var m :| m in registrations && registrations[m].key == j;
        assert m in fewer;
      }
      KeysBounded(keys - {k}, fewer);
    }
  }

  /** The eviction order lists each live nonce exactly once. */
  lemma OrderCountsRegistrations<P>(r: Registry<P>)
    requires Ordered(r)
    ensures |r.order| == |r.registrations|
  {
    SizeOfDistinct(r.order);
    assert Elements(r.order) == r.registrations.Keys;
  }

  lemma {:induction false} SizeOfDistinct<T>(s: seq<T>)
    requires NoDup(s)
    ensures |Elements(s)| == |s|
  {
    if s != [] {
      SizeOfDistinct(s[1..]);
      assert s == [s[0]] + s[1..];
      assert Elements(s) == {s[0]} + Elements(s[1..]);
    }
  }

  // ----- Fencing

  /** A registration that was handed out and is no longer, or not any more, current. */
  ghost predicate Fenced<P>(r: Registry<P>, reg: Registration) {
    reg.generation <= r.nextGeneration && !IsCurrent(r, reg)
  }

  lemma DropKeepsFence<P>(r: Registry<P>, policy: Policy, gone: set<Nonce>, reg: Registration)
    requires Fenced(r, reg)
    ensures Fenced(Drop(r, policy, gone), reg)
  {
  }

  lemma {:induction false} MakeRoomKeepsFence<P>(r: Registry<P>, policy: Policy, room: nat, reg: Registration)
    requires Fenced(r, reg)
    ensures Fenced(MakeRoom(r, policy, room), reg)
    decreases |r.order|
  {
    if |r.registrations| >= room && r.order != [] {
      DropKeepsFence(r, policy, {r.order[0]}, reg);
      MakeRoomKeepsFence(Drop(r, policy, {r.order[0]}), policy, room, reg);
    }
  }

  lemma InsertKeepsFence<P>(r: Registry<P>, nonce: Nonce, key: Key, payload: P, reg: Registration)
    requires Fenced(r, reg)
    ensures Fenced(Insert(r, nonce, key, payload), reg)
  {
  }

  /** Inserting supersedes every registration of the key; dropping a nonce fences it. */
  lemma InsertSupersedes<P>(r: Registry<P>, nonce: Nonce, key: Key, payload: P, reg: Registration)
    requires reg.key == key && reg.generation <= r.nextGeneration
    ensures Fenced(Insert(r, nonce, key, payload), reg)
  {
  }

  lemma DropFences<P>(r: Registry<P>, policy: Policy, gone: set<Nonce>, reg: Registration)
    requires reg.nonce in gone && reg.generation <= r.nextGeneration
    ensures Fenced(Drop(r, policy, gone), reg)
  {
  }

  lemma {:induction false} MakeRoomCounter<P>(r: Registry<P>, policy: Policy, room: nat)
    ensures MakeRoom(r, policy, room).nextGeneration == r.nextGeneration
    decreases |r.order|
  {
    if |r.registrations| >= room && r.order != [] {
      MakeRoomCounter(Drop(r, policy, {r.order[0]}), policy, room);
    }
  }

  // ----- What registrations carry along

  /** Every registration of `t` that is not new was a registration of `r`, and the payloads are related. */
  ghost predicate Carries<P(!new)>(r: Registry<P>, t: Registry<P>, same: (P, P) -> bool) {
    && r.nextGeneration <= t.nextGeneration
    && forall n :: n in t.registrations && t.registrations[n].generation <= r.nextGeneration ==>
         && n in r.registrations
         && t.registrations[n].generation == r.registrations[n].generation
         && t.registrations[n].key == r.registrations[n].key
         && same(r.registrations[n].payload, t.registrations[n].payload)
  }

  ghost predicate Reflexive<P(!new)>(same: (P, P) -> bool) { forall p :: same(p, p) }

  ghost predicate Transitive<P(!new)>(same: (P, P) -> bool) {
    forall p, q, r :: same(p, q) && same(q, r) ==> same(p, r)
  }

  lemma CarriesTwice<P(!new)>(r: Registry<P>, t: Registry<P>, u: Registry<P>, same: (P, P) -> bool)
    requires Carries(r, t, same) && Carries(t, u, same) && Transitive(same)
    ensures Carries(r, u, same)
  {
  }

  lemma DropCarries<P(!new)>(r: Registry<P>, policy: Policy, gone: set<Nonce>, same: (P, P) -> bool)
    requires Reflexive(same)
    ensures Carries(r, Drop(r, policy, gone), same)
  {
  }

  lemma {:induction false} MakeRoomCarries<P(!new)>(r: Registry<P>, policy: Policy, room: nat, same: (P, P) -> bool)
    requires Reflexive(same) && Transitive(same)
    ensures Carries(r, MakeRoom(r, policy, room), same)
    decreases |r.order|
  {
    if |r.registrations| >= room && r.order != [] {
      var t := Drop(r, policy, {r.order[0]});
      DropCarries(r, policy, {r.order[0]}, same);
      MakeRoomCarries(t, policy, room, same);
      CarriesTwice(r, t, MakeRoom(t, policy, room), same);
    }
  }

  lemma InsertCarries<P(!new)>(r: Registry<P>, nonce: Nonce, key: Key, payload: P, same: (P, P) -> bool)
    requires Reflexive(same)
    ensures Carries(r, Insert(r, nonce, key, payload), same)
  {
  }

  lemma SetPayloadCarries<P(!new)>(r: Registry<P>, nonce: Nonce, payload: P, same: (P, P) -> bool)
    requires Reflexive(same) && nonce in r.registrations && same(r.registrations[nonce].payload, payload)
    ensures Carries(r, SetPayload(r, nonce, payload), same)
  {
  }

  // ----- How the index moves

  /** An index entry is kept, removed, or replaced by a newer generation than any handed out. */
  ghost predicate IndexMoves<P>(r: Registry<P>, t: Registry<P>) {
    && r.nextGeneration <= t.nextGeneration
    && forall k :: k in t.latest ==>
         t.latest[k] > r.nextGeneration || (k in r.latest && t.latest[k] == r.latest[k])
  }

  lemma IndexMovesTwice<P>(r: Registry<P>, t: Registry<P>, u: Registry<P>)
    requires IndexMoves(r, t) && IndexMoves(t, u)
    ensures IndexMoves(r, u)
  {
  }

  lemma {:induction false} MakeRoomMoves<P>(r: Registry<P>, policy: Policy, room: nat)
    ensures IndexMoves(r, MakeRoom(r, policy, room))
    decreases |r.order|
  {
    if |r.registrations| >= room && r.order != [] {
      var t := Drop(r, policy, {r.order[0]});
      MakeRoomMoves(t, policy, room);
      IndexMovesTwice(r, t, MakeRoom(t, policy, room));
    }
  }

  // ----- What is published, against the index

  /** What was published is in generation order, key by key. */
  ghost predicate LogOrdered(log: seq<Registration>) {
    forall i, j :: 0 <= i < j < |log| && log[i].key == log[j].key ==> log[i].generation <= log[j].generation
  }

  /** Nothing published is ahead of the counter or of the index. */
  ghost predicate LogBehind<P>(log: seq<Registration>, r: Registry<P>) {
    && (forall i :: 0 <= i < |log| ==> log[i].generation <= r.nextGeneration)
    && (forall i :: 0 <= i < |log| && log[i].key in r.latest ==> log[i].generation <= r.latest[log[i].key])
  }

  lemma MovedLogBehind<P>(log: seq<Registration>, r: Registry<P>, t: Registry<P>)
    requires LogBehind(log, r) && IndexMoves(r, t)
    ensures LogBehind(log, t)
  {
  }

  lemma PublishKeepsLog<P>(log: seq<Registration>, r: Registry<P>, reg: Registration)
    requires Bounded(r) && LogBehind(log, r) && LogOrdered(log) && IsCurrent(r, reg)
    ensures LogBehind(log + [reg], r) && LogOrdered(log + [reg])
  {
    assert r.latest[reg.key] == reg.generation;
  }

  // ----- The part of the invariant that the operations themselves rely on

  ghost predicate Usable<P>(r: Registry<P>) {
    Ordered(r) && AllUsed(r)
  }

  lemma DropUsable<P>(r: Registry<P>, gone: set<Nonce>)
    requires Ordered(r)
    ensures Usable(Drop(r, ByKey, gone))
  {
    DropOrdered(r, ByKey, gone);
  }

  lemma {:induction false} MakeRoomUsable<P>(r: Registry<P>, room: nat)
    requires Usable(r)
    ensures Usable(MakeRoom(r, ByKey, room))
    decreases |r.order|
  {
    if |r.registrations| >= room && r.order != [] {
      DropUsable(r, {r.order[0]});
      MakeRoomUsable(Drop(r, ByKey, {r.order[0]}), room);
    }
  }

  lemma InsertUsable<P>(r: Registry<P>, nonce: Nonce, key: Key, payload: P)
    requires Usable(r) && nonce !in r.registrations
    ensures Usable(Insert(r, nonce, key, payload))
  {
    InsertOrdered(r, nonce, key, payload);
    forall k | k in Insert(r, nonce, key, payload).latest
      ensures KeyUsed(Insert(r, nonce, key, payload).registrations, k)
    {
      InsertKeepsUse(r, nonce, key, payload, k);
    }
  }

  lemma SetPayloadUsable<P>(r: Registry<P>, nonce: Nonce, payload: P)
    requires Usable(r) && nonce in r.registrations
    ensures Usable(SetPayload(r, nonce, payload))
  {
    var t := SetPayload(r, nonce, payload);
    forall k | k in r.latest
      ensures KeyUsed(t.registrations, k)
    {
      var n :| n in r.registrations && r.registrations[n].key == k;
      assert n in t.registrations && t.registrations[n].key == k;
    }
  }

  // ----- Dropping one by one is dropping at once

  lemma KeyUsedFewer<P>(registrations: map<Nonce, Entry<P>>, a: set<Nonce>, b: set<Nonce>, k: Key)
    requires a <= b && KeyUsed(registrations - b, k)
    ensures KeyUsed(registrations - a, k)
  {
    var n :| n in registrations - b && (registrations - b)[n].key == k;
    assert n in registrations - a && (registrations - a)[n].key == k;
  }

  lemma DropTwice<P>(r: Registry<P>, a: set<Nonce>, b: set<Nonce>)
    ensures Drop(Drop(r, ByKey, a), ByKey, b) == Drop(r, ByKey, a + b)
  {
    WithoutTwice(r.order, a, b);
    var d := Drop(r, ByKey, a);
    assert d.registrations - b == r.registrations - (a + b);
    forall k | k in r.latest
      ensures k in Drop(d, ByKey, b).latest <==> k in Drop(r, ByKey, a + b).latest
    {
      if KeyUsed(r.registrations - (a + b), k) {
        KeyUsedFewer(r.registrations, a, a + b, k);
      }
    }
  }

  lemma DropNothing<P>(r: Registry<P>)
    requires AllUsed(r)
    ensures Drop(r, ByKey, {}) == r
  {
    WithoutShorter(r.order, {});
    assert r.registrations - {} == r.registrations;
    LatestKept(r);
  }

  lemma LatestKept<P>(r: Registry<P>)
    requires AllUsed(r)
    ensures Drop(r, ByKey, {}).latest == r.latest
  {
    assert r.registrations - {} == r.registrations;
  }
}
