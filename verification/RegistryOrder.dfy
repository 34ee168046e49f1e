/** The eviction order is the order of registration, and eviction takes the oldest. */
module RegistryOrder {
  import opened Common
  import opened RegistryCore

  /** The nonces stand in the order of their generations. */
  ghost predicate Sorted<P>(order: seq<Nonce>, registrations: map<Nonce, Entry<P>>) {
    && (forall i :: 0 <= i < |order| ==> order[i] in registrations)
    && forall i, j :: 0 <= i < j < |order| ==> registrations[order[i]].generation < registrations[order[j]].generation
  }

  ghost predicate Chronological<P>(r: Registry<P>) { Sorted(r.order, r.registrations) }

  lemma SortedFrom<P>(n: Nonce, order: seq<Nonce>, registrations: map<Nonce, Entry<P>>)
    requires Sorted(order, registrations) && n in registrations
    requires forall m :: m in order ==> m in registrations && registrations[n].generation < registrations[m].generation
    ensures Sorted([n] + order, registrations)
  {
  }

  lemma {:induction false} SortedWithout<P>(order: seq<Nonce>, registrations: map<Nonce, Entry<P>>, gone: set<Nonce>)
    requires Sorted(order, registrations)
    ensures Sorted(Without(order, gone), registrations)
  {
    if order != [] {
      SortedWithout(order[1..], registrations, gone);
      WithoutElements(order[1..], gone);
      if order[0] !in gone {
        SortedFrom(order[0], Without(order[1..], gone), registrations);
      }
    }
  }

  lemma DropChronological<P>(r: Registry<P>, policy: Policy, gone: set<Nonce>)
    requires Chronological(r)
    ensures Chronological(Drop(r, policy, gone))
  {
    SortedWithout(r.order, r.registrations, gone);
    WithoutElements(r.order, gone);
    var kept := Without(r.order, gone);
    forall i | 0 <= i < |kept|
      ensures kept[i] in r.registrations - gone
    {
      assert kept[i] in kept;
    }
  }

  lemma {:induction false} MakeRoomChronological<P>(r: Registry<P>, policy: Policy, room: nat)
    requires Chronological(r)
    ensures Chronological(MakeRoom(r, policy, room))
    decreases |r.order|
  {
    if |r.registrations| >= room && r.order != [] {
      DropChronological(r, policy, {r.order[0]});
      MakeRoomChronological(Drop(r, policy, {r.order[0]}), policy, room);
    }
  }

  lemma InsertChronological<P>(r: Registry<P>, nonce: Nonce, key: Key, payload: P)
    requires Chronological(r) && Bounded(r) && nonce !in r.registrations
    ensures Chronological(Insert(r, nonce, key, payload))
  {
  }

  lemma SameShapeChronological<P>(r: Registry<P>, t: Registry<P>)
    requires Chronological(r) && SameShape(r, t)
    ensures Chronological(t)
  {
  }

  // ----- What making room leaves

  lemma WithoutFirst<T>(s: seq<T>)
    requires NoDup(s) && s != []
    ensures Without(s, {s[0]}) == s[1..]
  {
    forall x | x in s[1..]
      ensures x != s[0]
    {
      var i :| 0 <= i < |s[1..]| && s[1..][i] == x;
      assert s[i + 1] == x;
    }
    WithoutShorter(s[1..], {s[0]});
  }

  lemma DropFirst<P>(r: Registry<P>, policy: Policy)
    requires Ordered(r) && r.order != []
    ensures var d := Drop(r, policy, {r.order[0]});
            Ordered(d) && d.order == r.order[1..] && |d.registrations| == |r.registrations| - 1
  {
    DropOrdered(r, policy, {r.order[0]});
    WithoutFirst(r.order);
    OrderCountsRegistrations(r);
    OrderCountsRegistrations(Drop(r, policy, {r.order[0]}));
  }

  /** How many registrations make way for one more. */
  function Surplus(size: nat, room: nat): (k: nat)
    ensures k <= size
  {
    if size < room || room == 0 then 0 else size - room + 1
  }

  /** Making room leaves the end of the order. */
  lemma {:induction false} MakeRoomLeaves<P>(r: Registry<P>, policy: Policy, room: nat)
    requires Ordered(r) && room > 0
    ensures MakeRoom(r, policy, room).order == r.order[Surplus(|r.order|, room)..]
    decreases |r.order|
  {
    OrderCountsRegistrations(r);
    if |r.registrations| < room {
      NothingLeaves(r.order);
    } else {
      var d := Drop(r, policy, {r.order[0]});
      DropFirst(r, policy);
      MakeRoomLeaves(d, policy, room);
      OneMoreLeaves(r.order, d.order, room);
    }
  }

  lemma NothingLeaves<T>(s: seq<T>)
    ensures s[0..] == s
  {
  }

  lemma OneMoreLeaves<T>(s: seq<T>, t: seq<T>, room: nat)
    requires 0 < room <= |s| && t == s[1..]
    ensures t[Surplus(|t|, room)..] == s[Surplus(|s|, room)..]
  {
  }

  /** The registrations that are newer than a generation. */
  ghost function Newer<P>(registrations: map<Nonce, Entry<P>>, generation: nat): set<Nonce> {
    set n | n in registrations && registrations[n].generation > generation
  }

  lemma NewerIsTail<P>(r: Registry<P>, x: nat)
    requires Ordered(r) && Chronological(r) && x < |r.order|
    ensures |Newer(r.registrations, r.registrations[r.order[x]].generation)| == |r.order| - x - 1
  {
    var tail, newer := r.order[x + 1..], Newer(r.registrations, r.registrations[r.order[x]].generation);
    forall n
      ensures n in newer <==> n in tail
    {
      if n in tail {
        var i :| 0 <= i < |tail| && tail[i] == n;
        assert r.order[x + 1 + i] == n;
      }
      if n in newer {
        var i :| 0 <= i < |r.order| && r.order[i] == n;
        assert i > x && tail[i - x - 1] == n;
      }
    }
    SizeOfDistinct(tail);
    assert Elements(tail) == newer;
  }

  lemma InTail<T>(s: seq<T>, k: nat, x: nat)
    requires NoDup(s) && x < |s| && k <= |s|
    ensures s[x] in s[k..] <==> x >= k
  {
    assert x >= k ==> s[k..][x - k] == s[x];
  }

  /** A registration stays exactly when fewer than `room - 1` are newer. */
  lemma StaysExactly<P>(r: Registry<P>, policy: Policy, room: nat, n: Nonce)
    requires Ordered(r) && Chronological(r) && room > 0 && n in r.registrations
    ensures n in MakeRoom(r, policy, room).registrations <==>
            |Newer(r.registrations, r.registrations[n].generation)| < room - 1
  {
    MakeRoomLeaves(r, policy, room);
    RoomOrdered(r, policy, room);
    var x :| 0 <= x < |r.order| && r.order[x] == n;
    NewerIsTail(r, x);
    InTail(r.order, Surplus(|r.order|, room), x);
  }

  lemma {:induction false} RoomOrdered<P>(r: Registry<P>, policy: Policy, room: nat)
    requires Ordered(r)
    ensures Ordered(MakeRoom(r, policy, room))
    decreases |r.order|
  {
    if |r.registrations| >= room && r.order != [] {
      DropOrdered(r, policy, {r.order[0]});
      RoomOrdered(Drop(r, policy, {r.order[0]}), policy, room);
    }
  }

  // ----- What stays current

  lemma DropKeepsCurrent<P>(r: Registry<P>, policy: Policy, gone: set<Nonce>, reg: Registration)
    requires Distinct(r) && IsCurrent(r, reg) && reg.nonce !in gone
    ensures IsCurrent(Drop(r, policy, gone), reg)
  {
    assert reg.nonce in r.registrations - gone && (r.registrations - gone)[reg.nonce].key == reg.key;
  }

  lemma {:induction false} MakeRoomKeeps<P>(r: Registry<P>, policy: Policy, room: nat, n: Nonce)
    requires n in MakeRoom(r, policy, room).registrations
    ensures n in r.registrations && MakeRoom(r, policy, room).registrations[n] == r.registrations[n]
    decreases |r.order|
  {
    if |r.registrations| >= room && r.order != [] {
      MakeRoomKeeps(Drop(r, policy, {r.order[0]}), policy, room, n);
    }
  }

  lemma {:induction false} MakeRoomKeepsCurrent<P>(r: Registry<P>, policy: Policy, room: nat, reg: Registration)
    requires Distinct(r) && IsCurrent(r, reg) && reg.nonce in MakeRoom(r, policy, room).registrations
    ensures IsCurrent(MakeRoom(r, policy, room), reg)
    decreases |r.order|
  {
    if |r.registrations| >= room && r.order != [] {
      var d := Drop(r, policy, {r.order[0]});
      MakeRoomKeeps(d, policy, room, reg.nonce);
      DropKeepsCurrent(r, policy, {r.order[0]}, reg);
      MakeRoomKeepsCurrent(d, policy, room, reg);
    }
  }

  lemma InsertKeepsCurrent<P>(r: Registry<P>, nonce: Nonce, key: Key, payload: P, reg: Registration)
    requires IsCurrent(r, reg) && reg.key != key && nonce !in r.registrations
    ensures IsCurrent(Insert(r, nonce, key, payload), reg)
  {
  }
}
