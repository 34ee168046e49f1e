/**
 * The Claude hook registry as an object whose fields are updated in place.  Every
 * method is proved to make exactly the step that module ClaudeRegistry describes;
 * the two gates that surround the steps are modelled in module GenerationFence.
 */
module ClaudeHookRegistry {
  import opened Common
  import opened RegistryCore
  import opened ClaudeRegistry

  datatype Removed = Removed(registration: Registration, wasLatest: bool)

  ghost predicate IsReported(removed: seq<Removed>, nonce: Nonce, entry: Entry<Session>) {
    exists i :: 0 <= i < |removed| && removed[i].registration == Registration(nonce, entry.key, entry.generation)
  }

  /** Every registration is either left as it was or reported as removed, and none is reported twice. */
  ghost predicate Accounts(before: map<Nonce, Entry<Session>>, left: map<Nonce, Entry<Session>>, removed: seq<Removed>) {
    && (forall n :: n in left ==> n in before && left[n] == before[n])
    && (forall n :: n in before && n !in left ==> IsReported(removed, n, before[n]))
    && |before| == |left| + |removed|
  }

  lemma AccountOne(before: map<Nonce, Entry<Session>>, left: map<Nonce, Entry<Session>>, removed: seq<Removed>,
                   nonce: Nonce, one: Removed)
    requires Accounts(before, left, removed) && nonce in left
    requires one.registration == Registration(nonce, left[nonce].key, left[nonce].generation)
    ensures Accounts(before, left - {nonce}, removed + [one])
  {
    var more := removed + [one];
    assert (left - {nonce}).Keys == left.Keys - {nonce};
    assert |left - {nonce}| == |(left - {nonce}).Keys| && |left| == |left.Keys|;
    assert more[|removed|] == one;
    forall n | n in before && n !in left
      ensures IsReported(more, n, before[n])
    {
      var i :| 0 <= i < |removed| && removed[i].registration == Registration(n, before[n].key, before[n].generation);
      assert more[i] == removed[i];
    }
  }

  lemma DropOneOf(r: State, rest: set<Nonce>, n: Nonce)
    requires n in rest
    ensures Drop(Drop(r, ByKey, {n}), ByKey, rest - {n}) == Drop(r, ByKey, rest)
  {
    DropTwice(r, {n}, rest - {n});
    assert {n} + (rest - {n}) == rest;
  }

  class HookRegistry {
    const limits: Limits
    var registrations: map<Nonce, Entry<Session>>
    var order: seq<Nonce>
    var nextGeneration: nat
    var latest: map<Key, nat>

    ghost function View(): State
      reads this
    {
      Registry(registrations, order, nextGeneration, latest)
    }

    ghost predicate Valid()
      reads this
    {
      Usable(View())
    }

    constructor (limits: Limits)
      ensures Valid() && View() == Empty() && this.limits == limits
    {
      this.limits := limits;
      registrations, order, nextGeneration, latest := map[], [], 0, map[];
    }

    /** Forgets the key of a removed registration when nothing else uses it. */
    lemma ProveForgotten(before: State, nonce: Nonce)
      requires AllUsed(before) && nonce in before.registrations
      ensures var key := before.registrations[nonce].key;
              Drop(before, ByKey, {nonce}).latest ==
              if KeyUsed(before.registrations - {nonce}, key) then before.latest else before.latest - {key}
    {
      var key := before.registrations[nonce].key;
      forall k | k in before.latest && k != key
        ensures KeyUsed(before.registrations - {nonce}, k)
      {
        var n :| n in before.registrations && before.registrations[n].key == k;
        assert n in before.registrations - {nonce} && (before.registrations - {nonce})[n].key == k;
      }
    }

    /** `remove_registration`: also says whether the registration was the latest of its key. */
    method RemoveRegistration(nonce: Nonce) returns (removed: Option<Removed>)
      requires AllUsed(View())
      modifies this
      ensures View() == Drop(old(View()), ByKey, {nonce})
      ensures removed.Some? <==> nonce in old(registrations)
      ensures removed.Some? ==>
                && removed.value.registration == Registration(nonce, old(registrations)[nonce].key, old(registrations)[nonce].generation)
                && (removed.value.wasLatest <==> IsCurrent(old(View()), removed.value.registration))
    {
      ghost var before := View();
      order := Without(order, {nonce});
      if nonce !in registrations {
        assert registrations - {nonce} == registrations;
        return None;
      }
      ProveForgotten(before, nonce);
      var entry := registrations[nonce];
      registrations := registrations - {nonce};
      var wasLatest := entry.key in latest && latest[entry.key] == entry.generation;
      if !exists n :: n in registrations && registrations[n].key == entry.key {
        latest := latest - {entry.key};
      }
      return Some(Removed(Registration(nonce, entry.key, entry.generation), wasLatest));
    }

    /** `remove_expired`: drops every expired registration, in whatever order the map yields them. */
    method RemoveExpiredAt(now: nat) returns (removed: seq<Removed>)
      requires Valid()
      modifies this
      ensures Valid() && View() == RemoveExpired(old(View()), now)
      ensures Accounts(old(registrations), registrations, removed)
    {
      var expired := set n | n in registrations && now > registrations[n].payload.expiresAt;
      removed := RemoveAll(expired);
      RetainLive();
    }

    method RemoveAll(nonces: set<Nonce>) returns (removed: seq<Removed>)
      requires Valid() && nonces <= registrations.Keys
      modifies this
      ensures Valid() && View() == Drop(old(View()), ByKey, nonces)
      ensures Accounts(old(registrations), registrations, removed)
    {
      ghost var before := View();
      var rest := nonces;
      removed := [];
      while rest != {}
        invariant rest <= registrations.Keys && Valid()
        invariant Accounts(before.registrations, registrations, removed)
        invariant Drop(View(), ByKey, rest) == Drop(before, ByKey, nonces)
        decreases rest
      {
        var n :| n in rest;
        DropOneOf(View(), rest, n);
        removed := RemoveOne(before.registrations, removed, n);
        rest := rest - {n};
      }
      DropNothing(View());
    }

    /** One turn of the loop over expired registrations. */
    method RemoveOne(ghost before: map<Nonce, Entry<Session>>, removed: seq<Removed>, nonce: Nonce)
      returns (more: seq<Removed>)
      requires Valid() && nonce in registrations && Accounts(before, registrations, removed)
      modifies this
      ensures Valid() && View() == Drop(old(View()), ByKey, {nonce})
      ensures Accounts(before, registrations, more)
    {
      DropUsable(View(), {nonce});
      ghost var left := registrations;
      var one := RemoveRegistration(nonce);
      more := removed;
      if one.Some? {
        AccountOne(before, left, removed, nonce, one.value);
        more := removed + [one.value];
      }
    }

    /** The closing `retain` finds nothing to remove. */
    method RetainLive()
      requires Valid()
      modifies this
      ensures View() == old(View())
    {
      var dead := Elements(order) - registrations.Keys;
      WithoutShorter(order, dead);
      order := Without(order, dead);
    }

    /** The eviction loop of a registration. */
    method EvictOldest() returns (removed: seq<Removed>)
      requires Valid()
      modifies this
      ensures Valid() && View() == MakeRoom(old(View()), ByKey, Capacity(limits))
      ensures Accounts(old(registrations), registrations, removed)
    {
      removed := [];
      ghost var before := View();
      while |registrations| >= Capacity(limits)
        invariant Valid()
        invariant MakeRoom(View(), ByKey, Capacity(limits)) == MakeRoom(before, ByKey, Capacity(limits))
        invariant Accounts(before.registrations, registrations, removed)
        decreases |order|
      {
        if order == [] {
          break;
        }
        ghost var left := registrations;
        var one := EvictFront();
        AccountOne(before.registrations, left, removed, one.registration.nonce, one);
        removed := removed + [one];
      }
    }

    method EvictFront() returns (removed: Removed)
      requires Valid() && order != []
      modifies this
      ensures Valid() && View() == Drop(old(View()), ByKey, {old(order)[0]}) && |order| < |old(order)|
      ensures var n := old(order)[0];
              n in old(registrations)
              && removed.registration == Registration(n, old(registrations)[n].key, old(registrations)[n].generation)
    {
      DropUsable(View(), {order[0]});
      var oldest := order[0];
      order := order[1..];
      var one := RemoveRegistration(oldest);
      removed := one.value;
    }

    /**
     * `register_at` and `register_correlated_at`.  The nonce stands for the first value of
     * the random loop that is not registered, or `None` when the random source fails.
     */
    method RegisterAt(key: Key, sealed: Option<Sealed>, carried: Option<Id>, now: nat, nonce: Option<Nonce>)
      returns (r: Result<Registration, RegisterError>)
      requires Valid()
      requires nonce.Some? ==> nonce.value !in BeforeInsert(View(), limits, now).registrations
      modifies this
      ensures Valid() && (View(), r) == Register(old(View()), limits, key, sealed, carried, now, nonce)
      ensures r.Ok? ==> IsCurrent(View(), r.value)
    {
      var dropped := RemoveExpiredAt(now);
      var evicted := EvictOldest();
      r := InsertSession(key, FreshSession(limits, sealed, carried, now), nonce);
    }

    method InsertSession(key: Key, session: Session, nonce: Option<Nonce>)
      returns (r: Result<Registration, RegisterError>)
      requires Valid() && (nonce.Some? ==> nonce.value !in registrations)
      modifies this
      ensures Valid() && (View(), r) == InsertInto(old(View()), key, session, nonce)
      ensures r.Ok? ==> IsCurrent(View(), r.value)
    {
      if nonce.None? {
        return Err(NoRandomness);
      }
      if nextGeneration >= U64_MAX {
        return Err(GenerationExhausted);
      }
      InsertUsable(View(), nonce.value, key, session);
      nextGeneration := nextGeneration + 1;
      latest := latest[key := nextGeneration];
      order := order + [nonce.value];
      registrations := registrations[nonce.value := Entry(key, nextGeneration, session)];
      return Ok(Registration(nonce.value, key, nextGeneration));
    }

    method UnregisterNonce(nonce: Nonce) returns (key: Option<Key>)
      requires Valid()
      modifies this
      ensures Valid() && View() == Unregister(old(View()), nonce)
      ensures key == if nonce in old(registrations) then Some(old(registrations)[nonce].key) else None
    {
      DropUsable(View(), {nonce});
      var removed := RemoveRegistration(nonce);
      return if removed.Some? then Some(removed.value.registration.key) else None;
    }

    /** Unregisters only if the nonce still names that very registration. */
    method UnregisterExactly(reg: Registration) returns (key: Option<Key>)
      requires Valid()
      modifies this
      ensures Valid() && View() == UnregisterRegistration(old(View()), reg)
      ensures key == if Matches(old(View()), reg) then Some(reg.key) else None
    {
      if Matches(Registry(registrations, order, nextGeneration, latest), reg) {
        key := UnregisterNonce(reg.nonce);
      } else {
        key := None;
      }
    }

    method AdmitAt(nonce: Nonce, now: nat) returns (r: Result<Registration, Refusal>)
      requires Valid()
      modifies this
      ensures Valid() && (View(), r) == Admit(old(View()), limits, nonce, now)
    {
      if nonce !in registrations {
        var removed := RemoveExpiredAt(now);
        return Err(Rejected);
      }
      var entry := registrations[nonce];
      if now > entry.payload.expiresAt {
        RemoveExpiredNonce(nonce, now);
        return Err(Expired);
      }
      SetPayloadUsable(View(), nonce, Touch(entry.payload, limits, now));
      if entry.payload.activated {
        registrations := registrations[nonce := entry.(payload := entry.payload.(expiresAt := now + limits.ttl))];
      } else {
        assert registrations == registrations[nonce := entry];
      }
      return Ok(Registration(nonce, entry.key, entry.generation));
    }

    /** The expired branch of admission: the presented nonce first, then all others. */
    method RemoveExpiredNonce(nonce: Nonce, now: nat)
      requires Valid() && nonce in ExpiredNonces(View(), now)
      modifies this
      ensures Valid() && View() == RemoveExpired(old(View()), now)
    {
      ghost var before := View();
      ExpiredAfter(before, nonce, now);
      DropUsable(before, {nonce});
      DropUnlisted(before, nonce);
      order := Without(order, {nonce});
      var one := RemoveRegistration(nonce);
      var rest := RemoveExpiredAt(now);
    }

    /** Taking a nonce out of the order before dropping it changes nothing. */
    lemma DropUnlisted(before: State, nonce: Nonce)
      ensures Drop(before.(order := Without(before.order, {nonce})), ByKey, {nonce}) == Drop(before, ByKey, {nonce})
    {
      WithoutTwice(before.order, {nonce}, {nonce});
      assert {nonce} + {nonce} == {nonce};
    }

    /** Removing an expired nonce first does not change what removing the expired ones leaves. */
    lemma ExpiredAfter(before: State, nonce: Nonce, now: nat)
      requires nonce in ExpiredNonces(before, now)
      ensures RemoveExpired(Drop(before, ByKey, {nonce}), now) == RemoveExpired(before, now)
    {
      var d := Drop(before, ByKey, {nonce});
      assert ExpiredNonces(d, now) == ExpiredNonces(before, now) - {nonce};
      DropTwice(before, {nonce}, ExpiredNonces(d, now));
      assert {nonce} + ExpiredNonces(d, now) == ExpiredNonces(before, now);
    }

    /** The locked section of HTTP ingress: binds the identity that the event carries. */
    method AdmitIngressAt(nonce: Nonce, event: Event, now: nat) returns (r: Result<Registration, Refusal>)
      requires Valid()
      modifies this
      ensures Valid() && (View(), r) == Ingress(old(View()), limits, nonce, event, now)
    {
      if !event.bounded || nonce !in registrations {
        return Err(Rejected);
      }
      var entry := registrations[nonce];
      if now > entry.payload.expiresAt {
        return Err(Expired);
      }
      var reg := Registration(nonce, entry.key, entry.generation);
      if !(entry.key in latest && latest[entry.key] == entry.generation) {
        return Err(Rejected);
      }
      var observed := IngressIdentity(entry.payload, event);
      if observed.None? {
        return Err(Rejected);
      }
      var session := entry.payload;
      if session.bound.None? {
        session := session.(bound := observed);
      }
      if session.activated {
        session := session.(expiresAt := now + limits.ttl);
      }
      SetPayloadUsable(View(), nonce, session);
      registrations := registrations[nonce := entry.(payload := session)];
      return Ok(reg);
    }

    /** The locked section of `reduce_admitted`; says whether the registration became healthy. */
    method ReduceAdmitted(reg: Registration, event: Event, admittedAt: nat, degraded: bool) returns (promoted: bool)
      requires Valid()
      modifies this
      ensures Valid() && View() == Reduce(old(View()), limits, reg, event, admittedAt, degraded)
      ensures promoted <==> && reg.nonce in old(registrations) && !old(registrations)[reg.nonce].payload.activated
                            && registrations[reg.nonce].payload.activated
    {
      if !IsCurrent(Registry(registrations, order, nextGeneration, latest), reg) || !event.bounded {
        return false;
      }
      if !(event.parses && event.name.SessionStart?) || !event.session.Given? {
        return false;
      }
      var entry, official := registrations[reg.nonce], event.session.id;
      var session := entry.payload;
      if !ExpectedAllows(session, official) {
        return false;
      }
      if session.bound.Some? {
        if session.bound.value != official {
          return false;
        }
      } else {
        session := session.(bound := Some(official));
      }
      promoted := !degraded && !session.activated;
      if promoted {
        session := session.(activated := true, expiresAt := admittedAt + limits.ttl);
      }
      SetPayloadUsable(View(), reg.nonce, session);
      registrations := registrations[reg.nonce := entry.(payload := session)];
    }

    /** The locked section of a correlated SessionStart delivery. */
    method BindCorrelatedAt(reg: Registration, presented: Sealed, presentedGeneration: nat, expected: Binding,
                            event: Event) returns (r: Result<Id, BindError>)
      requires Valid()
      modifies this
      ensures Valid() && (View(), r) == BindCorrelated(old(View()), reg, presented, presentedGeneration, expected, event)
    {
      var current := IsCurrentRegistration(reg);
      if !current {
        return Err(Stale);
      }
      var entry := registrations[reg.nonce];
      var sealed := entry.payload.sealed;
      if sealed.None? || presented != sealed.value || presentedGeneration != entry.generation {
        return Err(CorrelationMismatch);
      }
      if expected != sealed.value.binding {
        return Err(BindingMismatch);
      }
      if !event.parses {
        return Err(InvalidPayload);
      }
      if !event.name.SessionStart? {
        return Err(NotSessionStart);
      }
      if !event.session.Given? {
        return Err(if event.session.TooLong? then IdTooLong else MissingId);
      }
      var observed := event.session.id;
      if !event.validId {
        return Err(InvalidPayload);
      }
      if sealed.value.expected.Some? && sealed.value.expected.value != observed {
        return Err(ResumeMismatch);
      }
      SetPayloadUsable(View(), reg.nonce, Bind(entry.payload, observed));
      if entry.payload.bound.Some? {
        if entry.payload.bound.value != observed {
          return Err(RebindRejected);
        }
        assert registrations == registrations[reg.nonce := entry];
      } else {
        registrations := registrations[reg.nonce := entry.(payload := entry.payload.(bound := Some(observed)))];
      }
      return Ok(observed);
    }

    /** The test that `publish_if_current` makes under the publication gate. */
    method IsCurrentRegistration(reg: Registration) returns (current: bool)
      ensures current <==> IsCurrent(View(), reg)
    {
      return && reg.nonce in registrations
             && registrations[reg.nonce].generation == reg.generation && registrations[reg.nonce].key == reg.key
             && reg.key in latest && latest[reg.key] == reg.generation;
    }
  }
}
