/** Which events HTTP ingress admits, and how long a registration lives on them. */
module ClaudeIngress {
  import opened Common
  import opened RegistryCore
  import opened ClaudeRegistry
  import opened ClaudeLifetimes

  /** The seal names no other id than this one. */
  predicate Expects(s: Session, id: Id) {
    s.sealed.Some? ==> s.sealed.value.expected == None || s.sealed.value.expected == Some(id)
  }

  /** A hook body that is well formed and carries a provider session id. */
  predicate WellFormed(event: Event) {
    event.bounded && event.parses && event.name != UnknownEvent && event.session.Given? && event.validId
  }

  /**
   * An event is admitted exactly when it is well formed, its registration is unexpired, current and
   * sealed, and it either starts the session with an id that the seal and an earlier binding allow,
   * or carries the bound id.
   */
  lemma IngressExactly(r: State, limits: Limits, nonce: Nonce, event: Event, now: nat)
    ensures Ingress(r, limits, nonce, event, now).1.Ok? <==>
            && WellFormed(event) && nonce in r.registrations
            && var e := r.registrations[nonce];
               && now <= e.payload.expiresAt && e.key in r.latest && r.latest[e.key] == e.generation
               && e.payload.sealed.Some?
               && (event.name == SessionStart ==> Expects(e.payload, event.session.id))
               && (e.payload.bound == Some(event.session.id) || (e.payload.bound == None && event.name == SessionStart))
    ensures var (t, result) := Ingress(r, limits, nonce, event, now);
            && (result.Err? ==> t == r)
            && (result.Ok? ==>
                  && result.value == Registration(nonce, r.registrations[nonce].key, r.registrations[nonce].generation)
                  && t == r.(registrations := t.registrations) && t.registrations.Keys == r.registrations.Keys
                  && (forall n :: n in r.registrations && n != nonce ==> t.registrations[n] == r.registrations[n])
                  && t.registrations[nonce].payload.bound == Some(event.session.id))
  {
  }

  // ----- After the session has started

  /** The id and the seal of an admitted registration are there as long as it is current. */
  lemma BoundWhileCurrent(limits: Limits, states: seq<State>, steps: seq<Step>, i: nat, j: nat, reg: Registration)
    requires IsRun(limits, states, steps) && i < j < |states|
    requires Admitted(limits, states[i], steps[i], reg) && IsCurrent(states[j], reg)
    ensures var s := states[j].registrations[reg.nonce].payload;
            s.sealed.Some? && s.bound == Some(steps[i].event.session.id)
  {
    AdmissionBinds(states[i], limits, steps[i], reg);
    assert states[i + 1] == Apply(states[i], limits, steps[i]);
    BoundIdIsWriteOnce(limits, states, steps, i + 1, j, reg.nonce);
  }

  lemma AdmissionBinds(r: State, limits: Limits, step: Step, reg: Registration)
    requires Admitted(limits, r, step, reg)
    ensures var t := Apply(r, limits, step);
            && step.target == reg.nonce && step.event.session.Given? && IsCurrent(r, reg) && IsCurrent(t, reg)
            && t.registrations[reg.nonce].payload.sealed.Some?
            && t.registrations[reg.nonce].payload.bound == Some(step.event.session.id)
  {
  }

  /**
   * Once an event was admitted for a registration, a later one is admitted exactly when no step in
   * between ended the registration, it has not expired, and the event is well formed and carries the
   * same id, which for a session start is also one that the seal allows.
   */
  lemma {:induction false} AdmittedExactly(limits: Limits, states: seq<State>, steps: seq<Step>, i: nat, j: nat, reg: Registration)
    requires IsRun(limits, states, steps) && i < j < |steps|
    requires Admitted(limits, states[i], steps[i], reg) && steps[j].DoIngress? && steps[j].target == reg.nonce
    ensures Admitted(limits, states[j], steps[j], reg) <==>
            && (forall m :: i < m < j ==> !EndsCurrent(states[m], limits, steps[m], reg))
            && !HasExpired(states[j], reg.nonce, steps[j].now)
            && WellFormed(steps[j].event) && steps[j].event.session == steps[i].event.session
            && (steps[j].event.name == SessionStart ==>
                  reg.nonce in states[j].registrations
                  && Expects(states[j].registrations[reg.nonce].payload, steps[j].event.session.id))
  {
    AdmissionBinds(states[i], limits, steps[i], reg);
    assert states[i + 1] == Apply(states[i], limits, steps[i]);
    CurrentExactly(limits, states, steps, i + 1, j, reg);
    if IsCurrent(states[j], reg) {
      BoundWhileCurrent(limits, states, steps, i, j, reg);
    }
    IngressExactly(states[j], limits, reg.nonce, steps[j].event, steps[j].now);
  }

  /** The nonce names the same registration in both states. */
  ghost predicate SameRegistration(r: State, t: State, n: Nonce) {
    n in r.registrations && n in t.registrations && t.registrations[n].generation == r.registrations[n].generation
  }

  // ----- Who binds the provider session id

  predicate StartsSession(event: Event) {
    event.parses && event.name == SessionStart && event.session.Given?
  }

  /** A correlated delivery succeeds exactly when it presents the seal of a current registration and an allowed id. */
  lemma CorrelatedExactly(r: State, reg: Registration, presented: Sealed, generation: nat, expected: Binding, event: Event)
    ensures BindCorrelated(r, reg, presented, generation, expected, event).1.Ok? <==>
            && IsCurrent(r, reg) && StartsSession(event) && event.validId
            && var s := r.registrations[reg.nonce].payload;
               && s.sealed == Some(presented) && generation == reg.generation && expected == presented.binding
               && Expects(s, event.session.id) && (s.bound == None || s.bound == Some(event.session.id))
    ensures BindCorrelated(r, reg, presented, generation, expected, event).1.Ok? ==>
              BindCorrelated(r, reg, presented, generation, expected, event).1.value == event.session.id
  {
  }

  /** The steps that bind a registration which is not bound: three ways in for a session start. */
  predicate Binds(r: State, limits: Limits, step: Step, n: Nonce)
    requires n in r.registrations
  {
    var s := r.registrations[n].payload;
    match step
    case DoIngress(target, event, now) =>
      && target == n && event.bounded && StartsSession(event) && event.validId && s.sealed.Some?
      && !HasExpired(r, n, now) && IsCurrent(r, Registration(n, r.registrations[n].key, r.registrations[n].generation))
      && Expects(s, event.session.id)
    case DoReduce(reg, event, _, _) =>
      && reg.nonce == n && IsCurrent(r, reg) && event.bounded && StartsSession(event) && Expects(s, event.session.id)
    case DoBind(reg, presented, generation, expected, event) =>
      && reg.nonce == n && IsCurrent(r, reg) && s.sealed == Some(presented) && generation == reg.generation
      && expected == presented.binding && StartsSession(event) && event.validId && Expects(s, event.session.id)
    case _ => false
  }

  /** A bound id stays; an unbound registration is bound exactly by those steps, to the id of the event. */
  lemma BindsExactly(r: State, limits: Limits, step: Step, n: Nonce)
    requires SameRegistration(r, Apply(r, limits, step), n) && Bounded(r)
    ensures var s, t := r.registrations[n].payload, Apply(r, limits, step).registrations[n].payload;
            t.bound ==
            if s.bound.Some? then s.bound
            else if Binds(r, limits, step, n) then Some(step.event.session.id) else None
  {
    if step.DoRegister? {
      RegisterLeaves(r, limits, step, n);
    }
  }

  /** A relay call is admitted exactly for an unexpired registration; a refusal drops what has expired. */
  lemma AdmitsExactly(r: State, limits: Limits, n: Nonce, now: nat)
    ensures var (t, result) := Admit(r, limits, n, now);
            && (result.Ok? <==> n in r.registrations && !HasExpired(r, n, now))
            && (result.Ok? ==>
                  && result.value == Registration(n, r.registrations[n].key, r.registrations[n].generation)
                  && t.registrations.Keys == r.registrations.Keys)
            && (result.Err? ==>
                  && (result.error == Expired <==> n in r.registrations)
                  && forall m :: m in t.registrations <==> m in r.registrations && !HasExpired(r, m, now))
  {
  }

  // ----- How long a registration lives

  /** The reducer's verdict on a session start activates a registration. */
  lemma ActivatesExactly(r: State, limits: Limits, step: Step, n: Nonce)
    requires SameRegistration(r, Apply(r, limits, step), n) && Bounded(r)
    ensures var s, t := r.registrations[n].payload, Apply(r, limits, step).registrations[n].payload;
            t.activated <==>
            || s.activated
            || (&& step.DoReduce? && step.reg.nonce == n && IsCurrent(r, step.reg) && !step.degraded
                && step.event.bounded && step.event.parses && step.event.name == SessionStart
                && step.event.session.Given? && Expects(s, step.event.session.id)
                && (s.bound == None || s.bound == Some(step.event.session.id)))
  {
    if step.DoRegister? {
      RegisterLeaves(r, limits, step, n);
    }
  }

  /** A registration that was there before a new one is as it was. */
  lemma RegisterLeaves(r: State, limits: Limits, step: Step, n: Nonce)
    requires SameRegistration(r, Apply(r, limits, step), n) && Bounded(r) && step.DoRegister?
    ensures Apply(r, limits, step).registrations[n] == r.registrations[n]
  {
    var room := BeforeInsert(r, limits, step.now);
    MakeRoomCounter(RemoveExpired(r, step.now), ByKey, Capacity(limits));
    if n in room.registrations {
      RegistryOrder.MakeRoomKeeps(RemoveExpired(r, step.now), ByKey, Capacity(limits), n);
    }
  }

  /**
   * The steps that renew a registration: an admission or an admitted event once it is activated, and
   * the reduction that activates it.
   */
  predicate Renews(r: State, limits: Limits, step: Step, n: Nonce) {
    n in r.registrations &&
    var s := r.registrations[n].payload;
    match step
    case DoAdmit(target, now) => target == n && s.activated && !HasExpired(r, n, now)
    case DoIngress(target, event, now) => target == n && s.activated && Ingress(r, limits, n, event, now).1.Ok?
    case DoReduce(reg, event, now, degraded) =>
      !s.activated && Reduce(r, limits, reg, event, now, degraded).registrations[n].payload.activated
    case _ => false
  }

  lemma StepRenews(r: State, limits: Limits, step: Step, n: Nonce)
    requires SameRegistration(r, Apply(r, limits, step), n) && Bounded(r)
    ensures var s, t := r.registrations[n].payload, Apply(r, limits, step).registrations[n].payload;
            if Renews(r, limits, step, n) then t.activated && t.expiresAt == step.now + limits.ttl
            else t.activated == s.activated && t.expiresAt == s.expiresAt
  {
    if step.DoRegister? {
      RegisterLeaves(r, limits, step, n);
    }
  }

  lemma ThereSince(limits: Limits, states: seq<State>, steps: seq<Step>, i: nat, m: nat, j: nat, n: Nonce)
    requires IsRun(limits, states, steps) && i <= m <= j < |states| && SameRegistration(states[i], states[j], n)
    ensures SameRegistration(states[m], states[j], n)
  {
    RunValid(limits, states, steps, i);
    RunCarries(limits, states, steps, i, m);
    RunCarries(limits, states, steps, m, j);
  }

  ghost predicate SameLife(r: State, t: State, n: Nonce) {
    && SameRegistration(r, t, n)
    && t.registrations[n].payload.activated == r.registrations[n].payload.activated
    && t.registrations[n].payload.expiresAt == r.registrations[n].payload.expiresAt
  }

  lemma SameLifeTwice(r: State, t: State, u: State, n: Nonce)
    requires SameLife(r, t, n) && SameLife(t, u, n)
    ensures SameLife(r, u, n)
  {
  }

  lemma StepLivesOn(r: State, limits: Limits, step: Step, t: State, n: Nonce)
    requires t == Apply(r, limits, step) && SameRegistration(r, t, n) && Bounded(r) && !Renews(r, limits, step, n)
    ensures SameLife(r, t, n)
  {
    StepRenews(r, limits, step, n);
  }

  lemma RunBounded(limits: Limits, states: seq<State>, steps: seq<Step>, i: nat)
    requires IsRun(limits, states, steps) && i < |states|
    ensures Bounded(states[i])
  {
    RunValid(limits, states, steps, i);
  }

  lemma LivesOn(limits: Limits, states: seq<State>, steps: seq<Step>, i: nat, j: nat, n: Nonce)
    requires IsRun(limits, states, steps) && i <= j < |states| && SameRegistration(states[i], states[j], n)
    requires forall k :: i <= k < j ==> !Renews(states[k], limits, steps[k], n)
    ensures SameLife(states[i], states[j], n)
  {
    forall m | i <= m < j && SameLife(states[i], states[m], n)
      ensures SameLife(states[i], states[m + 1], n)
    {
      ThereSince(limits, states, steps, i, m + 1, j, n);
      RunBounded(limits, states, steps, m);
      StepLivesOn(states[m], limits, steps[m], states[m + 1], n);
      SameLifeTwice(states[i], states[m], states[m + 1], n);
    }
    Chain(i, j, (m: nat) => m < |states| && SameLife(states[i], states[m], n));
  }

  /** A registration that no step renewed expires a grace period after it was made, at most. */
  lemma {:induction false} UnrenewedExpiry(limits: Limits, states: seq<State>, steps: seq<Step>, i: nat, j: nat, n: Nonce)
    requires IsRun(limits, states, steps) && i < j < |states|
    requires steps[i].DoRegister? && steps[i].nonce == Some(n) && states[i + 1].nextGeneration > states[i].nextGeneration
    requires SameRegistration(states[i + 1], states[j], n)
    requires forall k :: i < k < j ==> !Renews(states[k], limits, steps[k], n)
    ensures var s := states[j].registrations[n].payload;
            !s.activated && s.expiresAt == steps[i].now + (if limits.ttl < ACTIVATION_GRACE then limits.ttl else ACTIVATION_GRACE)
  {
    RegisterFresh(states[i], limits, steps[i]);
    LivesOn(limits, states, steps, i + 1, j, n);
  }

  /** A renewed registration is activated and expires a lifetime after it was last renewed. */
  lemma {:induction false} RenewedExpiry(limits: Limits, states: seq<State>, steps: seq<Step>, i: nat, j: nat, n: Nonce)
    requires IsRun(limits, states, steps) && i < j < |states| && Renews(states[i], limits, steps[i], n)
    requires SameRegistration(states[i], states[j], n)
    requires forall k :: i < k < j ==> !Renews(states[k], limits, steps[k], n)
    ensures var s := states[j].registrations[n].payload;
            s.activated && s.expiresAt == steps[i].now + limits.ttl
  {
    RunValid(limits, states, steps, i);
    ThereSince(limits, states, steps, i, i + 1, j, n);
    assert states[i + 1] == Apply(states[i], limits, steps[i]);
    StepRenews(states[i], limits, steps[i], n);
    LivesOn(limits, states, steps, i + 1, j, n);
  }
}
