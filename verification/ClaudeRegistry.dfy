/**
 * The Claude hook registry: registration with expiry and eviction, admission,
 * and the provider session identity that each registration is bound to.
 * Instants and durations are in nanoseconds.
 */
module ClaudeRegistry {
  import opened Common
  import opened RegistryCore

  type Id = string

  datatype Binding = Binding(task: string, agent: string, runtimeGeneration: nat, actionEpoch: nat, processRoot: string)

  datatype Sealed = Sealed(binding: Binding, expected: Option<Id>)

  datatype Session = Session(expiresAt: nat, activated: bool, sealed: Option<Sealed>, bound: Option<Id>)

  type State = Registry<Session>

  datatype Limits = Limits(maxRegistrations: nat, ttl: nat)

  /** Five minutes to activate a registration. */
  const ACTIVATION_GRACE: nat := 300_000_000_000

  function Max(a: nat, b: nat): nat { if a < b then b else a }
  function Min(a: nat, b: nat): nat { if a < b then a else b }

  function Capacity(limits: Limits): nat { Max(limits.maxRegistrations, 1) }

  /** A hook body as far as the registry looks into it. */
  datatype EventName = SessionStart | OtherHook | UnknownEvent

  datatype SessionField = Absent | TooLong | Given(id: Id)

  /** `bounded`: passes the JSON bounds; `parses`: is JSON; `validId`: is a provider session id. */
  datatype Event = Event(bounded: bool, parses: bool, name: EventName, session: SessionField, validId: bool)

  datatype RegisterError = NoRandomness | GenerationExhausted

  datatype Refusal = Rejected | Expired

  datatype BindError = Stale | CorrelationMismatch | BindingMismatch | InvalidPayload | NotSessionStart
                     | IdTooLong | MissingId | ResumeMismatch | RebindRejected

  // ----- Operations on the registry's value

  function ExpiredNonces(r: State, now: nat): set<Nonce> {
    set n | n in r.registrations && now > r.registrations[n].payload.expiresAt
  }

  function RemoveExpired(r: State, now: nat): State {
    Drop(r, ByKey, ExpiredNonces(r, now))
  }

  function BeforeInsert(r: State, limits: Limits, now: nat): State {
    MakeRoom(RemoveExpired(r, now), ByKey, Capacity(limits))
  }

  function FreshSession(limits: Limits, sealed: Option<Sealed>, carried: Option<Id>, now: nat): Session {
    Session(now + Min(limits.ttl, ACTIVATION_GRACE), false, sealed, carried)
  }

  /** The end of a registration, once there is room. */
  function InsertInto(room: State, key: Key, session: Session, nonce: Option<Nonce>)
    : (State, Result<Registration, RegisterError>)
  {
    if nonce.None? then (room, Err(NoRandomness))
    else if room.nextGeneration >= U64_MAX then (room, Err(GenerationExhausted))
    else (Insert(room, nonce.value, key, session), Ok(Registration(nonce.value, key, room.nextGeneration + 1)))
  }

  /** A nonce of `None` stands for a failing random source. */
  function Register(r: State, limits: Limits, key: Key, sealed: Option<Sealed>, carried: Option<Id>,
                    now: nat, nonce: Option<Nonce>): (State, Result<Registration, RegisterError>)
  {
    InsertInto(BeforeInsert(r, limits, now), key, FreshSession(limits, sealed, carried, now), nonce)
  }

  function Unregister(r: State, nonce: Nonce): State {
    Drop(r, ByKey, {nonce})
  }

  predicate Matches(r: State, reg: Registration) {
    && reg.nonce in r.registrations
    && r.registrations[reg.nonce].generation == reg.generation && r.registrations[reg.nonce].key == reg.key
  }

  function UnregisterRegistration(r: State, reg: Registration): State {
    if Matches(r, reg) then Unregister(r, reg.nonce) else r
  }

  function Touch(s: Session, limits: Limits, now: nat): Session {
    if s.activated then s.(expiresAt := now + limits.ttl) else s
  }

  /** Admission of a relay call, after the peer and size checks. */
  function Admit(r: State, limits: Limits, nonce: Nonce, now: nat): (State, Result<Registration, Refusal>) {
    if nonce !in r.registrations then (RemoveExpired(r, now), Err(Rejected))
    else
      var e := r.registrations[nonce];
      if now > e.payload.expiresAt then (RemoveExpired(r, now), Err(Expired))
      else (SetPayload(r, nonce, Touch(e.payload, limits, now)), Ok(Registration(nonce, e.key, e.generation)))
  }

  predicate ExpectedAllows(s: Session, id: Id) {
    s.sealed.Some? && s.sealed.value.expected.Some? ==> s.sealed.value.expected.value == id
  }

  predicate BoundAllows(s: Session, id: Id) {
    s.bound.Some? ==> s.bound.value == id
  }

  /** The identity check of HTTP ingress: the id that the event carries, if it may pass. */
  function IngressIdentity(s: Session, event: Event): Option<Id> {
    if !event.parses || s.sealed.None? || event.name.UnknownEvent? || !event.session.Given? || !event.validId then None
    else
      var id := event.session.id;
      if event.name.SessionStart? then (if ExpectedAllows(s, id) && BoundAllows(s, id) then Some(id) else None)
      else if s.bound == Some(id) then Some(id) else None
  }

  function Bind(s: Session, id: Id): Session {
    if s.bound.None? then s.(bound := Some(id)) else s
  }

  function Ingress(r: State, limits: Limits, nonce: Nonce, event: Event, now: nat)
    : (State, Result<Registration, Refusal>)
  {
    if !event.bounded || nonce !in r.registrations then (r, Err(Rejected))
    else
      var e := r.registrations[nonce];
      var reg := Registration(nonce, e.key, e.generation);
      if now > e.payload.expiresAt then (r, Err(Expired))
      else if !IsCurrent(r, reg) || IngressIdentity(e.payload, event).None? then (r, Err(Rejected))
      else
        var id := IngressIdentity(e.payload, event).value;
        (SetPayload(r, nonce, Touch(Bind(e.payload, id), limits, now)), Ok(reg))
  }

  /** The reduction of an admitted event; `degraded` is the reducer's verdict. */
  function Reduce(r: State, limits: Limits, reg: Registration, event: Event, admittedAt: nat, degraded: bool): State {
    if !IsCurrent(r, reg) || !event.bounded then r
    else
      var s := r.registrations[reg.nonce].payload;
      if !(event.parses && event.name.SessionStart?) || event.session.Absent? then r
      else if event.session.TooLong? then r
      else
        var id := event.session.id;
        if !ExpectedAllows(s, id) || !BoundAllows(s, id) then r
        else
          var t := Bind(s, id);
          var promoted := !degraded && !t.activated;
          SetPayload(r, reg.nonce, if promoted then t.(activated := true, expiresAt := admittedAt + limits.ttl) else t)
  }

  /** The locked section of a correlated SessionStart delivery. */
  function BindCorrelated(r: State, reg: Registration, presented: Sealed, presentedGeneration: nat,
                          expected: Binding, event: Event): (State, Result<Id, BindError>)
  {
    if !IsCurrent(r, reg) then (r, Err(Stale))
    else
      var e := r.registrations[reg.nonce];
      var s := e.payload;
      if s.sealed.None? || presented != s.sealed.value || presentedGeneration != e.generation
      then (r, Err(CorrelationMismatch))
      else if expected != s.sealed.value.binding then (r, Err(BindingMismatch))
      else if !event.parses then (r, Err(InvalidPayload))
      else if !event.name.SessionStart? then (r, Err(NotSessionStart))
      else match event.session
        case TooLong => (r, Err(IdTooLong))
        case Absent => (r, Err(MissingId))
        case Given(id) =>
          if !event.validId then (r, Err(InvalidPayload))
          else if !ExpectedAllows(s, id) then (r, Err(ResumeMismatch))
          else if !BoundAllows(s, id) then (r, Err(RebindRejected))
          else (SetPayload(r, reg.nonce, Bind(s, id)), Ok(id))
  }

  // ----- Steps and runs

  datatype Step =
    | DoRegister(key: Key, sealed: Option<Sealed>, carried: Option<Id>, now: nat, nonce: Option<Nonce>)
    | DoUnregister(target: Nonce)
    | DoUnregisterRegistration(reg: Registration)
    | DoCleanup(now: nat)
    | DoAdmit(target: Nonce, now: nat)
    | DoIngress(target: Nonce, event: Event, now: nat)
    | DoReduce(reg: Registration, event: Event, now: nat, degraded: bool)
    | DoBind(reg: Registration, presented: Sealed, generation: nat, expected: Binding, event: Event)

  function Apply(r: State, limits: Limits, step: Step): State {
    match step
    case DoRegister(key, sealed, carried, now, nonce) => Register(r, limits, key, sealed, carried, now, nonce).0
    case DoUnregister(target) => Unregister(r, target)
    case DoUnregisterRegistration(reg) => UnregisterRegistration(r, reg)
    case DoCleanup(now) => RemoveExpired(r, now)
    case DoAdmit(target, now) => Admit(r, limits, target, now).0
    case DoIngress(target, event, now) => Ingress(r, limits, target, event, now).0
    case DoReduce(reg, event, now, degraded) => Reduce(r, limits, reg, event, now, degraded)
    case DoBind(reg, presented, generation, expected, event) =>
      BindCorrelated(r, reg, presented, generation, expected, event).0
  }

  /** The random loop only ever yields a nonce that is not registered. */
  predicate Enabled(r: State, limits: Limits, step: Step) {
    step.DoRegister? && step.nonce.Some? ==> step.nonce.value !in BeforeInsert(r, limits, step.now).registrations
  }

  ghost predicate IsRun(limits: Limits, states: seq<State>, steps: seq<Step>) {
    && |states| == |steps| + 1 && states[0] == Empty()
    && forall i :: 0 <= i < |steps| ==>
         Enabled(states[i], limits, steps[i]) && states[i + 1] == Apply(states[i], limits, steps[i])
  }

  // ----- Every step is a drop, an insertion or a change of one payload

  lemma RemoveExpiredValid(r: State, limit: nat, now: nat)
    requires Valid(r, ByKey, limit)
    ensures Valid(RemoveExpired(r, now), ByKey, limit)
  {
    DropValid(r, ByKey, limit, ExpiredNonces(r, now));
  }

  lemma BeforeInsertValid(r: State, limits: Limits, now: nat)
    requires Valid(r, ByKey, Capacity(limits))
    ensures Valid(BeforeInsert(r, limits, now), ByKey, Capacity(limits))
    ensures |BeforeInsert(r, limits, now).registrations| < Capacity(limits)
    ensures BeforeInsert(r, limits, now).nextGeneration == r.nextGeneration
  {
    RemoveExpiredValid(r, Capacity(limits), now);
    MakeRoomValid(RemoveExpired(r, now), ByKey, Capacity(limits), Capacity(limits));
    MakeRoomSize(RemoveExpired(r, now), ByKey, Capacity(limits));
  }

  lemma PayloadStep(r: State, limits: Limits, step: Step)
    requires ChangesPayload(step)
    ensures var t := Apply(r, limits, step);
            || t == r
            || (step.DoAdmit? && t == RemoveExpired(r, step.now))
            || exists n, p :: n in r.registrations && t == SetPayload(r, n, p)
  {
  }

  predicate ChangesPayload(step: Step) {
    step.DoIngress? || step.DoReduce? || step.DoBind? || step.DoAdmit?
  }

  lemma PayloadStepValid(r: State, limits: Limits, step: Step)
    requires Valid(r, ByKey, Capacity(limits)) && ChangesPayload(step)
    ensures Valid(Apply(r, limits, step), ByKey, Capacity(limits))
  {
    PayloadStep(r, limits, step);
    var t := Apply(r, limits, step);
    if step.DoAdmit? && t == RemoveExpired(r, step.now) {
      RemoveExpiredValid(r, Capacity(limits), step.now);
    } else if t != r {
      var n, p :| n in r.registrations && t == SetPayload(r, n, p);
      SetPayloadShape(r, n, p);
      SameShapeValid(r, t, ByKey, Capacity(limits));
    }
  }

  lemma InsertIntoValid(room: State, limit: nat, key: Key, session: Session, nonce: Option<Nonce>)
    requires Valid(room, ByKey, limit) && |room.registrations| < limit
    requires nonce.Some? ==> nonce.value !in room.registrations
    ensures Valid(InsertInto(room, key, session, nonce).0, ByKey, limit)
  {
    if nonce.Some? {
      InsertValid(room, ByKey, limit, nonce.value, key, session);
    }
  }

  lemma RegisterValid(r: State, limits: Limits, step: Step)
    requires Valid(r, ByKey, Capacity(limits)) && Enabled(r, limits, step) && step.DoRegister?
    ensures Valid(Apply(r, limits, step), ByKey, Capacity(limits))
  {
    BeforeInsertValid(r, limits, step.now);
    InsertIntoValid(BeforeInsert(r, limits, step.now), Capacity(limits), step.key,
                    FreshSession(limits, step.sealed, step.carried, step.now), step.nonce);
  }

  lemma StepValid(r: State, limits: Limits, step: Step)
    requires Valid(r, ByKey, Capacity(limits)) && Enabled(r, limits, step)
    ensures Valid(Apply(r, limits, step), ByKey, Capacity(limits))
  {
    if step.DoRegister? {
      RegisterValid(r, limits, step);
    } else if step.DoUnregister? {
      DropValid(r, ByKey, Capacity(limits), {step.target});
    } else if step.DoUnregisterRegistration? {
      DropValid(r, ByKey, Capacity(limits), {step.reg.nonce});
    } else if step.DoCleanup? {
      RemoveExpiredValid(r, Capacity(limits), step.now);
    } else {
      PayloadStepValid(r, limits, step);
    }
  }

  lemma PayloadStepKeepsFence(r: State, limits: Limits, step: Step, reg: Registration)
    requires ChangesPayload(step) && Fenced(r, reg)
    ensures Fenced(Apply(r, limits, step), reg)
  {
    PayloadStep(r, limits, step);
    var t := Apply(r, limits, step);
    if step.DoAdmit? && t == RemoveExpired(r, step.now) {
      DropKeepsFence(r, ByKey, ExpiredNonces(r, step.now), reg);
    } else if t != r {
      var n, p :| n in r.registrations && t == SetPayload(r, n, p);
      SetPayloadShape(r, n, p);
      SameShapeCurrent(r, t, reg);
    }
  }

  lemma StepKeepsFence(r: State, limits: Limits, step: Step, reg: Registration)
    requires Fenced(r, reg)
    ensures Fenced(Apply(r, limits, step), reg)
  {
    if step.DoRegister? {
      DropKeepsFence(r, ByKey, ExpiredNonces(r, step.now), reg);
      MakeRoomKeepsFence(RemoveExpired(r, step.now), ByKey, Capacity(limits), reg);
      if step.nonce.Some? {
        InsertKeepsFence(BeforeInsert(r, limits, step.now), step.nonce.value, step.key,
                         FreshSession(limits, step.sealed, step.carried, step.now), reg);
      }
    } else if step.DoUnregister? {
      DropKeepsFence(r, ByKey, {step.target}, reg);
    } else if step.DoUnregisterRegistration? {
      DropKeepsFence(r, ByKey, {step.reg.nonce}, reg);
    } else if step.DoCleanup? {
      DropKeepsFence(r, ByKey, ExpiredNonces(r, step.now), reg);
    } else {
      PayloadStepKeepsFence(r, limits, step, reg);
    }
  }

  // ----- Whole-run theorems

  /** In every reachable state the registry is consistent and within its limit. */
  lemma {:induction false} RunValid(limits: Limits, states: seq<State>, steps: seq<Step>, i: nat)
    requires IsRun(limits, states, steps) && i < |states|
    ensures Valid(states[i], ByKey, Capacity(limits))
  {
    if i > 0 {
      RunValid(limits, states, steps, i - 1);
      StepValid(states[i - 1], limits, steps[i - 1]);
    }
  }

  /** What consistency means for callers: the order and the index are exact and bounded. */
  lemma ReachableSizes(limits: Limits, states: seq<State>, steps: seq<Step>, i: nat)
    requires IsRun(limits, states, steps) && i < |states|
    ensures var r := states[i];
            && |r.order| == |r.registrations| <= Capacity(limits) && NoDup(r.order)
            && (forall n :: n in r.order <==> n in r.registrations)
            && |r.latest| <= |r.registrations|
            && (forall k :: k in r.latest <==> KeyUsed(r.registrations, k))
            && (forall a, b :: IsCurrent(r, a) && IsCurrent(r, b) && a.key == b.key ==> a == b)
  {
    RunValid(limits, states, steps, i);
    OrderCountsRegistrations(states[i]);
    IndexNoLarger(states[i]);
    forall a, b | IsCurrent(states[i], a) && IsCurrent(states[i], b) && a.key == b.key
      ensures a == b
    {
      OneCurrentPerKey(states[i], a, b);
    }
  }

  /** A registration that is superseded or removed is never current again. */
  lemma NeverCurrentAgain(limits: Limits, states: seq<State>, steps: seq<Step>, i: nat, j: nat, reg: Registration)
    requires IsRun(limits, states, steps) && i <= j < |states|
    requires reg.generation <= states[i].nextGeneration && !IsCurrent(states[i], reg)
    ensures reg.generation <= states[j].nextGeneration && !IsCurrent(states[j], reg)
  {
    forall m | i <= m < j && Fenced(states[m], reg)
      ensures Fenced(states[m + 1], reg)
    {
      StepKeepsFence(states[m], limits, steps[m], reg);
    }
    Chain(i, j, (m: nat) => m < |states| && Fenced(states[m], reg));
  }

  /** The steps that supersede a registration, remove it, or drop it as expired or oldest. */
  predicate Ends(r: State, limits: Limits, step: Step, reg: Registration) {
    match step
    case DoRegister(key, sealed, carried, now, nonce) =>
      || (key == reg.key && Register(r, limits, key, sealed, carried, now, nonce).1.Ok?)
      || reg.nonce !in BeforeInsert(r, limits, now).registrations
    case DoUnregister(target) => target == reg.nonce
    case DoUnregisterRegistration(other) => other == reg
    case DoCleanup(now) => reg.nonce in ExpiredNonces(r, now)
    case DoAdmit(target, now) => Admit(r, limits, target, now).1.Err? && reg.nonce in ExpiredNonces(r, now)
    case DoIngress(_, _, _) => false
    case DoReduce(_, _, _, _) => false
    case DoBind(_, _, _, _, _) => false
  }

  lemma RegisterFences(r: State, limits: Limits, step: Step, reg: Registration)
    requires step.DoRegister? && reg.generation <= r.nextGeneration && Ends(r, limits, step, reg)
    ensures Fenced(Apply(r, limits, step), reg)
  {
    var room, session := BeforeInsert(r, limits, step.now), FreshSession(limits, step.sealed, step.carried, step.now);
    MakeRoomCounter(RemoveExpired(r, step.now), ByKey, Capacity(limits));
    if step.nonce.Some? {
      if step.key == reg.key {
        InsertSupersedes(room, step.nonce.value, step.key, session, reg);
      }
      if reg.nonce !in room.registrations {
        InsertKeepsFence(room, step.nonce.value, step.key, session, reg);
      }
    }
  }

  lemma EndFences(r: State, limits: Limits, step: Step, reg: Registration)
    requires reg.generation <= r.nextGeneration && Ends(r, limits, step, reg)
    ensures Fenced(Apply(r, limits, step), reg)
  {
    if step.DoRegister? {
      RegisterFences(r, limits, step, reg);
    } else if step.DoUnregister? || step.DoUnregisterRegistration? {
      DropFences(r, ByKey, {reg.nonce}, reg);
    } else {
      DropFences(r, ByKey, ExpiredNonces(r, step.now), reg);
    }
  }

  /**
   * A registration that a step supersedes or removes, or that expires or is evicted, is not current
   * in any later state.
   */
  lemma EndedNeverCurrentAgain(limits: Limits, states: seq<State>, steps: seq<Step>, i: nat, j: nat, reg: Registration)
    requires IsRun(limits, states, steps) && i < j < |states|
    requires reg.generation <= states[i].nextGeneration && Ends(states[i], limits, steps[i], reg)
    ensures !IsCurrent(states[j], reg)
  {
    EndFences(states[i], limits, steps[i], reg);
    NeverCurrentAgain(limits, states, steps, i + 1, j, reg);
  }

  // ----- The provider session identity

  /** An identity is written at most once, and only with what the seal expects. */
  predicate SameIdentity(s: Session, t: Session) {
    && t.sealed == s.sealed
    && (s.bound.Some? ==> t.bound == s.bound)
    && (s.bound.None? && t.bound.Some? ==> ExpectedAllows(s, t.bound.value))
  }

  /** Every registration that is not new keeps its identity. */
  ghost predicate CarriesIdentity(r: State, t: State) {
    Carries(r, t, SameIdentity)
  }

  lemma IdentityIsKept()
    ensures Reflexive(SameIdentity) && Transitive(SameIdentity)
  {
  }

  /** What the payload steps write keeps the identity. */
  lemma PayloadStepCarries(r: State, limits: Limits, step: Step)
    requires ChangesPayload(step)
    ensures CarriesIdentity(r, Apply(r, limits, step))
  {
    IdentityIsKept();
    var t := Apply(r, limits, step);
    if t != r {
      match step {
        case DoAdmit(target, now) =>
          if target in r.registrations {
            SetPayloadCarries(r, target, Touch(r.registrations[target].payload, limits, now), SameIdentity);
          }
          DropCarries(r, ByKey, ExpiredNonces(r, now), SameIdentity);
        case DoIngress(target, event, now) =>
          var s := r.registrations[target].payload;
          SetPayloadCarries(r, target, Touch(Bind(s, event.session.id), limits, now), SameIdentity);
        case DoReduce(reg, event, now, degraded) =>
          var s := Bind(r.registrations[reg.nonce].payload, event.session.id);
          SetPayloadCarries(r, reg.nonce, s, SameIdentity);
          SetPayloadCarries(r, reg.nonce, s.(activated := true, expiresAt := now + limits.ttl), SameIdentity);
        case DoBind(reg, presented, generation, expected, event) =>
          SetPayloadCarries(r, reg.nonce, Bind(r.registrations[reg.nonce].payload, event.session.id), SameIdentity);
      }
    }
  }

  lemma RegisterCarries(r: State, limits: Limits, step: Step)
    requires step.DoRegister?
    ensures CarriesIdentity(r, Apply(r, limits, step))
  {
    IdentityIsKept();
    var d, room := RemoveExpired(r, step.now), BeforeInsert(r, limits, step.now);
    var session := FreshSession(limits, step.sealed, step.carried, step.now);
    DropCarries(r, ByKey, ExpiredNonces(r, step.now), SameIdentity);
    MakeRoomCarries(d, ByKey, Capacity(limits), SameIdentity);
    CarriesTwice(r, d, room, SameIdentity);
    InsertIntoCarries(room, step.key, session, step.nonce);
    CarriesTwice(r, room, InsertInto(room, step.key, session, step.nonce).0, SameIdentity);
  }

  lemma InsertIntoCarries(room: State, key: Key, session: Session, nonce: Option<Nonce>)
    ensures CarriesIdentity(room, InsertInto(room, key, session, nonce).0)
  {
    IdentityIsKept();
    if nonce.Some? && room.nextGeneration < U64_MAX {
      InsertCarries(room, nonce.value, key, session, SameIdentity);
    }
  }

  lemma StepCarries(r: State, limits: Limits, step: Step)
    ensures CarriesIdentity(r, Apply(r, limits, step))
  {
    IdentityIsKept();
    if step.DoRegister? {
      RegisterCarries(r, limits, step);
    } else if ChangesPayload(step) {
      PayloadStepCarries(r, limits, step);
    } else if step.DoUnregister? {
      DropCarries(r, ByKey, {step.target}, SameIdentity);
    } else if step.DoUnregisterRegistration? {
      DropCarries(r, ByKey, {step.reg.nonce}, SameIdentity);
    } else {
      DropCarries(r, ByKey, ExpiredNonces(r, step.now), SameIdentity);
    }
  }

  lemma RunCarries(limits: Limits, states: seq<State>, steps: seq<Step>, i: nat, j: nat)
    requires IsRun(limits, states, steps) && i <= j < |states|
    ensures CarriesIdentity(states[i], states[j])
  {
    IdentityIsKept();
    forall m | i <= m < j && CarriesIdentity(states[i], states[m])
      ensures CarriesIdentity(states[i], states[m + 1])
    {
      StepCarries(states[m], limits, steps[m]);
      CarriesTwice(states[i], states[m], states[m + 1], SameIdentity);
    }
    Chain(i, j, (m: nat) => m < |states| && CarriesIdentity(states[i], states[m]));
  }

  /** The provider session id of a registration is write-once over every run. */
  lemma BoundIdIsWriteOnce(limits: Limits, states: seq<State>, steps: seq<Step>, i: nat, j: nat, nonce: Nonce)
    requires IsRun(limits, states, steps) && i <= j < |states|
    requires nonce in states[i].registrations && nonce in states[j].registrations
    requires states[j].registrations[nonce].generation == states[i].registrations[nonce].generation
    ensures var s, t := states[i].registrations[nonce].payload, states[j].registrations[nonce].payload;
            t.sealed == s.sealed && (s.bound.Some? ==> t.bound == s.bound)
  {
    RunCarries(limits, states, steps, i, j);
    RunValid(limits, states, steps, i);
  }

  /** A fresh registration holds its seal and no identity, unless one was carried. */
  lemma RegisterFresh(r: State, limits: Limits, step: Step)
    requires step.DoRegister? && step.nonce.Some? && Apply(r, limits, step).nextGeneration > r.nextGeneration
    ensures var t := Apply(r, limits, step);
            && step.nonce.value in t.registrations
            && t.registrations[step.nonce.value] ==
               Entry(step.key, t.nextGeneration, FreshSession(limits, step.sealed, step.carried, step.now))
  {
    MakeRoomCounter(RemoveExpired(r, step.now), ByKey, Capacity(limits));
  }

  lemma CarriedIdentity(r: State, t: State, nonce: Nonce)
    requires CarriesIdentity(r, t) && nonce in r.registrations && nonce in t.registrations
    requires t.registrations[nonce].generation == r.nextGeneration
    ensures SameIdentity(r.registrations[nonce].payload, t.registrations[nonce].payload)
  {
  }

  /**
   * A registration that was made without a carried identity is only ever bound to the
   * identity that its seal expects.
   */
  lemma BoundIdIsExpected(limits: Limits, states: seq<State>, steps: seq<Step>, i: nat, j: nat, nonce: Nonce)
    requires IsRun(limits, states, steps) && i < j < |states|
    requires steps[i].DoRegister? && steps[i].carried.None? && steps[i].nonce == Some(nonce)
    requires states[i + 1].nextGeneration > states[i].nextGeneration
    requires nonce in states[j].registrations
    requires states[j].registrations[nonce].generation == states[i + 1].nextGeneration
    ensures states[j].registrations[nonce].payload.sealed == steps[i].sealed
    ensures var s := states[j].registrations[nonce].payload;
            s.sealed.Some? && s.sealed.value.expected.Some? && s.bound.Some? ==> s.bound == s.sealed.value.expected
  {
    RegisterFresh(states[i], limits, steps[i]);
    RunCarries(limits, states, steps, i + 1, j);
    CarriedIdentity(states[i + 1], states[j], nonce);
  }

  /** Every event that HTTP ingress admits carries exactly the bound id of a current registration. */
  lemma IngressCarriesBoundId(r: State, limits: Limits, nonce: Nonce, event: Event, now: nat)
    requires Ingress(r, limits, nonce, event, now).1.Ok?
    ensures var (t, reg) := Ingress(r, limits, nonce, event, now);
            && IsCurrent(r, reg.value) && IsCurrent(t, reg.value) && reg.value.nonce == nonce
            && event.session.Given?
            && t.registrations[nonce].payload.bound == Some(event.session.id)
            && (event.name != SessionStart ==> r.registrations[nonce].payload.bound == Some(event.session.id))
  {
  }

  predicate Admitted(limits: Limits, r: State, step: Step, reg: Registration) {
    step.DoIngress? && Ingress(r, limits, step.target, step.event, step.now).1 == Ok(reg)
  }

  /** Over a whole run all events that ingress admits for one registration carry one and the same id. */
  lemma AdmittedEventsAgree(limits: Limits, states: seq<State>, steps: seq<Step>, i: nat, j: nat, reg: Registration)
    requires IsRun(limits, states, steps) && i < j < |steps|
    requires Admitted(limits, states[i], steps[i], reg) && Admitted(limits, states[j], steps[j], reg)
    ensures steps[i].event.session == steps[j].event.session
  {
    IngressCarriesBoundId(states[i], limits, reg.nonce, steps[i].event, steps[i].now);
    IngressCarriesBoundId(states[j], limits, reg.nonce, steps[j].event, steps[j].now);
    BoundIdIsWriteOnce(limits, states, steps, i + 1, j + 1, reg.nonce);
  }
}
