/**
 * The Codex hook registry: the same registrations and eviction as the Claude one, but
 * its index forgets a key as soon as the latest generation of the key is removed.
 */
module CodexRegistry {
  import opened Common
  import opened RegistryCore

  type Id = string

  datatype Session = Session(bound: Option<Id>, expected: Option<Id>)

  type State = Registry<Session>

  const MAX_REGISTRATIONS: nat := 128

  datatype EventName = SessionStart | OtherHook | UnknownEvent

  /** `observed` is the event's session id when it is a valid provider session id. */
  datatype Event = Event(name: EventName, observed: Option<Id>)

  datatype RegisterError = NoRandomness | GenerationExhausted

  datatype Admission = Admit | Reject | ExactResumeMismatch

  /** What became of a delivery: not admitted, refused for good, failed in the adapter, or published. */
  datatype Delivery = Dropped | ResumeFailed | AdapterFailed | Published

  // ----- Operations on the registry's value

  function InsertInto(room: State, key: Key, expected: Option<Id>, nonce: Option<Nonce>)
    : (State, Result<Registration, RegisterError>)
  {
    if nonce.None? then (room, Err(NoRandomness))
    else if room.nextGeneration >= U64_MAX then (room, Err(GenerationExhausted))
    else (Insert(room, nonce.value, key, Session(None, expected)),
          Ok(Registration(nonce.value, key, room.nextGeneration + 1)))
  }

  function BeforeInsert(r: State): State {
    MakeRoom(r, ByGeneration, MAX_REGISTRATIONS)
  }

  function Register(r: State, key: Key, expected: Option<Id>, nonce: Option<Nonce>)
    : (State, Result<Registration, RegisterError>)
  {
    InsertInto(BeforeInsert(r), key, expected, nonce)
  }

  function Unregister(r: State, nonce: Nonce): State {
    Drop(r, ByGeneration, {nonce})
  }

  /** The source's `provider_identity_admission`. */
  function IdentityAdmission(s: Session, event: Event): Admission {
    match event.name
    case SessionStart =>
      if event.observed.None? then Reject
      else if s.bound.Some? then (if s.bound == event.observed then Admit else Reject)
      else if s.expected.Some? && s.expected != event.observed then ExactResumeMismatch
      else Admit
    case UnknownEvent => Admit
    case OtherHook => if s.bound.Some? && s.bound == event.observed then Admit else Reject
  }

  /** An authenticated delivery; `adapterOk` is the result of the adapter's operation. */
  function Deliver(r: State, reg: Registration, event: Event, adapterOk: bool): (State, Delivery) {
    if !IsCurrent(r, reg) then (r, Dropped)
    else
      var s := r.registrations[reg.nonce].payload;
      match IdentityAdmission(s, event)
      case Reject => (r, Dropped)
      case ExactResumeMismatch => (r, ResumeFailed)
      case Admit =>
        if !adapterOk then (r, AdapterFailed)
        else if event.name.SessionStart? && s.bound.None?
        then (SetPayload(r, reg.nonce, s.(bound := event.observed)), Published)
        else (r, Published)
  }

  datatype Step =
    | DoRegister(key: Key, expected: Option<Id>, nonce: Option<Nonce>)
    | DoUnregister(target: Nonce)
    | DoDeliver(reg: Registration, event: Event, adapterOk: bool)

  function Apply(r: State, step: Step): State {
    match step
    case DoRegister(key, expected, nonce) => Register(r, key, expected, nonce).0
    case DoUnregister(target) => Unregister(r, target)
    case DoDeliver(reg, event, adapterOk) => Deliver(r, reg, event, adapterOk).0
  }

  predicate Enabled(r: State, step: Step) {
    step.DoRegister? && step.nonce.Some? ==> step.nonce.value !in BeforeInsert(r).registrations
  }

  ghost predicate IsRun(states: seq<State>, steps: seq<Step>) {
    && |states| == |steps| + 1 && states[0] == Empty()
    && forall i :: 0 <= i < |steps| ==> Enabled(states[i], steps[i]) && states[i + 1] == Apply(states[i], steps[i])
  }

  // ----- Consistency

  lemma InsertIntoValid(room: State, key: Key, expected: Option<Id>, nonce: Option<Nonce>)
    requires Valid(room, ByGeneration, MAX_REGISTRATIONS) && |room.registrations| < MAX_REGISTRATIONS
    requires nonce.Some? ==> nonce.value !in room.registrations
    ensures Valid(InsertInto(room, key, expected, nonce).0, ByGeneration, MAX_REGISTRATIONS)
  {
    if nonce.Some? {
      InsertValid(room, ByGeneration, MAX_REGISTRATIONS, nonce.value, key, Session(None, expected));
    }
  }

  lemma DeliverValid(r: State, reg: Registration, event: Event, adapterOk: bool)
    requires Valid(r, ByGeneration, MAX_REGISTRATIONS)
    ensures Valid(Deliver(r, reg, event, adapterOk).0, ByGeneration, MAX_REGISTRATIONS)
  {
    var t := Deliver(r, reg, event, adapterOk).0;
    if t != r {
      SetPayloadShape(r, reg.nonce, r.registrations[reg.nonce].payload.(bound := event.observed));
      SameShapeValid(r, t, ByGeneration, MAX_REGISTRATIONS);
    }
  }

  lemma StepValid(r: State, step: Step)
    requires Valid(r, ByGeneration, MAX_REGISTRATIONS) && Enabled(r, step)
    ensures Valid(Apply(r, step), ByGeneration, MAX_REGISTRATIONS)
  {
    match step {
      case DoRegister(key, expected, nonce) =>
        MakeRoomValid(r, ByGeneration, MAX_REGISTRATIONS, MAX_REGISTRATIONS);
        MakeRoomSize(r, ByGeneration, MAX_REGISTRATIONS);
        InsertIntoValid(BeforeInsert(r), key, expected, nonce);
      case DoUnregister(target) => DropValid(r, ByGeneration, MAX_REGISTRATIONS, {target});
      case DoDeliver(reg, event, adapterOk) => DeliverValid(r, reg, event, adapterOk);
    }
  }

  lemma {:induction false} RunValid(states: seq<State>, steps: seq<Step>, i: nat)
    requires IsRun(states, steps) && i < |states|
    ensures Valid(states[i], ByGeneration, MAX_REGISTRATIONS)
  {
    if i > 0 {
      RunValid(states, steps, i - 1);
      StepValid(states[i - 1], steps[i - 1]);
    }
  }

  /** The order and the index are exact and bounded, and every indexed generation is registered. */
  lemma ReachableSizes(states: seq<State>, steps: seq<Step>, i: nat)
    requires IsRun(states, steps) && i < |states|
    ensures var r := states[i];
            && |r.order| == |r.registrations| <= MAX_REGISTRATIONS && NoDup(r.order)
            && (forall n :: n in r.order <==> n in r.registrations)
            && |r.latest| <= |r.registrations|
            && (forall k :: k in r.latest ==> exists n :: IsCurrent(r, Registration(n, k, r.latest[k])))
            && (forall a, b :: IsCurrent(r, a) && IsCurrent(r, b) && a.key == b.key ==> a == b)
  {
    var r := states[i];
    RunValid(states, steps, i);
    OrderCountsRegistrations(r);
    IndexNoLarger(r);
    forall a, b | IsCurrent(r, a) && IsCurrent(r, b) && a.key == b.key
      ensures a == b
    {
      OneCurrentPerKey(r, a, b);
    }
    forall k | k in r.latest
      ensures exists n :: IsCurrent(r, Registration(n, k, r.latest[k]))
    {
      var n :| n in r.registrations && r.registrations[n].key == k && r.registrations[n].generation == r.latest[k];
      assert IsCurrent(r, Registration(n, k, r.latest[k]));
    }
  }

  // ----- Fencing

  lemma StepKeepsFence(r: State, step: Step, reg: Registration)
    requires Fenced(r, reg)
    ensures Fenced(Apply(r, step), reg)
  {
    match step {
      case DoRegister(key, expected, nonce) =>
        MakeRoomKeepsFence(r, ByGeneration, MAX_REGISTRATIONS, reg);
        if nonce.Some? {
          InsertKeepsFence(BeforeInsert(r), nonce.value, key, Session(None, expected), reg);
        }
      case DoUnregister(target) => DropKeepsFence(r, ByGeneration, {target}, reg);
      case DoDeliver(_, event, adapterOk) =>
        var t := Apply(r, step);
        if t != r {
          SetPayloadShape(r, step.reg.nonce, r.registrations[step.reg.nonce].payload.(bound := event.observed));
          SameShapeCurrent(r, t, reg);
        }
    }
  }

  /** A registration that is superseded or removed is never current again. */
  lemma NeverCurrentAgain(states: seq<State>, steps: seq<Step>, i: nat, j: nat, reg: Registration)
    requires IsRun(states, steps) && i <= j < |states|
    requires reg.generation <= states[i].nextGeneration && !IsCurrent(states[i], reg)
    ensures reg.generation <= states[j].nextGeneration && !IsCurrent(states[j], reg)
  {
    forall m | i <= m < j && Fenced(states[m], reg)
      ensures Fenced(states[m + 1], reg)
    {
      StepKeepsFence(states[m], steps[m], reg);
    }
    Chain(i, j, (m: nat) => m < |states| && Fenced(states[m], reg));
  }

  /** The steps that supersede a registration, remove it, or evict it. */
  predicate Ends(r: State, step: Step, reg: Registration) {
    match step
    case DoRegister(key, expected, nonce) =>
      (key == reg.key && Register(r, key, expected, nonce).1.Ok?) || reg.nonce !in BeforeInsert(r).registrations
    case DoUnregister(target) => target == reg.nonce
    case DoDeliver(_, _, _) => false
  }

  lemma EndFences(r: State, step: Step, reg: Registration)
    requires reg.generation <= r.nextGeneration && Ends(r, step, reg)
    ensures Fenced(Apply(r, step), reg)
  {
    match step {
      case DoRegister(key, expected, nonce) =>
        MakeRoomCounter(r, ByGeneration, MAX_REGISTRATIONS);
        if nonce.Some? {
          if key == reg.key {
            InsertSupersedes(BeforeInsert(r), nonce.value, key, Session(None, expected), reg);
          }
          if reg.nonce !in BeforeInsert(r).registrations {
            InsertKeepsFence(BeforeInsert(r), nonce.value, key, Session(None, expected), reg);
          }
        }
      case DoUnregister(target) => DropFences(r, ByGeneration, {target}, reg);
    }
  }

  /** A registration that a step supersedes, removes or evicts is not current in any later state. */
  lemma EndedNeverCurrentAgain(states: seq<State>, steps: seq<Step>, i: nat, j: nat, reg: Registration)
    requires IsRun(states, steps) && i < j < |states|
    requires reg.generation <= states[i].nextGeneration && Ends(states[i], steps[i], reg)
    ensures !IsCurrent(states[j], reg)
  {
    EndFences(states[i], steps[i], reg);
    NeverCurrentAgain(states, steps, i + 1, j, reg);
  }

  // ----- The provider session identity

  predicate SameIdentity(s: Session, t: Session) {
    && t.expected == s.expected
    && (s.bound.Some? ==> t.bound == s.bound)
    && (s.bound.None? && t.bound.Some? && s.expected.Some? ==> t.bound == s.expected)
  }

  /** Every registration that is not new keeps its identity. */
  ghost predicate CarriesIdentity(r: State, t: State) {
    Carries(r, t, SameIdentity)
  }

  lemma IdentityIsKept()
    ensures Reflexive(SameIdentity) && Transitive(SameIdentity)
  {
  }

  lemma InsertIntoCarries(room: State, key: Key, expected: Option<Id>, nonce: Option<Nonce>)
    ensures CarriesIdentity(room, InsertInto(room, key, expected, nonce).0)
  {
    IdentityIsKept();
    if nonce.Some? && room.nextGeneration < U64_MAX {
      InsertCarries(room, nonce.value, key, Session(None, expected), SameIdentity);
    }
  }

  lemma StepCarries(r: State, step: Step)
    ensures CarriesIdentity(r, Apply(r, step))
  {
    IdentityIsKept();
    match step {
      case DoRegister(key, expected, nonce) =>
        MakeRoomCarries(r, ByGeneration, MAX_REGISTRATIONS, SameIdentity);
        InsertIntoCarries(BeforeInsert(r), key, expected, nonce);
        CarriesTwice(r, BeforeInsert(r), InsertInto(BeforeInsert(r), key, expected, nonce).0, SameIdentity);
      case DoUnregister(target) => DropCarries(r, ByGeneration, {target}, SameIdentity);
      case DoDeliver(reg, event, adapterOk) =>
    }
  }

  lemma RunCarries(states: seq<State>, steps: seq<Step>, i: nat, j: nat)
    requires IsRun(states, steps) && i <= j < |states|
    ensures CarriesIdentity(states[i], states[j])
  {
    IdentityIsKept();
    forall m | i <= m < j && CarriesIdentity(states[i], states[m])
      ensures CarriesIdentity(states[i], states[m + 1])
    {
      StepCarries(states[m], steps[m]);
      CarriesTwice(states[i], states[m], states[m + 1], SameIdentity);
    }
    Chain(i, j, (m: nat) => m < |states| && CarriesIdentity(states[i], states[m]));
  }

  /** The provider session id of a registration is write-once over every run. */
  lemma BoundIdIsWriteOnce(states: seq<State>, steps: seq<Step>, i: nat, j: nat, nonce: Nonce)
    requires IsRun(states, steps) && i <= j < |states|
    requires nonce in states[i].registrations && nonce in states[j].registrations
    requires states[j].registrations[nonce].generation == states[i].registrations[nonce].generation
    ensures states[i].registrations[nonce].payload.bound.Some? ==>
              states[j].registrations[nonce].payload.bound == states[i].registrations[nonce].payload.bound
  {
    RunCarries(states, steps, i, j);
    RunValid(states, steps, i);
  }

  lemma RegisterFresh(r: State, step: Step)
    requires step.DoRegister? && step.nonce.Some? && Apply(r, step).nextGeneration > r.nextGeneration
    ensures var t := Apply(r, step);
            && step.nonce.value in t.registrations
            && t.registrations[step.nonce.value] == Entry(step.key, t.nextGeneration, Session(None, step.expected))
  {
    MakeRoomCounter(r, ByGeneration, MAX_REGISTRATIONS);
  }

  /** A registration made for an exact resume is only ever bound to the expected identity. */
  lemma BoundIdIsExpected(states: seq<State>, steps: seq<Step>, i: nat, j: nat, nonce: Nonce)
    requires IsRun(states, steps) && i < j < |states|
    requires steps[i].DoRegister? && steps[i].nonce == Some(nonce)
    requires states[i + 1].nextGeneration > states[i].nextGeneration
    requires nonce in states[j].registrations
    requires states[j].registrations[nonce].generation == states[i + 1].nextGeneration
    ensures var s := states[j].registrations[nonce].payload;
            s.bound.Some? && steps[i].expected.Some? ==> s.bound == steps[i].expected
  {
    RegisterFresh(states[i], steps[i]);
    RunCarries(states, steps, i + 1, j);
    assert SameIdentity(states[i + 1].registrations[nonce].payload, states[j].registrations[nonce].payload);
  }

  /** Every known event that is published carries exactly the bound id of a current registration. */
  lemma PublishedCarriesBoundId(r: State, reg: Registration, event: Event, adapterOk: bool)
    requires Deliver(r, reg, event, adapterOk).1 == Published && !event.name.UnknownEvent?
    ensures var t := Deliver(r, reg, event, adapterOk).0;
            && IsCurrent(r, reg) && IsCurrent(t, reg) && event.observed.Some?
            && t.registrations[reg.nonce].payload.bound == event.observed
            && (event.name.OtherHook? ==> r.registrations[reg.nonce].payload.bound == event.observed)
  {
  }

  predicate Publishes(r: State, step: Step, reg: Registration) {
    step.DoDeliver? && step.reg == reg && Deliver(r, reg, step.event, step.adapterOk).1 == Published
  }

  /** Over a whole run all known events that are published for one registration carry one and the same id. */
  lemma PublishedEventsAgree(states: seq<State>, steps: seq<Step>, i: nat, j: nat, reg: Registration)
    requires IsRun(states, steps) && i < j < |steps|
    requires Publishes(states[i], steps[i], reg) && Publishes(states[j], steps[j], reg)
    requires !steps[i].event.name.UnknownEvent? && !steps[j].event.name.UnknownEvent?
    ensures steps[i].event.observed == steps[j].event.observed
  {
    PublishedCarriesBoundId(states[i], reg, steps[i].event, steps[i].adapterOk);
    PublishedCarriesBoundId(states[j], reg, steps[j].event, steps[j].adapterOk);
    BoundIdIsWriteOnce(states, steps, i + 1, j + 1, reg.nonce);
  }

  // ----- The object

  class HookRegistry {
    var registrations: map<Nonce, Entry<Session>>
    var order: seq<Nonce>
    var nextGeneration: nat
    var latest: map<Key, nat>

    ghost function View(): State
      reads this
    {
      Registry(registrations, order, nextGeneration, latest)
    }

    ghost predicate Valid()
      reads this
    {
      Ordered(View())
    }

    constructor ()
      ensures Valid() && View() == Empty()
    {
      registrations, order, nextGeneration, latest := map[], [], 0, map[];
    }

    /** Forgetting the key of the latest generation is what the policy says. */
    lemma ForgetsLatest(before: State, nonce: Nonce)
      requires nonce in before.registrations
      ensures var e := before.registrations[nonce];
              Drop(before, ByGeneration, {nonce}).latest ==
              if e.key in before.latest && before.latest[e.key] == e.generation
              then before.latest - {e.key} else before.latest
    {
    }

    /** The body shared by eviction and `unregister`. */
    method Remove(nonce: Nonce) returns (key: Option<Key>)
      requires Valid()
      modifies this
      ensures Valid() && View() == Drop(old(View()), ByGeneration, {nonce})
      ensures key == if nonce in old(registrations) then Some(old(registrations)[nonce].key) else None
    {
      ghost var before := View();
      DropOrdered(before, ByGeneration, {nonce});
      if nonce !in registrations {
        WithoutShorter(order, {nonce});
        assert registrations - {nonce} == registrations;
        return None;
      }
      ForgetsLatest(before, nonce);
      var removed := registrations[nonce];
      registrations := registrations - {nonce};
      order := Without(order, {nonce});
      if removed.key in latest && latest[removed.key] == removed.generation {
        latest := latest - {removed.key};
      }
      return Some(removed.key);
    }

    method EvictOldest()
      requires Valid()
      modifies this
      ensures Valid() && View() == BeforeInsert(old(View()))
    {
      while |registrations| >= MAX_REGISTRATIONS
        invariant Valid() && BeforeInsert(View()) == BeforeInsert(old(View()))
        decreases |order|
      {
        if order == [] {
          break;
        }
        var key := Remove(order[0]);
      }
    }

    method RegisterExpected(key: Key, expected: Option<Id>, nonce: Option<Nonce>)
      returns (r: Result<Registration, RegisterError>)
      requires Valid() && (nonce.Some? ==> nonce.value !in BeforeInsert(View()).registrations)
      modifies this
      ensures Valid() && (View(), r) == Register(old(View()), key, expected, nonce)
      ensures r.Ok? ==> IsCurrent(View(), r.value)
    {
      EvictOldest();
      r := InsertSession(key, expected, nonce);
    }

    method InsertSession(key: Key, expected: Option<Id>, nonce: Option<Nonce>)
      returns (r: Result<Registration, RegisterError>)
      requires Valid() && (nonce.Some? ==> nonce.value !in registrations)
      modifies this
      ensures Valid() && (View(), r) == InsertInto(old(View()), key, expected, nonce)
      ensures r.Ok? ==> IsCurrent(View(), r.value)
    {
      if nonce.None? {
        return Err(NoRandomness);
      }
      if nextGeneration >= U64_MAX {
        return Err(GenerationExhausted);
      }
      InsertOrdered(View(), nonce.value, key, Session(None, expected));
      nextGeneration := nextGeneration + 1;
      latest := latest[key := nextGeneration];
      order := order + [nonce.value];
      registrations := registrations[nonce.value := Entry(key, nextGeneration, Session(None, expected))];
      return Ok(Registration(nonce.value, key, nextGeneration));
    }

    /** The locked section of `admit_and_publish`, for an authenticated observation. */
    method AdmitAndPublish(reg: Registration, event: Event, adapterOk: bool) returns (d: Delivery)
      requires Valid()
      modifies this
      ensures Valid() && (View(), d) == Deliver(old(View()), reg, event, adapterOk)
    {
      if !(&& reg.nonce in registrations
           && registrations[reg.nonce].generation == reg.generation && registrations[reg.nonce].key == reg.key
           && reg.key in latest && latest[reg.key] == reg.generation) {
        return Dropped;
      }
      var entry := registrations[reg.nonce];
      match IdentityAdmission(entry.payload, event) {
        case Reject => return Dropped;
        case ExactResumeMismatch => return ResumeFailed;
        case Admit =>
      }
      if !adapterOk {
        return AdapterFailed;
      }
      if event.name.SessionStart? && entry.payload.bound.None? {
        registrations := registrations[reg.nonce := entry.(payload := entry.payload.(bound := event.observed))];
      }
      return Published;
    }
  }
}
