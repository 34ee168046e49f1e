/** How long a Codex registration is current, which ones make way, and which deliveries are published. */
module CodexLifetimes {
  import opened Common
  import opened RegistryCore
  import opened RegistryOrder
  import opened CodexRegistry

  // ----- The order of registration

  lemma InsertIntoChronological(room: State, key: Key, expected: Option<Id>, nonce: Option<Nonce>)
    requires Chronological(room) && Bounded(room) && (nonce.Some? ==> nonce.value !in room.registrations)
    ensures Chronological(InsertInto(room, key, expected, nonce).0)
  {
    if nonce.Some? {
      InsertChronological(room, nonce.value, key, Session(None, expected));
    }
  }

  lemma RoomBounded(r: State)
    requires Valid(r, ByGeneration, MAX_REGISTRATIONS)
    ensures Bounded(BeforeInsert(r))
  {
    MakeRoomValid(r, ByGeneration, MAX_REGISTRATIONS, MAX_REGISTRATIONS);
  }

  lemma StepChronological(r: State, step: Step)
    requires Valid(r, ByGeneration, MAX_REGISTRATIONS) && Chronological(r) && Enabled(r, step)
    ensures Chronological(Apply(r, step))
  {
    match step {
      case DoRegister(key, expected, nonce) =>
        RoomBounded(r);
        MakeRoomChronological(r, ByGeneration, MAX_REGISTRATIONS);
        InsertIntoChronological(BeforeInsert(r), key, expected, nonce);
      case DoUnregister(target) => DropChronological(r, ByGeneration, {target});
      case DoDeliver(reg, event, adapterOk) =>
        DeliverShape(r, reg, event, adapterOk);
        SameShapeChronological(r, Apply(r, step));
    }
  }

  lemma DeliverShape(r: State, reg: Registration, event: Event, adapterOk: bool)
    ensures SameShape(r, Deliver(r, reg, event, adapterOk).0)
  {
    if Deliver(r, reg, event, adapterOk).0 != r {
      SetPayloadShape(r, reg.nonce, r.registrations[reg.nonce].payload.(bound := event.observed));
    }
  }

  /** In every reachable state the eviction order is the order of registration. */
  lemma {:induction false} OrderIsChronological(states: seq<State>, steps: seq<Step>, i: nat)
    requires IsRun(states, steps) && i < |states|
    ensures Chronological(states[i])
  {
    if i > 0 {
      OrderIsChronological(states, steps, i - 1);
      RunValid(states, steps, i - 1);
      StepChronological(states[i - 1], steps[i - 1]);
    }
  }

  /**
   * A registration succeeds exactly when there is a nonce and a generation left.  It is then current,
   * of the next generation, unbound, and expects the given id.
   */
  lemma {:induction false} RegistersExactly(r: State, step: Step)
    requires step.DoRegister?
    ensures var (t, result) := Register(r, step.key, step.expected, step.nonce);
            && (result.Ok? <==> step.nonce.Some? && r.nextGeneration < U64_MAX)
            && (result.Ok? ==>
                  && result.value == Registration(step.nonce.value, step.key, r.nextGeneration + 1)
                  && IsCurrent(t, result.value)
                  && t.registrations[step.nonce.value].payload == Session(None, step.expected))
  {
    MakeRoomCounter(r, ByGeneration, MAX_REGISTRATIONS);
  }

  /** So many registrations are newer that they fill the registry. */
  ghost predicate MakesWay(r: State, n: Nonce) {
    n in r.registrations && |Newer(r.registrations, r.registrations[n].generation)| >= MAX_REGISTRATIONS - 1
  }

  /** A new registration makes another one go exactly when newer ones fill the registry. */
  lemma MakesWayExactly(states: seq<State>, steps: seq<Step>, i: nat, n: Nonce)
    requires IsRun(states, steps) && i < |steps| && steps[i].DoRegister? && n in states[i].registrations
    requires steps[i].nonce != Some(n)
    ensures n !in states[i + 1].registrations <==> MakesWay(states[i], n)
  {
    RunValid(states, steps, i);
    OrderIsChronological(states, steps, i);
    StaysExactly(states[i], ByGeneration, MAX_REGISTRATIONS, n);
    RegisterAdds(states[i], steps[i], n);
  }

  lemma RegisterAdds(r: State, step: Step, n: Nonce)
    requires step.DoRegister? && step.nonce != Some(n)
    ensures n in Apply(r, step).registrations <==> n in BeforeInsert(r).registrations
  {
  }

  // ----- How long a registration is current

  ghost predicate EndsCurrent(r: State, step: Step, reg: Registration) {
    match step
    case DoRegister(key, _, nonce) =>
      (key == reg.key && nonce.Some? && r.nextGeneration < U64_MAX) || MakesWay(r, reg.nonce)
    case DoUnregister(target) => target == reg.nonce
    case DoDeliver(_, _, _) => false
  }

  lemma EndsAgree(r: State, step: Step, reg: Registration)
    requires Ordered(r) && Chronological(r) && IsCurrent(r, reg)
    ensures EndsCurrent(r, step, reg) <==> Ends(r, step, reg)
  {
    if step.DoRegister? {
      StaysExactly(r, ByGeneration, MAX_REGISTRATIONS, reg.nonce);
      RegistersExactly(r, step);
    }
  }

  lemma RegisterKeeps(r: State, step: Step, reg: Registration)
    requires Distinct(r) && Enabled(r, step) && step.DoRegister? && IsCurrent(r, reg) && !Ends(r, step, reg)
    ensures IsCurrent(Apply(r, step), reg)
  {
    MakeRoomKeepsCurrent(r, ByGeneration, MAX_REGISTRATIONS, reg);
    if Register(r, step.key, step.expected, step.nonce).1.Ok? {
      InsertKeepsCurrent(BeforeInsert(r), step.nonce.value, step.key, Session(None, step.expected), reg);
    }
  }

  lemma StepKeeps(r: State, step: Step, reg: Registration)
    requires Distinct(r) && Enabled(r, step) && IsCurrent(r, reg) && !Ends(r, step, reg)
    ensures IsCurrent(Apply(r, step), reg)
  {
    match step {
      case DoRegister(_, _, _) => RegisterKeeps(r, step, reg);
      case DoUnregister(target) => DropKeepsCurrent(r, ByGeneration, {target}, reg);
      case DoDeliver(other, event, adapterOk) =>
        DeliverShape(r, other, event, adapterOk);
        SameShapeCurrent(r, Apply(r, step), reg);
    }
  }

  /** What deciding about one step needs of a state. */
  ghost predicate InOrder(r: State) { Ordered(r) && Bounded(r) && Distinct(r) && Chronological(r) }

  lemma {:induction false} RunInOrder(states: seq<State>, steps: seq<Step>, i: nat)
    requires IsRun(states, steps) && i < |states|
    ensures InOrder(states[i])
  {
    RunValid(states, steps, i);
    OrderIsChronological(states, steps, i);
  }

  lemma StepEndsExactly(r: State, step: Step, t: State, reg: Registration)
    requires InOrder(r) && Enabled(r, step) && t == Apply(r, step) && IsCurrent(r, reg)
    ensures IsCurrent(t, reg) <==> !EndsCurrent(r, step, reg)
  {
    EndsAgree(r, step, reg);
    if Ends(r, step, reg) {
      EndFences(r, step, reg);
    } else {
      StepKeeps(r, step, reg);
    }
  }

  lemma {:induction false} StepTaken(states: seq<State>, steps: seq<Step>, i: nat)
    requires IsRun(states, steps) && i < |steps|
    ensures Enabled(states[i], steps[i]) && states[i + 1] == Apply(states[i], steps[i])
  {
  }

  lemma {:induction false} StepExactly(states: seq<State>, steps: seq<Step>, i: nat, reg: Registration)
    requires IsRun(states, steps) && i < |steps| && IsCurrent(states[i], reg)
    ensures IsCurrent(states[i + 1], reg) <==> !EndsCurrent(states[i], steps[i], reg)
  {
    RunInOrder(states, steps, i);
    StepTaken(states, steps, i);
    StepEndsExactly(states[i], steps[i], states[i + 1], reg);
  }

  /**
   * A current registration is current in a later state exactly when no step in between ended it:
   * another registration of its key, its removal, or newer registrations that filled the registry.
   */
  lemma {:induction false} CurrentExactly(states: seq<State>, steps: seq<Step>, i: nat, j: nat, reg: Registration)
    requires IsRun(states, steps) && i <= j < |states| && IsCurrent(states[i], reg)
    ensures IsCurrent(states[j], reg) <==> forall m :: i <= m < j ==> !EndsCurrent(states[m], steps[m], reg)
  {
    if IsCurrent(states[j], reg) {
      forall m | i <= m < j
        ensures !EndsCurrent(states[m], steps[m], reg)
      {
        CurrentBetween(states, steps, i, m, j, reg);
        CurrentBetween(states, steps, i, m + 1, j, reg);
        StepExactly(states, steps, m, reg);
      }
    }
    if forall m :: i <= m < j ==> !EndsCurrent(states[m], steps[m], reg) {
      CurrentUntilEnded(states, steps, i, j, reg);
    }
  }

  lemma CurrentUntilEnded(states: seq<State>, steps: seq<Step>, i: nat, j: nat, reg: Registration)
    requires IsRun(states, steps) && i <= j < |states| && IsCurrent(states[i], reg)
    requires forall m :: i <= m < j ==> !EndsCurrent(states[m], steps[m], reg)
    ensures IsCurrent(states[j], reg)
  {
    forall m | i <= m < j && IsCurrent(states[m], reg)
      ensures IsCurrent(states[m + 1], reg)
    {
      StepExactly(states, steps, m, reg);
    }
    Chain(i, j, (m: nat) => m < |states| && IsCurrent(states[m], reg));
  }

  lemma {:induction false} CurrentBetween(states: seq<State>, steps: seq<Step>, i: nat, m: nat, j: nat, reg: Registration)
    requires IsRun(states, steps) && i <= m <= j < |states| && IsCurrent(states[i], reg) && IsCurrent(states[j], reg)
    ensures IsCurrent(states[m], reg)
  {
    RunValid(states, steps, i);
    RunCarries(states, steps, i, m);
    if !IsCurrent(states[m], reg) {
      NeverCurrentAgain(states, steps, m, j, reg);
    }
  }

  // ----- Which deliveries are published

  /**
   * A delivery is published exactly when its registration is current, the adapter succeeds, and the
   * event is an unknown one, carries the bound id, or starts an unbound session with an allowed id;
   * in the last case it binds the session.
   */
  lemma DeliversExactly(r: State, reg: Registration, event: Event, adapterOk: bool)
    ensures Deliver(r, reg, event, adapterOk).1 == Published <==>
            && IsCurrent(r, reg) && adapterOk
            && var s := r.registrations[reg.nonce].payload;
               || event.name == UnknownEvent
               || (event.observed.Some? && s.bound == event.observed)
               || (event.observed.Some? && s.bound == None && event.name == SessionStart
                   && (s.expected == None || s.expected == event.observed))
    ensures var (t, d) := Deliver(r, reg, event, adapterOk);
            if d == Published && event.name == SessionStart
            then && t.registrations.Keys == r.registrations.Keys
                 && t.registrations[reg.nonce].payload.bound == event.observed
                 && (forall n :: n in r.registrations && n != reg.nonce ==> t.registrations[n] == r.registrations[n])
            else t == r
  {
  }

  /**
   * Once a known event was published for a registration, a later known one is published exactly when
   * no step in between ended the registration, it carries the same id, and the adapter succeeds.
   */
  lemma {:induction false} PublishedExactly(states: seq<State>, steps: seq<Step>, i: nat, j: nat, reg: Registration)
    requires IsRun(states, steps) && i < j < |steps| && Publishes(states[i], steps[i], reg)
    requires steps[j].DoDeliver? && steps[j].reg == reg
    requires steps[i].event.name != UnknownEvent && steps[j].event.name != UnknownEvent
    ensures Publishes(states[j], steps[j], reg) <==>
            && (forall m :: i < m < j ==> !EndsCurrent(states[m], steps[m], reg))
            && steps[j].event.observed == steps[i].event.observed && steps[j].adapterOk
  {
    PublishedCarriesBoundId(states[i], reg, steps[i].event, steps[i].adapterOk);
    assert states[i + 1] == Apply(states[i], steps[i]);
    CurrentExactly(states, steps, i + 1, j, reg);
    if IsCurrent(states[j], reg) {
      BoundIdIsWriteOnce(states, steps, i + 1, j, reg.nonce);
    }
    DeliversExactly(states[j], reg, steps[j].event, steps[j].adapterOk);
  }
}
