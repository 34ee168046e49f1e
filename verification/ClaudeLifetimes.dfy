/** How long a Claude registration is current, and which registrations make way for a new one. */
module ClaudeLifetimes {
  import opened Common
  import opened RegistryCore
  import opened RegistryOrder
  import opened ClaudeRegistry

  // ----- The order of registration

  lemma BeforeInsertChronological(r: State, limits: Limits, now: nat)
    requires Chronological(r)
    ensures Chronological(BeforeInsert(r, limits, now))
  {
    DropChronological(r, ByKey, ExpiredNonces(r, now));
    MakeRoomChronological(RemoveExpired(r, now), ByKey, Capacity(limits));
  }

  lemma InsertIntoChronological(room: State, key: Key, session: Session, nonce: Option<Nonce>)
    requires Chronological(room) && Bounded(room) && (nonce.Some? ==> nonce.value !in room.registrations)
    ensures Chronological(InsertInto(room, key, session, nonce).0)
  {
    if nonce.Some? {
      InsertChronological(room, nonce.value, key, session);
    }
  }

  lemma StepChronological(r: State, limits: Limits, step: Step)
    requires Valid(r, ByKey, Capacity(limits)) && Chronological(r) && Enabled(r, limits, step)
    ensures Chronological(Apply(r, limits, step))
  {
    if step.DoRegister? {
      BeforeInsertValid(r, limits, step.now);
      BeforeInsertChronological(r, limits, step.now);
      InsertIntoChronological(BeforeInsert(r, limits, step.now), step.key,
                              FreshSession(limits, step.sealed, step.carried, step.now), step.nonce);
    } else if step.DoUnregister? {
      DropChronological(r, ByKey, {step.target});
    } else if step.DoUnregisterRegistration? {
      DropChronological(r, ByKey, {step.reg.nonce});
    } else if step.DoCleanup? {
      DropChronological(r, ByKey, ExpiredNonces(r, step.now));
    } else {
      PayloadStepChronological(r, limits, step);
    }
  }

  lemma PayloadStepChronological(r: State, limits: Limits, step: Step)
    requires Chronological(r) && ChangesPayload(step)
    ensures Chronological(Apply(r, limits, step))
  {
    PayloadStep(r, limits, step);
    var t := Apply(r, limits, step);
    if step.DoAdmit? && t == RemoveExpired(r, step.now) {
      DropChronological(r, ByKey, ExpiredNonces(r, step.now));
    } else if t != r {
      var n, p :| n in r.registrations && t == SetPayload(r, n, p);
      SetPayloadShape(r, n, p);
      SameShapeChronological(r, t);
    }
  }

  /** In every reachable state the eviction order is the order of registration. */
  lemma {:induction false} OrderIsChronological(limits: Limits, states: seq<State>, steps: seq<Step>, i: nat)
    requires IsRun(limits, states, steps) && i < |states|
    ensures Chronological(states[i])
  {
    if i > 0 {
      OrderIsChronological(limits, states, steps, i - 1);
      RunValid(limits, states, steps, i - 1);
      StepChronological(states[i - 1], limits, steps[i - 1]);
    }
  }

  // ----- What a registration makes

  /**
   * A registration succeeds exactly when there is a nonce and a generation left.  It is then current,
   * of the next generation, with the given seal and carried id, and not yet activated.
   */
  lemma {:induction false} RegistersExactly(r: State, limits: Limits, step: Step)
    requires step.DoRegister?
    ensures var (t, result) := Register(r, limits, step.key, step.sealed, step.carried, step.now, step.nonce);
            && (result.Ok? <==> step.nonce.Some? && r.nextGeneration < U64_MAX)
            && (result.Ok? ==>
                  && result.value == Registration(step.nonce.value, step.key, r.nextGeneration + 1)
                  && IsCurrent(t, result.value)
                  && var s := t.registrations[step.nonce.value].payload;
                     s.sealed == step.sealed && s.bound == step.carried && !s.activated)
  {
    MakeRoomCounter(RemoveExpired(r, step.now), ByKey, Capacity(limits));
  }

  // ----- Which registrations make way

  predicate HasExpired(r: State, n: Nonce, now: nat) {
    n in r.registrations && now > r.registrations[n].payload.expiresAt
  }

  /** The registrations that have not expired and were made after that of the nonce. */
  ghost function MadeLater(r: State, n: Nonce, now: nat): set<Nonce>
    requires n in r.registrations
  {
    set m | m in r.registrations && !HasExpired(r, m, now) && r.registrations[m].generation > r.registrations[n].generation
  }

  /** Making room drops what has expired, and of the rest all but the newest. */
  ghost predicate MakesWay(r: State, limits: Limits, n: Nonce, now: nat) {
    n in r.registrations && (HasExpired(r, n, now) || |MadeLater(r, n, now)| >= Capacity(limits) - 1)
  }

  lemma NewerUnexpired(r: State, n: Nonce, now: nat)
    requires n in r.registrations
    ensures Newer(RemoveExpired(r, now).registrations, r.registrations[n].generation) == MadeLater(r, n, now)
  {
  }

  lemma RoomExactly(r: State, limits: Limits, n: Nonce, now: nat)
    requires Ordered(r) && Chronological(r) && n in r.registrations
    ensures n !in BeforeInsert(r, limits, now).registrations <==> MakesWay(r, limits, n, now)
  {
    if HasExpired(r, n, now) {
      ExpiredGo(r, limits, n, now);
    } else {
      UnexpiredStay(r, limits, n, now);
    }
  }

  lemma ExpiredGo(r: State, limits: Limits, n: Nonce, now: nat)
    requires HasExpired(r, n, now)
    ensures n !in BeforeInsert(r, limits, now).registrations
  {
    if n in BeforeInsert(r, limits, now).registrations {
      MakeRoomKeeps(RemoveExpired(r, now), ByKey, Capacity(limits), n);
    }
  }

  lemma UnexpiredStay(r: State, limits: Limits, n: Nonce, now: nat)
    requires Ordered(r) && Chronological(r) && n in r.registrations && !HasExpired(r, n, now)
    ensures n in BeforeInsert(r, limits, now).registrations <==> |MadeLater(r, n, now)| < Capacity(limits) - 1
  {
    DropOrdered(r, ByKey, ExpiredNonces(r, now));
    DropChronological(r, ByKey, ExpiredNonces(r, now));
    StaysExactly(RemoveExpired(r, now), ByKey, Capacity(limits), n);
    NewerUnexpired(r, n, now);
  }

  /**
   * A new registration makes another one go exactly when that one has expired, or so many unexpired
   * ones were made after it that they fill the registry.
   */
  lemma MakesWayExactly(limits: Limits, states: seq<State>, steps: seq<Step>, i: nat, n: Nonce)
    requires IsRun(limits, states, steps) && i < |steps| && steps[i].DoRegister? && n in states[i].registrations
    requires steps[i].nonce != Some(n)
    ensures n !in states[i + 1].registrations <==> MakesWay(states[i], limits, n, steps[i].now)
  {
    RunValid(limits, states, steps, i);
    OrderIsChronological(limits, states, steps, i);
    RoomExactly(states[i], limits, n, steps[i].now);
    RegisterAdds(states[i], limits, steps[i], n);
  }

  lemma RegisterAdds(r: State, limits: Limits, step: Step, n: Nonce)
    requires step.DoRegister? && step.nonce != Some(n)
    ensures n in Apply(r, limits, step).registrations <==> n in BeforeInsert(r, limits, step.now).registrations
  {
  }

  // ----- How long a registration is current

  /** The steps that end a current registration. */
  ghost predicate EndsCurrent(r: State, limits: Limits, step: Step, reg: Registration) {
    match step
    case DoRegister(key, _, _, now, nonce) =>
      (key == reg.key && nonce.Some? && r.nextGeneration < U64_MAX) || MakesWay(r, limits, reg.nonce, now)
    case DoUnregister(target) => target == reg.nonce
    case DoUnregisterRegistration(other) => other == reg
    case DoCleanup(now) => HasExpired(r, reg.nonce, now)
    case DoAdmit(target, now) =>
      HasExpired(r, reg.nonce, now) && (target !in r.registrations || HasExpired(r, target, now))
    case _ => false
  }

  lemma RegisterEnds(r: State, limits: Limits, step: Step, reg: Registration)
    requires Ordered(r) && Chronological(r) && IsCurrent(r, reg) && step.DoRegister?
    ensures EndsCurrent(r, limits, step, reg) <==> Ends(r, limits, step, reg)
  {
    RoomExactly(r, limits, reg.nonce, step.now);
    RegistersExactly(r, limits, step);
  }

  lemma EndsAgree(r: State, limits: Limits, step: Step, reg: Registration)
    requires Ordered(r) && Chronological(r) && IsCurrent(r, reg)
    ensures EndsCurrent(r, limits, step, reg) <==> Ends(r, limits, step, reg)
  {
    if step.DoRegister? {
      RegisterEnds(r, limits, step, reg);
    }
  }

  lemma RoomKeeps(r: State, limits: Limits, now: nat, reg: Registration)
    requires Distinct(r) && IsCurrent(r, reg) && reg.nonce in BeforeInsert(r, limits, now).registrations
    ensures IsCurrent(BeforeInsert(r, limits, now), reg)
  {
    MakeRoomKeeps(RemoveExpired(r, now), ByKey, Capacity(limits), reg.nonce);
    DropKeepsCurrent(r, ByKey, ExpiredNonces(r, now), reg);
    MakeRoomKeepsCurrent(RemoveExpired(r, now), ByKey, Capacity(limits), reg);
  }

  lemma RegisterKeeps(r: State, limits: Limits, step: Step, reg: Registration)
    requires Distinct(r) && Enabled(r, limits, step) && step.DoRegister?
    requires IsCurrent(r, reg) && !Ends(r, limits, step, reg)
    ensures IsCurrent(Apply(r, limits, step), reg)
  {
    RoomKeeps(r, limits, step.now, reg);
    if Register(r, limits, step.key, step.sealed, step.carried, step.now, step.nonce).1.Ok? {
      InsertKeepsCurrent(BeforeInsert(r, limits, step.now), step.nonce.value, step.key,
                         FreshSession(limits, step.sealed, step.carried, step.now), reg);
    }
  }

  lemma StepKeeps(r: State, limits: Limits, step: Step, reg: Registration)
    requires Distinct(r) && Enabled(r, limits, step)
    requires IsCurrent(r, reg) && !Ends(r, limits, step, reg)
    ensures IsCurrent(Apply(r, limits, step), reg)
  {
    if step.DoRegister? {
      RegisterKeeps(r, limits, step, reg);
    } else if step.DoUnregister? {
      DropKeepsCurrent(r, ByKey, {step.target}, reg);
    } else if step.DoUnregisterRegistration? {
      if Matches(r, step.reg) {
        DropKeepsCurrent(r, ByKey, {step.reg.nonce}, reg);
      }
    } else if step.DoCleanup? {
      DropKeepsCurrent(r, ByKey, ExpiredNonces(r, step.now), reg);
    } else {
      PayloadStepKeeps(r, limits, step, reg);
    }
  }

  lemma PayloadStepKeeps(r: State, limits: Limits, step: Step, reg: Registration)
    requires Distinct(r) && ChangesPayload(step)
    requires IsCurrent(r, reg) && !Ends(r, limits, step, reg)
    ensures IsCurrent(Apply(r, limits, step), reg)
  {
    PayloadStep(r, limits, step);
    var t := Apply(r, limits, step);
    if step.DoAdmit? && Admit(r, limits, step.target, step.now).1.Err? {
      DropKeepsCurrent(r, ByKey, ExpiredNonces(r, step.now), reg);
    } else if t != r {
      var n, p :| n in r.registrations && t == SetPayload(r, n, p);
      SetPayloadShape(r, n, p);
      SameShapeCurrent(r, t, reg);
    }
  }

  /** What deciding about one step needs of a state. */
  ghost predicate InOrder(r: State) { Ordered(r) && Bounded(r) && Distinct(r) && Chronological(r) }

  lemma {:induction false} RunInOrder(limits: Limits, states: seq<State>, steps: seq<Step>, i: nat)
    requires IsRun(limits, states, steps) && i < |states|
    ensures InOrder(states[i])
  {
    RunValid(limits, states, steps, i);
    OrderIsChronological(limits, states, steps, i);
  }

  lemma StepEndsExactly(r: State, limits: Limits, step: Step, t: State, reg: Registration)
    requires InOrder(r) && Enabled(r, limits, step) && t == Apply(r, limits, step) && IsCurrent(r, reg)
    ensures IsCurrent(t, reg) <==> !EndsCurrent(r, limits, step, reg)
  {
    EndsAgree(r, limits, step, reg);
    if Ends(r, limits, step, reg) {
      EndFences(r, limits, step, reg);
    } else {
      StepKeeps(r, limits, step, reg);
    }
  }

  lemma {:induction false} StepTaken(limits: Limits, states: seq<State>, steps: seq<Step>, i: nat)
    requires IsRun(limits, states, steps) && i < |steps|
    ensures Enabled(states[i], limits, steps[i]) && states[i + 1] == Apply(states[i], limits, steps[i])
  {
  }

  lemma {:induction false} StepExactly(limits: Limits, states: seq<State>, steps: seq<Step>, i: nat, reg: Registration)
    requires IsRun(limits, states, steps) && i < |steps| && IsCurrent(states[i], reg)
    ensures IsCurrent(states[i + 1], reg) <==> !EndsCurrent(states[i], limits, steps[i], reg)
  {
    RunInOrder(limits, states, steps, i);
    StepTaken(limits, states, steps, i);
    StepEndsExactly(states[i], limits, steps[i], states[i + 1], reg);
  }

  /**
   * A current registration is current in a later state exactly when no step in between ended it:
   * another registration of its key, its removal, its expiry at a cleanup, or newer registrations
   * that filled the registry.
   */
  lemma {:induction false} CurrentExactly(limits: Limits, states: seq<State>, steps: seq<Step>, i: nat, j: nat, reg: Registration)
    requires IsRun(limits, states, steps) && i <= j < |states| && IsCurrent(states[i], reg)
    ensures IsCurrent(states[j], reg) <==> forall m :: i <= m < j ==> !EndsCurrent(states[m], limits, steps[m], reg)
  {
    if IsCurrent(states[j], reg) {
      forall m | i <= m < j
        ensures !EndsCurrent(states[m], limits, steps[m], reg)
      {
        CurrentBetween(limits, states, steps, i, m, j, reg);
        CurrentBetween(limits, states, steps, i, m + 1, j, reg);
        StepExactly(limits, states, steps, m, reg);
      }
    }
    if forall m :: i <= m < j ==> !EndsCurrent(states[m], limits, steps[m], reg) {
      CurrentUntilEnded(limits, states, steps, i, j, reg);
    }
  }

  lemma CurrentUntilEnded(limits: Limits, states: seq<State>, steps: seq<Step>, i: nat, j: nat, reg: Registration)
    requires IsRun(limits, states, steps) && i <= j < |states| && IsCurrent(states[i], reg)
    requires forall m :: i <= m < j ==> !EndsCurrent(states[m], limits, steps[m], reg)
    ensures IsCurrent(states[j], reg)
  {
    forall m | i <= m < j && IsCurrent(states[m], reg)
      ensures IsCurrent(states[m + 1], reg)
    {
      StepExactly(limits, states, steps, m, reg);
    }
    Chain(i, j, (m: nat) => m < |states| && IsCurrent(states[m], reg));
  }

  lemma {:induction false} CurrentBetween(limits: Limits, states: seq<State>, steps: seq<Step>, i: nat, m: nat, j: nat, reg: Registration)
    requires IsRun(limits, states, steps) && i <= m <= j < |states|
    requires IsCurrent(states[i], reg) && IsCurrent(states[j], reg)
    ensures IsCurrent(states[m], reg)
  {
    StillIssued(limits, states, steps, i, m, reg);
    if !IsCurrent(states[m], reg) {
      NeverCurrentAgain(limits, states, steps, m, j, reg);
    }
  }

  lemma StillIssued(limits: Limits, states: seq<State>, steps: seq<Step>, i: nat, j: nat, reg: Registration)
    requires IsRun(limits, states, steps) && i <= j < |states| && IsCurrent(states[i], reg)
    ensures reg.generation <= states[j].nextGeneration
  {
    RunValid(limits, states, steps, i);
    RunCarries(limits, states, steps, i, j);
  }
}
