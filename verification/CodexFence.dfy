/**
 * Threads around the Codex hook registry.  A delivery holds the publication gate for reading:
 * it is admitted and bound in one locked section and then runs the handlers with the registry
 * unlocked.  A delivery with an exact-resume mismatch first releases the gate and then reports
 * the failure to the handler.  Registering and unregistering hold the gate for writing.
 * Actions of different threads interleave freely.
 */
module CodexFence {
  import opened Common
  import opened RegistryCore
  import opened CodexRegistry
  import CodexLifetimes

  type Thread = nat

  datatype Gate = Gate(readers: set<Thread>, writer: Option<Thread>)

  datatype Pc =
    | Idle
    | Entered(reg: Registration, event: Event, adapterOk: bool)
    | Handling(reg: Registration, event: Event)   // running the handlers of an admitted event
    | Failing(reg: Registration, event: Event)    // exact-resume mismatch, gate still held
    | Reporting(reg: Registration, event: Event)  // gate released, the handler is told of the failure
    | Leaving
    | Locked(op: Step)
    | Changed

  datatype System = System(
    registry: State,
    gate: Gate,
    threads: map<Thread, Pc>,
    admitted: seq<Registration>,   // whose handlers were called for admitted events
    calls: seq<Registration>)      // whose handlers were called, reports included

  const START: System := System(Empty(), Gate({}, None), map[], [], [])

  function PcOf(s: System, t: Thread): Pc {
    if t in s.threads then s.threads[t] else Idle
  }

  function WithPc(s: System, t: Thread, pc: Pc): System {
    s.(threads := s.threads[t := pc])
  }

  datatype Action =
    | Enter(t: Thread, reg: Registration, event: Event, adapterOk: bool)
    | AdmitEvent(t: Thread)
    | Handle(t: Thread)
    | Release(t: Thread)
    | Report(t: Thread)
    | Leave(t: Thread)
    | Lock(t: Thread, op: Step)
    | Change(t: Thread)
    | Unlock(t: Thread)

  predicate CanDo(s: System, a: Action) {
    match a
    case Enter(t, _, _, _) => PcOf(s, t).Idle? && s.gate.writer.None?
    case AdmitEvent(t) => PcOf(s, t).Entered?
    case Handle(t) => PcOf(s, t).Handling?
    case Release(t) => PcOf(s, t).Failing?
    case Report(t) => PcOf(s, t).Reporting?
    case Leave(t) => PcOf(s, t).Handling? || PcOf(s, t).Leaving?
    case Lock(t, op) => PcOf(s, t).Idle? && !op.DoDeliver? && s.gate.writer.None? && s.gate.readers == {}
    case Change(t) => PcOf(s, t).Locked? && Enabled(s.registry, PcOf(s, t).op)
    case Unlock(t) => PcOf(s, t).Changed?
  }

  function Do(s: System, a: Action): System
    requires CanDo(s, a)
  {
    match a
    case Enter(t, reg, event, adapterOk) =>
      WithPc(s, t, Entered(reg, event, adapterOk)).(gate := s.gate.(readers := s.gate.readers + {t}))
    case AdmitEvent(t) =>
      var pc := PcOf(s, t);
      var (registry, delivery) := Deliver(s.registry, pc.reg, pc.event, pc.adapterOk);
      WithPc(s, t, match delivery
                   case Published => Handling(pc.reg, pc.event)
                   case ResumeFailed => Failing(pc.reg, pc.event)
                   case Dropped => Leaving
                   case AdapterFailed => Leaving).(registry := registry)
    case Handle(t) =>
      s.(admitted := s.admitted + [PcOf(s, t).reg], calls := s.calls + [PcOf(s, t).reg])
    case Release(t) =>
      WithPc(s, t, Reporting(PcOf(s, t).reg, PcOf(s, t).event)).(gate := s.gate.(readers := s.gate.readers - {t}))
    case Report(t) => WithPc(s, t, Idle).(calls := s.calls + [PcOf(s, t).reg])
    case Leave(t) => WithPc(s, t, Idle).(gate := s.gate.(readers := s.gate.readers - {t}))
    case Lock(t, op) => WithPc(s, t, Locked(op)).(gate := s.gate.(writer := Some(t)))
    case Change(t) => WithPc(s, t, Changed).(registry := Apply(s.registry, PcOf(s, t).op))
    case Unlock(t) => WithPc(s, t, Idle).(gate := s.gate.(writer := None))
  }

  ghost predicate StepAt(states: seq<System>, actions: seq<Action>, i: nat)
    requires i < |actions| && |states| == |actions| + 1
  {
    CanDo(states[i], actions[i]) && states[i + 1] == Do(states[i], actions[i])
  }

  /** The actions lead on from a given state. */
  ghost predicate Continues(s: System, states: seq<System>, actions: seq<Action>) {
    && |states| == |actions| + 1 && states[0] == s
    && forall i :: 0 <= i < |actions| ==> StepAt(states, actions, i)
  }

  ghost predicate IsRun(states: seq<System>, actions: seq<Action>) {
    Continues(START, states, actions)
  }

  // ----- The invariant

  predicate Reads(pc: Pc) { pc.Entered? || pc.Handling? || pc.Failing? || pc.Leaving? }

  predicate Writes(pc: Pc) { pc.Locked? || pc.Changed? }

  ghost predicate ReadersAgree(s: System) {
    forall t: Thread :: t in s.gate.readers <==> Reads(PcOf(s, t))
  }

  ghost predicate WriterAgrees(s: System) {
    && (forall t: Thread :: s.gate.writer == Some(t) <==> Writes(PcOf(s, t)))
    && (s.gate.writer.Some? ==> s.gate.readers == {})
  }

  /** The handlers of a delivery may run: its registration is current and bound to what it carries. */
  predicate MayHandle(r: State, reg: Registration, event: Event) {
    IsCurrent(r, reg) && (!event.name.UnknownEvent? ==> BoundTo(r, reg, event))
  }

  predicate BoundTo(r: State, reg: Registration, event: Event)
    requires reg.nonce in r.registrations
  {
    event.observed.Some? && r.registrations[reg.nonce].payload.bound == event.observed
  }

  predicate PcFits(r: State, pc: Pc) {
    (pc.Handling? ==> MayHandle(r, pc.reg, pc.event)) && (pc.Locked? ==> !pc.op.DoDeliver?)
  }

  ghost predicate PcsFit(s: System) {
    forall t: Thread :: PcFits(s.registry, PcOf(s, t))
  }

  ghost predicate Safe(s: System) {
    && Valid(s.registry, ByGeneration, MAX_REGISTRATIONS) && ReadersAgree(s) && WriterAgrees(s) && PcsFit(s)
    && LogBehind(s.admitted, s.registry) && LogOrdered(s.admitted)
  }

  // ----- Every action keeps it

  lemma DoKeepsReaders(s: System, a: Action)
    requires ReadersAgree(s) && CanDo(s, a)
    ensures ReadersAgree(Do(s, a))
  {
  }

  lemma DoKeepsWriter(s: System, a: Action)
    requires ReadersAgree(s) && WriterAgrees(s) && CanDo(s, a)
    ensures WriterAgrees(Do(s, a))
  {
  }

  /** A delivery leaves what the handlers of others rely on. */
  lemma DeliverKeepsHandlers(r: State, reg: Registration, event: Event, adapterOk: bool, other: Registration, carried: Event)
    requires MayHandle(r, other, carried)
    ensures MayHandle(Deliver(r, reg, event, adapterOk).0, other, carried)
  {
  }

  lemma PublishedMayHandle(r: State, reg: Registration, event: Event, adapterOk: bool)
    requires Deliver(r, reg, event, adapterOk).1 == Published
    ensures MayHandle(Deliver(r, reg, event, adapterOk).0, reg, event)
  {
    if !event.name.UnknownEvent? {
      PublishedCarriesBoundId(r, reg, event, adapterOk);
    }
  }

  lemma AdmitKeepsPcs(s: System, a: Action)
    requires PcsFit(s) && a.AdmitEvent? && CanDo(s, a)
    ensures PcsFit(Do(s, a))
  {
    var pc := PcOf(s, a.t);
    forall t: Thread
      ensures PcFits(Do(s, a).registry, PcOf(Do(s, a), t))
    {
      assert PcFits(s.registry, PcOf(s, t));
      if t == a.t {
        if Deliver(s.registry, pc.reg, pc.event, pc.adapterOk).1 == Published {
          PublishedMayHandle(s.registry, pc.reg, pc.event, pc.adapterOk);
        }
      } else if PcOf(s, t).Handling? {
        DeliverKeepsHandlers(s.registry, pc.reg, pc.event, pc.adapterOk, PcOf(s, t).reg, PcOf(s, t).event);
      }
    }
  }

  /** The registry changes only while no handler runs. */
  lemma ChangeKeepsPcs(s: System, a: Action)
    requires ReadersAgree(s) && WriterAgrees(s) && PcsFit(s) && a.Change? && CanDo(s, a)
    ensures PcsFit(Do(s, a))
  {
    assert s.gate.writer == Some(a.t);
    forall t: Thread
      ensures PcFits(Do(s, a).registry, PcOf(Do(s, a), t))
    {
      assert PcFits(s.registry, PcOf(s, t));
      assert t !in s.gate.readers;
    }
  }

  lemma DoKeepsPcs(s: System, a: Action)
    requires ReadersAgree(s) && WriterAgrees(s) && PcsFit(s) && CanDo(s, a)
    ensures PcsFit(Do(s, a))
  {
    if a.AdmitEvent? {
      AdmitKeepsPcs(s, a);
    } else if a.Change? {
      ChangeKeepsPcs(s, a);
    } else {
      forall t: Thread
        ensures PcFits(Do(s, a).registry, PcOf(Do(s, a), t))
      {
        assert PcFits(s.registry, PcOf(s, t));
      }
    }
  }

  lemma StepMoves(r: State, op: Step)
    ensures IndexMoves(r, Apply(r, op))
  {
    if op.DoRegister? {
      MakeRoomMoves(r, ByGeneration, MAX_REGISTRATIONS);
      IndexMovesTwice(r, BeforeInsert(r), Apply(r, op));
    }
  }

  /** The registry step that an action makes, if any. */
  function OpOf(s: System, a: Action): Option<Step> {
    if a.Change? && PcOf(s, a.t).Locked? then Some(PcOf(s, a.t).op)
    else if a.AdmitEvent? && PcOf(s, a.t).Entered? then
      var pc := PcOf(s, a.t);
      Some(DoDeliver(pc.reg, pc.event, pc.adapterOk))
    else None
  }

  lemma DoSteps(s: System, a: Action)
    requires CanDo(s, a)
    ensures match OpOf(s, a)
            case Some(op) => Do(s, a).registry == Apply(s.registry, op) && Enabled(s.registry, op)
            case None => Do(s, a).registry == s.registry
  {
  }

  lemma DoKeepsRegistry(s: System, a: Action)
    requires Valid(s.registry, ByGeneration, MAX_REGISTRATIONS) && CanDo(s, a)
    ensures Valid(Do(s, a).registry, ByGeneration, MAX_REGISTRATIONS)
    ensures IndexMoves(s.registry, Do(s, a).registry)
  {
    DoSteps(s, a);
    if OpOf(s, a).Some? {
      StepValid(s.registry, OpOf(s, a).value);
      StepMoves(s.registry, OpOf(s, a).value);
    }
  }

  lemma DoKeepsLog(s: System, a: Action)
    requires Safe(s) && CanDo(s, a)
    ensures var u := Do(s, a); LogBehind(u.admitted, u.registry) && LogOrdered(u.admitted)
  {
    if a.Handle? {
      assert PcFits(s.registry, PcOf(s, a.t));
      PublishKeepsLog(s.admitted, s.registry, PcOf(s, a.t).reg);
    } else {
      DoKeepsRegistry(s, a);
      MovedLogBehind(s.admitted, s.registry, Do(s, a).registry);
    }
  }

  lemma DoKeepsSafe(s: System, a: Action)
    requires Safe(s) && CanDo(s, a)
    ensures Safe(Do(s, a))
  {
    DoKeepsRegistry(s, a);
    DoKeepsReaders(s, a);
    DoKeepsWriter(s, a);
    DoKeepsPcs(s, a);
    DoKeepsLog(s, a);
  }

  lemma StartSafe()
    ensures Safe(START)
  {
  }

  lemma StepSafe(s: System, states: seq<System>, actions: seq<Action>, i: nat)
    requires Continues(s, states, actions) && 0 < i < |states| && Safe(states[i - 1])
    ensures Safe(states[i])
  {
    assert StepAt(states, actions, i - 1);
    DoKeepsSafe(states[i - 1], actions[i - 1]);
  }

  lemma {:induction false} ContinuesSafe(s: System, states: seq<System>, actions: seq<Action>, i: nat)
    requires Continues(s, states, actions) && Safe(s) && i < |states|
    ensures Safe(states[i])
  {
    if i > 0 {
      ContinuesSafe(s, states, actions, i - 1);
      StepSafe(s, states, actions, i);
    }
  }

  /** Every reachable state of every interleaving is safe. */
  lemma RunSafe(states: seq<System>, actions: seq<Action>, i: nat)
    requires IsRun(states, actions) && i < |states|
    ensures Safe(states[i])
  {
    StartSafe();
    ContinuesSafe(START, states, actions, i);
  }

  // ----- The theorems

  /**
   * In every interleaving the handlers of an admitted event run only while its registration is
   * current, and a known event then carries exactly the id to which the registration is bound.
   */
  lemma AdmittedRunsOnlyWhileCurrent(states: seq<System>, actions: seq<Action>, i: nat, t: Thread)
    requires IsRun(states, actions) && i < |states| && PcOf(states[i], t).Handling?
    ensures var pc := PcOf(states[i], t);
            && IsCurrent(states[i].registry, pc.reg)
            && (!pc.event.name.UnknownEvent? ==>
                  pc.event.observed.Some? && states[i].registry.registrations[pc.reg.nonce].payload.bound == pc.event.observed)
  {
    RunSafe(states, actions, i);
    assert PcFits(states[i].registry, PcOf(states[i], t));
  }

  /** So the generations of the admitted events handled for one session key never decrease. */
  lemma AdmittedGenerationsNeverDecrease(states: seq<System>, actions: seq<Action>, i: nat, a: nat, b: nat)
    requires IsRun(states, actions) && i < |states| && a < b < |states[i].admitted|
    requires states[i].admitted[a].key == states[i].admitted[b].key
    ensures states[i].admitted[a].generation <= states[i].admitted[b].generation
  {
    RunSafe(states, actions, i);
  }

  // ----- What decides whether the handlers run

  /** A delivery inside the gate sees no registration become or cease to be current. */
  lemma ReaderSeesNoChange(s: System, a: Action, t: Thread, reg: Registration)
    requires ReadersAgree(s) && WriterAgrees(s) && CanDo(s, a) && a.t != t && Reads(PcOf(s, t))
    ensures PcOf(Do(s, a), t) == PcOf(s, t)
    ensures IsCurrent(Do(s, a).registry, reg) <==> IsCurrent(s.registry, reg)
  {
    if a.Change? {
      assert false;
    }
  }

  ghost predicate Waits(states: seq<System>, i: nat, m: nat, t: Thread, pc: Pc)
    requires i < m < |states|
  {
    pc.Entered? && PcOf(states[m], t) == pc
    && (IsCurrent(states[m].registry, pc.reg) <==> IsCurrent(states[i].registry, pc.reg))
  }

  lemma {:induction false} WaitsUntil(states: seq<System>, actions: seq<Action>, i: nat, j: nat, t: Thread, pc: Pc)
    requires IsRun(states, actions) && i < j < |states|
    requires Waits(states, i, i + 1, t, pc) && forall m :: i < m < j ==> actions[m].t != t
    ensures Waits(states, i, j, t, pc)
    decreases j
  {
    if i + 1 < j {
      WaitsUntil(states, actions, i, j - 1, t, pc);
      RunSafe(states, actions, j - 1);
      assert StepAt(states, actions, j - 1);
      ReaderSeesNoChange(states[j - 1], actions[j - 1], t, pc.reg);
    }
  }

  /**
   * The handlers of a delivery run exactly when its registration was current on entry, the adapter
   * succeeds, and the event is unknown, carries the bound id, or starts an unbound session as expected.
   */
  lemma {:induction false} EntryDecides(states: seq<System>, actions: seq<Action>, i: nat, j: nat, t: Thread,
                                        reg: Registration, event: Event, adapterOk: bool)
    requires IsRun(states, actions) && i < j < |actions|
    requires actions[i] == Enter(t, reg, event, adapterOk) && actions[j] == AdmitEvent(t)
    requires forall m :: i < m < j ==> actions[m].t != t
    ensures PcOf(states[j + 1], t) == Handling(reg, event) <==>
            && IsCurrent(states[i].registry, reg) && adapterOk && reg.nonce in states[j].registry.registrations
            && var s := states[j].registry.registrations[reg.nonce].payload;
               || event.name == UnknownEvent
               || (event.observed.Some? && s.bound == event.observed)
               || (event.observed.Some? && s.bound == None && event.name == SessionStart
                   && (s.expected == None || s.expected == event.observed))
  {
    assert StepAt(states, actions, i);
    WaitsUntil(states, actions, i, j, t, Entered(reg, event, adapterOk));
    assert StepAt(states, actions, j);
    CodexLifetimes.DeliversExactly(states[j].registry, reg, event, adapterOk);
  }
}
