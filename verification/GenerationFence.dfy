/**
 * Threads around the Claude hook registry.  Registry changes hold the publication
 * gate and the ingress gate for writing, and release them in that order; a publisher
 * holds the publication gate for reading from its currency test to the end of its
 * body; HTTP ingress holds the ingress gate for reading; reductions hold only the
 * registry lock.  Each action is one uninterruptible section, and actions of different
 * threads interleave freely.
 */
module GenerationFence {
  import opened Common
  import opened RegistryCore
  import opened ClaudeRegistry

  type Thread = nat

  datatype Gate = Gate(readers: set<Thread>, writer: Option<Thread>)

  datatype Pc =
    | Idle
    | Entered(reg: Registration)          // publish_if_current, gate held, not yet tested
    | Publishing(reg: Registration)       // inside its body
    | WeakEntered(key: Key, generation: nat)  // publish_if_not_superseded
    | WeakPublishing(key: Key, generation: nat)
    | Leaving
    | HasPublication(op: Step)            // a writer with the first gate
    | HasBoth(op: Step)
    | Changed
    | HasIngress                          // publication released, ingress not yet
    | IngressEntered(op: Step)
    | IngressDone

  datatype System = System(
    registry: State,
    publication: Gate,
    ingress: Gate,
    threads: map<Thread, Pc>,
    log: seq<Registration>)

  const START: System := System(Empty(), Gate({}, None), Gate({}, None), map[], [])

  function PcOf(s: System, t: Thread): Pc {
    if t in s.threads then s.threads[t] else Idle
  }

  function WithPc(s: System, t: Thread, pc: Pc): System {
    s.(threads := s.threads[t := pc])
  }

  predicate NotSuperseded(r: State, key: Key, generation: nat) {
    key in r.latest ==> r.latest[key] <= generation
  }

  /** The changes that take both gates for writing. */
  predicate TakesGates(op: Step) {
    op.DoRegister? || op.DoUnregister? || op.DoUnregisterRegistration? || op.DoCleanup? || op.DoAdmit?
  }

  datatype Action =
    | EnterPublish(t: Thread, reg: Registration)
    | TestCurrent(t: Thread)
    | Emit(t: Thread)
    | EnterWeak(t: Thread, key: Key, generation: nat)
    | TestWeak(t: Thread)
    | Leave(t: Thread)
    | LockPublication(t: Thread, op: Step)
    | LockIngress(t: Thread)
    | Change(t: Thread)
    | UnlockPublication(t: Thread)
    | UnlockIngress(t: Thread)
    | EnterIngress(t: Thread, op: Step)
    | AdmitEvent(t: Thread)
    | LeaveIngress(t: Thread)
    | LockedUpdate(op: Step)

  predicate CanDo(limits: Limits, s: System, a: Action) {
    match a
    case EnterPublish(t, _) => PcOf(s, t).Idle? && s.publication.writer.None?
    case TestCurrent(t) => PcOf(s, t).Entered?
    case Emit(t) => PcOf(s, t).Publishing?
    case EnterWeak(t, _, _) => PcOf(s, t).Idle? && s.publication.writer.None?
    case TestWeak(t) => PcOf(s, t).WeakEntered?
    case Leave(t) => PcOf(s, t).Publishing? || PcOf(s, t).WeakPublishing? || PcOf(s, t).Leaving?
    case LockPublication(t, op) =>
      PcOf(s, t).Idle? && TakesGates(op) && s.publication.writer.None? && s.publication.readers == {}
    case LockIngress(t) => PcOf(s, t).HasPublication? && s.ingress.writer.None? && s.ingress.readers == {}
    case Change(t) => PcOf(s, t).HasBoth? && Enabled(s.registry, limits, PcOf(s, t).op)
    case UnlockPublication(t) => PcOf(s, t).Changed?
    case UnlockIngress(t) => PcOf(s, t).HasIngress?
    case EnterIngress(t, op) => PcOf(s, t).Idle? && op.DoIngress? && s.ingress.writer.None?
    case AdmitEvent(t) => PcOf(s, t).IngressEntered?
    case LeaveIngress(t) => PcOf(s, t).IngressDone?
    case LockedUpdate(op) => op.DoReduce? || op.DoBind?
  }

  function Do(limits: Limits, s: System, a: Action): System
    requires CanDo(limits, s, a)
  {
    match a
    case EnterPublish(t, reg) =>
      WithPc(s, t, Entered(reg)).(publication := s.publication.(readers := s.publication.readers + {t}))
    case TestCurrent(t) =>
      var reg := PcOf(s, t).reg;
      WithPc(s, t, if IsCurrent(s.registry, reg) then Publishing(reg) else Leaving)
    case Emit(t) => s.(log := s.log + [PcOf(s, t).reg])
    case EnterWeak(t, key, generation) =>
      WithPc(s, t, WeakEntered(key, generation)).(publication := s.publication.(readers := s.publication.readers + {t}))
    case TestWeak(t) =>
      var pc := PcOf(s, t);
      WithPc(s, t, if NotSuperseded(s.registry, pc.key, pc.generation) then WeakPublishing(pc.key, pc.generation) else Leaving)
    case Leave(t) =>
      WithPc(s, t, Idle).(publication := s.publication.(readers := s.publication.readers - {t}))
    case LockPublication(t, op) =>
      WithPc(s, t, HasPublication(op)).(publication := s.publication.(writer := Some(t)))
    case LockIngress(t) =>
      WithPc(s, t, HasBoth(PcOf(s, t).op)).(ingress := s.ingress.(writer := Some(t)))
    case Change(t) =>
      WithPc(s, t, Changed).(registry := Apply(s.registry, limits, PcOf(s, t).op))
    case UnlockPublication(t) => WithPc(s, t, HasIngress).(publication := s.publication.(writer := None))
    case UnlockIngress(t) => WithPc(s, t, Idle).(ingress := s.ingress.(writer := None))
    case EnterIngress(t, op) =>
      WithPc(s, t, IngressEntered(op)).(ingress := s.ingress.(readers := s.ingress.readers + {t}))
    case AdmitEvent(t) =>
      WithPc(s, t, IngressDone).(registry := Apply(s.registry, limits, PcOf(s, t).op))
    case LeaveIngress(t) =>
      WithPc(s, t, Idle).(ingress := s.ingress.(readers := s.ingress.readers - {t}))
    case LockedUpdate(op) => s.(registry := Apply(s.registry, limits, op))
  }

  ghost predicate StepAt(limits: Limits, states: seq<System>, actions: seq<Action>, i: nat)
    requires i < |actions| && |states| == |actions| + 1
  {
    CanDo(limits, states[i], actions[i]) && states[i + 1] == Do(limits, states[i], actions[i])
  }

  ghost predicate IsRun(limits: Limits, states: seq<System>, actions: seq<Action>) {
    && |states| == |actions| + 1 && states[0] == START
    && forall i :: 0 <= i < |actions| ==> StepAt(limits, states, actions, i)
  }

  // ----- The invariant

  predicate ReadsPublication(pc: Pc) {
    pc.Entered? || pc.Publishing? || pc.WeakEntered? || pc.WeakPublishing? || pc.Leaving?
  }

  predicate WritesPublication(pc: Pc) { pc.HasPublication? || pc.HasBoth? || pc.Changed? }

  ghost predicate ReadersAgree(s: System) {
    forall t: Thread :: t in s.publication.readers <==> ReadsPublication(PcOf(s, t))
  }

  ghost predicate WriterAgrees(s: System) {
    && (forall t: Thread :: s.publication.writer == Some(t) <==> WritesPublication(PcOf(s, t)))
    && (s.publication.writer.Some? ==> s.publication.readers == {})
  }

  /** What a thread holds the gates for. */
  predicate OpFits(pc: Pc) {
    (pc.HasPublication? || pc.HasBoth? ==> TakesGates(pc.op)) && (pc.IngressEntered? ==> pc.op.DoIngress?)
  }

  ghost predicate OpsAgree(s: System) {
    forall t: Thread :: OpFits(PcOf(s, t))
  }

  /** The gate excludes writers from readers, and the program counters agree with it. */
  ghost predicate GateHeld(s: System) {
    ReadersAgree(s) && WriterAgrees(s) && OpsAgree(s)
  }

  /** Every body that runs is allowed to. */
  ghost predicate BodiesCurrent(s: System) {
    && (forall t: Thread :: PcOf(s, t).Publishing? ==> IsCurrent(s.registry, PcOf(s, t).reg))
    && (forall t: Thread :: PcOf(s, t).WeakPublishing? ==>
          NotSuperseded(s.registry, PcOf(s, t).key, PcOf(s, t).generation))
  }

  // ----- How a registry change moves the index

  lemma InsertIntoMoves(room: State, key: Key, session: Session, nonce: Option<Nonce>)
    ensures IndexMoves(room, InsertInto(room, key, session, nonce).0)
  {
  }

  lemma StepMoves(limits: Limits, r: State, op: Step)
    ensures IndexMoves(r, Apply(r, limits, op))
  {
    if op.DoRegister? {
      var d, room := RemoveExpired(r, op.now), BeforeInsert(r, limits, op.now);
      var session := FreshSession(limits, op.sealed, op.carried, op.now);
      MakeRoomMoves(d, ByKey, Capacity(limits));
      IndexMovesTwice(r, d, room);
      InsertIntoMoves(room, op.key, session, op.nonce);
      IndexMovesTwice(r, room, InsertInto(room, op.key, session, op.nonce).0);
    }
  }

  /** Reductions, bindings and ingress leave the index and the set of registrations alone. */
  lemma UngatedKeepsShape(limits: Limits, r: State, op: Step)
    requires op.DoIngress? || op.DoReduce? || op.DoBind?
    ensures SameShape(r, Apply(r, limits, op))
  {
    PayloadStep(r, limits, op);
    var t := Apply(r, limits, op);
    if t != r {
      var n, p :| n in r.registrations && t == SetPayload(r, n, p);
      SetPayloadShape(r, n, p);
    }
  }

  // ----- Every action keeps the invariant

  lemma DoKeepsReaders(limits: Limits, s: System, a: Action)
    requires ReadersAgree(s) && CanDo(limits, s, a)
    ensures ReadersAgree(Do(limits, s, a))
  {
  }

  lemma DoKeepsWriter(limits: Limits, s: System, a: Action)
    requires ReadersAgree(s) && WriterAgrees(s) && CanDo(limits, s, a)
    ensures WriterAgrees(Do(limits, s, a))
  {
  }

  lemma DoKeepsOps(limits: Limits, s: System, a: Action)
    requires OpsAgree(s) && CanDo(limits, s, a)
    ensures OpsAgree(Do(limits, s, a))
  {
    forall t: Thread
      ensures OpFits(PcOf(Do(limits, s, a), t))
    {
      assert OpFits(PcOf(s, t));
    }
  }

  lemma DoKeepsGate(limits: Limits, s: System, a: Action)
    requires GateHeld(s) && CanDo(limits, s, a)
    ensures GateHeld(Do(limits, s, a))
  {
    DoKeepsReaders(limits, s, a);
    DoKeepsWriter(limits, s, a);
    DoKeepsOps(limits, s, a);
  }

  /** A registry change happens while no body runs. */
  lemma NoBodyDuringChange(s: System, writer: Thread, t: Thread)
    requires GateHeld(s) && WritesPublication(PcOf(s, writer))
    ensures !ReadsPublication(PcOf(s, t))
  {
    assert s.publication.writer == Some(writer);
    assert t !in s.publication.readers;
  }

  lemma SameShapeBodies(s: System, u: System)
    requires BodiesCurrent(s) && SameShape(s.registry, u.registry)
    requires forall t: Thread :: PcOf(u, t).Publishing? || PcOf(u, t).WeakPublishing? ==> PcOf(u, t) == PcOf(s, t)
    ensures BodiesCurrent(u)
  {
    forall t: Thread | PcOf(u, t).Publishing?
      ensures IsCurrent(u.registry, PcOf(u, t).reg)
    {
      SameShapeCurrent(s.registry, u.registry, PcOf(s, t).reg);
    }
  }

  lemma DoKeepsBodies(limits: Limits, s: System, a: Action)
    requires GateHeld(s) && BodiesCurrent(s) && CanDo(limits, s, a)
    ensures BodiesCurrent(Do(limits, s, a))
  {
    var u := Do(limits, s, a);
    if a.Change? {
      forall t: Thread
        ensures !PcOf(u, t).Publishing? && !PcOf(u, t).WeakPublishing?
      {
        NoBodyDuringChange(s, a.t, t);
      }
    } else if a.AdmitEvent? || a.LockedUpdate? {
      UngatedKeepsShape(limits, s.registry, if a.AdmitEvent? then PcOf(s, a.t).op else a.op);
      SameShapeBodies(s, u);
    } else {
      forall t: Thread
        ensures PcOf(u, t).Publishing? ==> IsCurrent(u.registry, PcOf(u, t).reg)
        ensures PcOf(u, t).WeakPublishing? ==> NotSuperseded(u.registry, PcOf(u, t).key, PcOf(u, t).generation)
      {
        assert u.registry == s.registry && (t == a.t || PcOf(u, t) == PcOf(s, t));
      }
    }
  }

  lemma DoKeepsRegistry(limits: Limits, s: System, a: Action)
    requires Valid(s.registry, ByKey, Capacity(limits)) && GateHeld(s) && CanDo(limits, s, a)
    ensures Valid(Do(limits, s, a).registry, ByKey, Capacity(limits))
  {
    if a.Change? {
      StepValid(s.registry, limits, PcOf(s, a.t).op);
    } else if a.AdmitEvent? || a.LockedUpdate? {
      var op := if a.AdmitEvent? then PcOf(s, a.t).op else a.op;
      UngatedKeepsShape(limits, s.registry, op);
      SameShapeValid(s.registry, Apply(s.registry, limits, op), ByKey, Capacity(limits));
    }
  }

  lemma DoKeepsLog(limits: Limits, s: System, a: Action)
    requires Bounded(s.registry) && BodiesCurrent(s) && LogBehind(s.log, s.registry) && LogOrdered(s.log)
    requires CanDo(limits, s, a)
    ensures var u := Do(limits, s, a); LogBehind(u.log, u.registry) && LogOrdered(u.log)
  {
    if a.Emit? {
      PublishKeepsLog(s.log, s.registry, PcOf(s, a.t).reg);
    } else {
      DoMoves(limits, s, a);
      MovedLogBehind(s.log, s.registry, Do(limits, s, a).registry);
    }
  }

  ghost predicate Safe(limits: Limits, s: System) {
    && Valid(s.registry, ByKey, Capacity(limits)) && GateHeld(s) && BodiesCurrent(s)
    && LogBehind(s.log, s.registry) && LogOrdered(s.log)
  }

  lemma DoKeepsSafe(limits: Limits, s: System, a: Action)
    requires Safe(limits, s) && CanDo(limits, s, a)
    ensures Safe(limits, Do(limits, s, a))
  {
    DoKeepsRegistry(limits, s, a);
    DoKeepsGate(limits, s, a);
    DoKeepsBodies(limits, s, a);
    DoKeepsLog(limits, s, a);
  }

  lemma StartSafe(limits: Limits)
    ensures Safe(limits, START)
  {
  }

  lemma StepSafe(limits: Limits, states: seq<System>, actions: seq<Action>, i: nat)
    requires IsRun(limits, states, actions) && 0 < i < |states| && Safe(limits, states[i - 1])
    ensures Safe(limits, states[i])
  {
    assert StepAt(limits, states, actions, i - 1);
    DoKeepsSafe(limits, states[i - 1], actions[i - 1]);
  }

  /** Every reachable state of every interleaving is safe. */
  lemma {:induction false} RunSafe(limits: Limits, states: seq<System>, actions: seq<Action>, i: nat)
    requires IsRun(limits, states, actions) && i < |states|
    ensures Safe(limits, states[i])
  {
    if i == 0 {
      StartSafe(limits);
    } else {
      RunSafe(limits, states, actions, i - 1);
      StepSafe(limits, states, actions, i);
    }
  }

  // ----- The fencing theorems

  /** In every interleaving a `publish_if_current` body runs only while its registration is current. */
  lemma PublishesOnlyWhileCurrent(limits: Limits, states: seq<System>, actions: seq<Action>, i: nat, t: Thread)
    requires IsRun(limits, states, actions) && i < |states| && PcOf(states[i], t).Publishing?
    ensures IsCurrent(states[i].registry, PcOf(states[i], t).reg)
  {
    RunSafe(limits, states, actions, i);
  }

  /** So the generations published for one session key never decrease. */
  lemma PublishedGenerationsNeverDecrease(limits: Limits, states: seq<System>, actions: seq<Action>,
                                          i: nat, a: nat, b: nat)
    requires IsRun(limits, states, actions) && i < |states| && a < b < |states[i].log|
    requires states[i].log[a].key == states[i].log[b].key
    ensures states[i].log[a].generation <= states[i].log[b].generation
  {
    RunSafe(limits, states, actions, i);
  }

  /** A body of the weaker gate runs while no newer generation of its key is indexed. */
  lemma WeakBodyNotSuperseded(limits: Limits, states: seq<System>, actions: seq<Action>, i: nat, t: Thread)
    requires IsRun(limits, states, actions) && i < |states| && PcOf(states[i], t).WeakPublishing?
    ensures var pc := PcOf(states[i], t); NotSuperseded(states[i].registry, pc.key, pc.generation)
  {
    RunSafe(limits, states, actions, i);
  }

  // ----- What the weaker gate fences, exactly

  lemma DoMoves(limits: Limits, s: System, a: Action)
    requires CanDo(limits, s, a)
    ensures IndexMoves(s.registry, Do(limits, s, a).registry)
  {
    if a.Change? || a.AdmitEvent? {
      StepMoves(limits, s.registry, PcOf(s, a.t).op);
    } else if a.LockedUpdate? {
      StepMoves(limits, s.registry, a.op);
    }
  }

  lemma RunMoves(limits: Limits, states: seq<System>, actions: seq<Action>, i: nat, j: nat)
    requires IsRun(limits, states, actions) && i <= j < |states|
    ensures IndexMoves(states[i].registry, states[j].registry)
  {
    var r := states[i].registry;
    forall m | i <= m < j && IndexMoves(r, states[m].registry)
      ensures IndexMoves(r, states[m + 1].registry)
    {
      assert StepAt(limits, states, actions, m);
      DoMoves(limits, states[m], actions[m]);
      IndexMovesTwice(r, states[m].registry, states[m + 1].registry);
    }
    Chain(i, j, (m: nat) => m < |states| && IndexMoves(r, states[m].registry));
  }

  /** A newer generation of the key was indexed. */
  predicate Superseded(s: System, key: Key, generation: nat) {
    key in s.registry.latest && generation < s.registry.latest[key]
  }

  /**
   * Once a generation was superseded, the test of the weaker gate passes it in a later state of any
   * interleaving exactly when no registration of the key is left.
   */
  lemma WeakGateExact(limits: Limits, states: seq<System>, actions: seq<Action>, i: nat, j: nat,
                      key: Key, generation: nat)
    requires IsRun(limits, states, actions) && i <= j < |states| && Superseded(states[i], key, generation)
    ensures NotSuperseded(states[j].registry, key, generation) <==> !KeyUsed(states[j].registry.registrations, key)
  {
    RunMoves(limits, states, actions, i, j);
    RunSafe(limits, states, actions, i);
    RunSafe(limits, states, actions, j);
    UsedIsIndexed(limits, states[j].registry, key);
  }

  lemma UsedIsIndexed(limits: Limits, r: State, key: Key)
    requires Valid(r, ByKey, Capacity(limits))
    ensures key in r.latest <==> KeyUsed(r.registrations, key)
  {
  }

  /** So a publisher that tests a superseded generation starts its body exactly when the key is unused. */
  lemma WeakTestExact(limits: Limits, states: seq<System>, actions: seq<Action>, i: nat, j: nat, t: Thread)
    requires IsRun(limits, states, actions) && i <= j < |actions|
    requires actions[j] == TestWeak(t)
    requires var pc := PcOf(states[j], t); pc.WeakEntered? && Superseded(states[i], pc.key, pc.generation)
    ensures PcOf(states[j + 1], t).WeakPublishing?
            <==> !KeyUsed(states[j].registry.registrations, PcOf(states[j], t).key)
  {
    var pc := PcOf(states[j], t);
    assert StepAt(limits, states, actions, j);
    WeakGateExact(limits, states, actions, i, j, pc.key, pc.generation);
  }

  /** And as long as a body of a superseded generation runs, its key stays unused. */
  lemma WeakBodyOnlyWhenUnused(limits: Limits, states: seq<System>, actions: seq<Action>, i: nat, j: nat, t: Thread)
    requires IsRun(limits, states, actions) && i <= j < |states|
    requires var pc := PcOf(states[j], t); pc.WeakPublishing? && Superseded(states[i], pc.key, pc.generation)
    ensures !KeyUsed(states[j].registry.registrations, PcOf(states[j], t).key)
  {
    var pc := PcOf(states[j], t);
    WeakBodyNotSuperseded(limits, states, actions, j, t);
    WeakGateExact(limits, states, actions, i, j, pc.key, pc.generation);
  }

  /** So the generations of two weak bodies of one key decrease only where the key is unused. */
  lemma WeakBodiesDecreaseOnlyWhenUnused(limits: Limits, states: seq<System>, actions: seq<Action>,
                                         issued: nat, i: nat, j: nat, t: Thread, u: Thread)
    requires IsRun(limits, states, actions) && issued <= i <= j < |states|
    requires PcOf(states[i], t).WeakPublishing? && PcOf(states[j], u).WeakPublishing?
    requires PcOf(states[i], t).key == PcOf(states[j], u).key
    requires var newer := PcOf(states[i], t);
             newer.key in states[issued].registry.latest && states[issued].registry.latest[newer.key] == newer.generation
    ensures || PcOf(states[i], t).generation <= PcOf(states[j], u).generation
            || !KeyUsed(states[j].registry.registrations, PcOf(states[j], u).key)
  {
    if PcOf(states[j], u).generation < PcOf(states[i], t).generation {
      WeakBodyOnlyWhenUnused(limits, states, actions, issued, j, u);
    }
  }

  /** For instance, an older generation passes after a newer one once both are unregistered. */
  lemma WeakGateForgets(limits: Limits, key: Key, sealed: Option<Sealed>, first: Nonce, second: Nonce)
    requires limits.maxRegistrations >= 2 && first != second
    ensures var one := Register(Empty(), limits, key, sealed, None, 0, Some(first)).0;
            var two := Register(one, limits, key, sealed, None, 0, Some(second)).0;
            var none := Unregister(Unregister(two, second), first);
            && !NotSuperseded(two, key, 1) && NotSuperseded(two, key, 2)
            && NotSuperseded(none, key, 1)
            && (forall reg: Registration :: reg.key == key ==> !IsCurrent(none, reg))
  {
    RegisteredTwice(limits, key, sealed, first, second);
    var one := Register(Empty(), limits, key, sealed, None, 0, Some(first)).0;
    UnregisteredTwice(Register(one, limits, key, sealed, None, 0, Some(second)).0, key, first, second);
  }

  lemma RegisteredTwice(limits: Limits, key: Key, sealed: Option<Sealed>, first: Nonce, second: Nonce)
    requires limits.maxRegistrations >= 2 && first != second
    ensures var one := Register(Empty(), limits, key, sealed, None, 0, Some(first)).0;
            var two := Register(one, limits, key, sealed, None, 0, Some(second)).0;
            two.latest == map[key := 2] && two.registrations.Keys == {first, second}
  {
    var one := Register(Empty(), limits, key, sealed, None, 0, Some(first)).0;
    assert one.latest == map[key := 1] && one.registrations.Keys == {first};
    assert ExpiredNonces(one, 0) == {};
    DropNothingOf(one);
    assert BeforeInsert(one, limits, 0) == one;
  }

  lemma UnregisteredTwice(two: State, key: Key, first: Nonce, second: Nonce)
    requires two.registrations.Keys == {first, second}
    ensures var none := Unregister(Unregister(two, second), first);
            NotSuperseded(none, key, 1) && forall reg: Registration :: !IsCurrent(none, reg)
  {
    var none := Unregister(Unregister(two, second), first);
    assert none.registrations.Keys == {};
    assert !KeyUsed(none.registrations, key);
  }

  lemma DropNothingOf(r: State)
    requires AllUsed(r)
    ensures Drop(r, ByKey, {}) == r
  {
    DropNothing(r);
  }

  // ----- What decides whether a body runs

  predicate ActsFor(a: Action, t: Thread) { !a.LockedUpdate? && a.t == t }

  /** A thread inside the publication gate sees no registration become or cease to be current. */
  lemma ReaderSeesNoChange(limits: Limits, s: System, a: Action, t: Thread, reg: Registration)
    requires GateHeld(s) && CanDo(limits, s, a) && !ActsFor(a, t) && ReadsPublication(PcOf(s, t))
    ensures PcOf(Do(limits, s, a), t) == PcOf(s, t)
    ensures IsCurrent(Do(limits, s, a).registry, reg) <==> IsCurrent(s.registry, reg)
    ensures Do(limits, s, a).registry.latest == s.registry.latest
  {
    if a.Change? {
      NoBodyDuringChange(s, a.t, t);
    } else if a.AdmitEvent? || a.LockedUpdate? {
      var op := if a.AdmitEvent? then PcOf(s, a.t).op else a.op;
      assert OpFits(PcOf(s, if a.AdmitEvent? then a.t else t));
      UngatedKeepsShape(limits, s.registry, op);
      SameShapeCurrent(s.registry, Apply(s.registry, limits, op), reg);
    }
  }

  /** Since its entry at `i` the thread has not moved, and neither has what it is going to test. */
  ghost predicate Waits(states: seq<System>, i: nat, m: nat, t: Thread, pc: Pc, reg: Registration)
    requires i < m < |states|
  {
    && PcOf(states[m], t) == pc && (IsCurrent(states[m].registry, reg) <==> IsCurrent(states[i].registry, reg))
    && states[m].registry.latest == states[i].registry.latest
  }

  lemma StepWaits(limits: Limits, states: seq<System>, actions: seq<Action>, i: nat, m: nat, t: Thread, pc: Pc, reg: Registration)
    requires |states| == |actions| + 1 && i < m < |actions| && StepAt(limits, states, actions, m) && GateHeld(states[m])
    requires ReadsPublication(pc) && Waits(states, i, m, t, pc, reg) && !ActsFor(actions[m], t)
    ensures Waits(states, i, m + 1, t, pc, reg)
  {
    ReaderSeesNoChange(limits, states[m], actions[m], t, reg);
  }

  lemma WaitsUntil(limits: Limits, states: seq<System>, actions: seq<Action>, i: nat, j: nat, t: Thread, pc: Pc, reg: Registration)
    requires IsRun(limits, states, actions) && i < j < |states| && ReadsPublication(pc)
    requires Waits(states, i, i + 1, t, pc, reg) && forall m :: i < m < j ==> !ActsFor(actions[m], t)
    ensures Waits(states, i, j, t, pc, reg)
  {
    forall m | i + 1 <= m < j && Waits(states, i, m, t, pc, reg)
      ensures Waits(states, i, m + 1, t, pc, reg)
    {
      RunSafe(limits, states, actions, m);
      assert StepAt(limits, states, actions, m);
      StepWaits(limits, states, actions, i, m, t, pc, reg);
    }
    Chain(i + 1, j, (m: nat) => i < m < |states| && Waits(states, i, m, t, pc, reg));
  }

  /** The body of `publish_if_current` runs exactly when the registration was current on entry. */
  lemma {:induction false} EntryDecides(limits: Limits, states: seq<System>, actions: seq<Action>, i: nat, j: nat, t: Thread, reg: Registration)
    requires IsRun(limits, states, actions) && i < j < |actions|
    requires actions[i] == EnterPublish(t, reg) && actions[j] == TestCurrent(t)
    requires forall m :: i < m < j ==> !ActsFor(actions[m], t)
    ensures PcOf(states[j + 1], t) == if IsCurrent(states[i].registry, reg) then Publishing(reg) else Leaving
  {
    assert StepAt(limits, states, actions, i);
    WaitsUntil(limits, states, actions, i, j, t, Entered(reg), reg);
    assert StepAt(limits, states, actions, j);
  }

  /** The body of `publish_if_not_superseded` runs exactly when no newer generation was indexed on entry. */
  lemma {:induction false} WeakEntryDecides(limits: Limits, states: seq<System>, actions: seq<Action>, i: nat, j: nat, t: Thread, key: Key, generation: nat)
    requires IsRun(limits, states, actions) && i < j < |actions|
    requires actions[i] == EnterWeak(t, key, generation) && actions[j] == TestWeak(t)
    requires forall m :: i < m < j ==> !ActsFor(actions[m], t)
    ensures PcOf(states[j + 1], t) ==
            if key in states[i].registry.latest && states[i].registry.latest[key] > generation then Leaving
            else WeakPublishing(key, generation)
  {
    assert StepAt(limits, states, actions, i);
    WaitsUntil(limits, states, actions, i, j, t, WeakEntered(key, generation), Registration("", key, generation));
    assert StepAt(limits, states, actions, j);
  }
}
