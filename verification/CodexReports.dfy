/**
 * The report of an exact-resume mismatch, which the Codex registry makes after it has released
 * the publication gate: when it can reach a handler whose registration has ended.
 */
module CodexReports {
  import opened Common
  import opened RegistryCore
  import opened CodexRegistry
  import opened CodexFence

  /** The registration is current, and the event names another session than the one it expects. */
  predicate Mismatches(r: State, reg: Registration, event: Event) {
    IsCurrent(r, reg) && IdentityAdmission(r.registrations[reg.nonce].payload, event) == ExactResumeMismatch
  }

  /** The thread makes no further delivery. */
  predicate NoReentry(actions: seq<Action>, t: Thread) {
    forall i :: 0 <= i < |actions| ==> !(actions[i].Enter? && actions[i].t == t)
  }

  /** A handler of the thread's delivery runs although its registration is not current. */
  predicate CallsEnded(s: System, t: Thread, reg: Registration) {
    var pc := PcOf(s, t);
    (pc.Handling? || pc.Reporting?) && pc.reg == reg && !IsCurrent(s.registry, reg)
  }

  ghost predicate CanCallEnded(s: System, t: Thread, reg: Registration) {
    exists states, actions ::
      Continues(s, states, actions) && NoReentry(actions, t) && CallsEnded(states[|actions|], t, reg)
  }

  // ----- Without a mismatch there is no report

  lemma ResumeFailedExactly(r: State, reg: Registration, event: Event, adapterOk: bool)
    ensures Deliver(r, reg, event, adapterOk).1 == ResumeFailed <==> Mismatches(r, reg, event)
  {
  }

  /** A delivery makes no other delivery a mismatch: what is bound stays bound. */
  lemma DeliverMakesNoMismatch(r: State, reg: Registration, event: Event, adapterOk: bool,
                               other: Registration, carried: Event)
    requires !Mismatches(r, other, carried)
    ensures !Mismatches(Deliver(r, reg, event, adapterOk).0, other, carried)
  {
  }

  /** The thread reports nothing and is not about to. */
  predicate QuietPc(r: State, pc: Pc) {
    !pc.Failing? && !pc.Reporting? && (pc.Entered? ==> !Mismatches(r, pc.reg, pc.event))
  }

  ghost predicate Quiet(s: System, t: Thread) {
    Safe(s) && QuietPc(s.registry, PcOf(s, t))
  }

  lemma AdmitKeepsQuiet(s: System, a: Action, t: Thread)
    requires Quiet(s, t) && a.AdmitEvent? && CanDo(s, a)
    ensures QuietPc(Do(s, a).registry, PcOf(Do(s, a), t))
  {
    var pc := PcOf(s, a.t);
    if a.t == t {
      ResumeFailedExactly(s.registry, pc.reg, pc.event, pc.adapterOk);
    } else if PcOf(s, t).Entered? {
      DeliverMakesNoMismatch(s.registry, pc.reg, pc.event, pc.adapterOk, PcOf(s, t).reg, PcOf(s, t).event);
    }
  }

  /** While a delivery is inside the gate, no writer changes the registry. */
  lemma ChangeKeepsQuiet(s: System, a: Action, t: Thread)
    requires Quiet(s, t) && a.Change? && CanDo(s, a)
    ensures QuietPc(Do(s, a).registry, PcOf(Do(s, a), t))
  {
    assert s.gate.writer == Some(a.t);
    assert t !in s.gate.readers;
  }

  lemma DoKeepsQuiet(s: System, a: Action, t: Thread)
    requires Quiet(s, t) && CanDo(s, a) && !(a.Enter? && a.t == t)
    ensures Quiet(Do(s, a), t)
  {
    DoKeepsSafe(s, a);
    if a.AdmitEvent? {
      AdmitKeepsQuiet(s, a, t);
    } else if a.Change? {
      ChangeKeepsQuiet(s, a, t);
    }
  }

  lemma {:induction false} StaysQuiet(s: System, states: seq<System>, actions: seq<Action>, t: Thread, i: nat)
    requires Continues(s, states, actions) && NoReentry(actions, t) && Quiet(s, t) && i < |states|
    ensures Quiet(states[i], t)
  {
    if i > 0 {
      StaysQuiet(s, states, actions, t, i - 1);
      StepQuiet(s, states, actions, t, i);
    }
  }

  lemma StepQuiet(s: System, states: seq<System>, actions: seq<Action>, t: Thread, i: nat)
    requires Continues(s, states, actions) && NoReentry(actions, t) && 0 < i < |states| && Quiet(states[i - 1], t)
    ensures Quiet(states[i], t)
  {
    assert StepAt(states, actions, i - 1);
    DoKeepsQuiet(states[i - 1], actions[i - 1], t);
  }

  lemma QuietCallsNone(s: System, t: Thread, reg: Registration)
    requires Quiet(s, t)
    ensures !CallsEnded(s, t, reg)
  {
    assert PcFits(s.registry, PcOf(s, t));
  }

  // ----- With one, the registration can end before the report

  datatype Trace = Trace(states: seq<System>, actions: seq<Action>)

  /** A trace from `s` in which the thread makes no further delivery. */
  ghost predicate Follows(s: System, trace: Trace, t: Thread) {
    Continues(s, trace.states, trace.actions) && NoReentry(trace.actions, t)
  }

  function Last(trace: Trace): System
    requires |trace.states| == |trace.actions| + 1
  {
    trace.states[|trace.actions|]
  }

  lemma Append(s: System, trace: Trace, a: Action) returns (more: Trace)
    requires Continues(s, trace.states, trace.actions) && CanDo(Last(trace), a)
    ensures Continues(s, more.states, more.actions)
    ensures more.actions == trace.actions + [a] && Last(more) == Do(Last(trace), a)
  {
    more := Trace(trace.states + [Do(Last(trace), a)], trace.actions + [a]);
    forall i | 0 <= i < |more.actions|
      ensures StepAt(more.states, more.actions, i)
    {
      if i < |trace.actions| {
        assert StepAt(trace.states, trace.actions, i);
      }
    }
  }

  lemma Extend(s: System, trace: Trace, t: Thread, a: Action) returns (more: Trace)
    requires Follows(s, trace, t) && Safe(Last(trace)) && CanDo(Last(trace), a) && !(a.Enter? && a.t == t)
    ensures Follows(s, more, t) && Last(more) == Do(Last(trace), a) && Safe(Last(more))
  {
    more := Append(s, trace, a);
    DoKeepsSafe(Last(trace), a);
  }

  /** A state in which the thread is reporting and no writer is at work. */
  predicate Reported(s: System, t: Thread, reg: Registration) {
    PcOf(s, t).Reporting? && PcOf(s, t).reg == reg && s.gate.writer.None?
  }

  /** Another reader can always go on and leave. */
  lemma ReaderLeaves(s: System, trace: Trace, t: Thread, reg: Registration, u: Thread) returns (more: Trace)
    requires Follows(s, trace, t) && Safe(Last(trace)) && Reported(Last(trace), t, reg)
    requires u in Last(trace).gate.readers
    ensures Follows(s, more, t) && Safe(Last(more)) && Reported(Last(more), t, reg)
    ensures Last(more).gate.readers == Last(trace).gate.readers - {u}
  {
    more := trace;
    assert Reads(PcOf(Last(more), u));
    if PcOf(Last(more), u).Entered? {
      more := Extend(s, more, t, AdmitEvent(u));
    }
    if PcOf(Last(more), u).Failing? {
      more := Extend(s, more, t, Release(u));
    } else {
      more := Extend(s, more, t, Leave(u));
    }
  }

  lemma {:induction false} ReadersLeave(s: System, trace: Trace, t: Thread, reg: Registration) returns (more: Trace)
    requires Follows(s, trace, t) && Safe(Last(trace)) && Reported(Last(trace), t, reg)
    ensures Follows(s, more, t) && Safe(Last(more)) && Reported(Last(more), t, reg)
    ensures Last(more).gate.readers == {}
    decreases |Last(trace).gate.readers|
  {
    more := trace;
    if u :| u in Last(trace).gate.readers {
      more := ReaderLeaves(s, trace, t, reg, u);
      more := ReadersLeave(s, more, t, reg);
    }
  }

  lemma {:induction false} FreshThread(threads: set<Thread>) returns (u: Thread)
    ensures forall t :: t in threads ==> t < u
    decreases threads
  {
    u := 0;
    if x :| x in threads {
      var above := FreshThread(threads - {x});
      u := if above <= x then x + 1 else above;
      forall t | t in threads
        ensures t < u
      {
        assert t == x || t in threads - {x};
      }
    }
  }

  /** A thread that was idle unregisters the registration. */
  lemma Unregisters(s: System, trace: Trace, t: Thread, reg: Registration) returns (more: Trace)
    requires Follows(s, trace, t) && Safe(Last(trace)) && Reported(Last(trace), t, reg) && Last(trace).gate.readers == {}
    ensures Follows(s, more, t) && CallsEnded(Last(more), t, reg)
  {
    var u := FreshThread(Last(trace).threads.Keys + {t});
    assert PcOf(Last(trace), u).Idle? && u != t;
    more := Extend(s, trace, t, Lock(u, DoUnregister(reg.nonce)));
    more := Extend(s, more, t, Change(u));
  }

  lemma MismatchReports(s: System, t: Thread) returns (more: Trace)
    requires Safe(s) && PcOf(s, t).Entered? && Mismatches(s.registry, PcOf(s, t).reg, PcOf(s, t).event)
    ensures Follows(s, more, t) && Safe(Last(more)) && Reported(Last(more), t, PcOf(s, t).reg)
  {
    var pc := PcOf(s, t);
    ResumeFailedExactly(s.registry, pc.reg, pc.event, pc.adapterOk);
    assert t in s.gate.readers;
    more := Extend(s, Trace([s], []), t, AdmitEvent(t));
    more := Extend(s, more, t, Release(t));
  }

  /**
   * From a reachable state in which a delivery has entered, some continuation calls its handler
   * while its registration is not current, exactly when the registration is current now and the
   * delivery is an exact-resume mismatch.
   */
  lemma EndedCallExactly(states: seq<System>, actions: seq<Action>, i: nat, t: Thread)
    requires CodexFence.IsRun(states, actions) && i < |states| && PcOf(states[i], t).Entered?
    ensures var pc := PcOf(states[i], t);
            CanCallEnded(states[i], t, pc.reg) <==> Mismatches(states[i].registry, pc.reg, pc.event)
  {
    var s, pc := states[i], PcOf(states[i], t);
    RunSafe(states, actions, i);
    if Mismatches(s.registry, pc.reg, pc.event) {
      var trace := MismatchReports(s, t);
      trace := ReadersLeave(s, trace, t, pc.reg);
      trace := Unregisters(s, trace, t, pc.reg);
      assert CallsEnded(trace.states[|trace.actions|], t, pc.reg);
    } else if CanCallEnded(s, t, pc.reg) {
      var later, more :|
        Continues(s, later, more) && NoReentry(more, t) && CallsEnded(later[|more|], t, pc.reg);
      StaysQuiet(s, later, more, t, |more|);
      QuietCallsNone(later[|more|], t, pc.reg);
    }
  }

  // ----- One such run

  /** Nobody is inside the gate. */
  predicate Free(s: System) { s.gate.writer.None? && s.gate.readers == {} }

  /** A writer takes the gate, changes the registry and releases the gate. */
  lemma WriterTurn(trace: Trace, u: Thread, op: Step) returns (more: Trace)
    requires Continues(START, trace.states, trace.actions) && Free(Last(trace)) && PcOf(Last(trace), u).Idle?
    requires !op.DoDeliver? && Enabled(Last(trace).registry, op)
    ensures Continues(START, more.states, more.actions)
    ensures var s := Last(trace);
            Last(more) == s.(registry := Apply(s.registry, op), threads := s.threads[u := Idle])
  {
    more := Append(START, trace, Lock(u, op));
    more := Append(START, more, Change(u));
    more := Append(START, more, Unlock(u));
    var s := Last(trace);
    assert s.threads[u := Locked(op)][u := Changed][u := Idle] == s.threads[u := Idle];
    assert s.gate.(writer := Some(u)).(writer := None) == s.gate;
  }

  /** A delivery enters, mismatches and releases the gate. */
  lemma MismatchTurn(trace: Trace, u: Thread, reg: Registration, event: Event) returns (more: Trace)
    requires Continues(START, trace.states, trace.actions) && Free(Last(trace)) && PcOf(Last(trace), u).Idle?
    requires Mismatches(Last(trace).registry, reg, event)
    ensures Continues(START, more.states, more.actions)
    ensures var s := Last(trace); Last(more) == s.(threads := s.threads[u := Reporting(reg, event)])
  {
    var s := Last(trace);
    ResumeFailedExactly(s.registry, reg, event, true);
    more := Append(START, trace, Enter(u, reg, event, true));
    more := Append(START, more, AdmitEvent(u));
    more := Append(START, more, Release(u));
    assert s.threads[u := Entered(reg, event, true)][u := Failing(reg, event)][u := Reporting(reg, event)]
        == s.threads[u := Reporting(reg, event)];
    assert s.gate.readers + {u} - {u} == s.gate.readers;
  }

  /** A delivery enters, is admitted and runs its handler. */
  lemma HandlerTurn(trace: Trace, u: Thread, reg: Registration, event: Event) returns (more: Trace)
    requires Continues(START, trace.states, trace.actions) && Free(Last(trace)) && PcOf(Last(trace), u).Idle?
    requires Deliver(Last(trace).registry, reg, event, true).1 == Published
    ensures Continues(START, more.states, more.actions)
    ensures Last(more).calls == Last(trace).calls + [reg]
    ensures Last(more).registry == Deliver(Last(trace).registry, reg, event, true).0
    ensures forall t: Thread :: t != u ==> PcOf(Last(more), t) == PcOf(Last(trace), t)
  {
    more := Append(START, trace, Enter(u, reg, event, true));
    more := Append(START, more, AdmitEvent(u));
    more := Append(START, more, Handle(u));
  }

  /** The registry after one registration of a key that expects an id, and after a second one. */
  lemma TwoRegistrations(key: Key, a: Id, b: Id, c: Id, first: Nonce, second: Nonce)
    requires a != b && first != second
    ensures var one := Apply(Empty(), DoRegister(key, Some(a), Some(first)));
            var two := Apply(one, DoRegister(key, None, Some(second)));
            var older, newer := Registration(first, key, 1), Registration(second, key, 2);
            && Enabled(Empty(), DoRegister(key, Some(a), Some(first))) && Enabled(one, DoRegister(key, None, Some(second)))
            && Mismatches(one, older, Event(SessionStart, Some(b)))
            && !IsCurrent(two, older)
            && Deliver(two, newer, Event(SessionStart, Some(c)), true).1 == Published
            && !IsCurrent(Deliver(two, newer, Event(SessionStart, Some(c)), true).0, older)
  {
    var one := Apply(Empty(), DoRegister(key, Some(a), Some(first)));
    assert BeforeInsert(Empty()) == Empty();
    assert one.registrations.Keys == {first} && |one.registrations| == 1 by {
      assert |one.registrations| == |one.registrations.Keys|;
    }
    assert BeforeInsert(one) == one;
  }

  /**
   * A first registration expects one id and is told another; while its failure is not yet reported,
   * a second registration of the key is made and its handler is called; then the first one's handler
   * is called.  The generations called go from two to one.
   */
  lemma OlderAfterNewer(key: Key, a: Id, b: Id, c: Id, first: Nonce, second: Nonce) returns (trace: Trace)
    requires a != b && first != second
    ensures CodexFence.IsRun(trace.states, trace.actions)
    ensures Last(trace).calls == [Registration(second, key, 2), Registration(first, key, 1)]
    ensures !IsCurrent(Last(trace).registry, Registration(first, key, 1))
  {
    var older, newer := Registration(first, key, 1), Registration(second, key, 2);
    var lost := Event(SessionStart, Some(b));
    TwoRegistrations(key, a, b, c, first, second);
    trace := Trace([START], []);
    trace := WriterTurn(trace, 0, DoRegister(key, Some(a), Some(first)));
    trace := MismatchTurn(trace, 1, older, lost);
    trace := WriterTurn(trace, 0, DoRegister(key, None, Some(second)));
    assert PcOf(Last(trace), 1) == Reporting(older, lost) && PcOf(Last(trace), 2) == Idle;
    trace := HandlerTurn(trace, 2, newer, Event(SessionStart, Some(c)));
    trace := Append(START, trace, Report(1));
  }
}
