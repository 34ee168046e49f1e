/** What holds over every run of the generation authority, whatever the book answers. */
module GenerationRuns {
  import opened Common
  import opened GenerationAuthority

  /**
   * In every reachable state each queue has an active ticket whenever it has queued
   * ones, holds at most 32, and every held ticket has a request id of its own.
   */
  lemma {:induction false} RunValid(states: seq<State>, events: seq<Event>, i: nat)
    requires IsRun(states, events) && i < |states|
    ensures Valid(states[i])
  {
    if i > 0 {
      RunValid(states, events, i - 1);
      StepGood(states[i - 1], events[i - 1]);
    }
  }

  lemma RunEvolves(states: seq<State>, events: seq<Event>, i: nat, j: nat)
    requires IsRun(states, events) && i <= j < |states|
    ensures Evolves(states[i], states[j])
  {
    forall m | i <= m < j && Evolves(states[i], states[m])
      ensures Evolves(states[i], states[m + 1])
    {
      RunValid(states, events, m);
      StepGood(states[m], events[m]);
    }
    Chain(i, j, (m: nat) => m < |states| && Evolves(states[i], states[m]));
  }

  // ----- Acceptance

  /**
   * A ticket is accepted exactly when the book still shows its generation, that
   * generation was not recovered from, and the queue holds its request id.
   */
  lemma AcceptedExactly(s: State, t: Ticket, view: Option<View>)
    requires Valid(s)
    ensures RequireLive(s, t, view) == None <==>
            && LiveGeneration(view, t.key.task) == Ok(t.generation)
            && Holds(s, t.key, t.request)
            && t.generation !in s.queues[t.key].cancelled
  {
    if t.key in s.queues {
      var q := s.queues[t.key];
      assert Owned(q, t.key, s.issued);
      if q.active.Some? && q.active.value.request == t.request {
        assert q.Held()[0].request == t.request;
      } else if u :| u in q.queued && u.request == t.request {
        assert u in q.Held();
      }
    }
  }

  /** Nobody accepts or completes a ticket with this request id. */
  ghost predicate Refused(s: State, request: nat) {
    forall t: Ticket, view :: t.request == request ==>
      RequireLive(s, t, view).Some? && Complete(s, t, view).reply.Failed?
  }

  lemma NotHeldIsRefused(s: State, request: nat)
    requires Valid(s) && forall k :: !Holds(s, k, request)
    ensures Refused(s, request)
  {
    forall t: Ticket, view | t.request == request
      ensures RequireLive(s, t, view).Some? && Complete(s, t, view).reply.Failed?
    {
      AcceptedExactly(s, t, view);
    }
  }

  /** The tickets a queue holds, oldest first; none for a context that is not there. */
  function HeldAt(s: State, key: Key): seq<Ticket> {
    if key in s.queues then s.queues[key].Held() else []
  }

  /** Once an issued id is in no queue, it is refused in every later state. */
  lemma GoneStaysGone(states: seq<State>, events: seq<Event>, i: nat, j: nat, request: nat)
    requires IsRun(states, events) && i <= j < |states|
    requires request in states[i].issued && forall k :: !Holds(states[i], k, request)
    ensures Refused(states[j], request)
  {
    RunEvolves(states, events, i, j);
    RunValid(states, events, j);
    NotHeldIsRefused(states[j], request);
  }

  /** Some queue held the id before the event, and none does after it. */
  ghost predicate Retires(s: State, e: Event, request: nat) {
    (exists k :: Holds(s, k, request)) && forall k :: !Holds(Step(s, e).state, k, request)
  }

  /**
   * A ticket that left its queue, by whatever event and whatever that event replied, is refused in
   * every later state of the run.
   */
  lemma RetiredNeverAccepted(states: seq<State>, events: seq<Event>, i: nat, j: nat, request: nat)
    requires IsRun(states, events) && i < j < |states|
    requires Retires(states[i], events[i], request)
    ensures Refused(states[j], request)
  {
    RunValid(states, events, i);
    var k :| Holds(states[i], k, request);
    HeldIsIssued(states[i], k, request);
    RunEvolves(states, events, i, i + 1);
    GoneStaysGone(states, events, i + 1, j, request);
  }

  // ----- First in, first out

  function Arrives(s: State, e: Event, key: Key): seq<Ticket> {
    var reply := Step(s, e).reply;
    if reply.Minted? && reply.ticket.key == key then [reply.ticket] else []
  }

  /** A completion takes the oldest ticket; a drop takes them all. */
  function Leaves(s: State, e: Event, key: Key): seq<Ticket> {
    var before, after := HeldAt(s, key), HeldAt(Step(s, e).state, key);
    if e.Enqueueing? then []
    else if e.Completing? then
      if Step(s, e).reply.Promoted? && e.ticket.key == key && before != [] then [before[0]] else []
    else if after == [] then before
    else []
  }

  lemma StepKeepsOrder(s: State, e: Event, key: Key)
    requires Valid(s) && Possible(s, e)
    ensures HeldAt(s, key) + Arrives(s, e, key) == Leaves(s, e, key) + HeldAt(Step(s, e).state, key)
  {
    if e.Enqueueing? {
      if Step(s, e).reply.Minted? && e.key == key {
        PushedHeld(s.queues[key], Step(s, e).reply.ticket);
      }
    } else if e.Completing? {
      if Step(s, e).reply.Promoted? && e.ticket.key == key {
        PromotedHeld(s.queues[key]);
        assert HeldAt(s, key) == [HeldAt(s, key)[0]] + HeldAt(s, key)[1..];
      }
    } else {
      DropsAllOrNothing(s, e, key);
      NothingArrives(s, e, key);
    }
  }

  // ----- Which events retire which tickets

  ghost predicate DistinctRequests(tickets: seq<Ticket>) {
    forall i, j :: 0 <= i < j < |tickets| ==> tickets[i].request != tickets[j].request
  }

  lemma HeldDistinct(s: State, key: Key)
    requires Valid(s)
    ensures DistinctRequests(HeldAt(s, key))
    ensures forall t :: t in HeldAt(s, key) ==> t.request in s.issued
  {
    if key in s.queues {
      assert Owned(s.queues[key], key, s.issued);
    }
  }

  lemma HeldOnce(s: State, e: Event, key: Key)
    requires Valid(s) && Possible(s, e)
    ensures DistinctRequests(HeldAt(s, key) + Arrives(s, e, key))
  {
    HeldDistinct(s, key);
    if !e.Enqueueing? {
      NothingArrives(s, e, key);
      assert HeldAt(s, key) + [] == HeldAt(s, key);
    }
  }

  lemma SplitDistinct(a: seq<Ticket>, b: seq<Ticket>, request: nat)
    requires DistinctRequests(a + b) && request in Requests(a)
    ensures request !in Requests(b)
  {
    var t :| t in a && t.request == request;
    var i :| 0 <= i < |a| && a[i] == t;
    forall u | u in b
      ensures u.request != request
    {
      var j :| 0 <= j < |b| && b[j] == u;
      assert (a + b)[i] == t && (a + b)[|a| + j] == u;
    }
  }

  /** What leaves a queue is retired. */
  lemma LeavingRetires(s: State, e: Event, key: Key, request: nat)
    requires Valid(s) && Possible(s, e) && request in Requests(Leaves(s, e, key))
    ensures Retires(s, e, request)
  {
    var next := Step(s, e).state;
    StepKeepsOrder(s, e, key);
    HeldOnce(s, e, key);
    SplitDistinct(Leaves(s, e, key), HeldAt(next, key), request);
    assert Holds(s, key, request);
    HeldIsIssued(s, key, request);
    StepGood(s, e);
  }

  /** An id is retired exactly when its ticket leaves a queue. */
  lemma {:induction false} RetiredExactly(s: State, e: Event, request: nat)
    requires Valid(s) && Possible(s, e)
    ensures Retires(s, e, request) <==> exists k :: request in Requests(Leaves(s, e, k))
  {
    if Retires(s, e, request) {
      var k := RetiredLeft(s, e, request);
    } else if k :| request in Requests(Leaves(s, e, k)) {
      LeavingRetires(s, e, k, request);
    }
  }

  lemma {:induction false} RetiredLeft(s: State, e: Event, request: nat) returns (k: Key)
    requires Valid(s) && Possible(s, e) && Retires(s, e, request)
    ensures request in Requests(Leaves(s, e, k))
  {
    k :| Holds(s, k, request);
    StepKeepsOrder(s, e, k);
    assert !Holds(Step(s, e).state, k, request);
    InOneOf(Leaves(s, e, k), HeldAt(Step(s, e).state, k), HeldAt(s, k) + Arrives(s, e, k), request);
  }

  lemma InOneOf(a: seq<Ticket>, b: seq<Ticket>, all: seq<Ticket>, request: nat)
    requires a + b == all && request in Requests(all)
    ensures request in Requests(a) || request in Requests(b)
  {
  }

  /** A completion retires its ticket. */
  lemma CompletionRetires(s: State, t: Ticket, view: Option<View>)
    requires Valid(s) && Complete(s, t, view).reply.Promoted?
    ensures Retires(s, Completing(t, view), t.request)
  {
    CompletesTheOldest(s, t, view);
    LeavingRetires(s, Completing(t, view), t.key, t.request);
  }

  /** A cancellation retires the tickets it reports. */
  lemma CancellationRetires(s: State, e: Event, request: nat)
    requires Valid(s) && e.Cancelling? && Step(s, e).reply.Dropped? && request in Requests(Step(s, e).reply.tickets)
    ensures Retires(s, e, request)
  {
    LeavingRetires(s, e, e.key, request);
  }

  /** A recovery retires what the queue holds as soon as it gets past the drop, even if the book then refuses. */
  lemma RecoveryRetires(s: State, e: Event, request: nat)
    requires Valid(s) && e.Recovering? && Holds(s, e.key, request)
    requires LiveGeneration(e.view, e.key.task) == Ok(e.from) && e.from < U64_MAX && s.queues[e.key].generation == e.from
    ensures Retires(s, e, request)
  {
    DropEmpties(s, e.key, e.from);
    LeavingRetires(s, e, e.key, request);
  }

  /** Closing retires what the removed queues held, also when it stops before the last one. */
  lemma ClosingRetires(s: State, e: Event, key: Key, request: nat)
    requires Valid(s) && Possible(s, e) && e.Closing? && Holds(s, key, request) && key !in Step(s, e).state.queues
    ensures Retires(s, e, request)
  {
    LeavingRetires(s, e, key, request);
  }

  /** A new context retires what the queue it replaces held. */
  lemma CreationRetires(s: State, e: Event, request: nat)
    requires Valid(s) && e.Creating? && Step(s, e).reply.Generation? && Holds(s, e.key, request)
    ensures Retires(s, e, request)
  {
    LeavingRetires(s, e, e.key, request);
  }

  lemma NothingArrives(s: State, e: Event, key: Key)
    requires !e.Enqueueing?
    ensures Arrives(s, e, key) == []
  {
    if e.Closing? {
      var n := CloseKeysRemoves(s, e.keys, e.views);
    }
  }

  lemma DropHeld(s: State, dropped: Key, generation: nat, key: Key)
    ensures var after := HeldAt(DropQueue(s, dropped, generation).state, key);
            after == [] || after == HeldAt(s, key)
  {
  }

  lemma AdvanceHeld(s: State, advanced: Key, from: nat, key: Key)
    requires advanced in s.queues
    ensures HeldAt(Advance(s, advanced, from), key) == HeldAt(s, key)
  {
  }

  lemma RecoverHeld(s: State, e: Event, key: Key)
    requires e.Recovering?
    ensures HeldAt(Step(s, e).state, key) == [] || HeldAt(Step(s, e).state, key) == HeldAt(s, key)
  {
    RecoverEnds(s, e);
    DropHeld(s, e.key, e.from, key);
    var t, d := Step(s, e).state, DropQueue(s, e.key, e.from);
    if t != s && t != d.state {
      AdvanceHeld(d.state, e.key, e.from, key);
    }
  }

  lemma {:induction false} CloseHeld(s: State, e: Event, key: Key)
    requires e.Closing?
    ensures HeldAt(Step(s, e).state, key) == [] || HeldAt(Step(s, e).state, key) == HeldAt(s, key)
  {
    var n := CloseKeysRemoves(s, e.keys, e.views);
  }

  lemma DropsAllOrNothing(s: State, e: Event, key: Key)
    requires !e.Enqueueing? && !e.Completing?
    ensures HeldAt(Step(s, e).state, key) == [] || HeldAt(Step(s, e).state, key) == HeldAt(s, key)
  {
    if e.Closing? {
      CloseHeld(s, e, key);
    } else if e.Recovering? {
      RecoverHeld(s, e, key);
    } else if e.Cancelling? {
      DropHeld(s, e.key, e.generation, key);
    }
  }

  function Arrivals(states: seq<State>, events: seq<Event>, key: Key, n: nat): seq<Ticket>
    requires n <= |events| <= |states|
  {
    if n == 0 then [] else Arrivals(states, events, key, n - 1) + Arrives(states[n - 1], events[n - 1], key)
  }

  function Departures(states: seq<State>, events: seq<Event>, key: Key, n: nat): seq<Ticket>
    requires n <= |events| <= |states|
  {
    if n == 0 then [] else Departures(states, events, key, n - 1) + Leaves(states[n - 1], events[n - 1], key)
  }

  lemma Regroup<T>(a: seq<T>, b: seq<T>, c: seq<T>, d: seq<T>, e: seq<T>)
    requires b + c == d + e
    ensures (a + b) + c == (a + d) + e
  {
    Associative(a, b, c);
    Associative(a, d, e);
  }

  /**
   * First in, first out, and nothing lost: in every run the tickets ever minted for a
   * context are, in order, those that left its queue followed by those it holds.
   */
  lemma {:induction false} ArrivalOrder(states: seq<State>, events: seq<Event>, key: Key, n: nat)
    requires IsRun(states, events) && n <= |events|
    ensures Arrivals(states, events, key, n) == Departures(states, events, key, n) + HeldAt(states[n], key)
  {
    if n > 0 {
      ArrivalOrder(states, events, key, n - 1);
      RunValid(states, events, n - 1);
      var s, e := states[n - 1], events[n - 1];
      StepKeepsOrder(s, e, key);
      Regroup(Departures(states, events, key, n - 1), HeldAt(s, key), Arrives(s, e, key),
              Leaves(s, e, key), HeldAt(states[n], key));
    }
  }

  /** A completion ends the oldest ticket and hands back the next oldest. */
  lemma CompletesTheOldest(s: State, t: Ticket, view: Option<View>)
    requires Valid(s) && Complete(s, t, view).reply.Promoted?
    ensures HeldAt(s, t.key) != [] && HeldAt(s, t.key)[0].request == t.request
    ensures var after := HeldAt(Complete(s, t, view).state, t.key);
            && after == HeldAt(s, t.key)[1..]
            && Complete(s, t, view).reply.next == if after == [] then None else Some(after[0])
  {
    PromotedHeld(s.queues[t.key]);
  }

  // ----- No orphans

  lemma NoOrphans(s: State, key: Key)
    requires Valid(s)
    ensures !HasOrphans(s, key)
  {
    if key in s.queues {
      assert Shaped(s.queues[key]);
    }
  }

  /** In no run does an operation fail with `QueueOrphan` or leave orphans behind. */
  lemma OrphansAreUnreachable(states: seq<State>, events: seq<Event>, i: nat, key: Key)
    requires IsRun(states, events) && i < |events|
    ensures Step(states[i], events[i]).reply != Failed(QueueOrphan)
    ensures !HasOrphans(states[i], key) && !HasOrphans(states[i + 1], key)
  {
    RunValid(states, events, i);
    RunValid(states, events, i + 1);
    NoOrphans(states[i], key);
    NoOrphans(states[i + 1], key);
    StepNeverOrphans(states[i], events[i]);
  }

  lemma {:induction false} StepNeverOrphans(s: State, e: Event)
    requires Valid(s) && Possible(s, e)
    ensures Step(s, e).reply != Failed(QueueOrphan)
  {
    if e.Recovering? {
      RecoverEnds(s, e);
    } else if e.Cancelling? {
      DropEmpties(s, e.key, e.generation);
    } else if e.Closing? {
      CloseNeverOrphans(s, e);
    }
  }

  lemma {:induction false} CloseNeverOrphans(s: State, e: Event)
    requires Valid(s) && Possible(s, e) && e.Closing?
    ensures CloseTask(s, e.task, e.keys, e.views, e.close).reply != Failed(QueueOrphan)
  {
    CloseKeysGood(s, e.keys, e.views);
    if !CloseKeys(s, e.keys, e.views).reply.Failed? {
      ClosedKeepsNoWork(s, e);
    }
  }

  lemma ClosedKeepsNoWork(s: State, e: Event)
    requires e.Closing? && Possible(s, e) && !CloseKeys(s, e.keys, e.views).reply.Failed?
    ensures !KeepsWork(CloseKeys(s, e.keys, e.views).state, e.task)
  {
    var n := CloseKeysRemoves(s, e.keys, e.views);
    assert e.keys[..n] == e.keys;
  }

  /** Closing a task that succeeds removes every queue of the task and no other. */
  lemma ClosedRemovesTask(s: State, task: nat, keys: seq<Key>, views: map<nat, View>, close: Option<ContractError>)
    requires ListsTask(keys, s, task)
    ensures var r := CloseTask(s, task, keys, views, close);
            r.reply == Done ==>
              && (forall k :: k in r.state.queues <==> k in s.queues && k.task != task)
              && (forall k :: k in r.state.queues ==> r.state.queues[k] == s.queues[k])
  {
    var n := CloseKeysRemoves(s, keys, views);
    assert n == |keys| ==> keys[..n] == keys;
  }
}
