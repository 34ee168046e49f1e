/**
 * The browser generation authority: one ticket queue per task and context.  The
 * book of contexts is the environment; each operation takes the book's answers as
 * inputs, and nothing is required of them.  `issued` holds the request ids that
 * were ever minted and stands for the freshness of newly drawn ids.
 */
module GenerationAuthority {
  import opened Common

  const MAX_QUEUE: nat := 32
  const MAX_CONTEXTS: nat := 32

  datatype Error =
    | CrossTask | GenerationMismatch | Closed | BoundExceeded | StaleOperation
    | Cancelled | InvalidRequest | QueueOrphan | HostEffectUnavailable

  /** The errors of the book itself. */
  datatype ContractError =
    | ForeignTask | WrongGeneration | ClosedTask | TooMuch | Unavailable | Conflict | Inadmissible

  function FromContract(error: ContractError): Error {
    match error
    case ForeignTask => CrossTask
    case WrongGeneration => GenerationMismatch
    case ClosedTask => Closed
    case TooMuch => BoundExceeded
    case Unavailable => HostEffectUnavailable
    case Conflict => InvalidRequest
    case Inadmissible => InvalidRequest
  }

  datatype Kind = Record | Replay | Repair | Cancel | Recover | Capture | Wait | Navigate

  datatype Key = Key(task: nat, context: nat)

  datatype Ticket = Ticket(request: nat, key: Key, tab: Option<nat>, generation: nat, kind: Kind)

  datatype Queue = Queue(generation: nat, active: Option<Ticket>, queued: seq<Ticket>,
                         cancelled: set<nat>, cancelledRequests: set<nat>)
  {
    predicate IsEmpty() { active.None? && queued == [] }

    function Length(): nat { |queued| + if active.Some? then 1 else 0 }

    /** The tickets in order of arrival, the active one first. */
    function Held(): seq<Ticket> { (if active.Some? then [active.value] else []) + queued }
  }

  datatype State = State(queues: map<Key, Queue>, issued: set<nat>)

  const INITIAL: State := State(map[], {})

  /** What the book shows of a context. */
  datatype View = View(task: nat, generation: nat, closed: bool)

  function LiveGeneration(view: Option<View>, task: nat): Result<nat, Error> {
    if view.None? then Err(InvalidRequest)
    else if view.value.task != task then Err(CrossTask)
    else if view.value.closed then Err(Closed)
    else Ok(view.value.generation)
  }

  datatype Reply =
    | Generation(generation: nat)
    | Minted(ticket: Ticket)
    | Promoted(next: Option<Ticket>)
    | Dropped(tickets: seq<Ticket>)
    | Done
    | Failed(error: Error)

  datatype Outcome = Outcome(state: State, reply: Reply)

  function Requests(tickets: seq<Ticket>): set<nat> {
    set t | t in tickets :: t.request
  }

  // ----- The operations

  function CreateContext(s: State, key: Key, admit: Option<ContractError>): Outcome {
    if |s.queues| >= MAX_CONTEXTS && key !in s.queues then Outcome(s, Failed(BoundExceeded))
    else if admit.Some? then Outcome(s, Failed(FromContract(admit.value)))
    else Outcome(s.(queues := s.queues[key := Queue(1, None, [], {}, {})]), Generation(1))
  }

  function Pushed(q: Queue, t: Ticket): Queue {
    if q.active.None? then q.(active := Some(t)) else q.(queued := q.queued + [t])
  }

  function Enqueue(s: State, key: Key, tab: Option<nat>, generation: nat, kind: Kind,
                   view: Option<View>, request: nat): Outcome
  {
    var live := LiveGeneration(view, key.task);
    if live.Err? then Outcome(s, Failed(live.error))
    else if generation != live.value then Outcome(s, Failed(GenerationMismatch))
    else if key !in s.queues then Outcome(s, Failed(InvalidRequest))
    else if s.queues[key].Length() >= MAX_QUEUE then Outcome(s, Failed(BoundExceeded))
    else
      var ticket := Ticket(request, key, tab, generation, kind);
      Outcome(State(s.queues[key := Pushed(s.queues[key], ticket)], s.issued + {request}), Minted(ticket))
  }

  /** `None` when the ticket is accepted. */
  function RequireLive(s: State, t: Ticket, view: Option<View>): Option<Error> {
    var live := LiveGeneration(view, t.key.task);
    if live.Err? then Some(live.error)
    else if t.generation != live.value then Some(StaleOperation)
    else if t.key !in s.queues then Some(InvalidRequest)
    else
      var q := s.queues[t.key];
      if t.generation in q.cancelled || t.request in q.cancelledRequests then Some(Cancelled)
      else if || (q.active.Some? && q.active.value.request == t.request)
              || (exists u :: u in q.queued && u.request == t.request) then None
      else Some(StaleOperation)
  }

  function Promote(q: Queue): Queue {
    if q.queued == [] then q.(active := None) else q.(active := Some(q.queued[0]), queued := q.queued[1..])
  }

  function Complete(s: State, t: Ticket, view: Option<View>): Outcome {
    var refusal := RequireLive(s, t, view);
    if refusal.Some? then Outcome(s, Failed(refusal.value))
    else
      var q := s.queues[t.key];
      if q.active.Some? && q.active.value.request == t.request then
        Outcome(s.(queues := s.queues[t.key := Promote(q)]), Promoted(Promote(q).active))
      else Outcome(s, Failed(StaleOperation))
  }

  function Emptied(q: Queue): Queue {
    q.(active := None, queued := [], cancelledRequests := q.cancelledRequests + Requests(q.Held()))
  }

  function DropQueue(s: State, key: Key, generation: nat): Outcome {
    if key !in s.queues then Outcome(s, Failed(InvalidRequest))
    else if s.queues[key].generation != generation then Outcome(s, Failed(GenerationMismatch))
    else
      var q := s.queues[key];
      Outcome(s.(queues := s.queues[key := Emptied(q)]),
              if !Emptied(q).IsEmpty() then Failed(QueueOrphan) else Dropped(q.Held()))
  }

  function CancelGeneration(s: State, key: Key, generation: nat, view: Option<View>,
                            admit: Option<ContractError>): Outcome
  {
    var live := LiveGeneration(view, key.task);
    if live.Err? then Outcome(s, Failed(live.error))
    else if generation != live.value then Outcome(s, Failed(GenerationMismatch))
    else if admit.Some? then Outcome(s, Failed(FromContract(admit.value)))
    else DropQueue(s, key, generation)
  }

  function Advanced(q: Queue, from: nat): Queue {
    q.(generation := from + 1, cancelled := q.cancelled + {from}, cancelledRequests := {})
  }

  function Advance(s: State, key: Key, from: nat): State
    requires key in s.queues
  {
    s.(queues := s.queues[key := Advanced(s.queues[key], from)])
  }

  /** The queue is dropped before the book is asked, so a refusal by the book still drops it. */
  function RecoverGeneration(s: State, key: Key, from: nat, view: Option<View>,
                             admit: Option<ContractError>, settle: Option<ContractError>): Outcome
  {
    var live := LiveGeneration(view, key.task);
    if live.Err? then Outcome(s, Failed(live.error))
    else if from != live.value then Outcome(s, Failed(GenerationMismatch))
    else if from >= U64_MAX then Outcome(s, Failed(BoundExceeded))
    else
      var dropped := DropQueue(s, key, from);
      var t := dropped.state;
      if dropped.reply.Failed? then dropped
      else if admit.Some? then Outcome(t, Failed(FromContract(admit.value)))
      else if settle.Some? then Outcome(t, Failed(FromContract(settle.value)))
      else if key !in t.queues then Outcome(t, Generation(from + 1))
      else
        Outcome(Advance(t, key, from), if !t.queues[key].IsEmpty() then Failed(QueueOrphan) else Generation(from + 1))
  }

  function ViewOf(views: map<nat, View>, context: nat): Option<View> {
    if context in views then Some(views[context]) else None
  }

  /** One pass of the loop of `close_task`. */
  function CloseOne(s: State, key: Key, views: map<nat, View>): Outcome {
    var live := LiveGeneration(ViewOf(views, key.context), key.task);
    var dropped := if live.Ok? then DropQueue(s, key, live.value) else Outcome(s, Done);
    if dropped.reply.Failed? then dropped
    else Outcome(dropped.state.(queues := dropped.state.queues - {key}), Done)
  }

  function CloseKeys(s: State, keys: seq<Key>, views: map<nat, View>): Outcome
    decreases |keys|
  {
    if keys == [] then Outcome(s, Done)
    else
      var one := CloseOne(s, keys[0], views);
      if one.reply.Failed? then one else CloseKeys(one.state, keys[1..], views)
  }

  predicate KeepsWork(s: State, task: nat) {
    exists k :: k in s.queues && k.task == task && !s.queues[k].IsEmpty()
  }

  /** `keys` lists the task's queues, each once; the source takes them in key order. */
  ghost predicate ListsTask(keys: seq<Key>, s: State, task: nat) {
    NoDup(keys) && forall k :: k in keys <==> k in s.queues && k.task == task
  }

  function CloseTask(s: State, task: nat, keys: seq<Key>, views: map<nat, View>,
                     close: Option<ContractError>): Outcome
  {
    var closed := CloseKeys(s, keys, views);
    if closed.reply.Failed? then closed
    else if close.Some? then Outcome(closed.state, Failed(FromContract(close.value)))
    else if KeepsWork(closed.state, task) then Outcome(closed.state, Failed(QueueOrphan))
    else Outcome(closed.state, Done)
  }

  predicate HasOrphans(s: State, key: Key) {
    key in s.queues && !s.queues[key].IsEmpty() && s.queues[key].generation in s.queues[key].cancelled
  }

  // ----- Runs

  datatype Event =
    | Creating(key: Key, admit: Option<ContractError>)
    | Enqueueing(key: Key, tab: Option<nat>, generation: nat, kind: Kind, view: Option<View>, request: nat)
    | Completing(ticket: Ticket, view: Option<View>)
    | Cancelling(key: Key, generation: nat, view: Option<View>, admit: Option<ContractError>)
    | Recovering(key: Key, from: nat, view: Option<View>, admit: Option<ContractError>, settle: Option<ContractError>)
    | Closing(task: nat, keys: seq<Key>, views: map<nat, View>, close: Option<ContractError>)

  function Step(s: State, e: Event): Outcome {
    match e
    case Creating(key, admit) => CreateContext(s, key, admit)
    case Enqueueing(key, tab, generation, kind, view, request) =>
      Enqueue(s, key, tab, generation, kind, view, request)
    case Completing(ticket, view) => Complete(s, ticket, view)
    case Cancelling(key, generation, view, admit) => CancelGeneration(s, key, generation, view, admit)
    case Recovering(key, from, view, admit, settle) => RecoverGeneration(s, key, from, view, admit, settle)
    case Closing(task, keys, views, close) => CloseTask(s, task, keys, views, close)
  }

  /** Ids are drawn fresh, and a task is closed over the list of its own queues. */
  ghost predicate Possible(s: State, e: Event) {
    && (e.Enqueueing? ==> e.request !in s.issued)
    && (e.Closing? ==> ListsTask(e.keys, s, e.task))
  }

  ghost predicate IsRun(states: seq<State>, events: seq<Event>) {
    && |states| == |events| + 1
    && states[0] == INITIAL
    && forall i :: 0 <= i < |events| ==> Possible(states[i], events[i]) && states[i + 1] == Step(states[i], events[i]).state
  }

  // ----- What every step keeps

  predicate Shaped(q: Queue) {
    && (q.queued != [] ==> q.active.Some?)
    && q.Length() <= MAX_QUEUE
    && forall g :: g in q.cancelled ==> g < q.generation
  }

  /** Every held ticket is this queue's own and has a request id of its own. */
  ghost predicate Owned(q: Queue, key: Key, issued: set<nat>) {
    && (forall t :: t in q.Held() ==> t.key == key && t.request in issued && t.request !in q.cancelledRequests)
    && (forall i, j :: 0 <= i < j < |q.Held()| ==> q.Held()[i].request != q.Held()[j].request)
    && q.cancelledRequests <= issued
  }

  ghost predicate Holds(s: State, key: Key, request: nat) {
    key in s.queues && request in Requests(s.queues[key].Held())
  }

  ghost predicate Disjoint(s: State) {
    forall k, l, r :: Holds(s, k, r) && Holds(s, l, r) ==> k == l
  }

  ghost predicate Valid(s: State) {
    && |s.queues| <= MAX_CONTEXTS
    && (forall k :: k in s.queues ==> Shaped(s.queues[k]))
    && (forall k :: k in s.queues ==> Owned(s.queues[k], k, s.issued))
    && Disjoint(s)
  }

  /** No ticket comes back: what is held later was held before or is newly minted. */
  ghost predicate Evolves(s: State, t: State) {
    && s.issued <= t.issued
    && forall k, r :: Holds(t, k, r) ==> Holds(s, k, r) || r !in s.issued
  }

  ghost predicate Good(s: State, t: State) { Valid(t) && Evolves(s, t) }

  /** Replacing one queue by one that holds no other tickets of earlier date. */
  lemma ReplaceGood(s: State, t: State, key: Key, q: Queue)
    requires Valid(s) && s.issued <= t.issued && t.queues == s.queues[key := q] && |t.queues| <= MAX_CONTEXTS
    requires Shaped(q) && Owned(q, key, t.issued)
    requires forall r :: r in Requests(q.Held()) ==> Holds(s, key, r) || r !in s.issued
    ensures Good(s, t)
  {
    forall k | k in t.queues
      ensures Shaped(t.queues[k]) && Owned(t.queues[k], k, t.issued)
    {
      assert k != key ==> t.queues[k] == s.queues[k];
    }
    forall k, r | Holds(t, k, r)
      ensures Holds(s, k, r) || (r !in s.issued && k == key)
    {
      assert k != key ==> t.queues[k] == s.queues[k];
    }
    forall k, r | Holds(s, k, r)
      ensures r in s.issued
    {
      HeldIsIssued(s, k, r);
    }
  }

  lemma HeldIsIssued(s: State, key: Key, request: nat)
    requires Valid(s) && Holds(s, key, request)
    ensures request in s.issued
  {
    assert Owned(s.queues[key], key, s.issued);
  }

  lemma SameSize<V>(m: map<Key, V>, key: Key, v: V)
    ensures |m[key := v]| == if key in m then |m| else |m| + 1
  {
    if key in m {
      assert m[key := v].Keys == m.Keys;
    } else {
      assert m[key := v].Keys == m.Keys + {key};
    }
    assert |m| == |m.Keys| && |m[key := v]| == |m[key := v].Keys|;
  }

  lemma RemoveGood(s: State, t: State, keys: set<Key>)
    requires Valid(s) && t == s.(queues := s.queues - keys)
    ensures Good(s, t)
  {
    assert t.queues.Keys <= s.queues.Keys;
    SubsetSize(t.queues.Keys, s.queues.Keys);
    assert |t.queues| == |t.queues.Keys| && |s.queues| == |s.queues.Keys|;
    forall k, r | Holds(t, k, r)
      ensures Holds(s, k, r)
    {
    }
  }

  lemma GoodCompose(s: State, t: State, u: State)
    requires Good(s, t) && Good(t, u)
    ensures Good(s, u)
  {
  }

  lemma PushedHeld(q: Queue, t: Ticket)
    requires q.queued != [] ==> q.active.Some?
    ensures Pushed(q, t).Held() == q.Held() + [t]
  {
  }

  lemma PromotedHeld(q: Queue)
    requires q.active.Some?
    ensures Promote(q).Held() == q.Held()[1..]
  {
  }

  lemma EnqueueGood(s: State, e: Event)
    requires Valid(s) && e.Enqueueing? && Possible(s, e)
    ensures Good(s, Step(s, e).state)
  {
    var r := Step(s, e);
    if r.reply.Minted? {
      var q := s.queues[e.key];
      PushedHeld(q, r.reply.ticket);
      SameSize(s.queues, e.key, Pushed(q, r.reply.ticket));
      assert Owned(q, e.key, s.issued);
      ReplaceGood(s, r.state, e.key, Pushed(q, r.reply.ticket));
    }
  }

  lemma CompleteGood(s: State, e: Event)
    requires Valid(s) && e.Completing?
    ensures Good(s, Step(s, e).state)
  {
    if Step(s, e).reply.Promoted? {
      var key := e.ticket.key;
      var q := s.queues[key];
      PromotedHeld(q);
      SameSize(s.queues, key, Promote(q));
      assert Owned(q, key, s.issued);
      ReplaceGood(s, Step(s, e).state, key, Promote(q));
    }
  }

  lemma DropGood(s: State, key: Key, generation: nat)
    requires Valid(s)
    ensures Good(s, DropQueue(s, key, generation).state)
  {
    if key in s.queues && s.queues[key].generation == generation {
      var q := s.queues[key];
      SameSize(s.queues, key, Emptied(q));
      assert Owned(q, key, s.issued);
      ReplaceGood(s, DropQueue(s, key, generation).state, key, Emptied(q));
    }
  }

  /** The three states a recovery can end in. */
  lemma RecoverEnds(s: State, e: Event)
    requires e.Recovering?
    ensures var d, t := DropQueue(s, e.key, e.from), Step(s, e).state;
            t == s || t == d.state || (!d.reply.Failed? && e.key in d.state.queues && t == Advance(d.state, e.key, e.from))
    ensures Step(s, e).reply != Failed(QueueOrphan)
  {
    DropEmpties(s, e.key, e.from);
  }

  lemma RecoverGood(s: State, e: Event)
    requires Valid(s) && e.Recovering?
    ensures Good(s, Step(s, e).state)
  {
    RecoverEnds(s, e);
    DropGood(s, e.key, e.from);
    var t, d := Step(s, e).state, DropQueue(s, e.key, e.from);
    if t != s && t != d.state {
      DropEmpties(s, e.key, e.from);
      AdvanceGood(d.state, e.key, e.from);
      GoodCompose(s, d.state, t);
    }
  }

  lemma DropEmpties(s: State, key: Key, generation: nat)
    ensures var dropped := DropQueue(s, key, generation);
            !dropped.reply.Failed? ==>
              && key in dropped.state.queues
              && dropped.state.queues[key].generation == generation
              && dropped.state.queues[key].IsEmpty()
    ensures DropQueue(s, key, generation).reply != Failed(QueueOrphan)
  {
  }

  lemma AdvanceGood(s: State, key: Key, from: nat)
    requires Valid(s) && key in s.queues && s.queues[key].generation == from
    ensures Good(s, Advance(s, key, from))
  {
    var q := s.queues[key];
    SameSize(s.queues, key, Advanced(q, from));
    assert Owned(q, key, s.issued);
    ReplaceGood(s, Advance(s, key, from), key, Advanced(q, from));
  }

  lemma CloseOneGood(s: State, key: Key, views: map<nat, View>)
    requires Valid(s)
    ensures Good(s, CloseOne(s, key, views).state)
    ensures CloseOne(s, key, views).reply != Failed(QueueOrphan)
  {
    var live := LiveGeneration(ViewOf(views, key.context), key.task);
    if live.Ok? {
      DropGood(s, key, live.value);
      DropEmpties(s, key, live.value);
      var t := DropQueue(s, key, live.value).state;
      RemoveGood(t, t.(queues := t.queues - {key}), {key});
    } else {
      RemoveGood(s, s.(queues := s.queues - {key}), {key});
    }
  }

  /** A pass either fails with the state as it was or removes the queue and nothing else. */
  lemma CloseOneRemoves(s: State, key: Key, views: map<nat, View>)
    ensures var r := CloseOne(s, key, views);
            if r.reply.Failed? then r.state == s else r.state == s.(queues := s.queues - {key})
  {
  }

  lemma {:induction false} CloseKeysGood(s: State, keys: seq<Key>, views: map<nat, View>)
    requires Valid(s)
    ensures Good(s, CloseKeys(s, keys, views).state)
    ensures CloseKeys(s, keys, views).reply != Failed(QueueOrphan)
    decreases |keys|
  {
    if keys != [] {
      CloseOneGood(s, keys[0], views);
      CloseKeysGood(CloseOne(s, keys[0], views).state, keys[1..], views);
    }
  }

  /** Closing removes a prefix of the listed queues, all of them unless it fails. */
  lemma {:induction false} CloseKeysRemoves(s: State, keys: seq<Key>, views: map<nat, View>) returns (n: nat)
    ensures n <= |keys|
    ensures var r := CloseKeys(s, keys, views);
            && r.state == s.(queues := s.queues - Elements(keys[..n]))
            && (!r.reply.Failed? <==> n == |keys|)
            && (r.reply.Failed? || r.reply.Done?)
    decreases |keys|
  {
    if keys == [] {
      n := 0;
      assert s.queues - {} == s.queues;
    } else {
      CloseOneRemoves(s, keys[0], views);
      var one := CloseOne(s, keys[0], views);
      if one.reply.Failed? {
        n := 0;
        assert s.queues - {} == s.queues;
      } else {
        var m := CloseKeysRemoves(one.state, keys[1..], views);
        n := m + 1;
        RemoveTwice(s.queues, keys, m);
      }
    }
  }

  lemma RemoveTwice<V>(queues: map<Key, V>, keys: seq<Key>, m: nat)
    requires m < |keys|
    ensures (queues - {keys[0]}) - Elements(keys[1..][..m]) == queues - Elements(keys[..m + 1])
  {
    assert keys[..m + 1] == [keys[0]] + keys[1..][..m];
  }

  lemma CreateGood(s: State, e: Event)
    requires Valid(s) && e.Creating?
    ensures Good(s, Step(s, e).state)
  {
    var q := Queue(1, None, [], {}, {});
    SameSize(s.queues, e.key, q);
    if Step(s, e).reply.Generation? {
      ReplaceGood(s, Step(s, e).state, e.key, q);
    }
  }

  lemma CancelGood(s: State, e: Event)
    requires Valid(s) && e.Cancelling?
    ensures Good(s, Step(s, e).state)
  {
    DropGood(s, e.key, e.generation);
  }

  lemma {:induction false} CloseGood(s: State, e: Event)
    requires Valid(s) && e.Closing?
    ensures Good(s, Step(s, e).state)
  {
    CloseTaskState(s, e.task, e.keys, e.views, e.close);
    CloseKeysGood(s, e.keys, e.views);
  }

  /** After the loop only the reply is decided. */
  lemma {:induction false} CloseTaskState(s: State, task: nat, keys: seq<Key>, views: map<nat, View>,
                                          close: Option<ContractError>)
    ensures CloseTask(s, task, keys, views, close).state == CloseKeys(s, keys, views).state
  {
  }

  lemma {:induction false} StepGood(s: State, e: Event)
    requires Valid(s) && Possible(s, e)
    ensures Good(s, Step(s, e).state)
  {
    match e {
      case Creating(_, _) => CreateGood(s, e);
      case Enqueueing(_, _, _, _, _, _) => EnqueueGood(s, e);
      case Completing(_, _) => CompleteGood(s, e);
      case Cancelling(_, _, _, _) => CancelGood(s, e);
      case Recovering(_, _, _, _, _) => RecoverGood(s, e);
      case Closing(_, _, _, _) => CloseGood(s, e);
    }
  }
}
