/**
 * The authority as the source keeps it: a map of queues that the methods update in
 * place.  Each method is proved to be the operation of the same name on values.
 */
module TaskGenerationAuthority {
  import opened Common
  import opened GenerationAuthority
  import GenerationRuns

  class Authority {
    var queues: map<Key, Queue>
    ghost var issued: set<nat>

    ghost function Now(): State
      reads this
    {
      State(queues, issued)
    }

    ghost predicate Consistent()
      reads this
    {
      Valid(Now())
    }

    constructor ()
      ensures Consistent() && Now() == INITIAL
    {
      queues, issued := map[], {};
    }

    method Create(key: Key, admit: Option<ContractError>) returns (reply: Reply)
      requires Consistent()
      modifies this
      ensures Consistent()
      ensures Outcome(Now(), reply) == CreateContext(old(Now()), key, admit)
    {
      StepGood(Now(), Creating(key, admit));
      if |queues| >= MAX_CONTEXTS && key !in queues {
        return Failed(BoundExceeded);
      }
      if admit.Some? {
        return Failed(FromContract(admit.value));
      }
      queues := queues[key := Queue(1, None, [], {}, {})];
      reply := Generation(1);
    }

    method EnqueueTicket(key: Key, tab: Option<nat>, generation: nat, kind: Kind,
                         view: Option<View>, request: nat) returns (reply: Reply)
      requires Consistent() && request !in issued
      modifies this
      ensures Consistent()
      ensures Outcome(Now(), reply) == Enqueue(old(Now()), key, tab, generation, kind, view, request)
    {
      StepGood(Now(), Enqueueing(key, tab, generation, kind, view, request));
      var live := LiveGeneration(view, key.task);
      if live.Err? {
        return Failed(live.error);
      }
      if generation != live.value {
        return Failed(GenerationMismatch);
      }
      if key !in queues {
        return Failed(InvalidRequest);
      }
      var queue := queues[key];
      if queue.Length() >= MAX_QUEUE {
        return Failed(BoundExceeded);
      }
      var ticket := Ticket(request, key, tab, generation, kind);
      if queue.active.None? {
        queue := queue.(active := Some(ticket));
      } else {
        queue := queue.(queued := queue.queued + [ticket]);
      }
      queues, issued := queues[key := queue], issued + {request};
      reply := Minted(ticket);
    }

    static method Knows(queue: Queue, request: nat) returns (known: bool)
      ensures known <==> request in Requests(queue.Held())
    {
      known := queue.active.Some? && queue.active.value.request == request;
      var i := 0;
      assert queue.active.Some? ==> queue.active.value in queue.Held();
      while !known && i < |queue.queued|
        invariant i <= |queue.queued|
        invariant known ==> request in Requests(queue.Held())
        invariant !known ==> queue.active.Some? ==> queue.active.value.request != request
        invariant !known ==> forall j :: 0 <= j < i ==> queue.queued[j].request != request
      {
        assert queue.queued[i] in queue.Held();
        known := queue.queued[i].request == request;
        i := i + 1;
      }
    }

    /** `None` exactly when the ticket is current in the book, not recovered from and still held. */
    method CheckLive(ticket: Ticket, view: Option<View>) returns (refusal: Option<Error>)
      requires Consistent()
      ensures refusal == RequireLive(Now(), ticket, view)
      ensures refusal == None <==>
              && LiveGeneration(view, ticket.key.task) == Ok(ticket.generation)
              && Holds(Now(), ticket.key, ticket.request)
              && ticket.generation !in queues[ticket.key].cancelled
    {
      GenerationRuns.AcceptedExactly(Now(), ticket, view);
      var live := LiveGeneration(view, ticket.key.task);
      if live.Err? {
        return Some(live.error);
      }
      if ticket.generation != live.value {
        return Some(StaleOperation);
      }
      if ticket.key !in queues {
        return Some(InvalidRequest);
      }
      var queue := queues[ticket.key];
      if ticket.generation in queue.cancelled || ticket.request in queue.cancelledRequests {
        return Some(Cancelled);
      }
      var known := Knows(queue, ticket.request);
      refusal := if known then None else Some(StaleOperation);
    }

    method CompleteTicket(ticket: Ticket, view: Option<View>) returns (reply: Reply)
      requires Consistent()
      modifies this
      ensures Consistent()
      ensures Outcome(Now(), reply) == Complete(old(Now()), ticket, view)
    {
      StepGood(Now(), Completing(ticket, view));
      var refusal := CheckLive(ticket, view);
      if refusal.Some? {
        return Failed(refusal.value);
      }
      var queue := queues[ticket.key];
      if queue.active.Some? && queue.active.value.request == ticket.request {
        if queue.queued == [] {
          queue := queue.(active := None);
        } else {
          queue := queue.(active := Some(queue.queued[0]), queued := queue.queued[1..]);
        }
        queues := queues[ticket.key := queue];
        return Promoted(queue.active);
      }
      reply := Failed(StaleOperation);
    }

    static method WithRequests(before: set<nat>, tickets: seq<Ticket>) returns (requests: set<nat>)
      ensures requests == before + Requests(tickets)
    {
      requests := before;
      for i := 0 to |tickets|
        invariant requests == before + Requests(tickets[..i])
      {
        assert tickets[..i + 1] == tickets[..i] + [tickets[i]];
        requests := requests + {tickets[i].request};
      }
      assert tickets[..|tickets|] == tickets;
    }

    method Drop(key: Key, generation: nat) returns (reply: Reply)
      requires Consistent()
      modifies this`queues
      ensures Consistent()
      ensures Outcome(Now(), reply) == DropQueue(old(Now()), key, generation)
      ensures reply != Failed(QueueOrphan)
    {
      DropGood(Now(), key, generation);
      DropEmpties(Now(), key, generation);
      if key !in queues {
        return Failed(InvalidRequest);
      }
      var queue := queues[key];
      if queue.generation != generation {
        return Failed(GenerationMismatch);
      }
      var dropped := [];
      if queue.active.Some? {
        dropped := [queue.active.value];
      }
      dropped := dropped + queue.queued;
      var requests := WithRequests(queue.cancelledRequests, dropped);
      queue := queue.(active := None, queued := [], cancelledRequests := requests);
      queues := queues[key := queue];
      reply := if !queue.IsEmpty() then Failed(QueueOrphan) else Dropped(dropped);
    }

    method CancelLive(key: Key, generation: nat, view: Option<View>, admit: Option<ContractError>)
      returns (reply: Reply)
      requires Consistent()
      modifies this
      ensures Consistent()
      ensures Outcome(Now(), reply) == CancelGeneration(old(Now()), key, generation, view, admit)
    {
      var live := LiveGeneration(view, key.task);
      if live.Err? {
        return Failed(live.error);
      }
      if generation != live.value {
        return Failed(GenerationMismatch);
      }
      if admit.Some? {
        return Failed(FromContract(admit.value));
      }
      reply := Drop(key, generation);
    }

    method RecoverLive(key: Key, from: nat, view: Option<View>,
                       admit: Option<ContractError>, settle: Option<ContractError>) returns (reply: Reply)
      requires Consistent()
      modifies this
      ensures Consistent() && reply != Failed(QueueOrphan)
      ensures Outcome(Now(), reply) == RecoverGeneration(old(Now()), key, from, view, admit, settle)
    {
      RecoverEnds(Now(), Recovering(key, from, view, admit, settle));
      RecoverGood(Now(), Recovering(key, from, view, admit, settle));
      var live := LiveGeneration(view, key.task);
      if live.Err? {
        return Failed(live.error);
      }
      if from != live.value {
        return Failed(GenerationMismatch);
      }
      if from >= U64_MAX {
        return Failed(BoundExceeded);
      }
      reply := Drop(key, from);
      if reply.Failed? {
        return;
      }
      if admit.Some? {
        return Failed(FromContract(admit.value));
      }
      if settle.Some? {
        return Failed(FromContract(settle.value));
      }
      reply := Generation(from + 1);
      if key in queues {
        var queue := queues[key];
        queues := queues[key := queue.(generation := from + 1, cancelled := queue.cancelled + {from},
                                       cancelledRequests := {})];
        if !queue.IsEmpty() {
          reply := Failed(QueueOrphan);
        }
      }
    }

    /** One pass of the closing loop. */
    method CloseQueue(key: Key, views: map<nat, View>) returns (reply: Reply)
      requires Consistent()
      modifies this`queues
      ensures Consistent()
      ensures Outcome(Now(), reply) == CloseOne(old(Now()), key, views)
    {
      CloseOneGood(Now(), key, views);
      var live := LiveGeneration(ViewOf(views, key.context), key.task);
      if live.Ok? {
        reply := Drop(key, live.value);
        if reply.Failed? {
          return;
        }
      }
      queues := queues - {key};
      reply := Done;
    }

    method CloseQueues(keys: seq<Key>, views: map<nat, View>) returns (reply: Reply)
      requires Consistent()
      modifies this`queues
      ensures Consistent()
      ensures Outcome(Now(), reply) == CloseKeys(old(Now()), keys, views)
    {
      ghost var start := Now();
      assert keys[0..] == keys;
      for i := 0 to |keys|
        invariant Consistent()
        invariant CloseKeys(start, keys, views) == CloseKeys(Now(), keys[i..], views)
      {
        CloseNext(Now(), keys, i, views);
        reply := CloseQueue(keys[i], views);
        if reply.Failed? {
          return;
        }
      }
      assert keys[|keys|..] == [];
      reply := Done;
    }

    method Close(task: nat, keys: seq<Key>, views: map<nat, View>, close: Option<ContractError>)
      returns (reply: Reply)
      requires Consistent() && ListsTask(keys, Now(), task)
      modifies this
      ensures Consistent() && reply != Failed(QueueOrphan)
      ensures Outcome(Now(), reply) == CloseTask(old(Now()), task, keys, views, close)
      ensures reply == Done ==> forall k :: k in queues <==> k in old(queues) && k.task != task
    {
      ghost var start := Now();
      GenerationRuns.StepNeverOrphans(start, Closing(task, keys, views, close));
      GenerationRuns.ClosedRemovesTask(start, task, keys, views, close);
      reply := CloseQueues(keys, views);
      if reply.Failed? {
        return;
      }
      if close.Some? {
        return Failed(FromContract(close.value));
      }
      var kept := exists k :: k in queues && k.task == task && !queues[k].IsEmpty();
      reply := if kept then Failed(QueueOrphan) else Done;
    }

    /** Work that outlived its generation is never reported, because there is none. */
    method ReportsOrphans(key: Key) returns (orphans: bool)
      requires Consistent()
      ensures !orphans
    {
      GenerationRuns.NoOrphans(Now(), key);
      orphans := key in queues && !queues[key].IsEmpty() && queues[key].generation in queues[key].cancelled;
    }

    method QueuedCount(key: Key) returns (count: nat)
      requires Consistent()
      ensures count == |GenerationRuns.HeldAt(Now(), key)| <= MAX_QUEUE
    {
      count := if key in queues then queues[key].Length() else 0;
    }
  }

  lemma {:induction false} CloseNext(s: State, keys: seq<Key>, i: nat, views: map<nat, View>)
    requires i < |keys|
    ensures CloseKeys(s, keys[i..], views) ==
            var one := CloseOne(s, keys[i], views);
            if one.reply.Failed? then one else CloseKeys(one.state, keys[i + 1..], views)
  {
    assert keys[i..][1..] == keys[i + 1..];
  }
}
