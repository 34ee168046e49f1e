/** When each operation of the generation authority succeeds, and what it then leaves. */
module GenerationReplies {
  import opened Common
  import opened GenerationAuthority
  import opened GenerationRuns

  /** Every other queue is as it was. */
  ghost predicate OthersStay(s: State, t: State, key: Key) {
    forall k :: k != key ==> (k in t.queues <==> k in s.queues) && (k in s.queues ==> t.queues[k] == s.queues[k])
  }

  /** The book shows the context as the task's own, open, and of this generation. */
  predicate Shows(view: Option<View>, task: nat, generation: nat) {
    view == Some(View(task, generation, false))
  }

  /** A ticket is minted exactly when the book shows its generation and the queue has room; it goes last. */
  lemma EnqueuesExactly(s: State, e: Event)
    requires Valid(s) && e.Enqueueing?
    ensures var (t, reply) := (Step(s, e).state, Step(s, e).reply);
            && (reply.Minted? <==> Shows(e.view, e.key.task, e.generation) && e.key in s.queues && |HeldAt(s, e.key)| < MAX_QUEUE)
            && (if reply.Minted?
                then && reply.ticket == Ticket(e.request, e.key, e.tab, e.generation, e.kind)
                     && HeldAt(t, e.key) == HeldAt(s, e.key) + [reply.ticket] && OthersStay(s, t, e.key)
                else t == s)
  {
    if e.key in s.queues {
      assert Shaped(s.queues[e.key]);
      PushedHeld(s.queues[e.key], Ticket(e.request, e.key, e.tab, e.generation, e.kind));
    }
  }

  /**
   * A completion succeeds exactly for the oldest held ticket, while the book shows its generation and
   * that generation was not recovered from.
   */
  lemma CompletesExactly(s: State, e: Event)
    requires Valid(s) && e.Completing?
    ensures var held := HeldAt(s, e.ticket.key);
            && (Step(s, e).reply.Promoted? <==>
                  && Shows(e.view, e.ticket.key.task, e.ticket.generation)
                  && held != [] && held[0].request == e.ticket.request
                  && e.ticket.generation !in s.queues[e.ticket.key].cancelled)
            && (if Step(s, e).reply.Promoted?
                then && HeldAt(Step(s, e).state, e.ticket.key) == held[1..] && OthersStay(s, Step(s, e).state, e.ticket.key)
                     && Step(s, e).reply.next == (if |held| > 1 then Some(held[1]) else None)
                else Step(s, e).state == s)
  {
    var t := e.ticket;
    AcceptedExactly(s, t, e.view);
    if t.key in s.queues {
      var q := s.queues[t.key];
      assert Shaped(q) && Owned(q, t.key, s.issued);
      if q.active.Some? {
        PromotedHeld(q);
        assert q.Held()[0] == q.active.value && q.active.value in q.Held();
      }
    }
  }

  /** A cancellation succeeds exactly when book and queue agree on the generation; it empties the queue. */
  lemma CancelsExactly(s: State, e: Event)
    requires e.Cancelling?
    ensures var (t, reply) := (Step(s, e).state, Step(s, e).reply);
            && (reply.Dropped? <==> && Shows(e.view, e.key.task, e.generation) && e.admit == None
                                    && e.key in s.queues && s.queues[e.key].generation == e.generation)
            && (if reply.Dropped?
                then && reply.tickets == HeldAt(s, e.key) && HeldAt(t, e.key) == [] && OthersStay(s, t, e.key)
                     && t.queues[e.key].generation == e.generation
                else t == s)
  {
  }

  /**
   * A recovery succeeds exactly when book and queue agree on a generation below the largest one and the
   * book consents twice; the queue is then empty and of the reported generation, the next one.
   */
  lemma RecoversExactly(s: State, e: Event)
    requires e.Recovering?
    ensures var (t, reply) := (Step(s, e).state, Step(s, e).reply);
            && (reply.Generation? <==> && Shows(e.view, e.key.task, e.from) && e.from < U64_MAX
                                       && e.admit == None && e.settle == None
                                       && e.key in s.queues && s.queues[e.key].generation == e.from)
            && OthersStay(s, t, e.key)
            && (reply.Generation? ==>
                  && reply.generation == e.from + 1 && e.key in t.queues && t.queues[e.key].generation == reply.generation
                  && HeldAt(t, e.key) == [] && e.from in t.queues[e.key].cancelled)
  {
    DropEmpties(s, e.key, e.from);
  }

  /** A context is created exactly when there is room or it is there already and the book consents. */
  lemma CreatesExactly(s: State, e: Event)
    requires e.Creating?
    ensures var (t, reply) := (Step(s, e).state, Step(s, e).reply);
            && (reply.Generation? <==> e.admit == None && (|s.queues| < MAX_CONTEXTS || e.key in s.queues))
            && (if reply.Generation?
                then && reply.generation == 1 && e.key in t.queues && t.queues[e.key].generation == 1
                     && HeldAt(t, e.key) == [] && OthersStay(s, t, e.key)
                else t == s)
  {
  }

  // ----- Closing

  /** Book and queue do not contradict each other: if the book shows the context open, it shows the queue's generation. */
  predicate Agrees(s: State, key: Key, views: map<nat, View>)
    requires key in s.queues
  {
    key.context in views && views[key.context].task == key.task && !views[key.context].closed ==>
      views[key.context].generation == s.queues[key].generation
  }

  lemma {:induction false} CloseKeysExactly(s: State, keys: seq<Key>, views: map<nat, View>)
    requires NoDup(keys) && forall k :: k in keys ==> k in s.queues
    ensures !CloseKeys(s, keys, views).reply.Failed? <==> forall k :: k in keys ==> Agrees(s, k, views)
    decreases |keys|
  {
    if keys != [] {
      var key, rest := keys[0], keys[1..];
      assert keys == [key] + rest && key in keys;
      CloseOneRemoves(s, key, views);
      CloseOneExactly(s, key, views);
      if Agrees(s, key, views) {
        var t := CloseOne(s, key, views).state;
        assert forall k :: k in rest ==> k in keys && k != key;
        assert forall k :: k in rest ==> (Agrees(t, k, views) <==> Agrees(s, k, views));
        CloseKeysExactly(t, rest, views);
      }
    }
  }

  lemma CloseOneExactly(s: State, key: Key, views: map<nat, View>)
    requires key in s.queues
    ensures !CloseOne(s, key, views).reply.Failed? <==> Agrees(s, key, views)
  {
    var live := LiveGeneration(ViewOf(views, key.context), key.task);
    if live.Ok? {
      DropEmpties(s, key, live.value);
    }
  }

  /** A task is closed exactly when the book consents and contradicts none of its queues. */
  lemma {:induction false} ClosesExactly(s: State, e: Event)
    requires e.Closing? && ListsTask(e.keys, s, e.task)
    ensures Step(s, e).reply == Done <==>
            e.close == None && forall k :: k in s.queues && k.task == e.task ==> Agrees(s, k, e.views)
  {
    CloseKeysExactly(s, e.keys, e.views);
    var n := CloseKeysRemoves(s, e.keys, e.views);
    if !CloseKeys(s, e.keys, e.views).reply.Failed? {
      ClosedKeepsNoWork(s, e);
    }
  }

  // ----- Generations over a run

  /** The recoveries of a context since it was last created. */
  function Recoveries(states: seq<State>, events: seq<Event>, key: Key, n: nat): nat
    requires n < |states| == |events| + 1
  {
    if n == 0 then 0
    else
      var s, e := states[n - 1], events[n - 1];
      if e.Creating? && e.key == key && Step(s, e).reply.Generation? then 0
      else Recoveries(states, events, key, n - 1) + (if e.Recovering? && e.key == key && Step(s, e).reply.Generation? then 1 else 0)
  }

  ghost predicate Counts(q: Queue, recoveries: nat) {
    q.generation == recoveries + 1 && forall g :: g in q.cancelled <==> 1 <= g < q.generation
  }

  lemma StepCounts(s: State, e: Event, key: Key, n: nat)
    requires key in s.queues ==> Counts(s.queues[key], n)
    requires key in Step(s, e).state.queues
    ensures Counts(Step(s, e).state.queues[key],
                   if e.Creating? && e.key == key && Step(s, e).reply.Generation? then 0
                   else n + (if e.Recovering? && e.key == key && Step(s, e).reply.Generation? then 1 else 0))
  {
    if e.Closing? {
      CloseTaskState(s, e.task, e.keys, e.views, e.close);
      var m := CloseKeysRemoves(s, e.keys, e.views);
    } else if e.Recovering? {
      DropEmpties(s, e.key, e.from);
    }
  }

  /**
   * In every reachable state the generation of a queue is one more than the number of recoveries since
   * the context was created, and the generations below it, and no others, count as recovered from.
   */
  lemma {:induction false} GenerationCounts(states: seq<State>, events: seq<Event>, key: Key, i: nat)
    requires IsRun(states, events) && i < |states| && key in states[i].queues
    ensures Counts(states[i].queues[key], Recoveries(states, events, key, i))
  {
    if i > 0 {
      if key in states[i - 1].queues {
        GenerationCounts(states, events, key, i - 1);
      }
      assert states[i - 1 + 1] == Step(states[i - 1], events[i - 1]).state;
      StepCounts(states[i - 1], events[i - 1], key, Recoveries(states, events, key, i - 1));
    }
  }
}
