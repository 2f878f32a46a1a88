/** The blocking queue between a producer and one consumer, as steps that each hold the lock. */
module SafeQueue {

  datatype Option<T> = None | Some(value: T)

  /** Where the consumer is: outside dequeue, or inside wait, with or without a wake-up due. */
  datatype Consumer = Away | Asleep(notified: bool)

  /** queue and shutdown are the program's; the rest is the record of what happened. results
      lists the results of the finished calls of dequeue, None for a null pointer. */
  datatype State<T> = State(
    queue: seq<T>, shutdown: bool, consumer: Consumer,
    enqueued: seq<T>, deleted: seq<T>, results: seq<Option<T>>)

  /** Serve is one stretch of dequeue under the lock: from entering, or from waking up with or
      without a notification, to going to sleep or returning. */
  datatype Event<T> = Enqueue(item: T) | Shutdown | Serve

  function Start<T>(): State<T> {
    State([], false, Away, [], [], [])
  }

  function Notified(consumer: Consumer): Consumer {
    if consumer.Asleep? then Asleep(true) else consumer
  }

  function Step<T>(s: State<T>, e: Event<T>): State<T> {
    match e
    case Enqueue(x) => s.(queue := s.queue + [x], consumer := Notified(s.consumer), enqueued := s.enqueued + [x])
    case Shutdown => s.(shutdown := true, consumer := Notified(s.consumer))
    case Serve =>
      if s.shutdown then
        s.(queue := [], consumer := Away, deleted := s.deleted + s.queue, results := s.results + [None])
      else if s.queue == [] then
        s.(consumer := Asleep(false))
      else
        s.(queue := s.queue[1..], consumer := Away, results := s.results + [Some(s.queue[0])])
  }

  /** Any interleaving of producer, owner and consumer. */
  function Run<T>(s: State<T>, events: seq<Event<T>>): State<T> {
    if events == [] then s else Step(Run(s, events[..|events| - 1]), events[|events| - 1])
  }

  /** The items among results, in order. */
  function Items<T>(results: seq<Option<T>>): seq<T> {
    if results == [] then
      []
    else
      Items(results[..|results| - 1]) + match results[|results| - 1] { case None => [] case Some(x) => [x] }
  }

  lemma ItemsAppend<T>(results: seq<Option<T>>, r: Option<T>)
    ensures Items(results + [r]) == Items(results) + match r { case None => [] case Some(x) => [x] }
  {
    assert (results + [r])[..|results|] == results;
  }

  /** Nothing is lost, doubled or reordered; null means shut down; a sleeper has a wake-up due
      exactly when there is something to wake up for. */
  ghost predicate Inv<T>(s: State<T>) {
    && s.enqueued == Items(s.results) + s.deleted + s.queue
    && (!s.shutdown ==> s.deleted == [] && None !in s.results)
    && (s.consumer.Asleep? ==> (s.consumer.notified <==> s.queue != [] || s.shutdown))
  }

  lemma StepKeepsInv<T>(s: State<T>, e: Event<T>)
    requires Inv(s)
    ensures Inv(Step(s, e))
  {
    hide Items;
    if e.Serve? && s.shutdown {
      ItemsAppend(s.results, None);
      assert Items(s.results + [None]) == Items(s.results);
    } else if e.Serve? && s.queue != [] {
      ItemsAppend(s.results, Some(s.queue[0]));
      assert s.queue == [s.queue[0]] + s.queue[1..];
    }
  }

  lemma {:induction false} InvOverRuns<T>(events: seq<Event<T>>)
    ensures Inv(Run(Start(), events))
  {
    if events != [] {
      InvOverRuns(events[..|events| - 1]);
      StepKeepsInv(Run(Start(), events[..|events| - 1]), events[|events| - 1]);
    }
  }

  /** After shutdown no item is delivered any more, whatever is still enqueued. */
  lemma {:induction false} NothingDeliveredAfterShutdown<T>(s: State<T>, events: seq<Event<T>>)
    requires s.shutdown
    ensures Run(s, events).shutdown && Items(Run(s, events).results) == Items(s.results)
  {
    if events != [] {
      var before := Run(s, events[..|events| - 1]);
      NothingDeliveredAfterShutdown(s, events[..|events| - 1]);
      ItemsAppend(before.results, None);
    }
  }

  /** A wake-up that is due is never in vain: the consumer returns, with the oldest item unless
      the queue was shut down. A consumer left asleep has nothing to do. */
  lemma {:induction false} NoLostWakeUp<T>(events: seq<Event<T>>)
    ensures var s := Run(Start(), events);
            s.consumer.Asleep? ==>
              if s.consumer.notified
              then Step(s, Serve).results == s.results + [if s.shutdown then None else Some(s.queue[0])]
              else Step(s, Serve) == s && s.queue == [] && !s.shutdown
  {
    InvOverRuns(events);
  }

  /** n stretches of the consumer. */
  function Serves<T>(n: nat): seq<Event<T>> {
    seq(n, _ => Serve)
  }

  /** Left alone, the consumer hands out exactly what was pending, in order. */
  lemma {:induction false} Drains<T>(s: State<T>, n: nat)
    requires !s.shutdown && n <= |s.queue|
    ensures var t := Run(s, Serves(n));
            && !t.shutdown && t.queue == s.queue[n..] && t.enqueued == s.enqueued
            && Items(t.results) == Items(s.results) + s.queue[..n]
  {
    hide Items;
    if n > 0 {
      Drains(s, n - 1);
      assert Serves<T>(n)[..n - 1] == Serves(n - 1);
      var t := Run(s, Serves(n - 1));
      assert Run(s, Serves(n)) == Step(t, Serve);
      hide Run, Serves;
      ItemsAppend(t.results, Some(t.queue[0]));
      assert s.queue[..n] == s.queue[..n - 1] + [s.queue[n - 1]];
      assert t.queue[0] == s.queue[n - 1] && t.queue[1..] == s.queue[n..];
    }
  }

  /** So every item enqueued before a shutdown reaches a consumer that keeps calling. */
  lemma EverythingArrives<T>(events: seq<Event<T>>)
    ensures var s := Run(Start(), events);
            !s.shutdown ==> Items(Run(s, Serves(|s.queue|)).results) == s.enqueued
  {
    hide Run, Items, Serves;
    InvOverRuns(events);
    var s := Run(Start(), events);
    if !s.shutdown {
      Drains(s, |s.queue|);
      assert s.queue[..|s.queue|] == s.queue;
      assert Items(s.results) + s.deleted == Items(s.results);
    }
  }

  /** What a stretch of dequeue ends in. */
  datatype Outcome<T> = Waits | Returns(result: Option<T>)

  class SafeQueue<T> {
    var queue: seq<T>
    var isShutdown: bool
    ghost var consumer: Consumer
    ghost var enqueued: seq<T>
    ghost var deleted: seq<T>
    ghost var results: seq<Option<T>>

    ghost function View(): State<T>
      reads this
    {
      State(queue, isShutdown, consumer, enqueued, deleted, results)
    }

    constructor ()
      ensures View() == Start()
    {
      queue, isShutdown, consumer := [], false, Away;
      enqueued, deleted, results := [], [], [];
    }

    method Enqueue(t: T)
      modifies this
      ensures View() == Step(old(View()), Event.Enqueue(t))
    {
      queue, enqueued := queue + [t], enqueued + [t];
      consumer := Notified(consumer);
    }

    method Shutdown()
      modifies this
      ensures View() == Step(old(View()), Event.Shutdown)
    {
      isShutdown := true;
      consumer := Notified(consumer);
    }

    /** dequeue from one point where it takes the lock to the next where it gives it up. */
    method Dequeue() returns (r: Outcome<T>)
      modifies this
      ensures View() == Step(old(View()), Serve)
      ensures r == if |results| > |old(results)| then Returns(results[|results| - 1]) else Waits
    {
      if !isShutdown && queue == [] {
        consumer := Asleep(false);
        return Waits;
      }
      consumer := Away;
      if isShutdown {
        while queue != []
          invariant deleted + queue == old(deleted + queue)
          invariant isShutdown && consumer == Away && enqueued == old(enqueued) && results == old(results)
          decreases |queue|
        {
          var val := queue[0];
          queue, deleted := queue[1..], deleted + [val];
        }
        results := results + [None];
        r := Returns(None);
      } else {
        var val := queue[0];
        queue := queue[1..];
        results := results + [Some(val)];
        r := Returns(Some(val));
      }
    }
  }
}
