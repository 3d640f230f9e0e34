/** The blocking queue: an inner queue guarded by the lightweight semaphore.  A producer enqueues and
    then signals; a consumer waits and then repeats the inner dequeue until it has got as many items
    as it holds permits.  The inner dequeue may come back with fewer items than there are. */
module BlockingQueue {
  import opened Semaphore
  import Calls = SemaphoreCalls
  import opened Sums

  /** Auxiliary: all items ever enqueued and all ever dequeued. */
  datatype Queue<T> = Queue(sema: State, items: multiset<T>, enqueued: multiset<T>, dequeued: multiset<T>)

  datatype Call<T> =
    | Enqueue(t: nat, batch: multiset<T>)
    | InnerDequeue(t: nat, taken: multiset<T>)
    | Sema(action: Action)

  function Start<T>(threads: nat): Queue<T> {
    Queue(Init(0, threads), multiset{}, multiset{}, multiset{})
  }

  /** The thread's own part of a call and the semaphore's steps; signals only follow an enqueue, and
      permits are only used up by dequeuing. */
  predicate MayCall<T>(q: Queue<T>, c: Call<T>) {
    match c
    case Enqueue(t, batch) => Enabled(q.sema, BeginSignal(t, |batch|))
    case InnerDequeue(t, taken) => taken <= q.items && Enabled(q.sema, Use(t, |taken|))
    case Sema(a) => Enabled(q.sema, a) && !a.BeginSignal? && !a.Use?
  }

  function After<T>(q: Queue<T>, c: Call<T>): Queue<T>
    requires MayCall(q, c)
  {
    match c
    case Enqueue(t, batch) =>
      Queue(Step(q.sema, BeginSignal(t, |batch|)), q.items + batch, q.enqueued + batch, q.dequeued)
    case InnerDequeue(t, taken) =>
      Queue(Step(q.sema, Use(t, |taken|)), q.items - taken, q.enqueued, q.dequeued + taken)
    case Sema(a) => q.(sema := Step(q.sema, a))
  }

  /** Every item in the inner queue is there for a permit that can still be acquired, for one that a
      thread holds, or for one that its producer is about to signal. */
  ghost predicate QueueInv<T>(q: Queue<T>) {
    && Inv(q.sema)
    && |q.items| == Available(q.sema) + Sum(Weigh, Held, q.sema.pcs) + Sum(Weigh, Announced, q.sema.pcs)
    && q.enqueued == q.items + q.dequeued
  }

  lemma AnnouncedStep(s: State, a: Action)
    requires Enabled(s, a)
    ensures Step(s, a).signalled - s.signalled + Sum(Weigh, Announced, Step(s, a).pcs) - Sum(Weigh, Announced, s.pcs)
            == if a.BeginSignal? then a.permits else 0
    ensures Step(s, a).used - s.used == if a.Use? then a.permits else 0
  {
    StepBalanced(s, a);
    var s' := Step(s, a);
    SumUpdate(Weigh, Announced, s.pcs, a.t, s'.pcs[a.t]);
  }

  function SemaAction<T>(c: Call<T>): Action {
    match c
    case Enqueue(t, batch) => BeginSignal(t, |batch|)
    case InnerDequeue(t, taken) => Use(t, |taken|)
    case Sema(a) => a
  }

  lemma CallKeepsInv<T>(q: Queue<T>, c: Call<T>)
    requires QueueInv(q) && MayCall(q, c)
    ensures QueueInv(After(q, c))
  {
    var a := SemaAction(c);
    AnnouncedStep(q.sema, a);
    StepBalanced(q.sema, a);
    StepKeepsInv(q.sema, a);
  }

  ghost predicate IsQueueRun<T(!new)>(run: seq<Queue<T>>, calls: seq<Call<T>>, threads: nat) {
    && |run| == |calls| + 1
    && run[0] == Start(threads)
    && forall i {:trigger calls[i]} :: 0 <= i < |calls| ==>
          MayCall(run[i], calls[i]) && run[i + 1] == After(run[i], calls[i])
  }

  lemma {:induction false} RunKeepsQueueInv<T(!new)>(run: seq<Queue<T>>, calls: seq<Call<T>>, threads: nat, i: nat)
    requires IsQueueRun(run, calls, threads) && i < |run|
    ensures QueueInv(run[i])
  {
    if i == 0 {
      InitInv(0, threads);
      ZeroSum(Weigh, Held, run[0].sema.pcs);
      ZeroSum(Weigh, Announced, run[0].sema.pcs);
    } else {
      RunKeepsQueueInv(run, calls, threads, i - 1);
      CallKeepsInv(run[i - 1], calls[i - 1]);
    }
  }

  /** In every run the inner queue holds at least as many items as there are available permits and
      permits held together, so a thread past the semaphore always finds as many items left as it
      holds permits, whatever the others take; no item is lost or delivered more often than it was
      enqueued. */
  lemma PermitImpliesItem<T(!new)>(run: seq<Queue<T>>, calls: seq<Call<T>>, threads: nat, i: nat, t: nat)
    requires IsQueueRun(run, calls, threads) && i < |run|
    ensures var q := run[i];
            && |q.items| >= Available(q.sema) + Sum(Weigh, Held, q.sema.pcs)
            && Available(q.sema) >= Positive(q.sema.count)
            && (t < |q.sema.pcs| && q.sema.pcs[t].Acquired? ==> |q.items| >= q.sema.pcs[t].permits)
            && q.enqueued == q.items + q.dequeued
  {
    RunKeepsQueueInv(run, calls, threads, i);
    var q := run[i];
    if t < |q.sema.pcs| {
      SumAtLeast(Weigh, Held, q.sema.pcs, t);
    }
  }

  /** Two threads past the semaphore do not compete for the same item. */
  lemma {:induction false} HeldByTwo(pcs: seq<Pc>, t: nat, u: nat)
    requires t < u < |pcs|
    ensures Weigh(Held, pcs[t]) + Weigh(Held, pcs[u]) <= Sum(Weigh, Held, pcs)
  {
    if t == 0 {
      SumAtLeast(Weigh, Held, pcs[1..], u - 1);
    } else {
      HeldByTwo(pcs[1..], t - 1, u - 1);
    }
  }

  lemma PermitsNeverShareItems<T(!new)>(run: seq<Queue<T>>, calls: seq<Call<T>>, threads: nat, i: nat, t: nat, u: nat)
    requires IsQueueRun(run, calls, threads) && i < |run|
    requires t < u < |run[i].sema.pcs| && run[i].sema.pcs[t].Acquired? && run[i].sema.pcs[u].Acquired?
    ensures |run[i].items| >= run[i].sema.pcs[t].permits + run[i].sema.pcs[u].permits
  {
    RunKeepsQueueInv(run, calls, threads, i);
    HeldByTwo(run[i].sema.pcs, t, u);
  }

  /** Once every thread is at rest, the semaphore's count is the number of items in the queue. */
  lemma RestingCountIsSize<T(!new)>(run: seq<Queue<T>>, calls: seq<Call<T>>, threads: nat, i: nat)
    requires IsQueueRun(run, calls, threads) && i < |run|
    requires forall t :: 0 <= t < |run[i].sema.pcs| ==> run[i].sema.pcs[t] == Idle
    ensures run[i].sema.count == |run[i].items|
  {
    RunKeepsQueueInv(run, calls, threads, i);
    var pcs := run[i].sema.pcs;
    ZeroSum(Weigh, Waiters, pcs);
    ZeroSum(Weigh, Held, pcs);
    ZeroSum(Weigh, Announced, pcs);
  }

  // ---------- What one dequeue takes ----------

  function SemaActions<T>(calls: seq<Call<T>>): (r: seq<Action>)
    ensures |r| == |calls| && forall i :: 0 <= i < |r| ==> r[i] == SemaAction(calls[i])
  {
    seq(|calls|, i requires 0 <= i < |calls| => SemaAction(calls[i]))
  }

  function SemaRun<T>(run: seq<Queue<T>>): (r: seq<State>)
    ensures |r| == |run| && forall i :: 0 <= i < |r| ==> r[i] == run[i].sema
  {
    seq(|run|, i requires 0 <= i < |run| => run[i].sema)
  }

  /** What the queue does to its semaphore is a run of the semaphore. */
  lemma SemaphoreRuns<T(!new)>(run: seq<Queue<T>>, calls: seq<Call<T>>, threads: nat)
    requires IsQueueRun(run, calls, threads)
    ensures IsRun(SemaRun(run), SemaActions(calls), 0, threads)
  {
    var states, actions := SemaRun(run), SemaActions(calls);
    forall i | 0 <= i < |actions|
      ensures Enabled(states[i], actions[i]) && states[i + 1] == Step(states[i], actions[i])
    {
      assert MayCall(run[i], calls[i]) && run[i + 1] == After(run[i], calls[i]);
    }
  }

  /** The items that thread t has taken since it last began to wait. */
  function TakenSince<T>(calls: seq<Call<T>>, t: nat): nat {
    if calls == [] then 0
    else
      var n := |calls| - 1;
      match calls[n]
      case Sema(BeginWait(u, _, _)) => if u == t then 0 else TakenSince(calls[..n], t)
      case InnerDequeue(u, taken) => TakenSince(calls[..n], t) + if u == t then |taken| else 0
      case _ => TakenSince(calls[..n], t)
  }

  lemma {:induction false} TakenIsUsed<T(!new)>(run: seq<Queue<T>>, calls: seq<Call<T>>, threads: nat, i: nat, t: nat)
    requires IsQueueRun(run, calls, threads) && i <= |calls|
    ensures TakenSince(calls[..i], t) == Calls.LastCall(SemaActions(calls)[..i], t).used
  {
    if i > 0 {
      TakenIsUsed(run, calls, threads, i - 1, t);
      assert calls[..i][..i - 1] == calls[..i - 1];
      assert SemaActions(calls)[..i][..i - 1] == SemaActions(calls)[..i - 1];
      assert MayCall(run[i - 1], calls[i - 1]);
    }
  }

  /** In every run, what a dequeue has taken and may still take is never more than it asked for; and a
      dequeue that waits for at least one comes away with a permit for one unless it timed out. */
  lemma TakesNoMoreThanAsked<T(!new)>(run: seq<Queue<T>>, calls: seq<Call<T>>, threads: nat, i: nat, t: nat)
    requires IsQueueRun(run, calls, threads) && i < |run| && t < threads
    ensures t < |run[i].sema.pcs|
    ensures var call, pc := Calls.LastCall(SemaActions(calls)[..i], t), run[i].sema.pcs[t];
            && TakenSince(calls[..i], t) + Weigh(Held, pc) <= call.asked
            && (pc.Acquired? && call.next == Wait && call.asked > 0 && !call.timedOut ==>
                  TakenSince(calls[..i], t) + pc.permits > 0)
  {
    SemaphoreRuns(run, calls, threads);
    TakenIsUsed(run, calls, threads, i, t);
    Calls.NoMoreThanAsked(SemaRun(run), SemaActions(calls), 0, threads, i, t);
  }
}
