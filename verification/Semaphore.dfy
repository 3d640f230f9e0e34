/** The lightweight semaphore, as interleaved steps of any number of threads under sequential
    consistency: a count that may go negative in front of a kernel semaphore.  Waiting for one is
    waiting for at most one of many, so both forms are one operation here.  How often a thread spins
    and when a wait times out or fails is left open. */
module Semaphore {
  import opened Sums

  /** What follows an unsuccessful try: give up, or go on to wait. */
  datatype Then = GiveUp | Wait

  datatype Pc =
    | Idle
    | TryLoad(max: nat, got: nat, next: Then)
    | TryCas(max: nat, got: nat, next: Then, seen: int)
    | Spin(max: nat)
    | SpinCas(max: nat, seen: int)
    | Blocked(max: nat)
    | Readjust(max: nat)
    | ReadjustCas(max: nat, seen: int)
    | GotOne(max: nat)
    | Acquired(permits: nat)
    | Signal(permits: nat)
    | Release(tokens: nat)

  /** Auxiliary totals: initial and signalled permits, permits acquired, and permits that their
      holders have made use of. */
  datatype State = State(count: int, tokens: nat, pcs: seq<Pc>, initial: nat, signalled: nat, acquired: nat, used: nat)

  datatype Action =
    | BeginWait(t: nat, max: nat, next: Then)
    | BeginSignal(t: nat, permits: nat)
    | Use(t: nat, permits: nat)
    | Move(t: nat)
    | StopSpinning(t: nat)
    | TimeOut(t: nat)
    | SpuriousFailure(t: nat)

  function Init(initial: nat, threads: nat): State {
    State(initial, 0, seq(threads, i => Idle), initial, 0, 0, 0)
  }

  function Min(a: int, b: int): int {
    if a < b then a else b
  }

  function At(s: State, t: nat, pc: Pc): State
    requires t < |s.pcs|
  {
    s.(pcs := s.pcs[t := pc])
  }

  /** Up to max permits are taken out of a positive count. */
  function Take(s: State, t: nat, max: nat, got: nat): State
    requires t < |s.pcs| && s.count > 0
  {
    var n := Min(s.count, max);
    At(s, t, Acquired(got + n)).(count := if s.count > max then s.count - max else 0, acquired := s.acquired + n)
  }

  function MoveThread(s: State, t: nat): State
    requires t < |s.pcs|
  {
    match s.pcs[t]
    case Idle => s
    case TryLoad(max, got, next) => At(s, t, TryCas(max, got, next, s.count))
    case TryCas(max, got, next, seen) =>
      if seen <= 0 then At(s, t, if got == 0 && max > 0 && next == Wait then Spin(max) else Acquired(got))
      else if s.count == seen then Take(s, t, max, got)
      else At(s, t, TryCas(max, got, next, s.count))
    case Spin(max) => At(s, t, SpinCas(max, s.count))
    case SpinCas(max, seen) =>
      if seen > 0 && s.count == seen then Take(s, t, max, 0) else At(s, t, Spin(max))
    case Blocked(max) =>
      if s.tokens > 0 then At(s, t, GotOne(max)).(tokens := s.tokens - 1, acquired := s.acquired + 1) else s
    case Readjust(max) => At(s, t, ReadjustCas(max, s.count))
    case ReadjustCas(max, seen) =>
      if seen >= 0 && s.tokens > 0 then At(s, t, GotOne(max)).(tokens := s.tokens - 1, acquired := s.acquired + 1)
      else if seen < 0 && s.count == seen then At(s, t, Acquired(0)).(count := seen + 1)
      else At(s, t, Readjust(max))
    case GotOne(max) => At(s, t, if max > 1 then TryLoad(max - 1, 1, GiveUp) else Acquired(1))
    case Acquired(n) => if n == 0 then At(s, t, Idle) else s
    case Signal(n) =>
      var release := Min(-s.count, n);
      At(s, t, if release > 0 then Release(release) else Idle).(count := s.count + n, signalled := s.signalled + n)
    case Release(r) =>
      if r == 0 then At(s, t, Idle) else At(s, t, Release(r - 1)).(tokens := s.tokens + 1)
  }

  predicate Enabled(s: State, a: Action) {
    && a.t < |s.pcs|
    && (a.BeginWait? || a.BeginSignal? ==> s.pcs[a.t] == Idle)
    && (a.Use? ==> s.pcs[a.t].Acquired? && a.permits <= s.pcs[a.t].permits)
    && (a.StopSpinning? ==> s.pcs[a.t].Spin?)
    && (a.TimeOut? ==> s.pcs[a.t].Blocked?)
    && (a.SpuriousFailure? ==> s.pcs[a.t].TryCas? && s.pcs[a.t].seen > 0)
  }

  function Step(s: State, a: Action): State
    requires Enabled(s, a)
  {
    match a
    case BeginWait(t, max, next) => At(s, t, TryLoad(max, 0, next))
    case BeginSignal(t, n) => At(s, t, Signal(n))
    case Use(t, n) => At(s, t, Acquired(s.pcs[t].permits - n)).(used := s.used + n)
    case Move(t) => MoveThread(s, t)
    case StopSpinning(t) =>
      var max := s.pcs[t].max;
      if s.count > 0 then At(s, t, GotOne(max)).(count := s.count - 1, acquired := s.acquired + 1)
      else At(s, t, Blocked(max)).(count := s.count - 1)
    case TimeOut(t) => At(s, t, Readjust(s.pcs[t].max))
    case SpuriousFailure(t) =>
      var TryCas(max, got, next, _) := s.pcs[t];
      At(s, t, TryCas(max, got, next, s.count))
  }

  // ---------- Sums over the threads ----------

  /** Waiting threads, kernel tokens about to be released, permits held, permits to be signalled. */
  datatype Weight = Waiters | Releases | Held | Announced

  function Weigh(w: Weight, pc: Pc): nat {
    match w
    case Waiters => if pc.Blocked? || pc.Readjust? || pc.ReadjustCas? then 1 else 0
    case Releases => if pc.Release? then pc.tokens else 0
    case Held =>
      if pc.TryLoad? || pc.TryCas? then pc.got
      else if pc.GotOne? then 1
      else if pc.Acquired? then pc.permits
      else 0
    case Announced => if pc.Signal? then pc.permits else 0
  }

  // ---------- The invariant ----------

  function Positive(n: int): nat {
    if n > 0 then n else 0
  }

  /** No permit is made or lost: those that entered are acquired, or in the count, or owed to a
      waiter; and each waiter is either covered by a kernel token, present or about to be released,
      or is one of those the negative count stands for. */
  ghost predicate Inv(s: State) {
    && s.initial + s.signalled == s.acquired + s.count + Sum(Weigh, Waiters, s.pcs)
    && Sum(Weigh, Waiters, s.pcs) == s.tokens + Sum(Weigh, Releases, s.pcs) + Positive(-s.count)
    && s.acquired == s.used + Sum(Weigh, Held, s.pcs)
  }

  /** A step of one thread: the sums move by what the thread's place changes. */
  ghost predicate Balanced(s: State, t: nat, s': State)
    requires t < |s.pcs|
  {
    && |s'.pcs| == |s.pcs| && s'.pcs == s.pcs[t := s'.pcs[t]]
    && s'.initial == s.initial
    && var p, q := s.pcs[t], s'.pcs[t];
       var waiters := Weigh(Waiters, q) - Weigh(Waiters, p);
       var releases := Weigh(Releases, q) - Weigh(Releases, p);
       var held := Weigh(Held, q) - Weigh(Held, p);
       && s'.signalled - s.signalled == s'.acquired - s.acquired + s'.count - s.count + waiters
       && waiters == s'.tokens - s.tokens + releases + Positive(-s'.count) - Positive(-s.count)
       && s'.acquired - s.acquired == s'.used - s.used + held
  }

  /** What a step announces, signals and uses up, in terms of what the call asked for. */
  ghost predicate Accounted(s: State, t: nat, s': State, announced: nat, used: nat)
    requires t < |s.pcs|
  {
    && |s'.pcs| == |s.pcs|
    && s'.signalled - s.signalled + Weigh(Announced, s'.pcs[t]) - Weigh(Announced, s.pcs[t]) == announced
    && s'.used - s.used == used
  }

  lemma BalancedKeepsInv(s: State, t: nat, s': State)
    requires Inv(s) && t < |s.pcs| && Balanced(s, t, s')
    ensures Inv(s')
  {
    SumUpdate(Weigh, Waiters, s.pcs, t, s'.pcs[t]);
    SumUpdate(Weigh, Releases, s.pcs, t, s'.pcs[t]);
    SumUpdate(Weigh, Held, s.pcs, t, s'.pcs[t]);
  }

  lemma TryStep(s: State, t: nat)
    requires t < |s.pcs|
    requires s.pcs[t].TryLoad? || s.pcs[t].TryCas? || s.pcs[t].Spin? || s.pcs[t].SpinCas? || s.pcs[t].GotOne?
    ensures Balanced(s, t, MoveThread(s, t))
    ensures Accounted(s, t, MoveThread(s, t), 0, 0)
  {
  }

  lemma WaitStep(s: State, t: nat)
    requires t < |s.pcs| && (s.pcs[t].Blocked? || s.pcs[t].Readjust? || s.pcs[t].ReadjustCas?)
    ensures Balanced(s, t, MoveThread(s, t))
    ensures Accounted(s, t, MoveThread(s, t), 0, 0)
  {
  }

  lemma SignalStep(s: State, t: nat)
    requires t < |s.pcs| && (s.pcs[t].Idle? || s.pcs[t].Acquired? || s.pcs[t].Signal? || s.pcs[t].Release?)
    ensures Balanced(s, t, MoveThread(s, t))
    ensures Accounted(s, t, MoveThread(s, t), 0, 0)
  {
  }

  lemma StepBalanced(s: State, a: Action)
    requires Enabled(s, a)
    ensures Balanced(s, a.t, Step(s, a))
    ensures Accounted(s, a.t, Step(s, a), if a.BeginSignal? then a.permits else 0, if a.Use? then a.permits else 0)
  {
    if a.Move? {
      match s.pcs[a.t] {
        case Blocked(_) => WaitStep(s, a.t);
        case Readjust(_) => WaitStep(s, a.t);
        case ReadjustCas(_, _) => WaitStep(s, a.t);
        case Idle => SignalStep(s, a.t);
        case Acquired(_) => SignalStep(s, a.t);
        case Signal(_) => SignalStep(s, a.t);
        case Release(_) => SignalStep(s, a.t);
        case _ => TryStep(s, a.t);
      }
    }
  }

  lemma StepKeepsInv(s: State, a: Action)
    requires Inv(s) && Enabled(s, a)
    ensures Inv(Step(s, a))
  {
    StepBalanced(s, a);
    BalancedKeepsInv(s, a.t, Step(s, a));
  }

  lemma InitInv(initial: nat, threads: nat)
    ensures Inv(Init(initial, threads))
  {
    var s := Init(initial, threads);
    ZeroSum(Weigh, Waiters, s.pcs);
    ZeroSum(Weigh, Releases, s.pcs);
    ZeroSum(Weigh, Held, s.pcs);
  }

  // ---------- Whole runs ----------

  ghost predicate IsRun(run: seq<State>, actions: seq<Action>, initial: nat, threads: nat) {
    && |run| == |actions| + 1
    && run[0] == Init(initial, threads)
    && forall i {:trigger actions[i]} :: 0 <= i < |actions| ==>
          Enabled(run[i], actions[i]) && run[i + 1] == Step(run[i], actions[i])
  }

  lemma {:induction false} RunKeepsInv(run: seq<State>, actions: seq<Action>, initial: nat, threads: nat, i: nat)
    requires IsRun(run, actions, initial, threads) && i < |run|
    ensures Inv(run[i]) && run[i].initial == initial && |run[i].pcs| == threads
  {
    if i == 0 {
      InitInv(initial, threads);
    } else {
      RunKeepsInv(run, actions, initial, threads, i - 1);
      StepBalanced(run[i - 1], actions[i - 1]);
      BalancedKeepsInv(run[i - 1], actions[i - 1].t, run[i]);
    }
  }

  /** Permits that could still be acquired: in the count, or as kernel tokens for waiting threads. */
  function Available(s: State): int {
    s.initial + s.signalled - s.acquired
  }

  /** In every interleaving, through time-outs too: the permits that entered are acquired, counted or
      owed to waiters; waiters are covered by kernel tokens or by the negative count; so no more is
      ever acquired than was put in, and what was not acquired can be: it is the positive count or
      a token that has a waiter of its own. */
  lemma PermitsConserved(run: seq<State>, actions: seq<Action>, initial: nat, threads: nat, i: nat)
    requires IsRun(run, actions, initial, threads) && i < |run|
    ensures var s := run[i];
            var waiters := Sum(Weigh, Waiters, s.pcs);
            var woken := s.tokens + Sum(Weigh, Releases, s.pcs);
            && initial + s.signalled == s.acquired + s.count + waiters
            && waiters == woken + Positive(-s.count)
            && Available(s) == Positive(s.count) + woken >= 0
            && s.acquired == s.used + Sum(Weigh, Held, s.pcs)
  {
    RunKeepsInv(run, actions, initial, threads, i);
  }

  /** No lost wake-up, and no stray one: kernel tokens, present or on their way, never outnumber the
      waiters; they match them one to one when the count is not negative; and the count never goes below minus
      the number of threads, so the number of tokens to release, cast to an int, is at most that. */
  lemma WakeUpsMatchWaiters(run: seq<State>, actions: seq<Action>, initial: nat, threads: nat, i: nat, t: nat)
    requires IsRun(run, actions, initial, threads) && i < |run|
    ensures var s := run[i];
            var waiters := Sum(Weigh, Waiters, s.pcs);
            var woken := s.tokens + Sum(Weigh, Releases, s.pcs);
            && woken <= waiters <= threads && 0 <= s.count + threads
            && (s.count >= 0 ==> woken == waiters)
            && (t < |s.pcs| && s.pcs[t].Release? ==> s.pcs[t].tokens <= threads)
  {
    RunKeepsInv(run, actions, initial, threads, i);
    var s := run[i];
    SumAtMost(Weigh, Waiters, s.pcs);
    if t < |s.pcs| {
      SumAtLeast(Weigh, Releases, s.pcs, t);
    }
  }

  /** Once every thread is at rest nothing is hidden: no token is left in the kernel semaphore, and
      the count is what entered less what was used. */
  lemma RestLeavesCount(run: seq<State>, actions: seq<Action>, initial: nat, threads: nat, i: nat)
    requires IsRun(run, actions, initial, threads) && i < |run|
    requires forall t :: 0 <= t < |run[i].pcs| ==> run[i].pcs[t] == Idle
    ensures run[i].tokens == 0 && run[i].count == initial + run[i].signalled - run[i].used >= 0
  {
    RunKeepsInv(run, actions, initial, threads, i);
    ZeroSum(Weigh, Waiters, run[i].pcs);
    ZeroSum(Weigh, Releases, run[i].pcs);
    ZeroSum(Weigh, Held, run[i].pcs);
  }
}
