/** What one call of the semaphore gets, in whatever interleaving: no more than it asked for, as much as
    the count allows when it takes, and something if it waits. */
module SemaphoreCalls {
  import opened Semaphore

  /** Thread t's last call to wait, and what has become of it: the permits that it asked for, whether it
      goes on to wait, how many of its permits have been used, and whether it timed out. */
  datatype Call = Call(asked: nat, next: Then, used: nat, timedOut: bool)

  function LastCall(actions: seq<Action>, t: nat): Call {
    if actions == [] then Call(0, GiveUp, 0, false)
    else
      var n := |actions| - 1;
      var a, call := actions[n], LastCall(actions[..n], t);
      if a.t != t then call
      else
        match a
        case BeginWait(_, max, next) => Call(max, next, 0, false)
        case Use(_, permits) => call.(used := call.used + permits)
        case TimeOut(_) => call.(timedOut := true)
        case _ => call
  }

  /** What the thread holds and what it still wishes for make up what was asked for; past its call it
      holds or has used no more than that, and not nothing if it was to wait and has not timed out. */
  ghost predicate CallOk(pc: Pc, call: Call) {
    match pc
    case TryLoad(max, got, next) => Trying(max, got, next, call)
    case TryCas(max, got, next, _) => Trying(max, got, next, call)
    case Spin(max) => Waiting(max, call)
    case SpinCas(max, _) => Waiting(max, call)
    case Blocked(max) => Waiting(max, call)
    case Readjust(max) => Waiting(max, call) && call.timedOut
    case ReadjustCas(max, _) => Waiting(max, call) && call.timedOut
    case GotOne(max) => Waiting(max, call)
    case Acquired(n) =>
      && n + call.used <= call.asked
      && (call.next == Wait && call.asked > 0 && n + call.used == 0 ==> call.timedOut)
    case _ => call.used <= call.asked
  }

  ghost predicate Trying(max: nat, got: nat, next: Then, call: Call) {
    got + max == call.asked && call.used == 0 && (got == 0 ==> next == call.next)
  }

  ghost predicate Waiting(max: nat, call: Call) {
    max == call.asked > 0 && call.used == 0 && call.next == Wait
  }

  lemma StepKeepsCall(s: State, actions: seq<Action>, a: Action, t: nat)
    requires Enabled(s, a) && t < |s.pcs| && CallOk(s.pcs[t], LastCall(actions, t))
    ensures t < |Step(s, a).pcs| && CallOk(Step(s, a).pcs[t], LastCall(actions + [a], t))
  {
    assert (actions + [a])[..|actions|] == actions;
    if a.t == t && a.Move? {
      MoveKeepsCall(s, t, LastCall(actions, t));
    }
  }

  lemma MoveKeepsCall(s: State, t: nat, call: Call)
    requires t < |s.pcs| && CallOk(s.pcs[t], call)
    ensures CallOk(MoveThread(s, t).pcs[t], call)
  {
  }

  lemma {:induction false} RunKeepsCall(
      run: seq<State>, actions: seq<Action>, initial: nat, threads: nat, i: nat, t: nat)
    requires IsRun(run, actions, initial, threads) && i < |run| && t < threads
    ensures t < |run[i].pcs| && CallOk(run[i].pcs[t], LastCall(actions[..i], t))
  {
    if i > 0 {
      RunKeepsCall(run, actions, initial, threads, i - 1, t);
      assert run[i] == Step(run[i - 1], actions[i - 1]);
      StepKeepsCall(run[i - 1], actions[..i - 1], actions[i - 1], t);
      assert actions[..i - 1] + [actions[i - 1]] == actions[..i];
    }
  }

  /** In every run a thread never holds, together with what it has used, more permits than its call asked
      for; and if it was to wait for some, it comes back with none only after a time-out. */
  lemma NoMoreThanAsked(run: seq<State>, actions: seq<Action>, initial: nat, threads: nat, i: nat, t: nat)
    requires IsRun(run, actions, initial, threads) && i < |run| && t < threads
    ensures t < |run[i].pcs|
    ensures var pc, call := run[i].pcs[t], LastCall(actions[..i], t);
            && Weigh(Held, pc) + call.used <= call.asked
            && (pc.Acquired? && call.next == Wait && call.asked > 0 && !call.timedOut ==> pc.permits + call.used > 0)
  {
    RunKeepsCall(run, actions, initial, threads, i, t);
  }

  /** A successful exchange is greedy: it lowers a positive count by exactly the smaller of that count and
      what the call still wishes for, and the thread holds that much more. */
  lemma TakesWhatItMay(run: seq<State>, actions: seq<Action>, initial: nat, threads: nat, i: nat, t: nat)
    requires IsRun(run, actions, initial, threads) && i < |actions| && t < threads
    requires t < |run[i].pcs| && actions[i] == Move(t) && run[i].count > 0
    requires (run[i].pcs[t].TryCas? || run[i].pcs[t].SpinCas?) && run[i].pcs[t].seen == run[i].count
    ensures var s, s' := run[i], run[i + 1];
            var held := Weigh(Held, s.pcs[t]);
            var wish := LastCall(actions[..i], t).asked - held;
            && (s.count <= wish ==> s'.count == 0 && s'.pcs == s.pcs[t := Acquired(held + s.count)])
            && (s.count > wish ==> s'.count == s.count - wish && s'.pcs == s.pcs[t := Acquired(held + wish)])
  {
    RunKeepsCall(run, actions, initial, threads, i, t);
    assert run[i + 1] == Step(run[i], actions[i]);
    Takes(run[i], t, LastCall(actions[..i], t), run[i + 1]);
  }

  lemma Takes(s: State, t: nat, call: Call, s': State)
    requires t < |s.pcs| && CallOk(s.pcs[t], call) && s.count > 0 && s' == Step(s, Move(t))
    requires (s.pcs[t].TryCas? || s.pcs[t].SpinCas?) && s.pcs[t].seen == s.count
    ensures var held := Weigh(Held, s.pcs[t]);
            var wish := call.asked - held;
            && (s.count <= wish ==> s'.count == 0 && s'.pcs == s.pcs[t := Acquired(held + s.count)])
            && (s.count > wish ==> s'.count == s.count - wish && s'.pcs == s.pcs[t := Acquired(held + wish)])
  {
  }

  // ---------- Coming back with less ----------

  /** Some count between the states m and k was not positive. */
  ghost predicate WasEmpty(run: seq<State>, m: nat, k: nat)
    requires k < |run|
  {
    exists i :: m <= i <= k && run[i].count <= 0
  }

  /** A thread that has seen no permit, or that waits, or that is back with less than it asked for, has
      had an empty count during its call. */
  ghost predicate EmptyOk(pc: Pc, call: Call, wasEmpty: bool) {
    match pc
    case TryCas(_, _, _, seen) => seen <= 0 ==> wasEmpty
    case Blocked(_) => wasEmpty
    case Readjust(_) => wasEmpty
    case ReadjustCas(_, _) => wasEmpty
    case Acquired(n) => n + call.used < call.asked ==> wasEmpty
    case _ => true
  }

  lemma StepKeepsEmpty(s: State, actions: seq<Action>, a: Action, t: nat, wasEmpty: bool)
    requires Enabled(s, a) && t < |s.pcs| && CallOk(s.pcs[t], LastCall(actions, t))
    requires EmptyOk(s.pcs[t], LastCall(actions, t), wasEmpty)
    ensures var s' := Step(s, a);
            t < |s'.pcs| &&
            EmptyOk(s'.pcs[t], LastCall(actions + [a], t), wasEmpty || s.count <= 0 || s'.count <= 0)
  {
    assert (actions + [a])[..|actions|] == actions;
    if a.t == t && a.Move? {
      MoveKeepsEmpty(s, t, LastCall(actions, t), wasEmpty);
    }
  }

  lemma MoveKeepsEmpty(s: State, t: nat, call: Call, wasEmpty: bool)
    requires t < |s.pcs| && CallOk(s.pcs[t], call) && EmptyOk(s.pcs[t], call, wasEmpty)
    ensures EmptyOk(MoveThread(s, t).pcs[t], call, wasEmpty || s.count <= 0 || MoveThread(s, t).count <= 0)
  {
  }

  lemma {:induction false} RunKeepsEmpty(
      run: seq<State>, actions: seq<Action>, initial: nat, threads: nat, m: nat, k: nat, t: nat)
    requires IsRun(run, actions, initial, threads) && m < k < |run| && t < threads
    requires actions[m].BeginWait? && actions[m].t == t
    ensures t < |run[k].pcs| && EmptyOk(run[k].pcs[t], LastCall(actions[..k], t), WasEmpty(run, m, k))
  {
    RunKeepsCall(run, actions, initial, threads, k - 1, t);
    assert run[k] == Step(run[k - 1], actions[k - 1]);
    assert actions[..k - 1] + [actions[k - 1]] == actions[..k];
    if k > m + 1 {
      RunKeepsEmpty(run, actions, initial, threads, m, k - 1, t);
      StepKeepsEmpty(run[k - 1], actions[..k - 1], actions[k - 1], t, WasEmpty(run, m, k - 1));
      assert run[k - 1].count <= 0 || run[k].count <= 0 ==> WasEmpty(run, m, k);
    }
  }

  /** In every interleaving a call comes back with fewer permits than it asked for, none included, only
      if the count was not positive at some moment since it began. */
  lemma LessOnlyWhenEmpty(
      run: seq<State>, actions: seq<Action>, initial: nat, threads: nat, m: nat, k: nat, t: nat)
    requires IsRun(run, actions, initial, threads) && m < k < |run| && t < threads
    requires actions[m].BeginWait? && actions[m].t == t
    ensures t < |run[k].pcs|
    ensures var call := LastCall(actions[..k], t);
            run[k].pcs[t].Acquired? && run[k].pcs[t].permits + call.used < call.asked ==> WasEmpty(run, m, k)
  {
    RunKeepsEmpty(run, actions, initial, threads, m, k, t);
  }
}
