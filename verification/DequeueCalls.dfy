/** What one dequeue claims: never more than it asked for, and undisturbed exactly the smaller of that and
    what there is. */
module DequeueCalls {
  import opened Sums
  import opened DequeueCounters
  import Bound = DequeueBound

  /** What thread t's last dequeue asked for. */
  function LastMax(actions: seq<Action>, t: nat): nat {
    if actions == [] then 0
    else
      var n := |actions| - 1;
      match actions[n]
      case BeginDequeue(u, max) => if u == t then max else LastMax(actions[..n], t)
      case _ => LastMax(actions[..n], t)
  }

  ghost predicate Within(pc: Pc, max: nat) {
    match pc
    case Idle => true
    case HasTail(m, _) => m == max
    case HasOvercommit(m, _, _) => m == max
    case Ready(_, desired) => desired <= max
    case Added(_, _, desired) => desired <= max
    case Granted(actual, spare) => actual + spare <= max
    case Refused(desired) => desired <= max
  }

  lemma StepKeepsWithin(s: State, actions: seq<Action>, a: Action, t: nat)
    requires Enabled(s, a) && t < |s.pcs| && Within(s.pcs[t], LastMax(actions, t))
    ensures t < |Step(s, a).pcs| && Within(Step(s, a).pcs[t], LastMax(actions + [a], t))
  {
    assert (actions + [a])[..|actions|] == actions;
  }

  lemma {:induction false} RunKeepsWithin(
      run: seq<State>, actions: seq<Action>, start: int, threads: nat, i: nat, t: nat)
    requires IsRun(run, actions, start, threads) && i < |run| && t < threads
    ensures t < |run[i].pcs| && Within(run[i].pcs[t], LastMax(actions[..i], t))
  {
    if i > 0 {
      RunKeepsWithin(run, actions, start, threads, i - 1, t);
      assert run[i] == Step(run[i - 1], actions[i - 1]);
      StepKeepsWithin(run[i - 1], actions[..i - 1], actions[i - 1], t);
      assert actions[..i - 1] + [actions[i - 1]] == actions[..i];
    }
  }

  /** In every run whatsoever, a step either leaves the claims alone or adds one, at the head, of no more
      items than the thread's dequeue asked for. */
  lemma ClaimsWhatWasAsked(run: seq<State>, actions: seq<Action>, start: int, threads: nat, i: nat)
    requires IsRun(run, actions, start, threads) && i < |actions|
    ensures var s, s' := run[i], run[i + 1];
            || (s'.claims == s.claims && s'.head == s.head)
            || (actions[i].Move? && s'.claims == s.claims + [(s.head, s'.head)]
                && 0 <= s'.head - s.head <= LastMax(actions[..i], actions[i].t))
  {
    var s, a := run[i], actions[i];
    assert Enabled(s, a) && run[i + 1] == Step(s, a);
    if a.Move? {
      ThreadCount(run, actions, start, threads, i);
      RunKeepsWithin(run, actions, start, threads, i, a.t);
    }
  }

  lemma {:induction false} ThreadCount(run: seq<State>, actions: seq<Action>, start: int, threads: nat, i: nat)
    requires IsRun(run, actions, start, threads) && i < |run|
    ensures |run[i].pcs| == threads
  {
    if i > 0 {
      ThreadCount(run, actions, start, threads, i - 1);
      assert run[i] == Step(run[i - 1], actions[i - 1]);
    }
  }

  // ---------- Undisturbed ----------

  /** Thread t takes k steps, and no other thread does. */
  function Moves(s: State, t: nat, k: nat): (s': State)
    requires t < |s.pcs|
    ensures |s'.pcs| == |s.pcs|
  {
    if k == 0 then s else MoveThread(Moves(s, t, k - 1), t)
  }

  lemma OneMore(s: State, t: nat, k: nat, s': State, s'': State)
    requires t < |s.pcs| && Moves(s, t, k) == s' && MoveThread(s', t) == s''
    ensures Moves(s, t, k + 1) == s''
  {
  }

  /** With no other dequeue under way and fewer than 2^63 items there, a dequeue takes as many as it asks
      for, or all there are if these are fewer, from the head. */
  lemma DequeueAlone(s: State, t: nat, max: nat)
    requires Inv(s) && t < |s.pcs| && (forall u :: 0 <= u < |s.pcs| ==> s.pcs[u] == Idle) && s.tail - s.head < HALF
    ensures s.head <= s.tail
    ensures var begun, n := Step(s, BeginDequeue(t, max)), Min(max, s.tail - s.head);
            if s.tail == s.head then Moves(begun, t, 2) == s
            else Moves(begun, t, 5) ==
                   s.(head := s.head + n, optimistic := s.optimistic + n, claims := s.claims + [(s.head, s.head + n)])
  {
    ZeroSum(Weigh, Due, s.pcs);
    ZeroSum(Weigh, Undecided, s.pcs);
    ZeroSum(Weigh, Spare, s.pcs);
    var room: nat := s.tail - s.head;
    Bound.WrapIs(room);
    var oc, begun := s.overcommit, At(s, t, HasTail(max, s.tail));
    var s1 := At(s, t, HasOvercommit(max, s.tail, oc));
    assert begun.pcs[t := HasOvercommit(max, s.tail, oc)] == s1.pcs;
    OneMore(begun, t, 0, begun, s1);
    if room == 0 {
      assert s1.pcs[t := Idle] == s.pcs;
      OneMore(begun, t, 1, s1, s);
    } else {
      Takes(s, begun, s1, t, max, room);
    }
  }

  /** The dequeue has added what it wishes for to the count. */
  function Counted(s: State, t: nat, n: nat): State
    requires t < |s.pcs|
  {
    At(s, t, Added(s.optimistic, s.overcommit, n)).(optimistic := s.optimistic + n)
  }

  lemma Takes(s: State, begun: State, s1: State, t: nat, max: nat, room: nat)
    requires t < |s.pcs| == |begun.pcs| && s.pcs[t] == Idle && 0 < room < HALF && room == s.tail - s.head
    requires s.optimistic - s.overcommit == s.head
    requires s1 == At(s, t, HasOvercommit(max, s.tail, s.overcommit)) && Moves(begun, t, 1) == s1
    ensures var n := Min(max, room);
            Moves(begun, t, 5) ==
              s.(head := s.head + n, optimistic := s.optimistic + n, claims := s.claims + [(s.head, s.head + n)])
  {
    var oc, n := s.overcommit, Min(max, room);
    var s2, s3 := At(s, t, Ready(oc, n)), Counted(s, t, n);
    Bound.GetsReady(s1, t, max, s.tail, oc, room);
    assert s1.pcs[t := Ready(oc, n)] == s2.pcs;
    assert At(s1, t, Ready(oc, n)) == s2;
    OneMore(begun, t, 1, s1, s2);
    assert s2.pcs[t := Added(s.optimistic, oc, n)] == s3.pcs;
    assert MoveThread(s2, t) == s3;
    OneMore(begun, t, 2, s2, s3);
    IsGranted(s, begun, t, n, room);
  }

  lemma IsGranted(s: State, begun: State, t: nat, n: nat, room: nat)
    requires t < |s.pcs| == |begun.pcs| && s.pcs[t] == Idle && 0 < room < HALF && room == s.tail - s.head && n <= room
    requires s.optimistic - s.overcommit == s.head && Moves(begun, t, 3) == Counted(s, t, n)
    ensures Moves(begun, t, 5) ==
              s.(head := s.head + n, optimistic := s.optimistic + n, claims := s.claims + [(s.head, s.head + n)])
  {
    var s3 := Counted(s, t, n);
    var s4 := At(s, t, Granted(n, 0)).(optimistic := s.optimistic + n);
    Bound.Decides(s3, t, s.optimistic, s.overcommit, n, room);
    assert s3.pcs[t := Granted(n, 0)] == s4.pcs;
    assert At(s3, t, Granted(n, 0)) == s4;
    OneMore(begun, t, 3, s3, s4);
    var s5 := s.(head := s.head + n, optimistic := s.optimistic + n, claims := s.claims + [(s.head, s.head + n)]);
    assert s4.pcs[t := Idle] == s.pcs;
    assert MoveThread(s4, t) == s5;
    OneMore(begun, t, 4, s4, s5);
  }
}
