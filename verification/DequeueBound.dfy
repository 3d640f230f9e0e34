/** The exact bound under which the dequeue counters are right: how much may be asked for in excess of
    what has been enqueued. */
module DequeueBound {
  import opened DequeueCounters

  /** In every run that keeps to the excess, the head never passes the tail. */
  ghost predicate HeadStaysWithin(over: nat) {
    forall run: seq<State>, actions: seq<Action>, start: int, threads: nat, i: nat ::
      IsRun(run, actions, start, threads) && Keeps(actions, over) && i < |run| ==> run[i].head <= run[i].tail
  }

  lemma {:induction false} TotalsGrow(actions: seq<Action>, n: nat)
    requires n <= |actions|
    ensures Enqueued(actions[..n]) <= Enqueued(actions) && AskedFor(actions[..n]) <= AskedFor(actions)
  {
    if n < |actions| {
      var k := |actions| - 1;
      assert actions[..k][..n] == actions[..n];
      TotalsGrow(actions[..k], n);
    } else {
      assert actions[..n] == actions;
    }
  }

  // ---------- Reaching a state ----------

  ghost predicate Reaches(actions: seq<Action>, s: State, threads: nat) {
    exists run: seq<State> :: IsRun(run, actions, 0, threads) && run[|run| - 1] == s
  }

  lemma OneMore(actions: seq<Action>, s: State, a: Action, s': State, threads: nat)
    requires Reaches(actions, s, threads) && Enabled(s, a) && s' == Step(s, a)
    ensures Reaches(actions + [a], s', threads)
    ensures Enqueued(actions + [a]) == Enqueued(actions) + if a.Enqueue? then a.count else 0
    ensures AskedFor(actions + [a]) == AskedFor(actions) + if a.BeginDequeue? then a.max else 0
  {
    var run: seq<State> :| IsRun(run, actions, 0, threads) && run[|run| - 1] == s;
    assert IsRun(run + [s'], actions + [a], 0, threads);
    assert (actions + [a])[..|actions|] == actions;
  }

  // ---------- What a thread's tests come to ----------

  lemma WrapIs(room: int)
    ensures 0 < room < HALF ==> Wrap(room) == room && CircularLessThan(0, room)
    ensures -HALF <= room <= 0 ==> !CircularLessThan(0, Wrap(room))
    ensures -WORD < room < -HALF ==> Wrap(room) == room + WORD && CircularLessThan(0, Wrap(room))
  {
  }

  lemma GetsReady(s: State, t: nat, max: nat, tail: int, oc: int, wish: nat)
    requires t < |s.pcs| && s.pcs[t] == HasOvercommit(max, tail, oc)
    requires wish == tail - (s.optimistic - oc) && 0 < wish < HALF
    ensures MoveThread(s, t) == At(s, t, Ready(oc, Min(wish, max)))
  {
    WrapIs(wish);
  }

  lemma Decides(s: State, t: nat, mine: int, oc: int, desired: nat, room: int)
    requires t < |s.pcs| && s.pcs[t] == Added(mine, oc, desired) && room == s.tail - (mine - oc)
    ensures 0 < room < HALF ==>
              MoveThread(s, t) == At(s, t, Granted(Min(desired, room), desired - Min(desired, room)))
    ensures -HALF <= room <= 0 ==> MoveThread(s, t) == At(s, t, Refused(desired))
    ensures -WORD < room < -HALF ==>
              MoveThread(s, t) == At(s, t, Granted(Min(desired, room + WORD), desired - Min(desired, room + WORD)))
  {
    WrapIs(room);
  }

  // ---------- One more in excess, and many threads ----------

  const MANY: nat := HALF + 3

  /** One item has been enqueued first of all, and asked are the requests so far. */
  ghost predicate OneItem(actions: seq<Action>, asked: nat) {
    actions != [] && actions[0] == Enqueue(1) && AskedFor(actions) == asked <= MANY
  }

  lemma OneItemKeeps(actions: seq<Action>, asked: nat)
    requires OneItem(actions, asked)
    ensures Keeps(actions, HALF + 2)
  {
    forall i | 0 <= i <= |actions| ensures AskedFor(actions[..i]) <= Enqueued(actions[..i]) + HALF + 2 {
      TotalsGrow(actions, i);
      if i > 0 {
        var prefix := actions[..i];
        TotalsGrow(prefix, 1);
        assert prefix[..1] == [Enqueue(1)] && [Enqueue(1)][..0] == [];
      }
    }
  }

  /** Thread t asks for one item, and comes to the point where it adds to the count. */
  lemma AskForOne(actions: seq<Action>, s: State, t: nat) returns (actions': seq<Action>, s': State)
    requires Reaches(actions, s, MANY) && t < |s.pcs| && s.pcs[t] == Idle && t < MANY
    requires s.optimistic == s.overcommit == 0 && s.tail == 1 && OneItem(actions, t)
    ensures Reaches(actions', s', MANY) && s' == s.(pcs := s.pcs[t := Ready(0, 1)]) && OneItem(actions', t + 1)
  {
    var s1 := At(s, t, HasTail(1, 1));
    OneMore(actions, s, BeginDequeue(t, 1), s1, MANY);
    var s2 := At(s1, t, HasOvercommit(1, 1, 0));
    actions' := Moves(actions + [BeginDequeue(t, 1)], s1, t, t + 1, s2);
    s' := At(s, t, Ready(0, 1));
    GetsReady(s2, t, 1, 1, 0, 1);
    assert At(s2, t, Ready(0, 1)) == s';
    actions' := Moves(actions', s2, t, t + 1, s');
  }

  lemma Moves(actions: seq<Action>, s: State, t: nat, asked: nat, s': State) returns (actions': seq<Action>)
    requires Reaches(actions, s, MANY) && t < |s.pcs| && OneItem(actions, asked) && s' == MoveThread(s, t)
    ensures Reaches(actions', s', MANY) && OneItem(actions', asked)
  {
    OneMore(actions, s, Move(t), s', MANY);
    actions' := actions + [Move(t)];
  }

  /** All threads have asked for the one item, and none has added to the count. */
  lemma AllAsk() returns (actions: seq<Action>, s: State)
    ensures Reaches(actions, s, MANY) && OneItem(actions, MANY) && |s.pcs| == MANY
    ensures s.optimistic == s.overcommit == s.head == 0 && s.tail == 1
    ensures forall j :: 0 <= j < MANY ==> s.pcs[j] == Ready(0, 1)
  {
    var s0 := Init(0, MANY);
    assert IsRun([s0], [], 0, MANY) && [s0][|[s0]| - 1] == s0;
    s := Step(s0, Enqueue(1));
    OneMore([], s0, Enqueue(1), s, MANY);
    actions := [] + [Enqueue(1)];
    for t := 0 to MANY
      invariant Reaches(actions, s, MANY) && OneItem(actions, t) && |s.pcs| == MANY
      invariant s.optimistic == s.overcommit == s.head == 0 && s.tail == 1
      invariant forall j :: 0 <= j < MANY ==> s.pcs[j] == if j < t then Ready(0, 1) else Idle
    {
      actions, s := AskForOne(actions, s, t);
    }
  }

  /** The first is granted the item; the others add to the count one after the other. */
  lemma AllAdd() returns (actions: seq<Action>, s: State)
    ensures Reaches(actions, s, MANY) && OneItem(actions, MANY) && |s.pcs| == MANY
    ensures s.head == s.tail == 1 && s.pcs[MANY - 1] == Added(MANY - 1, 0, 1)
  {
    actions, s := AllAsk();
    actions, s := FirstTakes(actions, s);
    for t := 1 to MANY
      invariant Reaches(actions, s, MANY) && OneItem(actions, MANY) && |s.pcs| == MANY
      invariant s.optimistic == t && s.head == s.tail == 1
      invariant forall j :: t <= j < MANY ==> s.pcs[j] == Ready(0, 1)
      invariant t > 1 ==> s.pcs[t - 1] == Added(t - 1, 0, 1)
    {
      var s' := At(s, t, Added(t, 0, 1)).(optimistic := t + 1);
      assert s' == MoveThread(s, t);
      actions := Moves(actions, s, t, MANY, s');
      s := s';
    }
  }

  lemma FirstTakes(actions: seq<Action>, s: State) returns (actions': seq<Action>, s': State)
    requires Reaches(actions, s, MANY) && OneItem(actions, MANY) && |s.pcs| == MANY && s.pcs[0] == Ready(0, 1)
    requires s.optimistic == s.overcommit == s.head == 0 && s.tail == 1
    ensures Reaches(actions', s', MANY) && OneItem(actions', MANY)
    ensures s'.optimistic == s'.head == s'.tail == 1 && s'.pcs == s.pcs[0 := Idle]
  {
    var s1 := At(s, 0, Added(0, 0, 1)).(optimistic := 1);
    assert s1 == MoveThread(s, 0);
    actions' := Moves(actions, s, 0, MANY, s1);
    var s2 := At(s1, 0, Granted(1, 0));
    Decides(s1, 0, 0, 0, 1, 1);
    actions' := Moves(actions', s1, 0, MANY, s2);
    s' := MoveThread(s2, 0);
    actions' := Moves(actions', s2, 0, MANY, s');
  }

  /** The last one's count is so far ahead of the tail that it seems behind: it is granted an item that
      is not there. */
  lemma HeadCanPassTail() returns (run: seq<State>, actions: seq<Action>)
    ensures IsRun(run, actions, 0, MANY) && Keeps(actions, HALF + 2)
    ensures run[|run| - 1].head == 2 && run[|run| - 1].tail == 1
  {
    var s;
    actions, s := AllAdd();
    var t := MANY - 1;
    var s1 := At(s, t, Granted(1, 0));
    Decides(s, t, MANY - 1, 0, 1, 1 - (MANY - 1));
    actions := Moves(actions, s, t, MANY, s1);
    var s2 := MoveThread(s1, t);
    actions := Moves(actions, s1, t, MANY, s2);
    OneItemKeeps(actions, MANY);
    run :| IsRun(run, actions, 0, MANY) && run[|run| - 1] == s2;
  }

  /** The head never passes the tail, in any interleaving of any number of threads, if and only if no
      more than 2^63 + 1 items may be asked for in excess of what has been enqueued. */
  lemma HeadWithinTailIff(over: nat)
    ensures HeadStaysWithin(over) <==> over <= HALF + 1
  {
    if over <= HALF + 1 {
      forall run: seq<State>, actions: seq<Action>, start: int, threads: nat, i: nat
        | IsRun(run, actions, start, threads) && Keeps(actions, over) && i < |run|
        ensures run[i].head <= run[i].tail
      {
        assert Keeps(actions, HALF + 1);
        CountersSound(run, actions, start, threads, i, 0);
      }
    } else {
      var run, actions := HeadCanPassTail();
      assert Keeps(actions, over);
    }
  }

  // ---------- Three threads, and more in excess ----------

  ghost predicate Reachable(s: State) {
    exists actions: seq<Action> :: Reaches(actions, s, 3)
  }

  lemma StepReaches(s: State, a: Action, s': State)
    requires Reachable(s) && Enabled(s, a) && s' == Step(s, a)
    ensures Reachable(s')
  {
    var actions: seq<Action> :| Reaches(actions, s, 3);
    OneMore(actions, s, a, s', 3);
  }

  const QUARTER: nat := 0x4000_0000_0000_0000

  /** Thread 0 is about to add, having read the overcommit when it was 0; the others have dequeued as
      much and overcommitted as much r times since. */
  ghost predicate Paused(s: State, r: nat) {
    && s.optimistic == 2 * r * QUARTER && s.overcommit == s.head == r * QUARTER && s.tail == (r + 1) * QUARTER
    && s.pcs == [Ready(0, QUARTER), Idle, Idle]
  }

  lemma Go(s: State, t: nat, s': State)
    requires Reachable(s) && t < |s.pcs| && s' == MoveThread(s, t)
    ensures Reachable(s')
  {
    StepReaches(s, Move(t), s');
  }

  /** Thread t asks for all there is. */
  lemma Ask(s: State, t: nat, r: nat) returns (s': State)
    requires Reachable(s) && t < |s.pcs| && s.pcs[t] == Idle
    requires s.optimistic == 2 * r * QUARTER && s.overcommit == r * QUARTER && s.tail == (r + 1) * QUARTER
    ensures Reachable(s') && s' == At(s, t, Ready(s.overcommit, QUARTER))
  {
    var s1 := At(s, t, HasTail(QUARTER, s.tail));
    StepReaches(s, BeginDequeue(t, QUARTER), s1);
    var s2 := At(s1, t, HasOvercommit(QUARTER, s.tail, s.overcommit));
    Go(s1, t, s2);
    s' := At(s, t, Ready(s.overcommit, QUARTER));
    GetsReady(s2, t, QUARTER, s.tail, s.overcommit, QUARTER);
    assert At(s2, t, Ready(s.overcommit, QUARTER)) == s';
    Go(s2, t, s');
  }

  /** Threads 1 and 2 both wish for all there is; one gets it and the other gives it back. */
  lemma RoundReached(s: State, r: nat) returns (s': State)
    requires Reachable(s) && Paused(s, r)
    ensures Reachable(s') && Paused(s'.(tail := s'.tail + QUARTER), r + 1)
  {
    var oc, opt := s.overcommit, s.optimistic;
    var s1 := Ask(s, 1, r);
    var s2 := Ask(s1, 2, r);
    assert s2.pcs == [Ready(0, QUARTER), Ready(oc, QUARTER), Ready(oc, QUARTER)];
    var s3 := Takes(s2, 1, opt, oc);
    s' := GivesBack(s3, 2, opt + QUARTER, oc);
  }

  lemma Takes(s: State, t: nat, opt: int, oc: int) returns (s': State)
    requires Reachable(s) && t < |s.pcs| && s.pcs[t] == Ready(oc, QUARTER)
    requires s.optimistic == opt && s.tail - (opt - oc) == QUARTER
    ensures Reachable(s') && s'.optimistic == opt + QUARTER && s'.overcommit == s.overcommit
    ensures s'.head == s.head + QUARTER && s'.tail == s.tail && s'.pcs == s.pcs[t := Idle]
  {
    var s1 := At(s, t, Added(opt, oc, QUARTER)).(optimistic := opt + QUARTER);
    Go(s, t, s1);
    var s2 := At(s1, t, Granted(QUARTER, 0));
    Decides(s1, t, opt, oc, QUARTER, QUARTER);
    Go(s1, t, s2);
    s' := MoveThread(s2, t);
    Go(s2, t, s');
  }

  lemma GivesBack(s: State, t: nat, opt: int, oc: int) returns (s': State)
    requires Reachable(s) && t < |s.pcs| && s.pcs[t] == Ready(oc, QUARTER)
    requires s.optimistic == opt && s.tail - (opt - oc) == 0
    ensures Reachable(s') && s'.optimistic == opt + QUARTER && s'.overcommit == s.overcommit + QUARTER
    ensures s'.head == s.head && s'.tail == s.tail && s'.pcs == s.pcs[t := Idle]
  {
    var s1 := At(s, t, Added(opt, oc, QUARTER)).(optimistic := opt + QUARTER);
    Go(s, t, s1);
    var s2 := At(s1, t, Refused(QUARTER));
    Decides(s1, t, opt, oc, QUARTER, 0);
    Go(s1, t, s2);
    s' := MoveThread(s2, t);
    Go(s2, t, s');
  }

  /** Three threads are enough for the head to pass the tail, with more asked for: while one is held up
      before it adds, the others ask for and give back so much that its count wraps round. */
  lemma ThreeThreadsSuffice()
    ensures exists s :: Reachable(s) && s.head > s.tail
  {
    var s0 := Init(0, 3);
    assert IsRun([s0], [], 0, 3) && [s0][|[s0]| - 1] == s0;
    assert Reaches([], s0, 3);
    var s1 := s0.(tail := QUARTER);
    StepReaches(s0, Enqueue(QUARTER), s1);
    var s := Ask(s1, 0, 0);
    assert s.pcs == [Ready(0, QUARTER), Idle, Idle];
    for r := 0 to 2
      invariant Reachable(s) && Paused(s, r)
    {
      var s' := RoundReached(s, r);
      s := s'.(tail := s'.tail + QUARTER);
      StepReaches(s', Enqueue(QUARTER), s);
    }
    s := RoundReached(s, 2);
    var s2 := At(s, 0, Added(6 * QUARTER, 0, QUARTER)).(optimistic := 7 * QUARTER);
    Go(s, 0, s2);
    var s3 := At(s2, 0, Granted(QUARTER, 0));
    Decides(s2, 0, 6 * QUARTER, 0, QUARTER, -3 * QUARTER);
    Go(s2, 0, s3);
    Go(s3, 0, MoveThread(s3, 0));
  }
}
