/** The four counters of one producer's queue, as interleaved steps of one producer and any number
    of dequeuing threads under sequential consistency.  The values are kept unbounded; every test
    and difference that the code computes is taken modulo 2^64, as the code does.  A single dequeue
    is a bulk dequeue of at most one. */
module DequeueCounters {
  import opened Sums

  const WORD := 0x1_0000_0000_0000_0000
  const HALF := 0x8000_0000_0000_0000

  function Wrap(x: int): nat {
    x % WORD
  }

  /** On 64-bit operands. */
  predicate CircularLessThan(a: nat, b: nat) {
    Wrap(a - b) > HALF
  }

  /** It orders the unbounded values whenever they are less than 2^63 apart, and exactly then: at a
      distance of 2^63 it calls neither smaller. */
  lemma CircularOrders(a: int, b: int)
    requires -HALF <= a - b <= HALF
    ensures CircularLessThan(Wrap(a), Wrap(b)) <==> a < b && b - a != HALF
  {
    var d := Wrap(a) - Wrap(b);
    assert (d - (a - b)) % WORD == 0;
    assert Wrap(d) == Wrap(a - b);
  }

  datatype Pc =
    | Idle
    | HasTail(max: nat, tail: int)
    | HasOvercommit(max: nat, tail: int, overcommit: int)
    | Ready(overcommit: int, desired: nat)
    | Added(mine: int, overcommit: int, desired: nat)
    | Granted(actual: nat, spare: nat)
    | Refused(desired: nat)

  /** Auxiliary: start is where the indices began, claims the ranges handed out so far, in order. */
  datatype State = State(optimistic: int, overcommit: int, head: int, tail: int, pcs: seq<Pc>,
                         start: int, claims: seq<(int, int)>)

  datatype Action = Enqueue(count: nat) | BeginDequeue(t: nat, max: nat) | Move(t: nat)

  function Init(start: int, threads: nat): State {
    State(start, 0, start, start, seq(threads, i => Idle), start, [])
  }

  function Min(a: nat, b: nat): nat {
    if a < b then a else b
  }

  function At(s: State, t: nat, pc: Pc): State
    requires t < |s.pcs|
  {
    s.(pcs := s.pcs[t := pc])
  }

  function MoveThread(s: State, t: nat): State
    requires t < |s.pcs|
  {
    match s.pcs[t]
    case Idle => s
    case HasTail(max, tail) => At(s, t, HasOvercommit(max, tail, s.overcommit))
    case HasOvercommit(max, tail, oc) =>
      var desired := Wrap(tail - (s.optimistic - oc));
      if CircularLessThan(0, desired) then At(s, t, Ready(oc, Min(desired, max))) else At(s, t, Idle)
    case Ready(oc, desired) =>
      At(s, t, Added(s.optimistic, oc, desired)).(optimistic := s.optimistic + desired)
    case Added(mine, oc, desired) =>
      var actual := Wrap(s.tail - (mine - oc));
      if CircularLessThan(0, actual) then
        At(s, t, Granted(Min(desired, actual), desired - Min(desired, actual)))
      else At(s, t, Refused(desired))
    case Granted(actual, spare) =>
      if spare > 0 then At(s, t, Granted(actual, 0)).(overcommit := s.overcommit + spare)
      else At(s, t, Idle).(head := s.head + actual, claims := s.claims + [(s.head, s.head + actual)])
    case Refused(desired) => At(s, t, Idle).(overcommit := s.overcommit + desired)
  }

  predicate Enabled(s: State, a: Action) {
    match a
    case Enqueue(_) => true
    case BeginDequeue(t, _) => t < |s.pcs| && s.pcs[t] == Idle
    case Move(t) => t < |s.pcs|
  }

  function Step(s: State, a: Action): State
    requires Enabled(s, a)
  {
    match a
    case Enqueue(count) => s.(tail := s.tail + count)
    case BeginDequeue(t, max) => At(s, t, HasTail(max, s.tail))
    case Move(t) => MoveThread(s, t)
  }

  /** What keeps 64-bit arithmetic honest: when a thread that wishes for something compares its count
      with the tail, the count is no more than 2^63 ahead.  Being far behind does no harm: the wrapped
      difference then refuses, or grants no more than there is. */
  ghost predicate InWindow(s: State) {
    forall t :: 0 <= t < |s.pcs| && s.pcs[t].Added? && s.pcs[t].desired > 0 ==>
                  s.tail - (s.pcs[t].mine - s.pcs[t].overcommit) >= -HALF
  }

  // ---------- Sums over the threads ----------

  /** Undecided: added to the count, not yet compared.  Below: the same, for counts under a bound.
      Due: granted, not yet taken from the head.  Spare: to be given back.  Wished: at most what it may
      still add to the count.  Owed: at most what it may still give back. */
  datatype Weight = Undecided | Below(bound: int) | Due | Spare | Wished | Owed

  function Weigh(w: Weight, pc: Pc): nat {
    match w
    case Undecided => if pc.Added? then pc.desired else 0
    case Below(b) => if pc.Added? && pc.mine < b then pc.desired else 0
    case Due => if pc.Granted? then pc.actual else 0
    case Spare => if pc.Granted? then pc.spare else if pc.Refused? then pc.desired else 0
    case Wished => if pc.HasTail? || pc.HasOvercommit? then pc.max else if pc.Ready? then pc.desired else 0
    case Owed =>
      if pc.HasTail? || pc.HasOvercommit? then pc.max
      else if pc.Ready? || pc.Added? || pc.Refused? then pc.desired
      else if pc.Granted? then pc.spare
      else 0
  }

  /** Raising the bound past a thread's count adds at least that thread's share. */
  lemma {:induction false} BelowGrows(pcs: seq<Pc>, lo: int, hi: int)
    requires lo <= hi
    ensures Sum(Weigh, Below(lo), pcs) <= Sum(Weigh, Below(hi), pcs) <= Sum(Weigh, Undecided, pcs)
    ensures forall t :: 0 <= t < |pcs| && pcs[t].Added? && lo <= pcs[t].mine < hi ==>
                          Sum(Weigh, Below(lo), pcs) + pcs[t].desired <= Sum(Weigh, Below(hi), pcs)
  {
    if pcs != [] {
      BelowGrows(pcs[1..], lo, hi);
      forall t | 0 <= t < |pcs| && pcs[t].Added? && lo <= pcs[t].mine < hi
        ensures Sum(Weigh, Below(lo), pcs) + pcs[t].desired <= Sum(Weigh, Below(hi), pcs)
      {
        if t > 0 {
          assert pcs[1..][t - 1] == pcs[t];
        }
      }
    }
  }

  // ---------- The invariant ----------

  /** How far the head will get with what has been granted. */
  function Reach(s: State): int {
    s.head + Sum(Weigh, Due, s.pcs)
  }

  /** An undecided thread is safe: either everything granted or ahead of it lies below its own
      position, or the tail has room for all of that and for its full wish. */
  ghost predicate Safe(s: State, pc: Pc)
    requires pc.Added?
  {
    var ahead := Reach(s) + Sum(Weigh, Below(pc.mine), s.pcs);
    ahead <= pc.mine - pc.overcommit || ahead + pc.desired <= s.tail
  }

  ghost predicate ThreadOk(s: State, pc: Pc) {
    && (pc.HasOvercommit? || pc.Ready? || pc.Added? ==> pc.overcommit <= s.overcommit)
    && (pc.Added? ==> pc.mine + pc.desired <= s.optimistic && Safe(s, pc))
  }

  /** The shares of two undecided threads do not overlap. */
  ghost predicate Apart(p: Pc, q: Pc) {
    p.Added? && q.Added? ==> p.mine + p.desired <= q.mine || q.mine + q.desired <= p.mine
  }

  /** The ranges follow one another without gap or overlap from start to head. */
  ghost predicate Consecutive(claims: seq<(int, int)>, start: int, head: int) {
    if claims == [] then start == head
    else
      var last := claims[|claims| - 1];
      last.1 == head && last.0 <= head && Consecutive(claims[..|claims| - 1], start, last.0)
  }

  ghost predicate InClaim(claims: seq<(int, int)>, c: nat, index: int) {
    c < |claims| && claims[c].0 <= index < claims[c].1
  }

  lemma {:induction false} ClaimedOnce(claims: seq<(int, int)>, start: int, head: int, index: int)
    requires Consecutive(claims, start, head)
    ensures start <= head
    ensures start <= index < head <==> exists c :: InClaim(claims, c, index)
    ensures forall c, d :: InClaim(claims, c, index) && InClaim(claims, d, index) ==> c == d
  {
    if claims != [] {
      var n := |claims| - 1;
      ClaimedOnce(claims[..n], start, claims[n].0, index);
      assert forall c: nat :: c < n ==> InClaim(claims, c, index) == InClaim(claims[..n], c, index);
      assert InClaim(claims, n, index) <==> claims[n].0 <= index < head;
      if start <= index < claims[n].0 {
        var c :| InClaim(claims[..n], c, index);
        assert InClaim(claims, c, index);
      }
    }
  }

  ghost predicate Inv(s: State) {
    && s.optimistic - s.overcommit == Reach(s) + Sum(Weigh, Undecided, s.pcs) + Sum(Weigh, Spare, s.pcs)
    && Reach(s) <= s.tail
    && (forall t :: 0 <= t < |s.pcs| ==> ThreadOk(s, s.pcs[t]))
    && (forall t, u :: 0 <= t < |s.pcs| && 0 <= u < |s.pcs| && t != u ==> Apart(s.pcs[t], s.pcs[u]))
    && Consecutive(s.claims, s.start, s.head)
  }

  // ---------- Preservation ----------

  lemma AllSums(pcs: seq<Pc>, t: nat, pc: Pc, b: int)
    requires t < |pcs|
    ensures Sum(Weigh, Undecided, pcs[t := pc]) + Weigh(Undecided, pcs[t]) ==
              Sum(Weigh, Undecided, pcs) + Weigh(Undecided, pc)
    ensures Sum(Weigh, Due, pcs[t := pc]) + Weigh(Due, pcs[t]) == Sum(Weigh, Due, pcs) + Weigh(Due, pc)
    ensures Sum(Weigh, Spare, pcs[t := pc]) + Weigh(Spare, pcs[t]) == Sum(Weigh, Spare, pcs) + Weigh(Spare, pc)
    ensures Sum(Weigh, Below(b), pcs[t := pc]) + Weigh(Below(b), pcs[t]) ==
              Sum(Weigh, Below(b), pcs) + Weigh(Below(b), pc)
  {
    SumUpdate(Weigh, Undecided, pcs, t, pc);
    SumUpdate(Weigh, Due, pcs, t, pc);
    SumUpdate(Weigh, Spare, pcs, t, pc);
    SumUpdate(Weigh, Below(b), pcs, t, pc);
  }

  /** Granting that much to thread t is within its wish and, with all that is ahead of it, within
      the tail. */
  ghost predicate Grant(s: State, t: nat, amount: int)
    requires t < |s.pcs|
  {
    amount == 0 ||
    (s.pcs[t].Added? && 0 < amount <= s.pcs[t].desired &&
     Reach(s) + amount + Sum(Weigh, Below(s.pcs[t].mine), s.pcs) <= s.tail)
  }

  /** A step that leaves no undecided thread worse off: its own share may vanish, what is granted
      stays within reach, the overcommit and the tail only grow. */
  lemma Preserve(s: State, t: nat, s': State)
    requires Inv(s) && t < |s.pcs| == |s'.pcs| && s'.pcs == s.pcs[t := s'.pcs[t]] && !s'.pcs[t].Added?
    requires ThreadOk(s', s'.pcs[t])
    requires s'.optimistic == s.optimistic && s'.overcommit >= s.overcommit && s'.tail == s.tail
    requires s'.optimistic - s'.overcommit == Reach(s') + Sum(Weigh, Undecided, s'.pcs) + Sum(Weigh, Spare, s'.pcs)
    requires Grant(s, t, Reach(s') - Reach(s))
    requires Reach(s') <= s'.tail && Consecutive(s'.claims, s'.start, s'.head)
    ensures Inv(s')
  {
    forall u | 0 <= u < |s'.pcs| ensures ThreadOk(s', s'.pcs[u]) {
      if u != t {
        assert ThreadOk(s, s.pcs[u]) && Apart(s.pcs[t], s.pcs[u]);
        if s.pcs[u].Added? {
          StaysSafe(s, t, s', u);
        }
      }
    }
    forall u, v | 0 <= u < |s'.pcs| && 0 <= v < |s'.pcs| && u != v ensures Apart(s'.pcs[u], s'.pcs[v]) {
      assert Apart(s.pcs[u], s.pcs[v]);
    }
  }

  lemma StaysSafe(s: State, t: nat, s': State, u: nat)
    requires Inv(s) && t < |s.pcs| == |s'.pcs| && s'.pcs == s.pcs[t := s'.pcs[t]] && !s'.pcs[t].Added?
    requires s'.tail == s.tail
    requires Grant(s, t, Reach(s') - Reach(s))
    requires u < |s.pcs| && u != t && s.pcs[u].Added?
    ensures Safe(s', s.pcs[u])
  {
    var p, q := s.pcs[u], s.pcs[t];
    SumUpdate(Weigh, Below(p.mine), s.pcs, t, s'.pcs[t]);
    assert ThreadOk(s, p) && Apart(p, q);
    if q.Added? && q.mine >= p.mine {
      BelowGrows(s.pcs, p.mine, q.mine);
    }
  }

  lemma QuietStep(s: State, t: nat, pc: Pc)
    requires Inv(s) && t < |s.pcs| && ThreadOk(s, pc)
    requires !s.pcs[t].Added? && !s.pcs[t].Granted? && !s.pcs[t].Refused? && !pc.Added? && !pc.Granted? && !pc.Refused?
    ensures Inv(At(s, t, pc))
  {
    AllSums(s.pcs, t, pc, 0);
    Preserve(s, t, At(s, t, pc));
  }

  /** The optimistic increment.  Whatever the thread read before, its position counted from the
      current overcommit is at or beyond everything granted and pending. */
  lemma AddStep(s: State, t: nat)
    requires Inv(s) && t < |s.pcs| && s.pcs[t].Ready?
    ensures Inv(MoveThread(s, t))
  {
    var Ready(oc, d) := s.pcs[t];
    var mine := s.optimistic;
    var pc := Added(mine, oc, d);
    var s' := At(s, t, pc).(optimistic := mine + d);
    assert MoveThread(s, t) == s';
    AllSums(s.pcs, t, pc, mine);
    assert ThreadOk(s, s.pcs[t]);
    forall u | 0 <= u < |s'.pcs| ensures ThreadOk(s', s'.pcs[u]) {
      if u == t {
        BelowGrows(s.pcs, mine, mine);
      } else {
        assert ThreadOk(s, s.pcs[u]);
        if s.pcs[u].Added? {
          SumUpdate(Weigh, Below(s.pcs[u].mine), s.pcs, t, pc);
        }
      }
    }
    forall u, v | 0 <= u < |s'.pcs| && 0 <= v < |s'.pcs| && u != v ensures Apart(s'.pcs[u], s'.pcs[v]) {
      assert Apart(s.pcs[u], s.pcs[v]) && ThreadOk(s, s.pcs[u]) && ThreadOk(s, s.pcs[v]);
    }
  }

  /** A room no more than 2^63 below zero is never taken for one above it, nor any for a larger one. */
  lemma RoomIsKnown(room: int)
    requires room >= -HALF
    ensures CircularLessThan(0, Wrap(room)) ==> 0 < Wrap(room) <= room
    ensures room < HALF ==> (CircularLessThan(0, Wrap(room)) <==> room > 0) && (room > 0 ==> Wrap(room) == room)
  {
  }

  /** What the comparison comes to: part of the wish, and no more than the room, or nothing. */
  lemma Decided(s: State, t: nat) returns (pc: Pc)
    requires InWindow(s) && t < |s.pcs| && s.pcs[t].Added?
    ensures MoveThread(s, t) == At(s, t, pc)
    ensures var Added(mine, oc, d) := s.pcs[t];
            var room := s.tail - (mine - oc);
            && (pc == Refused(d) || (pc.Granted? && pc.actual + pc.spare == d && (pc.actual == 0 || pc.actual <= room)))
            && (-HALF <= room < HALF ==>
                  pc == if room > 0 then Granted(Min(d, room), d - Min(d, room)) else Refused(d))
  {
    var Added(mine, oc, d) := s.pcs[t];
    var room := s.tail - (mine - oc);
    if room >= -HALF {
      RoomIsKnown(room);
    }
    pc := MoveThread(s, t).pcs[t];
  }

  /** The comparison with the tail: what is granted never reaches beyond it; and unless there is room
      for 2^63 items or more, it is the smaller of the wish and the room. */
  lemma DecideStep(s: State, t: nat)
    requires Inv(s) && InWindow(s) && t < |s.pcs| && s.pcs[t].Added?
    ensures Inv(MoveThread(s, t))
    ensures var room := s.tail - (s.pcs[t].mine - s.pcs[t].overcommit);
            -HALF <= room < HALF ==>
              MoveThread(s, t).pcs[t] ==
              if room > 0 then Granted(Min(s.pcs[t].desired, room), s.pcs[t].desired - Min(s.pcs[t].desired, room))
              else Refused(s.pcs[t].desired)
  {
    var Added(mine, oc, d) := s.pcs[t];
    var pc := Decided(s, t);
    assert ThreadOk(s, s.pcs[t]);
    AllSums(s.pcs, t, pc, mine);
    Preserve(s, t, At(s, t, pc));
  }

  /** Giving back what was wished for in vain, and taking what was granted from the head. */
  lemma SettleStep(s: State, t: nat)
    requires Inv(s) && t < |s.pcs| && (s.pcs[t].Granted? || s.pcs[t].Refused?)
    ensures Inv(MoveThread(s, t))
  {
    var s' := MoveThread(s, t);
    AllSums(s.pcs, t, s'.pcs[t], 0);
    assert s'.claims != s.claims ==> s'.claims[..|s'.claims| - 1] == s.claims;
    Preserve(s, t, s');
  }

  lemma StepKeepsInv(s: State, a: Action)
    requires Inv(s) && InWindow(s) && Enabled(s, a)
    ensures Inv(Step(s, a))
  {
    match a {
      case Enqueue(count) =>
        var s' := Step(s, a);
        forall t | 0 <= t < |s.pcs| ensures ThreadOk(s', s'.pcs[t]) {
          assert ThreadOk(s, s.pcs[t]);
        }
        assert forall t, u :: 0 <= t < |s.pcs| && 0 <= u < |s.pcs| && t != u ==> Apart(s'.pcs[t], s'.pcs[u]) by {
          forall t, u | 0 <= t < |s.pcs| && 0 <= u < |s.pcs| && t != u ensures Apart(s'.pcs[t], s'.pcs[u]) {
            assert Apart(s.pcs[t], s.pcs[u]);
          }
        }
      case BeginDequeue(t, max) => QuietStep(s, t, HasTail(max, s.tail));
      case Move(t) =>
        assert ThreadOk(s, s.pcs[t]);
        match s.pcs[t] {
          case Idle =>
          case HasTail(max, tail) => QuietStep(s, t, HasOvercommit(max, tail, s.overcommit));
          case HasOvercommit(max, tail, oc) =>
            QuietStep(s, t, MoveThread(s, t).pcs[t]);
          case Ready(_, _) => AddStep(s, t);
          case Added(_, _, _) => DecideStep(s, t);
          case _ => SettleStep(s, t);
        }
    }
  }

  lemma InitInv(start: int, threads: nat)
    ensures Inv(Init(start, threads))
  {
    var s := Init(start, threads);
    ZeroSum(Weigh, Due, s.pcs);
    ZeroSum(Weigh, Undecided, s.pcs);
    ZeroSum(Weigh, Spare, s.pcs);
  }

  // ---------- The window, from what is asked for ----------

  /** How many items are enqueued; and how many are asked for by dequeues. */
  function Enqueued(actions: seq<Action>): nat {
    if actions == [] then 0
    else
      var n := |actions| - 1;
      Enqueued(actions[..n]) + if actions[n].Enqueue? then actions[n].count else 0
  }

  function AskedFor(actions: seq<Action>): nat {
    if actions == [] then 0
    else
      var n := |actions| - 1;
      AskedFor(actions[..n]) + if actions[n].BeginDequeue? then actions[n].max else 0
  }

  ghost predicate PcBounded(s: State, pc: Pc) {
    && (pc.HasOvercommit? || pc.Ready? || pc.Added? ==> 0 <= pc.overcommit <= s.overcommit)
    && (pc.Added? ==> s.start <= pc.mine <= s.optimistic)
  }

  /** The counters have moved from the start by no more than was enqueued and asked for. */
  ghost predicate Bounded(s: State, enqueued: nat, asked: nat) {
    && s.tail == s.start + enqueued
    && s.start <= s.optimistic && s.optimistic + Sum(Weigh, Wished, s.pcs) <= s.start + asked
    && 0 <= s.overcommit && s.overcommit + Sum(Weigh, Owed, s.pcs) <= asked
    && forall t :: 0 <= t < |s.pcs| ==> PcBounded(s, s.pcs[t])
  }

  lemma StepKeepsBounds(s: State, a: Action, enqueued: nat, asked: nat)
    requires Bounded(s, enqueued, asked) && Enabled(s, a)
    ensures var enqueued' := enqueued + if a.Enqueue? then a.count else 0;
            Bounded(Step(s, a), enqueued', asked + if a.BeginDequeue? then a.max else 0)
  {
    var s' := Step(s, a);
    if !a.Enqueue? {
      var t, pc := a.t, s'.pcs[a.t];
      assert PcBounded(s, s.pcs[t]);
      assert s'.pcs == s.pcs[t := pc];
      SumUpdate(Weigh, Wished, s.pcs, t, pc);
      SumUpdate(Weigh, Owed, s.pcs, t, pc);
      PcKeepsBounds(s, a);
    }
    forall u | 0 <= u < |s'.pcs| ensures PcBounded(s', s'.pcs[u]) {
      assert PcBounded(s, s.pcs[u]);
    }
  }

  /** One thread's step: what it adds or gives back it had wished or owed. */
  lemma PcKeepsBounds(s: State, a: Action)
    requires Enabled(s, a) && !a.Enqueue? && PcBounded(s, s.pcs[a.t]) && s.start <= s.optimistic && 0 <= s.overcommit
    ensures var s', p := Step(s, a), s.pcs[a.t];
            var q, asked := s'.pcs[a.t], if a.BeginDequeue? then a.max else 0;
            && s'.tail == s.tail && s'.start == s.start
            && 0 <= s'.optimistic - s.optimistic <= asked + Weigh(Wished, p) - Weigh(Wished, q)
            && 0 <= s'.overcommit - s.overcommit <= asked + Weigh(Owed, p) - Weigh(Owed, q)
            && PcBounded(s', q)
  {
  }

  /** So a count that is compared with the tail is no more than 2^63 ahead as long as no more than that,
      and one, has been asked for in excess of what was enqueued. */
  lemma BoundsGiveWindow(s: State, enqueued: nat, asked: nat)
    requires Bounded(s, enqueued, asked) && asked <= enqueued + HALF + 1
    requires forall t :: 0 <= t < |s.pcs| ==> ThreadOk(s, s.pcs[t])
    ensures InWindow(s)
  {
    forall t | 0 <= t < |s.pcs| && s.pcs[t].Added? && s.pcs[t].desired > 0
      ensures s.tail - (s.pcs[t].mine - s.pcs[t].overcommit) >= -HALF
    {
      assert PcBounded(s, s.pcs[t]) && ThreadOk(s, s.pcs[t]);
    }
  }

  // ---------- Whole runs ----------

  ghost predicate IsRun(run: seq<State>, actions: seq<Action>, start: int, threads: nat) {
    && |run| == |actions| + 1
    && run[0] == Init(start, threads)
    && forall i {:trigger actions[i]} ::
         0 <= i < |actions| ==> Enabled(run[i], actions[i]) && run[i + 1] == Step(run[i], actions[i])
  }

  /** At no point has more been asked for than was enqueued and so many more. */
  ghost predicate Keeps(actions: seq<Action>, over: nat) {
    forall i :: 0 <= i <= |actions| ==> AskedFor(actions[..i]) <= Enqueued(actions[..i]) + over
  }

  lemma {:induction false} RunKeepsBounds(run: seq<State>, actions: seq<Action>, start: int, threads: nat, i: nat)
    requires IsRun(run, actions, start, threads) && i < |run|
    ensures Bounded(run[i], Enqueued(actions[..i]), AskedFor(actions[..i]))
  {
    if i == 0 {
      ZeroSum(Weigh, Wished, run[0].pcs);
      ZeroSum(Weigh, Owed, run[0].pcs);
    } else {
      RunKeepsBounds(run, actions, start, threads, i - 1);
      assert run[i] == Step(run[i - 1], actions[i - 1]);
      StepKeepsBounds(run[i - 1], actions[i - 1], Enqueued(actions[..i - 1]), AskedFor(actions[..i - 1]));
      assert actions[..i][..i - 1] == actions[..i - 1];
    }
  }

  lemma {:induction false} RunKeepsInv(run: seq<State>, actions: seq<Action>, start: int, threads: nat, i: nat)
    requires IsRun(run, actions, start, threads) && Keeps(actions, HALF + 1) && i < |run|
    ensures Inv(run[i]) && InWindow(run[i]) && run[i].start == start
  {
    if i == 0 {
      InitInv(start, threads);
    } else {
      RunKeepsInv(run, actions, start, threads, i - 1);
      assert run[i] == Step(run[i - 1], actions[i - 1]);
      StepKeepsInv(run[i - 1], actions[i - 1]);
    }
    RunKeepsBounds(run, actions, start, threads, i);
    BoundsGiveWindow(run[i], Enqueued(actions[..i]), AskedFor(actions[..i]));
  }

  /** In every interleaving of single and bulk dequeues with one producer, from whatever index the
      queue starts, as long as dequeues never ask for more than 2^63 + 1 items in excess of what has been
      enqueued: the head never passes the tail; the indices below the head are exactly the claimed
      ones, each claimed once; and with no dequeue under way the optimistic count is the head plus the
      overcommit. */
  lemma CountersSound(run: seq<State>, actions: seq<Action>, start: int, threads: nat, i: nat, index: int)
    requires IsRun(run, actions, start, threads) && Keeps(actions, HALF + 1) && i < |run|
    ensures var s := run[i];
            && start <= s.head <= s.tail
            && (start <= index < s.head <==> exists c :: InClaim(s.claims, c, index))
            && (forall c, d :: InClaim(s.claims, c, index) && InClaim(s.claims, d, index) ==> c == d)
            && ((forall t :: 0 <= t < |s.pcs| ==> s.pcs[t] == Idle) ==> s.optimistic == s.head + s.overcommit)
  {
    RunKeepsInv(run, actions, start, threads, i);
    var s := run[i];
    ClaimedOnce(s.claims, start, s.head, index);
    if forall t :: 0 <= t < |s.pcs| ==> s.pcs[t] == Idle {
      ZeroSum(Weigh, Due, s.pcs);
      ZeroSum(Weigh, Undecided, s.pcs);
      ZeroSum(Weigh, Spare, s.pcs);
    }
  }
}
