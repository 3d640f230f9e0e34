/** Every epoch of the coordinator and its workers ends: a number that every step brings down. */
module EpochsEnd {
  import opened Phases
  import opened Sums

  /** How many steps a worker can still take before it is free; 6 for one that has not been told. */
  function StepsLeft(unit: (), w: Worker): nat {
    match w.pc
    case Born => 7
    case AwaitRead => if w.state == READY then 0 else 6
    case Executing => 5
    case Executed => 4
    case AwaitCommit => 3
    case Committing => 2
    case Committed => 1
  }

  /** How many steps the coordinator can still take before it asks for a workload again, counting also
      what it then leaves to a worker. */
  function CoordinatorLeft(pc: Pc, n: nat): nat {
    match pc
    case Collecting => 0
    case Scanning(j) => AndLoop(j, n, 9)
    case Assigning(_) => 8
    case Creating(_) => 2
    case Signalling(_) => 1
    case ReadCast(j) => AndLoop(j, n, 4 * (n + 1))
    case ReadSync(j) => AndLoop(j, n, 3 * (n + 1))
    case CommitCast(j) => AndLoop(j, n, 2 * (n + 1))
    case CommitSync(j) => AndLoop(j, n, n + 1)
    case Starting(j) => AndLoop(j, n, 0)
  }

  /** The rest of a loop over n workers from j on, its last test included, and what follows. */
  function AndLoop(j: nat, n: nat, after: nat): nat {
    after + if j <= n then n + 1 - j else 1
  }

  function Measure(s: State): nat {
    CoordinatorLeft(s.pc, |s.workers|) + Sum(StepsLeft, (), s.workers)
  }

  lemma SumOneMore(ws: seq<Worker>, w: Worker)
    ensures Sum(StepsLeft, (), ws + [w]) == Sum(StepsLeft, (), ws) + StepsLeft((), w)
  {
    if ws == [] {
      assert [w][1..] == [];
    } else {
      assert (ws + [w])[1..] == ws[1..] + [w];
      SumOneMore(ws[1..], w);
    }
  }

  /** A coordinator's step changes one worker at most. */
  lemma OneWorkerChanged(s: State, j: nat, w: Worker)
    requires j < |s.workers|
    ensures Sum(StepsLeft, (), s.workers[j := w])
            == Sum(StepsLeft, (), s.workers) - StepsLeft((), s.workers[j]) + StepsLeft((), w)
  {
    SumUpdate(StepsLeft, (), s.workers, j, w);
  }

  predicate InLoop(pc: Pc) {
    pc.Starting? || pc.ReadCast? || pc.ReadSync? || pc.CommitCast? || pc.CommitSync?
  }

  lemma LoopEnds(s: State, more: bool)
    requires InLoop(s.pc) && s.pc.j >= |s.workers|
    ensures Measure(Coordinator(s, more)) < Measure(s)
  {
  }

  /** In a loop the coordinator may tell worker j a signal; what that worker has left stays. */
  lemma LoopGoesOn(s: State, more: bool)
    requires InLoop(s.pc) && s.pc.j < |s.workers| && Coordinator(s, more) != s
    ensures Measure(Coordinator(s, more)) < Measure(s)
  {
    var j, s' := s.pc.j, Coordinator(s, more);
    assert s'.pc == s.pc.(j := j + 1) && s'.workers == s.workers[j := s'.workers[j]];
    assert StepsLeft((), s'.workers[j]) == StepsLeft((), s.workers[j]);
    OneWorkerChanged(s, j, s'.workers[j]);
    LoopLeft(s.pc, j, |s.workers|);
  }

  lemma LoopLeft(pc: Pc, j: nat, n: nat)
    requires InLoop(pc) && pc.j == j < n
    ensures CoordinatorLeft(pc.(j := j + 1), n) < CoordinatorLeft(pc, n)
  {
  }

  lemma CastDescends(s: State, more: bool)
    requires InLoop(s.pc) && Coordinator(s, more) != s
    ensures Measure(Coordinator(s, more)) < Measure(s)
  {
    if s.pc.j < |s.workers| {
      LoopGoesOn(s, more);
    } else {
      LoopEnds(s, more);
    }
  }

  lemma ScanDescends(s: State, more: bool)
    requires s.pc.Scanning? && Coordinator(s, more) != s
    ensures Measure(Coordinator(s, more)) < Measure(s)
  {
    var j, s' := s.pc.j, Coordinator(s, more);
    if j >= |s.workers| {
      SumOneMore(s.workers, s'.workers[|s.workers|]);
    } else if s.workers[j].state == READY {
      OneWorkerChanged(s, j, s'.workers[j]);
    }
  }

  lemma DeployDescends(s: State, more: bool)
    requires Inv(s) && InDeployment(s.pc) && Coordinator(s, more) != s
    ensures Measure(Coordinator(s, more)) < Measure(s)
  {
    var s' := Coordinator(s, more);
    assert WorkerOk(s, s.pc.j);
    OneWorkerChanged(s, s.pc.j, s'.workers[s.pc.j]);
  }

  lemma CoordinatorDescends(s: State, more: bool)
    requires Inv(s) && s.pc != Collecting && Coordinator(s, more) != s
    ensures Measure(Coordinator(s, more)) < Measure(s)
  {
    if InDeployment(s.pc) {
      DeployDescends(s, more);
    } else if s.pc.Scanning? {
      ScanDescends(s, more);
    } else {
      CastDescends(s, more);
    }
  }

  lemma WorkerDescends(s: State, i: nat)
    requires Inv(s) && i < |s.workers| && WorkerMove(s, i) != s
    ensures Measure(WorkerMove(s, i)) < Measure(s)
  {
    assert WorkerOk(s, i);
    var s' := WorkerMove(s, i);
    assert s'.workers == s.workers[i := s'.workers[i]] && s'.pc == s.pc;
    OneWorkerChanged(s, i, s'.workers[i]);
  }

  /** The coordinator asks for the next workload. */
  predicate Asks(s: State, a: Action) {
    s.pc == Collecting && a.Coordinate?
  }

  /** Every step that changes the state, other than asking for a workload, brings the coordinator
      nearer to asking again. */
  lemma StepsDescend(run: seq<State>, actions: seq<Action>, epoch: nat, n: nat, a: Action)
    requires IsRun(run, actions, epoch) && n < |run| && Enabled(run[n], a)
    requires !Asks(run[n], a) && Step(run[n], a) != run[n]
    ensures Measure(Step(run[n], a)) < Measure(run[n])
  {
    RunKeepsInv(run, actions, epoch, n);
    match a {
      case Coordinate(more) => CoordinatorDescends(run[n], more);
      case Work(i) => WorkerDescends(run[n], i);
    }
  }

  /** Step k of the run changes the state and is no request. */
  ghost predicate Changes(run: seq<State>, actions: seq<Action>, k: nat)
    requires k < |actions| < |run|
  {
    !Asks(run[k], actions[k]) && run[k + 1] != run[k]
  }

  /** Between two requests for a workload there are at most as many changing steps as the measure
      says after the first. */
  lemma {:induction false} RoundsEnd(run: seq<State>, actions: seq<Action>, epoch: nat, i: nat, j: nat)
    requires IsRun(run, actions, epoch) && i <= j < |run|
    requires forall k: nat :: i <= k < j ==> Changes(run, actions, k)
    ensures Measure(run[j]) + (j - i) <= Measure(run[i])
  {
    if j > i {
      RoundsEnd(run, actions, epoch, i, j - 1);
      assert Changes(run, actions, j - 1);
      assert Enabled(run[j - 1], actions[j - 1]) && run[j] == Step(run[j - 1], actions[j - 1]);
      StepsDescend(run, actions, epoch, j - 1, actions[j - 1]);
    }
  }

  /** Until the coordinator asks again, some enabled step that is not a request changes the state. */
  lemma AlwaysAStep(run: seq<State>, actions: seq<Action>, epoch: nat, n: nat) returns (a: Action)
    requires IsRun(run, actions, epoch) && n < |run| && run[n].pc != Collecting
    ensures Enabled(run[n], a) && !Asks(run[n], a) && Step(run[n], a) != run[n]
  {
    NeverStuck(run, actions, epoch, n);
    a :| Enabled(run[n], a) && Step(run[n], a) != run[n];
  }

  lemma NothingLeft(s: State)
    requires Measure(s) == 0
    ensures s.pc == Collecting && Sum(StepsLeft, (), s.workers) == 0
  {
  }

  /** So every wait ends: from any point of a run on, after as many changing steps as the measure says,
      however they are chosen, the coordinator has come to ask for a workload, and every worker is
      done with what it had been given. */
  lemma WaitsEnd(run: seq<State>, actions: seq<Action>, epoch: nat, i: nat, j: nat)
    requires IsRun(run, actions, epoch) && i <= j < |run| && j - i >= Measure(run[i])
    requires forall k: nat :: i <= k < j ==> Changes(run, actions, k)
    ensures run[j].pc == Collecting && Sum(StepsLeft, (), run[j].workers) == 0
  {
    RoundsEnd(run, actions, epoch, i, j);
    NothingLeft(run[j]);
  }

  lemma OneStepMore(run: seq<State>, actions: seq<Action>, epoch: nat, a: Action)
    requires IsRun(run, actions, epoch) && Enabled(run[|run| - 1], a)
    ensures IsRun(run + [Step(run[|run| - 1], a)], actions + [a], epoch)
  {
  }

  /** And such steps can be taken: every run can be continued, without a request, until the coordinator
      asks. */
  lemma {:induction false} ReachesRequest(run: seq<State>, actions: seq<Action>, epoch: nat)
      returns (run': seq<State>, actions': seq<Action>)
    requires IsRun(run, actions, epoch)
    ensures IsRun(run', actions', epoch) && run <= run' && actions <= actions'
    ensures forall k: nat :: |actions| <= k < |actions'| ==> Changes(run', actions', k)
    ensures run'[|run'| - 1].pc == Collecting
    decreases Measure(run[|run| - 1])
  {
    var n := |actions|;
    if run[n].pc == Collecting {
      return run, actions;
    }
    var a := AlwaysAStep(run, actions, epoch, n);
    StepsDescend(run, actions, epoch, n, a);
    OneStepMore(run, actions, epoch, a);
    var more, moreActions := run + [Step(run[n], a)], actions + [a];
    run', actions' := ReachesRequest(more, moreActions, epoch);
    assert run'[n] == more[n] && run'[n + 1] == more[n + 1] && actions'[n] == moreActions[n];
    assert Changes(run', actions', n);
  }
}
