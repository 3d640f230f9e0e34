/** The coordinator and its workers as interleaved steps: one coordinator going through its main
    routine epoch after epoch, and any number of workers.  A wait on a condition variable is a step
    that is taken once its predicate, which is re-checked under the lock, holds.  Workloads are
    numbered in the order in which they are created. */
module Phases {

  datatype Signal = START | READ | COMMIT

  datatype WorkerState = READY | ASSIGNED | FINISH_READ

  datatype WorkerPc = Born | AwaitRead | Executing | Executed | AwaitCommit | Committing | Committed

  datatype Worker = Worker(signal: Signal, state: WorkerState, workload: nat, pc: WorkerPc)

  /** In a loop over the workers, j is the next one. */
  datatype Pc =
    | Starting(j: nat)
    | Collecting
    | Scanning(j: nat)
    | Assigning(j: nat)
    | Creating(j: nat)
    | Signalling(j: nat)
    | ReadCast(j: nat)
    | ReadSync(j: nat)
    | CommitCast(j: nat)
    | CommitSync(j: nat)

  datatype EventKind = Create | BeginExecute | EndExecute | BeginCommit | EndCommit

  /** Something that happened to a workload, and the coordinator's epoch at that moment. */
  datatype Event = Event(kind: EventKind, workload: nat, epoch: nat)

  /** Auxiliary: the epoch of each workload, the worker it was given to, and the events so far. */
  datatype State = State(
      pc: Pc, epoch: nat, workers: seq<Worker>, epochs: seq<nat>, owner: map<nat, nat>, log: seq<Event>)

  /** The coordinator moves, and where it asks for a workload there is one more or none; or a
      worker moves. */
  datatype Action = Coordinate(more: bool) | Work(i: nat)

  function Init(epoch: nat): State {
    State(Starting(0), epoch, [], [], map[], [])
  }

  function SetWorker(s: State, i: nat, w: Worker): State
    requires i < |s.workers|
  {
    s.(workers := s.workers[i := w])
  }

  function Logged(s: State, kind: EventKind, workload: nat): State {
    s.(log := s.log + [Event(kind, workload, s.epoch)])
  }

  /** The workload that is being deployed. */
  function InHand(s: State): int {
    |s.epochs| - 1
  }

  function Coordinator(s: State, more: bool): State {
    var n := |s.workers|;
    match s.pc
    case Starting(j) =>
      if j < n then SetWorker(s, j, s.workers[j].(signal := START)).(pc := Starting(j + 1)) else s.(pc := Collecting)
    case Collecting =>
      if more then Logged(s, Create, |s.epochs|).(pc := Scanning(0), epochs := s.epochs + [s.epoch])
      else s.(pc := ReadCast(0))
    case Scanning(j) =>
      if |s.epochs| == 0 then s
      else if j < n then
        if s.workers[j].state == READY then
          SetWorker(s, j, s.workers[j].(workload := |s.epochs| - 1))
          .(pc := Assigning(j), owner := s.owner[|s.epochs| - 1 := j])
        else s.(pc := Scanning(j + 1))
      else s.(workers := s.workers + [Worker(START, READY, |s.epochs| - 1, Born)], pc := Creating(n),
              owner := s.owner[|s.epochs| - 1 := n])
    case Assigning(j) =>
      if j < n then SetWorker(s, j, s.workers[j].(state := ASSIGNED)).(pc := Signalling(j)) else s
    case Creating(j) =>
      if j < n && s.workers[j].state == ASSIGNED then s.(pc := Signalling(j)) else s
    case Signalling(j) =>
      if j < n then SetWorker(s, j, s.workers[j].(signal := READ)).(pc := Collecting) else s
    case ReadCast(j) =>
      if j < n then
        if s.workers[j].state == READY then s.(pc := ReadCast(j + 1))
        else SetWorker(s, j, s.workers[j].(signal := READ)).(pc := ReadCast(j + 1))
      else s.(pc := ReadSync(0))
    case ReadSync(j) =>
      if j < n then
        if s.workers[j].state == READY || s.workers[j].state == FINISH_READ then s.(pc := ReadSync(j + 1)) else s
      else s.(pc := CommitCast(0))
    case CommitCast(j) =>
      if j < n then
        if s.workers[j].state == READY then s.(pc := CommitCast(j + 1))
        else SetWorker(s, j, s.workers[j].(signal := COMMIT)).(pc := CommitCast(j + 1))
      else s.(pc := CommitSync(0))
    case CommitSync(j) =>
      if j < n then
        if s.workers[j].state == READY then s.(pc := CommitSync(j + 1)) else s
      else s.(pc := Starting(0), epoch := s.epoch + 1)
  }

  function WorkerMove(s: State, i: nat): State
    requires i < |s.workers|
  {
    var w := s.workers[i];
    match w.pc
    case Born => SetWorker(s, i, w.(state := ASSIGNED, pc := AwaitRead))
    case AwaitRead =>
      if w.signal == READ then Logged(SetWorker(s, i, w.(pc := Executing)), BeginExecute, w.workload) else s
    case Executing => Logged(SetWorker(s, i, w.(pc := Executed)), EndExecute, w.workload)
    case Executed => SetWorker(s, i, w.(state := FINISH_READ, pc := AwaitCommit))
    case AwaitCommit =>
      if w.signal == COMMIT then Logged(SetWorker(s, i, w.(pc := Committing)), BeginCommit, w.workload) else s
    case Committing => Logged(SetWorker(s, i, w.(pc := Committed)), EndCommit, w.workload)
    case Committed => SetWorker(s, i, w.(state := READY, pc := AwaitRead))
  }

  predicate Enabled(s: State, a: Action) {
    a.Work? ==> a.i < |s.workers|
  }

  function Step(s: State, a: Action): State
    requires Enabled(s, a)
  {
    match a
    case Coordinate(more) => Coordinator(s, more)
    case Work(i) => WorkerMove(s, i)
  }

  // ---------- What can be going on in a worker ----------

  /** A free worker waits for its next signal, and the last it got is not READ. */
  predicate Free(w: Worker) {
    w.state == READY && w.pc == AwaitRead && w.signal != READ
  }

  /** It has its workload but has not been told to read. */
  predicate Loaded(w: Worker) {
    w.state == ASSIGNED && w.pc == AwaitRead && w.signal == START
  }

  predicate Reader(w: Worker) {
    w.signal == READ && w.state == ASSIGNED && (w.pc == AwaitRead || w.pc == Executing || w.pc == Executed)
  }

  predicate HasRead(w: Worker) {
    w.signal == READ && w.state == FINISH_READ && w.pc == AwaitCommit
  }

  predicate Committer(w: Worker) {
    w.signal == COMMIT && w.state == FINISH_READ && (w.pc == AwaitCommit || w.pc == Committing || w.pc == Committed)
  }

  /** Not taken into this epoch; or done with its part of it. */
  predicate Unused(w: Worker) {
    Free(w) && w.signal == START
  }

  predicate Done(w: Worker) {
    Free(w) && w.signal == COMMIT
  }

  /** What worker i may be doing while the coordinator is at pc. */
  predicate Fits(pc: Pc, i: nat, w: Worker) {
    match pc
    case Starting(j) => Free(w) && (i < j ==> w.signal == START)
    case Assigning(j) => if i == j then Unused(w) else Unused(w) || Reader(w) || HasRead(w)
    case Creating(j) =>
      if i == j then Loaded(w) || (w.signal == START && w.state == READY && w.pc == Born)
      else Unused(w) || Reader(w) || HasRead(w)
    case Signalling(j) => if i == j then Loaded(w) else Unused(w) || Reader(w) || HasRead(w)
    case ReadSync(j) => Unused(w) || HasRead(w) || (i >= j && Reader(w))
    case CommitCast(j) => Unused(w) || (if i < j then Committer(w) || Done(w) else HasRead(w))
    case CommitSync(j) => Unused(w) || Done(w) || (i >= j && Committer(w))
    case _ => Unused(w) || Reader(w) || HasRead(w)
  }

  /** The worker index that the coordinator is about to act on exists. */
  predicate PcFits(s: State) {
    && (s.pc.Assigning? || s.pc.Signalling? ==> s.pc.j < |s.workers|)
    && (s.pc.Creating? ==> s.pc.j == |s.workers| - 1)
    && (InDeployment(s.pc) || s.pc.Scanning? ==> |s.epochs| > 0 && s.epochs[|s.epochs| - 1] == s.epoch)
  }

  /** A workload is being handed to worker pc.j. */
  predicate InDeployment(pc: Pc) {
    pc.Assigning? || pc.Creating? || pc.Signalling?
  }

  // ---------- The history of one workload ----------

  function History(log: seq<Event>, workload: nat): seq<Event> {
    if log == [] then []
    else
      var last := log[|log| - 1];
      History(log[..|log| - 1], workload) + (if last.workload == workload then [last] else [])
  }

  lemma HistoryGrows(log: seq<Event>, e: Event, workload: nat)
    ensures History(log + [e], workload) == History(log, workload) + (if e.workload == workload then [e] else [])
  {
    assert (log + [e])[..|log|] == log;
  }

  /** All that is to happen to a workload, in this order and in its own epoch. */
  function Life(workload: nat, epoch: nat): seq<Event> {
    [ Event(Create, workload, epoch),
      Event(BeginExecute, workload, epoch), Event(EndExecute, workload, epoch),
      Event(BeginCommit, workload, epoch), Event(EndCommit, workload, epoch) ]
  }

  /** How much of its workload's life a worker has seen. */
  function Progress(w: Worker): nat {
    match w.pc
    case Born => 1
    case AwaitRead => if w.state == READY && w.signal == COMMIT then 5 else 1
    case Executing => 2
    case Executed => 3
    case AwaitCommit => 3
    case Committing => 4
    case Committed => 5
  }

  /** A workload of the current epoch has a worker of its own, except while one is sought for the
      newest; a workload of an earlier epoch has been through everything. */
  ghost predicate WorkloadOk(s: State, id: nat)
    requires id < |s.epochs|
  {
    && s.epochs[id] <= s.epoch
    && if s.epochs[id] < s.epoch then History(s.log, id) == Life(id, s.epochs[id])
       else if s.pc.Scanning? && id == |s.epochs| - 1 then History(s.log, id) == Life(id, s.epoch)[..1]
       else
         && !s.pc.Starting?
         && id in s.owner && s.owner[id] < |s.workers|
         && var w := s.workers[s.owner[id]];
            && w.workload == id
            && (Unused(w) ==> s.pc == Assigning(s.owner[id]))
            && History(s.log, id) == Life(id, s.epoch)[..Progress(w)]
  }

  /** A worker taken into the epoch works on a workload of that epoch, given to it alone. */
  ghost predicate WorkerOk(s: State, i: nat)
    requires i < |s.workers|
  {
    var w := s.workers[i];
    && Fits(s.pc, i, w)
    && w.workload < |s.epochs|
    && (InDeployment(s.pc) && i == s.pc.j ==> w.workload == |s.epochs| - 1)
    && (!s.pc.Starting? && (!Unused(w) || s.pc == Assigning(i)) ==>
          s.epochs[w.workload] == s.epoch && w.workload in s.owner && s.owner[w.workload] == i
          && !(s.pc.Scanning? && w.workload == |s.epochs| - 1))
  }

  predicate IsCommit(kind: EventKind) {
    kind == BeginCommit || kind == EndCommit
  }

  predicate InOrder(e: Event, f: Event) {
    e.epoch <= f.epoch && (IsCommit(e.kind) && !IsCommit(f.kind) ==> e.epoch < f.epoch)
  }

  /** No workload of an epoch is created or executed after the first commit of that epoch. */
  ghost predicate Ordered(log: seq<Event>) {
    forall i, j :: 0 <= i < j < |log| ==> InOrder(log[i], log[j])
  }

  predicate CommitPhase(pc: Pc) {
    pc.CommitCast? || pc.CommitSync?
  }

  ghost predicate LogOk(s: State) {
    && Ordered(s.log)
    && (forall i :: 0 <= i < |s.log| ==> s.log[i].epoch <= s.epoch && s.log[i].workload < |s.epochs|)
    && (!CommitPhase(s.pc) ==> forall i :: 0 <= i < |s.log| && IsCommit(s.log[i].kind) ==> s.log[i].epoch < s.epoch)
  }

  ghost predicate Inv(s: State) {
    && PcFits(s)
    && LogOk(s)
    && (forall i: nat :: i < |s.workers| ==> WorkerOk(s, i))
    && (forall id: nat :: id < |s.epochs| ==> WorkloadOk(s, id))
  }

  // ---------- Steps of a worker ----------

  /** Worker i, taken into the epoch, moves on with the same workload. */
  ghost predicate MovesOn(s: State, i: nat, w: Worker) {
    && i < |s.workers| && !s.pc.Starting?
    && !Unused(s.workers[i]) && !Unused(w)
    && w.workload == s.workers[i].workload
    && Fits(s.pc, i, w)
  }

  lemma OthersStay(s: State, i: nat, w: Worker, s': State)
    requires Inv(s) && MovesOn(s, i, w)
    requires s' == SetWorker(s, i, w).(log := s'.log)
    ensures forall k: nat :: k < |s'.workers| ==> WorkerOk(s', k)
  {
    forall k: nat | k < |s'.workers| ensures WorkerOk(s', k) {
      assert WorkerOk(s, k);
    }
  }

  lemma QuietWork(s: State, i: nat, w: Worker)
    requires Inv(s) && MovesOn(s, i, w) && Progress(w) == Progress(s.workers[i])
    ensures Inv(SetWorker(s, i, w))
  {
    var s' := SetWorker(s, i, w);
    OthersStay(s, i, w, s');
    forall id: nat | id < |s'.epochs| ensures WorkloadOk(s', id) {
      assert WorkloadOk(s, id);
    }
  }

  lemma LogGrows(s: State, kind: EventKind, workload: nat)
    requires LogOk(s) && workload < |s.epochs| && IsCommit(kind) == CommitPhase(s.pc)
    ensures LogOk(Logged(s, kind, workload))
  {
    var log := s.log + [Event(kind, workload, s.epoch)];
    forall i, j | 0 <= i < j < |log| ensures InOrder(log[i], log[j]) {
      if j < |s.log| {
        assert InOrder(s.log[i], s.log[j]);
      }
    }
  }

  lemma LoggedWork(s: State, i: nat, w: Worker, kind: EventKind)
    requires Inv(s) && MovesOn(s, i, w) && IsCommit(kind) == CommitPhase(s.pc)
    requires Progress(w) == Progress(s.workers[i]) + 1 <= 5
    requires Life(w.workload, s.epoch)[Progress(w) - 1].kind == kind
    ensures Inv(Logged(SetWorker(s, i, w), kind, w.workload))
  {
    var s' := Logged(SetWorker(s, i, w), kind, w.workload);
    OthersStay(s, i, w, s');
    assert WorkerOk(s, i) && WorkerOk(s', i);
    LogGrows(s, kind, w.workload);
    forall id: nat | id < |s'.epochs| ensures WorkloadOk(s', id) {
      HistoryGrows(s.log, Event(kind, w.workload, s.epoch), id);
      WorkLogged(s, i, w, kind, id);
    }
  }

  lemma WorkLogged(s: State, i: nat, w: Worker, kind: EventKind, id: nat)
    requires Inv(s) && MovesOn(s, i, w) && id < |s.epochs|
    requires Progress(w) == Progress(s.workers[i]) + 1 <= 5
    requires Life(w.workload, s.epoch)[Progress(w) - 1].kind == kind
    requires var e := Event(kind, w.workload, s.epoch);
             History(s.log + [e], id) == History(s.log, id) + (if w.workload == id then [e] else [])
    ensures WorkloadOk(Logged(SetWorker(s, i, w), kind, w.workload), id)
  {
    assert WorkloadOk(s, id) && WorkerOk(s, i);
  }

  lemma WorkerKeepsInv(s: State, i: nat)
    requires Inv(s) && i < |s.workers|
    ensures Inv(WorkerMove(s, i))
  {
    assert WorkerOk(s, i);
    var w := s.workers[i];
    match w.pc {
      case Born => QuietWork(s, i, w.(state := ASSIGNED, pc := AwaitRead));
      case AwaitRead =>
        if w.signal == READ {
          LoggedWork(s, i, w.(pc := Executing), BeginExecute);
        }
      case Executing => LoggedWork(s, i, w.(pc := Executed), EndExecute);
      case Executed => QuietWork(s, i, w.(state := FINISH_READ, pc := AwaitCommit));
      case AwaitCommit =>
        if w.signal == COMMIT {
          LoggedWork(s, i, w.(pc := Committing), BeginCommit);
        }
      case Committing => LoggedWork(s, i, w.(pc := Committed), EndCommit);
      case Committed => QuietWork(s, i, w.(state := READY, pc := AwaitRead));
    }
  }

  // ---------- Steps of the coordinator ----------

  /** The coordinator passes on within an epoch, changing no worker. */
  lemma PassesOn(s: State, pc: Pc)
    requires Inv(s)
    requires !s.pc.Scanning? || pc.Scanning?
    requires !s.pc.Assigning? && !pc.Assigning? && !pc.Creating?
    requires !pc.Starting? && (s.pc.Starting? ==> pc == Collecting)
    requires PcFits(s.(pc := pc)) && (CommitPhase(s.pc) ==> CommitPhase(pc)) && (pc.Scanning? ==> s.pc.Scanning?)
    requires forall i: nat :: i < |s.workers| ==> Fits(pc, i, s.workers[i])
    requires s.pc.Starting? ==> forall i: nat :: i < |s.workers| ==> Unused(s.workers[i])
    requires InDeployment(pc) ==> s.pc == Creating(pc.j)
    ensures Inv(s.(pc := pc))
  {
    var s' := s.(pc := pc);
    forall i: nat | i < |s'.workers| ensures WorkerOk(s', i) {
      assert WorkerOk(s, i);
    }
    forall id: nat | id < |s'.epochs| ensures WorkloadOk(s', id) {
      assert WorkloadOk(s, id);
    }
  }

  /** The coordinator tells worker j something, and moves on. */
  lemma Tells(s: State, j: nat, signal: Signal, pc: Pc)
    requires Inv(s) && j < |s.workers|
    requires (s.pc == Signalling(j) && pc == Collecting && signal == READ)
          || (s.pc == ReadCast(j) && pc == ReadCast(j + 1) && s.workers[j].signal == READ == signal)
          || (s.pc == CommitCast(j) && pc == CommitCast(j + 1) && signal == COMMIT && !Unused(s.workers[j]))
    ensures Inv(SetWorker(s, j, s.workers[j].(signal := signal)).(pc := pc))
  {
    var s' := SetWorker(s, j, s.workers[j].(signal := signal)).(pc := pc);
    forall i: nat | i < |s'.workers| ensures WorkerOk(s', i) {
      assert WorkerOk(s, i);
    }
    assert WorkerOk(s, j);
    forall id: nat | id < |s'.epochs| ensures WorkloadOk(s', id) {
      assert WorkloadOk(s, id);
    }
  }

  lemma StartStep(s: State, more: bool)
    requires Inv(s) && s.pc.Starting?
    ensures Inv(Coordinator(s, more))
  {
    var j := s.pc.j;
    AllFit(s);
    if j < |s.workers| {
      var s' := SetWorker(s, j, s.workers[j].(signal := START)).(pc := Starting(j + 1));
      forall i: nat | i < |s'.workers| ensures WorkerOk(s', i) {
        assert WorkerOk(s, i);
      }
      forall id: nat | id < |s'.epochs| ensures WorkloadOk(s', id) {
        assert WorkloadOk(s, id);
      }
      assert Coordinator(s, more) == s';
    } else {
      PassesOn(s, Collecting);
    }
  }

  lemma CreateStep(s: State)
    requires Inv(s) && s.pc == Collecting
    ensures Inv(Coordinator(s, true))
  {
    var s' := Coordinator(s, true);
    var n := |s.epochs|;
    LogGrows(s.(epochs := s'.epochs), Create, n);
    forall i: nat | i < |s'.workers| ensures WorkerOk(s', i) {
      assert WorkerOk(s, i);
    }
    NoHistory(s.log, n);
    forall id: nat | id < |s'.epochs| ensures WorkloadOk(s', id) {
      HistoryGrows(s.log, Event(Create, n, s.epoch), id);
      if id < n {
        assert WorkloadOk(s, id);
      }
    }
  }

  lemma {:induction false} NoHistory(log: seq<Event>, workload: nat)
    requires forall i :: 0 <= i < |log| ==> log[i].workload < workload
    ensures History(log, workload) == []
  {
    if log != [] {
      NoHistory(log[..|log| - 1], workload);
    }
  }

  /** A free worker is given the workload. */
  lemma GiveStep(s: State, more: bool)
    requires Inv(s) && s.pc.Scanning? && s.pc.j < |s.workers| && s.workers[s.pc.j].state == READY
    ensures Inv(Coordinator(s, more))
  {
    var s' := Coordinator(s, more);
    assert WorkerOk(s, s.pc.j);
    forall i: nat | i < |s'.workers| ensures WorkerOk(s', i) {
      assert WorkerOk(s, i);
    }
    forall id: nat | id < |s'.epochs| ensures WorkloadOk(s', id) {
      assert WorkloadOk(s, id);
    }
  }

  /** No worker is free: a new one is created for the workload. */
  lemma HireStep(s: State, more: bool)
    requires Inv(s) && s.pc.Scanning? && s.pc.j >= |s.workers|
    ensures Inv(Coordinator(s, more))
  {
    var s' := Coordinator(s, more);
    forall i: nat | i < |s'.workers| ensures WorkerOk(s', i) {
      if i < |s.workers| {
        assert WorkerOk(s, i);
      }
    }
    forall id: nat | id < |s'.epochs| ensures WorkloadOk(s', id) {
      assert WorkloadOk(s, id);
    }
  }

  lemma AssignStep(s: State, more: bool)
    requires Inv(s) && s.pc.Assigning?
    ensures Inv(Coordinator(s, more))
  {
    var s' := Coordinator(s, more);
    assert WorkerOk(s, s.pc.j);
    forall i: nat | i < |s'.workers| ensures WorkerOk(s', i) {
      assert WorkerOk(s, i);
    }
    forall id: nat | id < |s'.epochs| ensures WorkloadOk(s', id) {
      assert WorkloadOk(s, id);
    }
  }

  /** All workers are done: every workload of the epoch has been through everything. */
  lemma EpochStep(s: State, more: bool)
    requires Inv(s) && s.pc.CommitSync? && s.pc.j >= |s.workers|
    ensures Inv(Coordinator(s, more))
  {
    var s' := s.(pc := Starting(0), epoch := s.epoch + 1);
    assert Coordinator(s, more) == s';
    forall i: nat | i < |s'.workers| ensures WorkerOk(s', i) {
      assert WorkerOk(s, i);
    }
    forall id: nat | id < |s'.epochs| ensures WorkloadOk(s', id) {
      assert WorkloadOk(s, id);
      if s.epochs[id] == s.epoch {
        assert WorkerOk(s, s.owner[id]);
        assert Life(id, s.epoch)[..5] == Life(id, s.epoch);
      }
    }
  }

  lemma AllFit(s: State)
    requires Inv(s)
    ensures forall i: nat :: i < |s.workers| ==> Fits(s.pc, i, s.workers[i])
  {
    forall i: nat | i < |s.workers| ensures Fits(s.pc, i, s.workers[i]) {
      assert WorkerOk(s, i);
    }
  }

  lemma DeployKeepsInv(s: State, more: bool)
    requires Inv(s) && (s.pc.Collecting? || s.pc.Scanning? || InDeployment(s.pc))
    ensures Inv(Coordinator(s, more))
  {
    AllFit(s);
    match s.pc {
      case Collecting =>
        if more {
          CreateStep(s);
        } else {
          PassesOn(s, ReadCast(0));
        }
      case Scanning(j) =>
        if j >= |s.workers| {
          HireStep(s, more);
        } else if s.workers[j].state == READY {
          GiveStep(s, more);
        } else {
          PassesOn(s, Scanning(j + 1));
        }
      case Assigning(_) => AssignStep(s, more);
      case Creating(j) =>
        if s.workers[j].state == ASSIGNED {
          PassesOn(s, Signalling(j));
        }
      case Signalling(j) => Tells(s, j, READ, Collecting);
    }
  }

  lemma ReadKeepsInv(s: State, more: bool)
    requires Inv(s) && (s.pc.ReadCast? || s.pc.ReadSync?)
    ensures Inv(Coordinator(s, more))
  {
    AllFit(s);
    var j := s.pc.j;
    if j >= |s.workers| {
      PassesOn(s, if s.pc.ReadCast? then ReadSync(0) else CommitCast(0));
    } else if s.pc.ReadCast? && s.workers[j].state != READY {
      Tells(s, j, READ, ReadCast(j + 1));
    } else if s.pc.ReadCast? || s.workers[j].state != ASSIGNED {
      PassesOn(s, s.pc.(j := j + 1));
    }
  }

  lemma CommitKeepsInv(s: State, more: bool)
    requires Inv(s) && (s.pc.CommitCast? || s.pc.CommitSync?)
    ensures Inv(Coordinator(s, more))
  {
    AllFit(s);
    var j := s.pc.j;
    if j >= |s.workers| {
      if s.pc.CommitCast? {
        PassesOn(s, CommitSync(0));
      } else {
        EpochStep(s, more);
      }
    } else if s.workers[j].state == READY {
      PassesOn(s, s.pc.(j := j + 1));
    } else if s.pc.CommitCast? {
      Tells(s, j, COMMIT, CommitCast(j + 1));
    }
  }

  lemma CoordinatorKeepsInv(s: State, more: bool)
    requires Inv(s)
    ensures Inv(Coordinator(s, more))
  {
    match s.pc {
      case Starting(_) => StartStep(s, more);
      case ReadCast(_) => ReadKeepsInv(s, more);
      case ReadSync(_) => ReadKeepsInv(s, more);
      case CommitCast(_) => CommitKeepsInv(s, more);
      case CommitSync(_) => CommitKeepsInv(s, more);
      case _ => DeployKeepsInv(s, more);
    }
  }

  // ---------- Whole runs ----------

  ghost predicate IsRun(run: seq<State>, actions: seq<Action>, epoch: nat) {
    && |run| == |actions| + 1
    && run[0] == Init(epoch)
    && forall i {:trigger actions[i]} :: 0 <= i < |actions| ==>
          Enabled(run[i], actions[i]) && run[i + 1] == Step(run[i], actions[i])
  }

  lemma StepKeepsInv(s: State, a: Action)
    requires Inv(s) && Enabled(s, a)
    ensures Inv(Step(s, a))
  {
    match a {
      case Coordinate(more) => CoordinatorKeepsInv(s, more);
      case Work(i) => WorkerKeepsInv(s, i);
    }
  }

  lemma {:induction false} RunKeepsInv(run: seq<State>, actions: seq<Action>, epoch: nat, n: nat)
    requires IsRun(run, actions, epoch) && n < |run|
    ensures Inv(run[n])
  {
    if n > 0 {
      RunKeepsInv(run, actions, epoch, n - 1);
      StepKeepsInv(run[n - 1], actions[n - 1]);
    }
  }

  /** No worker commits while another executes; and in the whole history, nothing of an epoch is
      created or executed once a commit of that epoch, or of a later one, has begun. */
  lemma PhasesSeparate(run: seq<State>, actions: seq<Action>, epoch: nat, n: nat)
    requires IsRun(run, actions, epoch) && n < |run|
    ensures forall i, k :: 0 <= i < |run[n].workers| && 0 <= k < |run[n].workers| ==>
                             !(run[n].workers[i].pc == Executing && run[n].workers[k].pc == Committing)
    ensures Ordered(run[n].log)
  {
    RunKeepsInv(run, actions, epoch, n);
    var s := run[n];
    forall i: nat, k: nat | i < |s.workers| && k < |s.workers|
      ensures !(s.workers[i].pc == Executing && s.workers[k].pc == Committing)
    {
      assert WorkerOk(s, i) && WorkerOk(s, k);
    }
  }

  /** In every reachable state, a step that changes a worker's workload finds that worker READY and waiting. */
  lemma ReplacedOnlyWhenReady(run: seq<State>, actions: seq<Action>, epoch: nat, n: nat, a: Action, i: nat)
    requires IsRun(run, actions, epoch) && n < |run| && Enabled(run[n], a) && i < |run[n].workers|
    ensures var s, s' := run[n], Step(run[n], a);
            && |s.workers| <= |s'.workers|
            && (s'.workers[i].workload != s.workers[i].workload ==>
                  s.workers[i].state == READY && s.workers[i].pc == AwaitRead)
  {
    RunKeepsInv(run, actions, epoch, n);
    assert WorkerOk(run[n], i);
  }

  /** What has happened to a workload is always a beginning of: created, executed once, committed
      once, all in its own epoch; and it is all of it once the coordinator is past that epoch. */
  lemma EachWorkloadOnce(run: seq<State>, actions: seq<Action>, epoch: nat, n: nat, id: nat)
    requires IsRun(run, actions, epoch) && n < |run| && id < |run[n].epochs|
    ensures var s := run[n];
            && History(s.log, id) <= Life(id, s.epochs[id])
            && (s.epochs[id] < s.epoch ==> History(s.log, id) == Life(id, s.epochs[id]))
  {
    RunKeepsInv(run, actions, epoch, n);
    assert WorkloadOk(run[n], id);
  }

  /** The epochs are counted one by one: only the step that leaves the last wait for the committing
      workers changes the number, by one, and it finds every worker free and every workload done. */
  lemma EpochsCount(run: seq<State>, actions: seq<Action>, epoch: nat, n: nat, a: Action)
    requires IsRun(run, actions, epoch) && n < |run| && Enabled(run[n], a)
    ensures var s, s' := run[n], Step(run[n], a);
            && s'.epoch == s.epoch + (if s.pc.CommitSync? && s'.pc == Starting(0) then 1 else 0)
            && (s'.epoch > s.epoch ==>
                  && (forall i :: 0 <= i < |s.workers| ==> Free(s.workers[i]))
                  && forall id :: 0 <= id < |s.epochs| ==> History(s.log, id) == Life(id, s.epochs[id]))
  {
    RunKeepsInv(run, actions, epoch, n);
    var s, s' := run[n], Step(run[n], a);
    if s'.epoch > s.epoch {
      forall i: nat | i < |s.workers| ensures Free(s.workers[i]) {
        assert WorkerOk(s, i);
      }
      StepKeepsInv(s, a);
      forall id: nat | id < |s.epochs| ensures History(s.log, id) == Life(id, s.epochs[id]) {
        assert WorkloadOk(s', id);
      }
    }
  }

  /** Workers before the one being looked at have been found taken. */
  ghost predicate ScanOk(s: State) {
    s.pc.Scanning? ==> forall i :: 0 <= i < s.pc.j && i < |s.workers| ==> !Unused(s.workers[i])
  }

  lemma StepKeepsScan(s: State, a: Action)
    requires Inv(s) && Enabled(s, a) && ScanOk(s)
    ensures ScanOk(Step(s, a))
  {
    if a.Work? {
      assert WorkerOk(s, a.i);
    }
  }

  lemma {:induction false} RunKeepsScan(run: seq<State>, actions: seq<Action>, epoch: nat, n: nat)
    requires IsRun(run, actions, epoch) && n < |run|
    ensures ScanOk(run[n])
  {
    if n > 0 {
      RunKeepsScan(run, actions, epoch, n - 1);
      RunKeepsInv(run, actions, epoch, n - 1);
      assert run[n] == Step(run[n - 1], actions[n - 1]);
      StepKeepsScan(run[n - 1], actions[n - 1]);
    }
  }

  /** A worker is only created when every other has a workload of this epoch, one of its own that is not
      the one to be deployed: there are never more workers than workloads in the fullest epoch. */
  lemma HiresOnlyWhenNeeded(run: seq<State>, actions: seq<Action>, epoch: nat, n: nat, a: Action)
    requires IsRun(run, actions, epoch) && n < |run| && Enabled(run[n], a)
    requires |Step(run[n], a).workers| != |run[n].workers|
    ensures var s, s' := run[n], Step(run[n], a);
            && |s'.workers| == |s.workers| + 1
            && (forall i :: 0 <= i < |s.workers| ==>
                  s.workers[i].workload < |s.epochs| - 1 && s.epochs[s.workers[i].workload] == s.epoch)
            && forall i, k :: 0 <= i < k < |s.workers| ==> s.workers[i].workload != s.workers[k].workload
  {
    RunKeepsInv(run, actions, epoch, n);
    RunKeepsScan(run, actions, epoch, n);
    var s := run[n];
    forall i: nat | i < |s.workers|
      ensures s.workers[i].workload < |s.epochs| - 1 && s.epochs[s.workers[i].workload] == s.epoch
      ensures s.workers[i].workload in s.owner && s.owner[s.workers[i].workload] == i
    {
      assert WorkerOk(s, i);
    }
  }

  /** Some step always changes the state. */
  lemma NeverStuck(run: seq<State>, actions: seq<Action>, epoch: nat, n: nat)
    requires IsRun(run, actions, epoch) && n < |run|
    ensures exists a: Action :: Enabled(run[n], a) && Step(run[n], a) != run[n]
  {
    RunKeepsInv(run, actions, epoch, n);
    var s := run[n];
    if Coordinator(s, false) != s {
      assert Step(s, Coordinate(false)) != s;
    } else {
      var j := s.pc.j;
      assert j < |s.workers|;
      assert WorkerOk(s, j);
      assert Step(s, Work(j)).workers[j] != s.workers[j];
      assert Step(s, Work(j)) != s;
    }
  }
}
