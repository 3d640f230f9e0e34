/** What the pipeline keeps in every run: the order of the buffer, the two epochs and the manager's test,
    and where every transaction is. */
module Handshake {
  import Aria = Serializability
  import opened Pipeline
  import opened PipelineSteps

  /** In every run the buffer is in order of epochs, none of them before the coordinator's, and never
      over its bound; everything sent is, in order and once, in a workload of its own epoch or in the
      buffer. */
  lemma BufferInOrder(run: seq<State>, actions: seq<Action>, saved: nat, n: nat)
    requires IsRun(run, actions, saved) && n < |run|
    ensures var s := run[n];
            && |s.buffer| <= MAX_BUFFER
            && (forall i, j :: 0 <= i < j < |s.buffer| ==> EpochOf(s.tx, s.buffer[i]) <= EpochOf(s.tx, s.buffer[j]))
            && (forall i :: 0 <= i < |s.buffer| ==> EpochOf(s.tx, s.buffer[i]) >= s.coordinatorEpoch)
            && s.sent == Contents(s.workloads) + Tagged(s.buffer, s.tx)
            && AllInOrder(s.sent)
  {
    RunKeepsInv(run, actions, saved, n);
    var s := run[n];
    var k := |Contents(s.workloads)|;
    forall i, j | 0 <= i < j < |s.buffer| ensures EpochOf(s.tx, s.buffer[i]) <= EpochOf(s.tx, s.buffer[j]) {
      assert s.sent[k + i] == Tagged(s.buffer, s.tx)[i] && s.sent[k + j] == Tagged(s.buffer, s.tx)[j];
      assert InOrder(s.sent[k + i], s.sent[k + j]);
    }
    forall i | 0 <= i < |s.buffer| ensures EpochOf(s.tx, s.buffer[i]) >= s.coordinatorEpoch {
      assert TxOk(s, s.buffer[i]);
    }
  }

  /** Once the coordinator is past an epoch, all that was sent for it is in workloads. */
  lemma PastEpochsPacked(run: seq<State>, actions: seq<Action>, saved: nat, n: nat, e: Entry)
    requires IsRun(run, actions, saved) && n < |run| && e in run[n].sent
    ensures e.epoch < run[n].coordinatorEpoch ==> e in Contents(run[n].workloads)
  {
    RunKeepsInv(run, actions, saved, n);
    TaggedIn(run[n].buffer, run[n].tx, e);
    assert TxOk(run[n], e.id);
  }

  /** The equality test neither misses a finished epoch nor fires early: the reported epoch equals
      the manager's exactly when the coordinator has reported it, and the coordinator cannot report
      a later one before the manager has moved on. */
  lemma TestNeverMisses(run: seq<State>, actions: seq<Action>, saved: nat, n: nat)
    requires IsRun(run, actions, saved) && n < |run|
    ensures var s := run[n];
            && (s.finished == s.epoch <==> Reported(s) >= s.epoch)
            && Reported(s) <= s.epoch && s.coordinatorEpoch <= s.epoch + 1
            && (s.manager == Check ==>
                  Managed(s) == s.(manager := if Reported(s) >= s.epoch then Retry(s.current, []) else Fetch))
  {
    RunKeepsInv(run, actions, saved, n);
  }

  /** From any saved epoch, the coordinator's epoch is at most one more than the manager's.  Past the
      first epoch it is the manager's or one more, except that it is one less exactly while the
      coordinator has reported an epoch and not yet left it, and the manager has been quicker. */
  lemma EpochsTogether(run: seq<State>, actions: seq<Action>, saved: nat, n: nat)
    requires IsRun(run, actions, saved) && n < |run|
    ensures var s := run[n];
            && s.coordinatorEpoch <= s.epoch + 1
            && (s.epoch > saved + 1 ==>
                  && s.epoch - 1 <= s.coordinatorEpoch
                  && (s.coordinatorEpoch < s.epoch <==> s.coordinator == Advance && s.finished < s.epoch))
  {
    RunKeepsInv(run, actions, saved, n);
  }

  /** In its first epoch after a restart the manager may be ahead by as many epochs as were saved: it
      goes on after them, the coordinator starts at 1.  It is ahead exactly until the coordinator has
      left the last saved epoch; until then the coordinator has packed nothing, so that it runs
      through epochs without transactions, and the manager's test does not fire. */
  lemma RestartCatchesUp(run: seq<State>, actions: seq<Action>, saved: nat, n: nat)
    requires IsRun(run, actions, saved) && n < |run| && run[n].epoch == saved + 1
    ensures run[0].epoch == run[0].coordinatorEpoch + saved
    ensures var s := run[n];
            && 1 <= s.coordinatorEpoch <= saved + 2
            && (s.coordinatorEpoch < s.epoch <==>
                  Reported(s) < saved || (Reported(s) == saved && s.coordinator == Advance))
            && (s.coordinatorEpoch < s.epoch ==> Contents(s.workloads) == [] && s.finished != s.epoch)
  {
    RunKeepsInv(run, actions, saved, n);
    RunSendsNew(run, actions, saved, n);
    var s := run[n];
    if Contents(s.workloads) != [] {
      var e := Contents(s.workloads)[0];
      assert EntryOk(s, e) && e in s.sent && SentNew(s, e);
    }
  }

  ghost predicate SentNew(s: State, e: Entry) {
    e in s.sent ==> e.epoch > s.saved
  }

  lemma StepSendsNew(s: State, a: Action, e: Entry)
    requires Inv(s) && Enabled(s, a) && SentNew(s, e)
    ensures SentNew(Step(s, a), e)
  {
    if a.Manage? && s.manager.Sending? && Room(s, s.manager.batch) {
      assert TxOk(s, e.id);
      BatchEntries(s, e);
      assert Managed(s).sent == s.sent + Tagged(Reversed(s.manager.batch), s.tx);
    } else {
      assert Step(s, a).sent == s.sent;
    }
  }

  lemma {:induction false} RunSendsNew(run: seq<State>, actions: seq<Action>, saved: nat, n: nat)
    requires IsRun(run, actions, saved) && n < |run|
    ensures forall e: Entry :: SentNew(run[n], e)
  {
    if n > 0 {
      RunSendsNew(run, actions, saved, n - 1);
      RunKeepsInv(run, actions, saved, n - 1);
      var s, a := run[n - 1], actions[n - 1];
      assert run[n] == Step(s, a);
      forall e: Entry ensures SentNew(run[n], e) {
        StepSendsNew(s, a, e);
      }
    }
  }

  /** Whenever the manager is not in the middle of retrying, every transaction fetched is in exactly
      one place: the current wrapper, the next one, or with the block generator; and each in a
      wrapper has been sent for its epoch, but for the batch on its way. */
  lemma NothingLost(run: seq<State>, actions: seq<Action>, saved: nat, n: nat)
    requires IsRun(run, actions, saved) && n < |run| && !InRetry(run[n].manager)
    ensures var s := run[n];
            && multiset(s.current) + multiset(s.following) + multiset(s.handed) == multiset(s.fetched)
            && (forall id :: id in s.current ==> EpochOf(s.tx, id) == s.epoch)
            && (forall id :: id in s.following ==> EpochOf(s.tx, id) == s.epoch + 1)
            && (forall id :: id in s.current || id in s.following ==>
                  id in Batch(s) || Entry(id, EpochOf(s.tx, id)) in s.sent)
  {
    RunKeepsInv(run, actions, saved, n);
    var s := run[n];
    forall id: Id
      ensures (multiset(s.current) + multiset(s.following) + multiset(s.handed))[id] == multiset(s.fetched)[id]
    {
      assert TxOk(s, id);
    }
    forall id | id in s.current || id in s.following
      ensures id in Batch(s) || Entry(id, EpochOf(s.tx, id)) in s.sent
      ensures EpochOf(s.tx, id) == if id in s.current then s.epoch else s.epoch + 1
      ensures !(id in s.current && id in s.following)
    {
      assert TxOk(s, id);
    }
  }

  /** A transaction that the manager looks at always has its result, so it is handed over or sent
      again, never passed over. */
  lemma NonePassedOver(run: seq<State>, actions: seq<Action>, saved: nat, n: nat)
    requires IsRun(run, actions, saved) && n < |run| && run[n].manager.Retry? && run[n].manager.rest != []
    ensures ResultOf(run[n].tx, run[n].manager.rest[0]) != Aria.Pending
  {
    RunKeepsInv(run, actions, saved, n);
    HeadAlone(run[n]);
  }

  /** The results of an epoch arrive as they are: exactly what was packed for the epoch has the results
      of its outcome afterwards, and no transaction's epoch changes. */
  lemma FinishGivesResults(
      run: seq<State>, actions: seq<Action>, saved: nat, n: nat, outcome: map<Id, Aria.Result>, id: Id)
    requires IsRun(run, actions, saved) && n < |run| && Enabled(run[n], Finish(outcome))
    ensures var s, s' := run[n], Step(run[n], Finish(outcome));
            && EpochOf(s'.tx, id) == EpochOf(s.tx, id)
            && (if Entry(id, s.coordinatorEpoch) in Contents(s.workloads)
                then id in outcome && ResultOf(s'.tx, id) == outcome[id]
                else ResultOf(s'.tx, id) == ResultOf(s.tx, id))
  {
    RunKeepsInv(run, actions, saved, n);
    var s, e := run[n], Entry(id, run[n].coordinatorEpoch);
    assert CanFinish(s, outcome) && EntryOk(s, e) && TxOk(s, id);
    assert id in outcome <==> e in Contents(s.workloads);
  }

  // ---------- Waiting for each other ----------

  /** No batch is larger than the maximum; one that is being filled is smaller, and one that is sent
      before the retry loop has ended is as large. */
  predicate BatchFits(pc: ManagerPc) {
    match pc
    case Sending(batch, Retrying(_, _)) => |batch| == MAX_BATCH
    case Sending(batch, _) => |batch| <= MAX_BATCH
    case Retry(_, batch) => |batch| < MAX_BATCH
    case _ => true
  }

  lemma {:induction false} RunBatchFits(run: seq<State>, actions: seq<Action>, saved: nat, n: nat)
    requires IsRun(run, actions, saved) && n < |run|
    ensures BatchFits(run[n].manager)
  {
    if n > 0 {
      RunBatchFits(run, actions, saved, n - 1);
      StepBatchFits(run[n - 1], actions[n - 1]);
      assert run[n] == Step(run[n - 1], actions[n - 1]);
    }
  }

  lemma StepBatchFits(s: State, a: Action)
    requires Enabled(s, a) && BatchFits(s.manager)
    ensures BatchFits(Step(s, a).manager)
  {
  }

  /** While the manager waits for room, the coordinator does not wait for transactions: what it does
      next, packing included, changes the state.  So the two never wait for each other. */
  lemma NoMutualWait(run: seq<State>, actions: seq<Action>, saved: nat, n: nat)
    requires IsRun(run, actions, saved) && n < |run|
    requires run[n].manager.Sending? && !Room(run[n], run[n].manager.batch)
    ensures run[n].coordinator == Gather ==> Packed(run[n]) != run[n]
    ensures exists a: Action ::
              !a.Manage? && !a.Receive? && !a.NoMore? && Enabled(run[n], a) && Step(run[n], a) != run[n]
  {
    RunBatchFits(run, actions, saved, n);
    var s := run[n];
    match s.coordinator {
      case Gather =>
        PacksWhenFull(s);
        assert Enabled(s, Pack) && Step(s, Pack) != s;
      case Execute =>
        var outcome := CommitAll(Contents(s.workloads), s.coordinatorEpoch);
        assert Enabled(s, Finish(outcome)) && Step(s, Finish(outcome)) != s;
      case _ =>
        assert Enabled(s, Report) && Step(s, Report) != s;
    }
  }

  // ---------- When the coordinator waits ----------

  /** What the coordinator does with the buffer, in every run: it waits exactly while there is nothing of
      a later epoch and less than a workload; it has the epoch executed exactly when there is only what
      is of later epochs; otherwise it packs a workload of its own epoch. */
  lemma GatherDecides(run: seq<State>, actions: seq<Action>, saved: nat, n: nat)
    requires IsRun(run, actions, saved) && n < |run| && run[n].coordinator == Gather
    ensures var s, s' := run[n], Packed(run[n]);
            var later := exists id :: id in s.buffer && EpochOf(s.tx, id) > s.coordinatorEpoch;
            var own := exists id :: id in s.buffer && EpochOf(s.tx, id) == s.coordinatorEpoch;
            && (s' == s <==> !later && |s.buffer| < MIN_WORKLOAD)
            && (s'.coordinator == Execute <==> later && !own)
            && (s'.workloads != s.workloads <==> own && (later || |s.buffer| >= MIN_WORKLOAD))
  {
    RunKeepsInv(run, actions, saved, n);
    var s := run[n];
    forall id | id in s.buffer ensures EpochOf(s.tx, id) >= s.coordinatorEpoch {
      assert TxOk(s, id);
    }
    BufferInOrder(run, actions, saved, n);
    if s.buffer != [] {
      var first, last := s.buffer[0], s.buffer[|s.buffer| - 1];
      forall i | 0 <= i < |s.buffer|
        ensures EpochOf(s.tx, first) <= EpochOf(s.tx, s.buffer[i]) <= EpochOf(s.tx, last)
      {}
      assert first in s.buffer && last in s.buffer;
      if EpochOf(s.tx, first) == s.coordinatorEpoch && Packed(s) != s {
        assert |Packed(s).workloads| == |s.workloads| + 1;
      }
    }
  }

  /** Something has been sent for an epoch after the coordinator's. */
  ghost predicate NextHasArrived(s: State) {
    exists e :: e in s.sent && e.epoch > s.coordinatorEpoch
  }

  function EpochLeft(s: State): nat {
    match s.coordinator
    case Gather => |s.buffer| + 4
    case Execute => 3
    case Signal => 2
    case Advance => 1
  }

  /** While it has, the coordinator does not wait; each of its steps brings the end of its epoch nearer. */
  lemma EpochGoesOn(run: seq<State>, actions: seq<Action>, saved: nat) returns (a: Action)
    requires IsRun(run, actions, saved) && NextHasArrived(run[|run| - 1])
    ensures !a.Manage? && !a.Receive? && !a.NoMore? && Enabled(run[|run| - 1], a)
    ensures var s, s' := run[|run| - 1], Step(run[|run| - 1], a);
            if s.coordinator == Advance then s'.coordinatorEpoch == s.coordinatorEpoch + 1 && s'.coordinator == Gather
            else
              && s'.coordinatorEpoch == s.coordinatorEpoch && EpochLeft(s') < EpochLeft(s)
              && NextHasArrived(s')
  {
    var n := |actions|;
    var s := run[n];
    RunKeepsInv(run, actions, saved, n);
    match s.coordinator {
      case Gather =>
        a := Pack;
        LaterIsBuffered(s);
        GatherDecides(run, actions, saved, n);
        PackedIsLess(s);
      case Execute => a := Finish(CommitAll(Contents(s.workloads), s.coordinatorEpoch));
      case _ => a := Report;
    }
    assert Step(s, a).sent == s.sent;
  }

  lemma LaterIsBuffered(s: State)
    requires Inv(s) && NextHasArrived(s)
    ensures exists id :: id in s.buffer && EpochOf(s.tx, id) > s.coordinatorEpoch
  {
    var e :| e in s.sent && e.epoch > s.coordinatorEpoch;
    assert EntryOk(s, e);
    TaggedIn(s.buffer, s.tx, e);
  }

  lemma PackedIsLess(s: State)
    requires s.coordinator == Gather && Packed(s) != s
    ensures var s' := Packed(s);
            && s'.coordinatorEpoch == s.coordinatorEpoch && s'.sent == s.sent
            && (s'.coordinator == Execute || (s'.coordinator == Gather && |s'.buffer| < |s.buffer|))
  {
  }

  /** So once something of the next epoch has arrived, every run can be continued by the coordinator
      alone until it has moved on by one epoch, with all that was sent for the old one in workloads. */
  lemma {:induction false} EpochCanEnd(run: seq<State>, actions: seq<Action>, saved: nat)
      returns (run': seq<State>, actions': seq<Action>)
    requires IsRun(run, actions, saved) && NextHasArrived(run[|run| - 1])
    ensures IsRun(run', actions', saved) && run <= run' && actions <= actions'
    ensures forall k :: |actions| <= k < |actions'| ==>
                          !actions'[k].Manage? && !actions'[k].Receive? && !actions'[k].NoMore?
    ensures run'[|run'| - 1].coordinatorEpoch == run[|run| - 1].coordinatorEpoch + 1
    decreases EpochLeft(run[|run| - 1])
  {
    var s := run[|run| - 1];
    var a := EpochGoesOn(run, actions, saved);
    run', actions' := run + [Step(s, a)], actions + [a];
    OneMore(run, actions, saved, a);
    if s.coordinator != Advance {
      run', actions' := EpochCanEnd(run', actions', saved);
    }
  }

  lemma OneMore(run: seq<State>, actions: seq<Action>, saved: nat, a: Action)
    requires IsRun(run, actions, saved) && Enabled(run[|run| - 1], a)
    ensures IsRun(run + [Step(run[|run| - 1], a)], actions + [a], saved)
  {
  }

  lemma PacksWhenFull(s: State)
    requires s.coordinator == Gather && |s.buffer| >= MIN_WORKLOAD
    ensures Packed(s) != s
  {
    var k := Packable(s.tx, s.buffer, s.coordinatorEpoch, 1);
    assert |s.buffer[k..]| < |s.buffer|;
  }

  /** An outcome for the epoch's entries. */
  ghost function CommitAll(entries: seq<Entry>, epoch: nat): (r: map<Id, Aria.Result>)
    ensures forall id :: id in r <==> Entry(id, epoch) in entries
    ensures forall id :: id in r ==> r[id] == Aria.Commit
  {
    var ids := set e | e in entries && e.epoch == epoch :: e.id;
    map id | id in ids :: Aria.Commit
  }

  ghost predicate Reachable(s: State, saved: nat) {
    exists run: seq<State>, actions: seq<Action> :: IsRun(run, actions, saved) && run[|run| - 1] == s
  }

  lemma StepReaches(s: State, a: Action, saved: nat)
    requires Reachable(s, saved) && Enabled(s, a)
    ensures Reachable(Step(s, a), saved)
  {
    var run: seq<State>, actions: seq<Action> :| IsRun(run, actions, saved) && run[|run| - 1] == s;
    OneMore(run, actions, saved, a);
  }

  /** One transaction of epoch 2 arrives while epoch 1 is empty, and epoch 1 is reported. */
  lemma ReportReached() returns (s: State)
    ensures Reachable(s, 0) && s.coordinator == Advance && s.coordinatorEpoch == s.finished == 1
    ensures s.manager == Check && s.epoch == 1 && s.current == [] && |s.buffer| == 1
  {
    s := TransactionReached();
    StepReaches(s, Pack, 0);
    s := Step(s, Pack);
    assert Contents(s.workloads) == [];
    StepReaches(s, Finish(map[]), 0);
    s := Step(s, Finish(map[]));
    StepReaches(s, Report, 0);
    s := Step(s, Report);
  }

  lemma TransactionReached() returns (s: State)
    ensures Reachable(s, 0) && s.manager == Check && s.epoch == 1 && s.current == []
    ensures s.buffer == [7] && EpochOf(s.tx, 7) == 2
    ensures s.coordinator == Gather && s.coordinatorEpoch == 1 && s.workloads == []
  {
    s := BatchReached();
    StepReaches(s, Manage, 0);
    s := Continued(Sent(s, [7]), Checking);
  }

  lemma BatchReached() returns (s: State)
    ensures Reachable(s, 0) && s.manager == Sending([7], Checking) && s.epoch == 1 && s.current == []
    ensures s.buffer == [] && EpochOf(s.tx, 7) == 2
    ensures s.coordinator == Gather && s.coordinatorEpoch == 1 && s.workloads == []
  {
    s := Init(0);
    assert IsRun([s], [], 0) && [s][|[s]| - 1] == s;
    StepReaches(s, NoMore, 0);
    s := s.(closed := {1}, manager := FetchNext);
    StepReaches(s, Receive([7]), 0);
    s := Step(s, Receive([7]));
  }

  /** The manager can be an epoch ahead: the coordinator reports an epoch before it leaves it. */
  lemma ManagerMayBeAhead()
    ensures exists s :: Reachable(s, 0) && s.epoch == s.coordinatorEpoch + 1
  {
    var s := ReportReached();
    for i := 0 to 4
      invariant Reachable(s, 0) && s.coordinatorEpoch == s.finished == 1 && |s.buffer| == 1
                  && (i < 4 ==> s.current == [])
      invariant s.epoch == if i < 4 then 1 else 2
      invariant s.manager == [Check, Retry([], []), Sending([], Switching), Switch, Fetch][i]
    {
      StepReaches(s, Manage, 0);
      s := Step(s, Manage);
    }
  }
}
