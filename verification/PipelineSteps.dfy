/** Every step of the manager and of the coordinator keeps the pipeline's invariant. */
module PipelineSteps {
  import Aria = Serializability
  import opened Sequences
  import opened Pipeline

  // ---------- Steps of the manager ----------

  lemma ReceiveStep(s: State, batch: seq<Id>)
    requires Inv(s) && Enabled(s, Receive(batch))
    ensures Inv(Step(s, Receive(batch)))
  {
    var s' := Step(s, Receive(batch));
    forall id: Id ensures TxOk(s', id) {
      ReceiveTx(s, batch, id);
    }
    forall e: Entry ensures EntryOk(s', e) {
      assert EntryOk(s, e);
    }
    forall id | id in s.buffer ensures EpochOf(s'.tx, id) == EpochOf(s.tx, id) {
      assert TxOk(s, id) && EntryOk(s, Entry(id, EpochOf(s.tx, id)));
    }
    TaggedSame(s.buffer, s.tx, s'.tx);
  }

  lemma ReceiveTx(s: State, batch: seq<Id>, id: Id)
    requires Enabled(s, Receive(batch)) && TxOk(s, id) && EntryOk(s, Entry(id, Requested(s))) && Shaken(s)
    ensures TxOk(Step(s, Receive(batch)), id)
  {
    var s' := Step(s, Receive(batch));
    DistinctCounts(batch, id);
    assert Batch(s) == [] && Batch(s') == batch;
    if s.manager == Fetch {
      assert Rest(s') == Rest(s) + batch && Ahead(s') == Ahead(s);
    } else {
      assert Rest(s') == Rest(s) && Ahead(s') == Ahead(s) + batch;
    }
  }

  lemma NoMoreStep(s: State)
    requires Inv(s) && Enabled(s, NoMore)
    ensures Inv(Step(s, NoMore))
  {
    ManagerPasses(s, Step(s, NoMore));
  }

  /** A step of the manager alone that moves no transaction. */
  lemma ManagerPasses(s: State, s': State)
    requires Inv(s) && Shaken(s')
    requires s' == s.(manager := s'.manager, closed := s'.closed) && s.closed <= s'.closed
    requires Rest(s') == Rest(s) && Ahead(s') == Ahead(s) && Batch(s') == Batch(s)
    requires !SendsCurrent(s.manager) && !SendsCurrent(s'.manager)
    ensures Inv(s')
  {
    forall id: Id ensures TxOk(s', id) {
      assert TxOk(s, id);
    }
    forall e: Entry ensures EntryOk(s', e) {
      assert EntryOk(s, e);
    }
  }

  /** What a batch adds to the entries sent. */
  lemma BatchEntries(s: State, e: Entry)
    requires TxOk(s, e.id) && s.manager.Sending?
    ensures e in Tagged(Reversed(s.manager.batch), s.tx) <==> e.id in s.manager.batch && e.epoch == EpochOf(s.tx, e.id)
    ensures e.id in s.manager.batch ==> EpochOf(s.tx, e.id) == if SendsCurrent(s.manager) then s.epoch else s.epoch + 1
  {
    TaggedIn(Reversed(s.manager.batch), s.tx, e);
    ReversedIn(s.manager.batch, e.id);
  }

  /** The batch that the manager is sending arrives in the buffer. */
  lemma SendStep(s: State)
    requires Inv(s) && s.manager.Sending? && Room(s, s.manager.batch)
    ensures Inv(Managed(s))
  {
    var s' := Managed(s);
    var batch := s.manager.batch;
    var more := Tagged(Reversed(batch), s.tx);
    assert s' == s.(manager := s'.manager, following := s'.following,
                    buffer := s.buffer + Reversed(batch), sent := s.sent + more);
    forall id: Id ensures TxOk(s', id) {
      assert TxOk(s, id);
      SendTx(s, id);
    }
    forall e: Entry ensures EntryOk(s', e) {
      assert TxOk(s, e.id) && EntryOk(s, e);
      BatchEntries(s, e);
    }
    SendOrder(s);
    TaggedAppend(s.buffer, Reversed(batch), s.tx);
  }

  lemma SendPlaces(s: State)
    requires s.manager.Sending? && Room(s, s.manager.batch)
    ensures var s' := Managed(s); Rest(s') == Rest(s) && Ahead(s') == Ahead(s) && Batch(s') == []
  {
  }

  lemma SendTx(s: State, id: Id)
    requires TxOk(s, id) && Shaken(s) && s.manager.Sending? && Room(s, s.manager.batch)
    ensures TxOk(Managed(s), id)
  {
    var s' := Managed(s);
    SendPlaces(s);
    BatchEntries(s, Entry(id, EpochOf(s.tx, id)));
    ReversedIn(s.manager.batch, id);
  }

  lemma SendOrder(s: State)
    requires Inv(s) && s.manager.Sending?
    ensures AllInOrder(s.sent + Tagged(Reversed(s.manager.batch), s.tx))
  {
    var batch := s.manager.batch;
    forall e, f | e in s.sent && f in Tagged(Reversed(batch), s.tx) ensures InOrder(e, f) {
      assert EntryOk(s, e) && TxOk(s, f.id);
      BatchEntries(s, f);
    }
    forall x, y | x in batch && y in batch ensures EpochOf(s.tx, x) == EpochOf(s.tx, y) {
      assert TxOk(s, x) && TxOk(s, y);
    }
    OrderAppend(s.sent, batch, s.tx);
  }

  /** The transaction that the manager looks at next is nowhere else, and has its result. */
  lemma HeadAlone(s: State)
    requires Inv(s) && s.manager.Retry? && s.manager.rest != []
    ensures var rest := s.manager.rest;
            && rest[0] !in rest[1..] && rest[0] !in Ahead(s) && rest[0] !in Batch(s) && rest[0] !in s.buffer
            && rest[0] in s.fetched && EpochOf(s.tx, rest[0]) == s.epoch
            && ResultOf(s.tx, rest[0]) != Aria.Pending
            && multiset(rest) == multiset{rest[0]} + multiset(rest[1..])
  {
    var rest := s.manager.rest;
    var id := rest[0];
    assert rest == [id] + rest[1..];
    assert TxOk(s, id);
    assert id in Rest(s) && multiset(rest)[id] >= 1;
  }

  lemma RetryStep(s: State)
    requires Inv(s) && s.manager.Retry? && s.manager.rest != []
    ensures Inv(Managed(s))
  {
    HeadAlone(s);
    var s' := Managed(s);
    var id := s.manager.rest[0];
    forall x: Id ensures TxOk(s', x) {
      assert TxOk(s, x) && EntryOk(s, Entry(id, s.epoch + 1));
      if ResultOf(s.tx, id) == Aria.Abort {
        AbortTx(s, x);
      } else {
        HandOverTx(s, x);
      }
    }
    forall e: Entry ensures EntryOk(s', e) {
      assert EntryOk(s, e);
    }
    TaggedSame(s.buffer, s.tx, s'.tx);
  }

  lemma HandOverTx(s: State, x: Id)
    requires TxOk(s, x) && s.manager.Retry? && s.manager.rest != []
    requires ResultOf(s.tx, s.manager.rest[0]) != Aria.Abort && ResultOf(s.tx, s.manager.rest[0]) != Aria.Pending
    requires multiset(s.manager.rest) == multiset{s.manager.rest[0]} + multiset(s.manager.rest[1..])
    ensures TxOk(Managed(s), x)
  {
    var s' := Managed(s);
    var id, rest := s.manager.rest[0], s.manager.rest[1..];
    assert s' == s.(manager := Retry(rest, s.manager.batch), handed := s.handed + [id]);
    assert x in rest ==> x in Rest(s);
  }

  lemma AbortTx(s: State, x: Id)
    requires TxOk(s, x) && s.manager.Retry? && s.manager.rest != [] && ResultOf(s.tx, s.manager.rest[0]) == Aria.Abort
    requires var id := s.manager.rest[0];
             && id !in s.manager.rest[1..] && id !in s.buffer && Entry(id, s.epoch + 1) !in s.sent
             && id in s.fetched && id !in Ahead(s)
    requires multiset(s.manager.rest) == multiset{s.manager.rest[0]} + multiset(s.manager.rest[1..])
    ensures TxOk(Managed(s), x)
  {
    AbortPlaces(s);
    var id, rest := s.manager.rest[0], s.manager.rest[1..];
    assert x in rest ==> x in Rest(s);
  }

  lemma AbortPlaces(s: State)
    requires s.manager.Retry? && s.manager.rest != [] && ResultOf(s.tx, s.manager.rest[0]) == Aria.Abort
    ensures var s', id := Managed(s), s.manager.rest[0];
            && s' == s.(manager := s'.manager, following := s'.following,
                        tx := s.tx[id := Tx(s.epoch + 1, Aria.Pending)])
            && Rest(s') == s.manager.rest[1..] && Ahead(s') == Ahead(s) + [id] && Batch(s') == Batch(s) + [id]
            && !SendsCurrent(s'.manager)
  {
  }

  lemma SwitchStep(s: State)
    requires Inv(s) && s.manager.Switch?
    ensures Inv(Managed(s))
  {
    var s' := Managed(s);
    assert Rest(s) == [] && Rest(s') == Ahead(s) && Ahead(s') == [] && Batch(s') == Batch(s) == [];
    forall id: Id ensures TxOk(s', id) {
      assert TxOk(s, id);
    }
    forall e: Entry ensures EntryOk(s', e) {
      assert EntryOk(s, e);
    }
  }

  lemma ManageStep(s: State)
    requires Inv(s)
    ensures Inv(Managed(s))
  {
    match s.manager {
      case Fetch =>
      case FetchNext =>
      case Sending(batch, _) =>
        if Room(s, batch) {
          SendStep(s);
        }
      case Check => ManagerPasses(s, Managed(s));
      case Retry(rest, _) =>
        if rest == [] {
          ManagerPasses(s, Managed(s));
        } else {
          RetryStep(s);
        }
      case Switch => SwitchStep(s);
    }
  }

  // ---------- Steps of the coordinator ----------

  /** When the front of the buffer is of a later epoch, all of the buffer is. */
  lemma FrontIsLeast(s: State, id: Id)
    requires AllInOrder(s.sent) && s.sent == Contents(s.workloads) + Tagged(s.buffer, s.tx) && id in s.buffer
    ensures EpochOf(s.tx, s.buffer[0]) <= EpochOf(s.tx, id)
  {
    var n := |Contents(s.workloads)|;
    var i :| 0 <= i < |s.buffer| && s.buffer[i] == id;
    assert s.sent[n] == Tagged(s.buffer, s.tx)[0] && s.sent[n + i] == Tagged(s.buffer, s.tx)[i];
    if i > 0 {
      assert InOrder(s.sent[n], s.sent[n + i]);
    }
  }

  lemma BeginExecute(s: State)
    requires Inv(s) && s.coordinator == Gather && s.buffer != [] && EpochOf(s.tx, s.buffer[0]) > s.coordinatorEpoch
    ensures Inv(s.(coordinator := Execute))
  {
    var s' := s.(coordinator := Execute);
    var e := Entry(s.buffer[0], EpochOf(s.tx, s.buffer[0]));
    assert TxOk(s, e.id) && EntryOk(s, e);
    assert Shaken(s');
    forall id: Id ensures TxOk(s', id) {
      if id in s.buffer {
        FrontIsLeast(s, id);
      }
      CoordinatorTx(s, s', id);
    }
    CoordinatorEntries(s, s');
  }

  /** A step of the coordinator alone, after which no transaction in the buffer is too early and none of
      the manager's newly has to have its result. */
  lemma CoordinatorTx(s: State, s': State, id: Id)
    requires TxOk(s, id)
    requires s' == s.(coordinator := s'.coordinator, coordinatorEpoch := s'.coordinatorEpoch, finished := s'.finished)
    requires id in s.buffer ==> EpochOf(s.tx, id) >= Open(s')
    requires Executed(s') == Executed(s)
    ensures TxOk(s', id)
  {
  }

  lemma CoordinatorEntries(s: State, s': State)
    requires forall e: Entry :: EntryOk(s, e)
    requires s' == s.(coordinator := s'.coordinator, coordinatorEpoch := s'.coordinatorEpoch, finished := s'.finished)
    requires s.coordinatorEpoch <= s'.coordinatorEpoch
    ensures forall e: Entry :: EntryOk(s', e)
  {
    forall e: Entry ensures EntryOk(s', e) {
      assert EntryOk(s, e);
    }
  }

  lemma PackStep(s: State)
    requires Inv(s) && s.coordinator == Gather
    ensures Inv(Packed(s))
  {
    var n, c := |s.buffer|, s.coordinatorEpoch;
    if n == 0 || (EpochOf(s.tx, s.buffer[n - 1]) <= c && n < MIN_WORKLOAD) {
      assert Packed(s) == s;
    } else if EpochOf(s.tx, s.buffer[0]) > c {
      BeginExecute(s);
    } else {
      WorkloadStep(s);
    }
  }

  lemma WorkloadStep(s: State)
    requires Inv(s) && s.coordinator == Gather && s.buffer != [] && EpochOf(s.tx, s.buffer[0]) <= s.coordinatorEpoch
    requires Packed(s) != s
    ensures Inv(Packed(s))
  {
    var c := s.coordinatorEpoch;
    var k := Packable(s.tx, s.buffer, c, 1);
    var w := Workload(EpochOf(s.tx, s.buffer[0]), s.buffer[..k]);
    var s' := s.(buffer := s.buffer[k..], workloads := s.workloads + [w]);
    assert Packed(s) == s';
    assert TxOk(s, s.buffer[0]);
    ContentsGrow(s.workloads, w);
    PackedTagged(s.tx, s.buffer, c);
    PackFrame(s, k, w, s');
  }

  lemma PackFrame(s: State, k: nat, w: Workload, s': State)
    requires Inv(s) && k <= |s.buffer| && w.epoch == s.coordinatorEpoch
    requires forall id :: id in s'.buffer ==> id in s.buffer
    requires s' == s.(buffer := s.buffer[k..], workloads := s.workloads + [w])
    requires Contents(s'.workloads) == Contents(s.workloads) + OfWorkload(w)
    requires Tagged(s.buffer, s.tx) == OfWorkload(w) + Tagged(s'.buffer, s.tx)
    ensures Inv(s')
  {
    PackedStays(s, s');
    PackedEntries(s, w, s');
    Associative(Contents(s.workloads), OfWorkload(w), Tagged(s'.buffer, s.tx));
  }

  lemma PackedEntries(s: State, w: Workload, s': State)
    requires (forall e: Entry :: EntryOk(s, e)) && w.epoch == s.coordinatorEpoch
    requires s' == s.(buffer := s'.buffer, workloads := s'.workloads)
    requires Contents(s'.workloads) == Contents(s.workloads) + OfWorkload(w)
    ensures forall e: Entry :: EntryOk(s', e)
  {
    forall e: Entry ensures EntryOk(s', e) {
      assert EntryOk(s, e);
      assert e in OfWorkload(w) ==> e.epoch == w.epoch;
    }
  }

  lemma PackedStays(s: State, s': State)
    requires forall id: Id :: TxOk(s, id)
    requires s' == s.(buffer := s'.buffer, workloads := s'.workloads) && forall id :: id in s'.buffer ==> id in s.buffer
    ensures forall id: Id :: TxOk(s', id)
  {
    assert Rest(s') == Rest(s) && Ahead(s') == Ahead(s) && Batch(s') == Batch(s);
    forall id: Id ensures TxOk(s', id) {
      assert TxOk(s, id);
    }
  }

  lemma ContentsGrow(workloads: seq<Workload>, w: Workload)
    ensures Contents(workloads + [w]) == Contents(workloads) + OfWorkload(w)
  {
    assert (workloads + [w])[..|workloads|] == workloads;
  }

  /** A workload packs transactions of the epoch only, with that epoch. */
  lemma PackedTagged(tx: map<Id, Tx>, buffer: seq<Id>, epoch: nat)
    requires buffer != [] && EpochOf(tx, buffer[0]) == epoch
    ensures var k := Packable(tx, buffer, epoch, 1);
            Tagged(buffer, tx) == OfWorkload(Workload(epoch, buffer[..k])) + Tagged(buffer[k..], tx)
  {
  }

  lemma FinishStep(s: State, outcome: map<Id, Aria.Result>)
    requires Inv(s) && Enabled(s, Finish(outcome))
    ensures Inv(Step(s, Finish(outcome)))
  {
    var s' := Step(s, Finish(outcome));
    forall id: Id ensures TxOk(s', id) {
      assert TxOk(s, id);
      FinishTx(s, outcome, id);
    }
    forall e: Entry ensures EntryOk(s', e) {
      assert EntryOk(s, e);
    }
    TaggedSame(s.buffer, s.tx, s'.tx);
  }

  /** All of the manager's transactions of the epoch are in workloads by now. */
  lemma FinishTx(s: State, outcome: map<Id, Aria.Result>, id: Id)
    requires TxOk(s, id) && Shaken(s) && Enabled(s, Finish(outcome))
    requires s.sent == Contents(s.workloads) + Tagged(s.buffer, s.tx)
    ensures TxOk(Step(s, Finish(outcome)), id)
  {
    var e := Entry(id, s.epoch);
    TaggedIn(s.buffer, s.tx, e);
    assert CanFinish(s, outcome) ==> (id in outcome <==> Entry(id, s.coordinatorEpoch) in Contents(s.workloads));
  }

  lemma ReportStep(s: State)
    requires Inv(s) && Enabled(s, Report)
    ensures Inv(Step(s, Report))
  {
    var s' := Step(s, Report);
    assert Shaken(s');
    forall id: Id ensures TxOk(s', id) {
      assert TxOk(s, id);
      CoordinatorTx(s, s', id);
    }
    CoordinatorEntries(s, s');
  }

  // ---------- Whole runs ----------

  lemma StepKeepsInv(s: State, a: Action)
    requires Inv(s) && Enabled(s, a)
    ensures Inv(Step(s, a))
  {
    match a {
      case Receive(batch) => ReceiveStep(s, batch);
      case NoMore => NoMoreStep(s);
      case Manage => ManageStep(s);
      case Pack => PackStep(s);
      case Finish(outcome) => FinishStep(s, outcome);
      case Report => ReportStep(s);
    }
  }

  lemma InitInv(saved: nat)
    ensures Inv(Init(saved))
  {
  }

  ghost predicate IsRun(run: seq<State>, actions: seq<Action>, saved: nat) {
    && |run| == |actions| + 1
    && run[0] == Init(saved)
    && forall i {:trigger actions[i]} :: 0 <= i < |actions| ==>
          Enabled(run[i], actions[i]) && run[i + 1] == Step(run[i], actions[i])
  }

  lemma {:induction false} RunKeepsInv(run: seq<State>, actions: seq<Action>, saved: nat, n: nat)
    requires IsRun(run, actions, saved) && n < |run|
    ensures Inv(run[n]) && run[n].saved == saved
  {
    if n == 0 {
      InitInv(saved);
    } else {
      RunKeepsInv(run, actions, saved, n - 1);
      assert run[n] == Step(run[n - 1], actions[n - 1]);
      StepKeepsInv(run[n - 1], actions[n - 1]);
    }
  }
}
