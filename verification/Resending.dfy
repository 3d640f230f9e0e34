/** What the manager's retry loop does with the results of an epoch: what was aborted is sent again for
    the next epoch, everything else goes to the block generator. */
module Resending {
  import Aria = Serializability
  import opened Pipeline
  import opened PipelineSteps
  import opened Handshake

  predicate Final(result: Aria.Result) {
    result == Aria.Commit || result == Aria.AbortNoRetry
  }

  // ---------- What is handed over, and what is ahead ----------

  /** What was handed over has its last result; the coordinator is past its epoch. */
  ghost predicate HandedOk(s: State, id: Id) {
    id in s.handed ==> Final(ResultOf(s.tx, id)) && EpochOf(s.tx, id) <= Executed(s)
  }

  /** What is for the next epoch has no result; and what was not aborted before has not been sent before. */
  ghost predicate AheadOk(s: State, id: Id) {
    id in Ahead(s) ==>
      && ResultOf(s.tx, id) == Aria.Pending
      && (!InRetry(s.manager) ==> forall c: nat :: c <= s.epoch ==> Entry(id, c) !in s.sent)
  }

  /** While an epoch is executed, only what was sent for it gets a result. */
  lemma FinishKeeps(s: State, outcome: map<Id, Aria.Result>, id: Id)
    requires Inv(s) && Enabled(s, Finish(outcome)) && HandedOk(s, id) && AheadOk(s, id)
    ensures HandedOk(Step(s, Finish(outcome)), id) && AheadOk(Step(s, Finish(outcome)), id)
  {
    var e := Entry(id, s.coordinatorEpoch);
    assert CanFinish(s, outcome) && TxOk(s, id) && EntryOk(s, e);
    assert id in outcome <==> e in Contents(s.workloads);
  }

  lemma SendKeeps(s: State, id: Id)
    requires Inv(s) && s.manager.Sending? && Room(s, s.manager.batch) && HandedOk(s, id) && AheadOk(s, id)
    ensures HandedOk(Managed(s), id) && AheadOk(Managed(s), id)
  {
    SendPlaces(s);
    assert TxOk(s, id);
    assert Managed(s).sent == s.sent + Tagged(Reversed(s.manager.batch), s.tx);
    forall c: nat | c <= s.epoch && id in Ahead(s) ensures Entry(id, c) !in Tagged(Reversed(s.manager.batch), s.tx) {
      BatchEntries(s, Entry(id, c));
    }
  }

  lemma RetryKeeps(s: State, id: Id)
    requires Inv(s) && s.manager.Retry? && s.manager.rest != [] && HandedOk(s, id) && AheadOk(s, id)
    ensures HandedOk(Managed(s), id) && AheadOk(Managed(s), id)
  {
    HeadAlone(s);
    assert TxOk(s, id) && TxOk(s, s.manager.rest[0]);
  }

  lemma ManageKeeps(s: State, id: Id)
    requires Inv(s) && HandedOk(s, id) && AheadOk(s, id)
    ensures HandedOk(Managed(s), id) && AheadOk(Managed(s), id)
  {
    match s.manager {
      case Sending(batch, _) =>
        if Room(s, batch) {
          SendKeeps(s, id);
        }
      case Retry(rest, _) =>
        if rest != [] {
          RetryKeeps(s, id);
        }
      case _ =>
    }
  }

  lemma ReceiveKeeps(s: State, batch: seq<Id>, id: Id)
    requires Inv(s) && Enabled(s, Receive(batch)) && HandedOk(s, id) && AheadOk(s, id)
    ensures HandedOk(Step(s, Receive(batch)), id) && AheadOk(Step(s, Receive(batch)), id)
  {
    assert TxOk(s, id);
    forall c ensures EntryOk(s, Entry(id, c)) {}
  }

  lemma StepKeeps(s: State, a: Action, id: Id)
    requires Inv(s) && Enabled(s, a) && HandedOk(s, id) && AheadOk(s, id)
    ensures HandedOk(Step(s, a), id) && AheadOk(Step(s, a), id)
  {
    match a {
      case Receive(batch) => ReceiveKeeps(s, batch, id);
      case Manage => ManageKeeps(s, id);
      case Finish(outcome) => FinishKeeps(s, outcome, id);
      case _ =>
    }
  }

  lemma {:induction false} RunKeeps(run: seq<State>, actions: seq<Action>, saved: nat, n: nat, id: Id)
    requires IsRun(run, actions, saved) && n < |run|
    ensures HandedOk(run[n], id) && AheadOk(run[n], id)
  {
    if n > 0 {
      RunKeeps(run, actions, saved, n - 1, id);
      RunKeepsInv(run, actions, saved, n - 1);
      assert run[n] == Step(run[n - 1], actions[n - 1]);
      StepKeeps(run[n - 1], actions[n - 1], id);
    }
  }

  /** In every state of every run, the block generator has only transactions that were committed or
      aborted for good, and the next epoch only transactions without a result. */
  lemma HandedAreFinal(run: seq<State>, actions: seq<Action>, saved: nat, n: nat, id: Id)
    requires IsRun(run, actions, saved) && n < |run|
    ensures id in run[n].handed ==> Final(ResultOf(run[n].tx, id))
    ensures id in Ahead(run[n]) ==> ResultOf(run[n].tx, id) == Aria.Pending
  {
    RunKeeps(run, actions, saved, n, id);
  }

  // ---------- The loop as a whole ----------

  /** Those of the ids that were aborted; those that were not. */
  function Select(ids: seq<Id>, tx: map<Id, Tx>, aborted: bool): seq<Id> {
    if ids == [] then []
    else (if (ResultOf(tx, ids[0]) == Aria.Abort) == aborted then [ids[0]] else []) + Select(ids[1..], tx, aborted)
  }

  lemma {:induction false} SelectIn(ids: seq<Id>, tx: map<Id, Tx>, aborted: bool, id: Id)
    ensures id in Select(ids, tx, aborted) <==> id in ids && (ResultOf(tx, id) == Aria.Abort) == aborted
  {
    if ids != [] {
      assert ids == [ids[0]] + ids[1..];
      SelectIn(ids[1..], tx, aborted, id);
    }
  }

  /** From s, where the test has found the epoch finished, the loop has come to s'. */
  ghost predicate Through(s: State, s': State) {
    && s'.epoch == s.epoch && s'.fetched == s.fetched
    && s'.handed + Select(Rest(s'), s.tx, false) == s.handed + Select(s.current, s.tx, false)
    && Ahead(s') + Select(Rest(s'), s.tx, true) == s.following + Select(s.current, s.tx, true)
    && forall id :: id in Rest(s') ==> ResultOf(s'.tx, id) == ResultOf(s.tx, id)
  }

  /** The transaction that is looked at is sent again if it was aborted, and handed over otherwise. */
  lemma HeadGoes(s: State, s': State)
    requires Inv(s') && s'.manager.Retry? && s'.manager.rest != [] && Through(s, s')
    ensures Through(s, Managed(s'))
  {
    var rest, next := s'.manager.rest, Managed(s');
    HeadMoves(s');
    assert rest[0] in rest && forall id :: id in rest[1..] ==> id in rest;
    SelectHead(s'.handed, next.handed, rest, s.tx, false);
    SelectHead(Ahead(s'), Ahead(next), rest, s.tx, true);
  }

  /** Where the head of the list goes, and what stays. */
  lemma HeadMoves(s: State)
    requires Inv(s) && s.manager.Retry? && s.manager.rest != []
    ensures var s', rest := Managed(s), s.manager.rest;
            && s'.epoch == s.epoch && s'.fetched == s.fetched && Rest(s') == rest[1..]
            && (forall id :: id in rest[1..] ==> ResultOf(s'.tx, id) == ResultOf(s.tx, id))
            && (if ResultOf(s.tx, rest[0]) == Aria.Abort
                then Ahead(s') == Ahead(s) + [rest[0]] && s'.handed == s.handed
                else s'.handed == s.handed + [rest[0]] && Ahead(s') == Ahead(s))
  {
    HeadAlone(s);
  }

  lemma SelectHead(before: seq<Id>, after: seq<Id>, rest: seq<Id>, tx: map<Id, Tx>, aborted: bool)
    requires rest != []
    requires after == before + if (ResultOf(tx, rest[0]) == Aria.Abort) == aborted then [rest[0]] else []
    ensures before + Select(rest, tx, aborted) == after + Select(rest[1..], tx, aborted)
  {
  }

  lemma OthersGoThrough(s: State, s': State, a: Action)
    requires Inv(s') && Enabled(s', a) && InRetry(s'.manager) && InRetry(Step(s', a).manager) && Through(s, s')
    requires a.Manage? && s'.manager.Retry? ==> s'.manager.rest == []
    ensures Through(s, Step(s', a))
  {
    NothingMoves(s', a);
  }

  lemma NothingMoves(s: State, a: Action)
    requires Shaken(s) && Enabled(s, a) && InRetry(s.manager) && InRetry(Step(s, a).manager)
    requires a.Manage? && s.manager.Retry? ==> s.manager.rest == []
    ensures var s' := Step(s, a);
            && Rest(s') == Rest(s) && Ahead(s') == Ahead(s) && s'.tx == s.tx && s'.handed == s.handed
            && s'.epoch == s.epoch && s'.fetched == s.fetched
  {
    assert !a.Finish? && !a.Receive? && !a.NoMore?;
  }

  lemma {:induction false} LoopGoesThrough(run: seq<State>, actions: seq<Action>, saved: nat, i: nat, j: nat)
    requires IsRun(run, actions, saved) && i < j < |run| && run[i].manager == Check
    requires forall k :: i < k <= j ==> InRetry(run[k].manager)
    ensures Through(run[i], run[j])
  {
    RunKeepsInv(run, actions, saved, j - 1);
    var s, a := run[j - 1], actions[j - 1];
    assert Enabled(s, a) && run[j] == Step(s, a);
    if j == i + 1 {
      assert a == Manage && run[j] == s.(manager := Retry(s.current, []));
    } else {
      LoopGoesThrough(run, actions, saved, i, j - 1);
      if a.Manage? && s.manager.Retry? && s.manager.rest != [] {
        HeadGoes(run[i], s);
      } else {
        OthersGoThrough(run[i], s, a);
      }
    }
  }

  /** From the test that finds an epoch finished to the switch of wrappers, in every run: the loop
      appends to the block generator just those of the epoch's transactions that were not aborted, in
      their order, and to the next wrapper just those that were. */
  lemma LoopSelects(run: seq<State>, actions: seq<Action>, saved: nat, i: nat, j: nat)
    requires IsRun(run, actions, saved) && i < j < |run| && run[i].manager == Check && run[j].manager == Switch
    requires forall k :: i < k <= j ==> InRetry(run[k].manager)
    ensures run[j].handed == run[i].handed + Select(run[i].current, run[i].tx, false)
    ensures run[j].following == run[i].following + Select(run[i].current, run[i].tx, true)
  {
    LoopGoesThrough(run, actions, saved, i, j);
    assert Rest(run[j]) == [];
  }

  /** At the switch, what is in the next wrapper has been reset and sent, and what has been handed over is
      nowhere else. */
  lemma AtSwitch(run: seq<State>, actions: seq<Action>, saved: nat, n: nat, id: Id)
    requires IsRun(run, actions, saved) && n < |run| && run[n].manager == Switch
    ensures var s := run[n];
            && (id in s.following ==>
                  && id !in s.handed && id in s.tx && s.tx[id] == Tx(s.epoch + 1, Aria.Pending)
                  && Entry(id, s.epoch + 1) in s.sent)
            && (id in s.handed ==> id !in s.following && Final(ResultOf(s.tx, id)))
  {
    RunKeeps(run, actions, saved, n, id);
    RunKeepsInv(run, actions, saved, n);
    assert TxOk(run[n], id) && Ahead(run[n]) == run[n].following && Batch(run[n]) == [];
  }

  /** So a transaction that the epoch aborted is, at the switch, in the next wrapper, reset, and sent for
      the next epoch; one that it did not abort is with the block generator. */
  lemma AbortedIsSentAgain(run: seq<State>, actions: seq<Action>, saved: nat, i: nat, j: nat, id: Id)
    requires IsRun(run, actions, saved) && i < j < |run| && run[i].manager == Check && run[j].manager == Switch
    requires forall k :: i < k <= j ==> InRetry(run[k].manager)
    requires id in run[i].current
    ensures var s, s' := run[i], run[j];
            if ResultOf(s.tx, id) == Aria.Abort then
              && id in s'.following && id !in s'.handed
              && id in s'.tx && s'.tx[id] == Tx(s.epoch + 1, Aria.Pending)
              && Entry(id, s.epoch + 1) in s'.sent
            else id in s'.handed && id !in s'.following && Final(ResultOf(s'.tx, id))
  {
    LoopSelects(run, actions, saved, i, j);
    SelectIn(run[i].current, run[i].tx, true, id);
    SelectIn(run[i].current, run[i].tx, false, id);
    AtSwitch(run, actions, saved, j, id);
    LoopGoesThrough(run, actions, saved, i, j);
  }

  // ---------- The loop ends, and the epoch with it ----------

  /** How many steps the loop takes at most. */
  function LoopLeft(pc: ManagerPc): nat {
    match pc
    case Retry(rest, _) => 2 * |rest| + 2
    case Sending(_, Retrying(_, rest)) => 2 * |rest| + 3
    case Sending(_, Switching) => 1
    case _ => 0
  }

  /** Unless it waits for room, every step of the loop brings its end nearer, and at its end the next
      epoch begins with the wrapper filled for it. */
  lemma LoopEnds(s: State)
    requires InRetry(s.manager) && (s.manager.Sending? ==> Room(s, s.manager.batch))
    ensures var s' := Managed(s);
            if s.manager == Switch then
              s'.manager == Fetch && s'.epoch == s.epoch + 1 && s'.current == s.following && s'.following == []
            else InRetry(s'.manager) && s'.epoch == s.epoch && LoopLeft(s'.manager) < LoopLeft(s.manager)
  {
  }

  /** How far the manager is from its next epoch, once its own has been reported. */
  function ManagerLeft(s: State): nat {
    match s.manager
    case Sending(_, Fetching) => 2 * |s.current| + 8
    case Fetch => 2 * |s.current| + 7
    case FetchNext => 2 * |s.current| + 6
    case Sending(_, Checking) => 2 * |s.current| + 6
    case Check => 2 * |s.current| + 5
    case _ => LoopLeft(s.manager) + 1
  }

  function CoordinatorLeft(s: State): nat {
    |s.buffer| + if s.coordinator == Advance then 1 else 0
  }

  ghost predicate Nearer(s: State, s': State) {
    && s'.epoch == s.epoch == s'.finished
    && (ManagerLeft(s') < ManagerLeft(s)
        || (ManagerLeft(s') == ManagerLeft(s) && CoordinatorLeft(s') < CoordinatorLeft(s)))
  }

  /** While the manager waits for room in the epoch that was reported, the coordinator is on its way to
      pack the next one. */
  lemma RoomIsMade(run: seq<State>, actions: seq<Action>, saved: nat) returns (a: Action)
    requires IsRun(run, actions, saved) && run[|run| - 1].finished == run[|run| - 1].epoch
    requires run[|run| - 1].manager.Sending? && !Room(run[|run| - 1], run[|run| - 1].manager.batch)
    ensures (a == Pack || a == Report) && Enabled(run[|run| - 1], a) && Nearer(run[|run| - 1], Step(run[|run| - 1], a))
  {
    var n := |actions|;
    var s := run[n];
    RunKeepsInv(run, actions, saved, n);
    TestNeverMisses(run, actions, saved, n);
    if s.coordinator == Advance {
      a := Report;
    } else {
      a := Pack;
      RunBatchFits(run, actions, saved, n);
      GatherDecides(run, actions, saved, n);
      NothingLater(s);
      PackedIsLess(s);
      assert Packed(s).manager == s.manager && Packed(s).current == s.current;
    }
  }

  lemma NothingLater(s: State)
    requires Inv(s)
    ensures forall id :: id in s.buffer ==> EpochOf(s.tx, id) <= s.epoch + 1
  {
    forall id | id in s.buffer ensures EpochOf(s.tx, id) <= s.epoch + 1 {
      assert TxOk(s, id) && EntryOk(s, Entry(id, EpochOf(s.tx, id)));
    }
  }

  /** With nothing new arriving, some step always brings the manager nearer to its next epoch. */
  lemma GoesOn(run: seq<State>, actions: seq<Action>, saved: nat) returns (a: Action)
    requires IsRun(run, actions, saved) && run[|run| - 1].finished == run[|run| - 1].epoch
    ensures !a.Receive? && !a.Finish? && Enabled(run[|run| - 1], a)
    ensures var s, s' := run[|run| - 1], Step(run[|run| - 1], a);
            if s.manager == Switch then s'.epoch == s.epoch + 1 && s'.current == s.following else Nearer(s, s')
  {
    var s := run[|run| - 1];
    if s.manager.Sending? && !Room(s, s.manager.batch) {
      a := RoomIsMade(run, actions, saved);
    } else if s.manager == Fetch || s.manager == FetchNext {
      a := NoMore;
    } else {
      a := Manage;
      if InRetry(s.manager) {
        LoopEnds(s);
        StaysReported(s);
      }
    }
  }

  lemma StaysReported(s: State)
    requires InRetry(s.manager)
    ensures Managed(s).finished == s.finished
  {
  }

  /** So once its epoch has been reported, every run can be continued, with nothing new arriving, until
      the manager begins its next epoch. */
  lemma {:induction false} NextEpochBegins(run: seq<State>, actions: seq<Action>, saved: nat)
      returns (run': seq<State>, actions': seq<Action>)
    requires IsRun(run, actions, saved) && run[|run| - 1].finished == run[|run| - 1].epoch
    ensures IsRun(run', actions', saved) && run <= run' && actions <= actions'
    ensures forall k :: |actions| <= k < |actions'| ==> !actions'[k].Receive? && !actions'[k].Finish?
    ensures run'[|run'| - 1].epoch == run[|run| - 1].epoch + 1
    decreases ManagerLeft(run[|run| - 1]), CoordinatorLeft(run[|run| - 1])
  {
    var s := run[|run| - 1];
    var a := GoesOn(run, actions, saved);
    run', actions' := run + [Step(s, a)], actions + [a];
    OneMore(run, actions, saved, a);
    if s.manager != Switch {
      run', actions' := NextEpochBegins(run', actions', saved);
    }
  }
}
