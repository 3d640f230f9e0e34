/** Progress of the pipeline: when the outcomes of the epochs follow the commit rule, every epoch with
    transactions of its own resolves at least one of them. */
module Progress {
  import Aria = Serializability
  import Tables = ReserveTable
  import opened Pipeline
  import opened PipelineSteps

  /** A result as the rule decides it; the storage may refuse to commit, and that is not retried. */
  predicate Follows(result: Aria.Result, decision: Aria.Result) {
    result == decision || (decision == Aria.Commit && result == Aria.AbortNoRetry)
  }

  ghost predicate DecidedBy(
    outcome: map<Id, Aria.Result>, e: Aria.Epoch, snap: Aria.Store, rs: seq<Tables.Reservation>)
  {
    && Aria.ValidEpoch(e) && Aria.Covers(rs, e, snap) && e.Keys == outcome.Keys
    && forall t :: t in outcome ==>
                     Follows(outcome[t], Aria.Decide(Tables.Run(Tables.EMPTY_TABLES, rs), e[t](snap), t))
  }

  /** Some programs, run on some snapshot and reserving in some order, have this outcome. */
  ghost predicate ByRule(outcome: map<Id, Aria.Result>) {
    exists e: Aria.Epoch, snap: Aria.Store, rs: seq<Tables.Reservation> :: DecidedBy(outcome, e, snap, rs)
  }

  ghost predicate FollowsRule(actions: seq<Action>) {
    forall i :: 0 <= i < |actions| && actions[i].Finish? ==> ByRule(actions[i].outcome)
  }

  lemma RuleResolvesOne(outcome: map<Id, Aria.Result>) returns (id: Id)
    requires ByRule(outcome) && outcome.Keys != {}
    ensures id in outcome && outcome[id] != Aria.Abort
  {
    var e: Aria.Epoch, snap: Aria.Store, rs: seq<Tables.Reservation> :| DecidedBy(outcome, e, snap, rs);
    id := Aria.SomeResolved(e, snap, rs);
  }

  // ---------- What has been sent is where it belongs ----------

  /** What was sent for the next epoch is kept for it; what was sent for the manager's epoch is, until
      the retry loop, in its wrapper. */
  ghost predicate SentOk(s: State, id: Id) {
    && (Entry(id, s.epoch + 1) in s.sent ==> id in Ahead(s))
    && (Entry(id, s.epoch) in s.sent && !InRetry(s.manager) ==> id in Rest(s))
  }

  lemma StepKeepsSent(s: State, a: Action)
    requires Inv(s) && Enabled(s, a) && forall id: Id :: SentOk(s, id)
    ensures forall id: Id :: SentOk(Step(s, a), id)
  {
    forall id: Id ensures SentOk(Step(s, a), id) {
      assert SentOk(s, id);
      if a.Manage? {
        ManageKeepsSent(s, id);
      }
    }
  }

  lemma ManageKeepsSent(s: State, id: Id)
    requires Inv(s) && SentOk(s, id)
    ensures SentOk(Managed(s), id)
  {
    assert TxOk(s, id);
    match s.manager {
      case Sending(batch, _) =>
        if Room(s, batch) {
          SendKeepsSent(s, id);
        }
      case Retry(rest, _) =>
        if rest != [] {
          RetryKeepsSent(s, id);
        }
      case Switch =>
        assert EntryOk(s, Entry(id, s.epoch + 2));
      case _ =>
    }
  }

  lemma SendKeepsSent(s: State, id: Id)
    requires SentOk(s, id) && TxOk(s, id) && s.manager.Sending? && Room(s, s.manager.batch)
    ensures SentOk(Managed(s), id)
  {
    SendPlaces(s);
    BatchEntries(s, Entry(id, s.epoch));
    BatchEntries(s, Entry(id, s.epoch + 1));
    assert Managed(s).sent == s.sent + Tagged(Reversed(s.manager.batch), s.tx);
  }

  lemma RetryKeepsSent(s: State, id: Id)
    requires SentOk(s, id) && s.manager.Retry? && s.manager.rest != []
    ensures SentOk(Managed(s), id)
  {
    var s' := Managed(s);
    assert s'.sent == s.sent && s'.epoch == s.epoch && InRetry(s'.manager);
    assert id in Ahead(s) ==> id in Ahead(s');
  }

  /** Before the retry loop, an epoch that has its results and a transaction has one not aborted. */
  ghost predicate SomeDone(s: State) {
    !InRetry(s.manager) && Executed(s) >= s.epoch && s.current != [] ==>
      exists id :: id in s.current && ResultOf(s.tx, id) != Aria.Abort
  }

  lemma FinishDone(s: State, outcome: map<Id, Aria.Result>)
    requires Inv(s) && CanFinish(s, outcome) && ByRule(outcome) && forall id: Id :: SentOk(s, id)
    ensures SomeDone(Step(s, Finish(outcome)))
  {
    var s' := Step(s, Finish(outcome));
    if !InRetry(s'.manager) && Executed(s') >= s'.epoch && s'.current != [] {
      assert s.coordinatorEpoch == s.epoch;
      var first := s.current[0];
      assert TxOk(s, first) && first in Rest(s);
      FinishTx(s, outcome, first);
      assert first in outcome;
      var id := RuleResolvesOne(outcome);
      assert Entry(id, s.epoch) in s.sent;
      assert SentOk(s, id) && TxOk(s, id);
    }
  }

  lemma ReceiveDone(s: State, batch: seq<Id>)
    requires Inv(s) && CanReceive(s, batch) && SomeDone(s)
    ensures SomeDone(Step(s, Receive(batch)))
  {
    var s' := Step(s, Receive(batch));
    if s'.current != [] && Executed(s') >= s'.epoch {
      assert s.manager == FetchNext;
      var id :| id in s.current && ResultOf(s.tx, id) != Aria.Abort;
      assert TxOk(s, id) && id in Rest(s);
      assert ResultOf(s'.tx, id) == ResultOf(s.tx, id);
    }
  }

  lemma StepKeepsDone(s: State, a: Action)
    requires Inv(s) && Enabled(s, a) && SomeDone(s) && forall id: Id :: SentOk(s, id)
    requires a.Finish? ==> ByRule(a.outcome)
    ensures SomeDone(Step(s, a))
  {
    match a {
      case Receive(batch) => ReceiveDone(s, batch);
      case Finish(outcome) => FinishDone(s, outcome);
      case Manage => ManageDone(s);
      case _ =>
    }
  }

  lemma ManageDone(s: State)
    requires Inv(s) && SomeDone(s)
    ensures SomeDone(Managed(s))
  {
    var s' := Managed(s);
    if !InRetry(s'.manager) && !InRetry(s.manager) {
      assert s'.tx == s.tx && s'.current == s.current && s'.epoch == s.epoch && Executed(s') == Executed(s);
    }
  }

  lemma {:induction false} RunKeepsDone(run: seq<State>, actions: seq<Action>, saved: nat, n: nat)
    requires IsRun(run, actions, saved) && FollowsRule(actions) && n < |run|
    ensures (forall id: Id :: SentOk(run[n], id)) && SomeDone(run[n])
  {
    if n > 0 {
      RunKeepsDone(run, actions, saved, n - 1);
      RunKeepsInv(run, actions, saved, n - 1);
      var s, a := run[n - 1], actions[n - 1];
      assert run[n] == Step(s, a);
      StepKeepsSent(s, a);
      StepKeepsDone(s, a);
    }
  }

  // ---------- Handing over ----------

  /** While the manager goes through an epoch's results, a transaction that was not aborted keeps its
      result until it is handed over; nothing is fetched meanwhile. */
  lemma RetryGoesOn(s: State, a: Action, id: Id)
    requires Inv(s) && Enabled(s, a) && InRetry(s.manager) && InRetry(Step(s, a).manager)
    ensures var s' := Step(s, a);
            && s'.fetched == s.fetched && |s'.handed| >= |s.handed|
            && (id in Rest(s) && ResultOf(s.tx, id) != Aria.Abort ==>
                  (id in Rest(s') && ResultOf(s'.tx, id) == ResultOf(s.tx, id)) || |s'.handed| > |s.handed|)
  {
    if a.Manage? && s.manager.Retry? && s.manager.rest != [] {
      HeadGoesOn(s, id);
    } else {
      assert !a.Finish?;
      OthersGoOn(s, a);
    }
  }

  lemma HeadGoesOn(s: State, id: Id)
    requires Inv(s) && s.manager.Retry? && s.manager.rest != []
    ensures var s' := Managed(s);
            && s'.fetched == s.fetched && |s'.handed| >= |s.handed|
            && (id in Rest(s) && ResultOf(s.tx, id) != Aria.Abort ==>
                  (id in Rest(s') && ResultOf(s'.tx, id) == ResultOf(s.tx, id)) || |s'.handed| > |s.handed|)
  {
    HeadAlone(s);
    var rest := s.manager.rest;
    assert rest == [rest[0]] + rest[1..];
  }

  lemma OthersGoOn(s: State, a: Action)
    requires Enabled(s, a) && InRetry(s.manager) && InRetry(Step(s, a).manager) && !a.Finish?
    requires a.Manage? && s.manager.Retry? ==> s.manager.rest == []
    ensures var s' := Step(s, a);
            Rest(s') == Rest(s) && s'.tx == s.tx && s'.fetched == s.fetched && s'.handed == s.handed
  {
  }

  /** Some transaction of s's epoch is still to be handed over at s', or one has been since. */
  ghost predicate Advancing(s: State, s': State) {
    && |s'.handed| >= |s.handed|
    && (|s'.handed| > |s.handed| || (s'.epoch == s.epoch && ToHandOver(s')))
  }

  ghost predicate ToHandOver(s: State) {
    if InRetry(s.manager) then exists id :: id in Rest(s) && ResultOf(s.tx, id) != Aria.Abort else s.current != []
  }

  lemma NeverTakenBack(s: State, a: Action)
    requires Enabled(s, a)
    ensures |Step(s, a).handed| >= |s.handed|
  {
  }

  lemma StepAdvances(s: State, a: Action)
    requires Inv(s) && Enabled(s, a) && SomeDone(s) && ToHandOver(s)
    ensures Advancing(s, Step(s, a))
  {
    NeverTakenBack(s, a);
    if InRetry(s.manager) {
      RetryAdvances(s, a);
    } else if InRetry(Step(s, a).manager) {
      assert s.manager == Check && Step(s, a) == s.(manager := Retry(s.current, []));
    } else {
      StillToHandOver(s, a);
    }
  }

  lemma RetryAdvances(s: State, a: Action)
    requires Inv(s) && Enabled(s, a) && InRetry(s.manager) && ToHandOver(s) && |Step(s, a).handed| >= |s.handed|
    ensures Advancing(s, Step(s, a))
  {
    var id :| id in Rest(s) && ResultOf(s.tx, id) != Aria.Abort;
    assert s.manager != Switch;
    assert InRetry(Step(s, a).manager);
    RetryGoesOn(s, a, id);
  }

  lemma StillToHandOver(s: State, a: Action)
    requires Enabled(s, a) && !InRetry(s.manager) && !InRetry(Step(s, a).manager) && s.current != []
    ensures Step(s, a).epoch == s.epoch && Step(s, a).current != []
  {
  }

  lemma {:induction false} RunAdvances(run: seq<State>, actions: seq<Action>, saved: nat, i: nat, j: nat)
    requires IsRun(run, actions, saved) && FollowsRule(actions) && i <= j < |run| && ToHandOver(run[i])
    ensures Advancing(run[i], run[j])
  {
    if j > i {
      RunAdvances(run, actions, saved, i, j - 1);
      RunKeepsInv(run, actions, saved, j - 1);
      RunKeepsDone(run, actions, saved, j - 1);
      var s, a := run[j - 1], actions[j - 1];
      assert Enabled(s, a) && run[j] == Step(s, a);
      NeverTakenBack(s, a);
      if |s.handed| == |run[i].handed| {
        StepAdvances(s, a);
      }
    }
  }

  /** Transactions fetched and not yet handed to the block generator. */
  function Unresolved(s: State): int {
    |Rest(s)| + |Ahead(s)|
  }

  lemma UnresolvedCount(s: State)
    requires forall id: Id :: TxOk(s, id)
    ensures Unresolved(s) + |s.handed| == |s.fetched|
  {
    forall id: Id ensures (multiset(Rest(s)) + multiset(Ahead(s)) + multiset(s.handed))[id] == multiset(s.fetched)[id] {
      assert TxOk(s, id);
    }
    assert multiset(Rest(s)) + multiset(Ahead(s)) + multiset(s.handed) == multiset(s.fetched);
    assert |multiset(Rest(s)) + multiset(Ahead(s)) + multiset(s.handed)| == |multiset(s.fetched)|;
  }

  /** In every run whose outcomes follow the commit rule: from any point outside the retry loop where
      the manager's epoch has a transaction, to any point where that epoch has been dealt with, the
      number unresolved falls strictly, but for what has newly arrived. */
  lemma UnresolvedFalls(run: seq<State>, actions: seq<Action>, saved: nat, i: nat, j: nat)
    requires IsRun(run, actions, saved) && FollowsRule(actions) && i <= j < |run|
    requires !InRetry(run[i].manager) && run[i].current != []
    requires run[j].epoch > run[i].epoch || run[j].manager == Switch
    ensures Unresolved(run[j]) < Unresolved(run[i]) + (|run[j].fetched| - |run[i].fetched|)
  {
    RunAdvances(run, actions, saved, i, j);
    RunKeepsInv(run, actions, saved, i);
    RunKeepsInv(run, actions, saved, j);
    UnresolvedCount(run[i]);
    UnresolvedCount(run[j]);
  }

  lemma {:induction false} NothingArrives(run: seq<State>, actions: seq<Action>, saved: nat, i: nat, j: nat)
    requires IsRun(run, actions, saved) && i <= j < |run|
    requires forall k :: i <= k < j ==> !actions[k].Receive?
    ensures run[j].fetched == run[i].fetched
  {
    if j > i {
      NothingArrives(run, actions, saved, i, j - 1);
      assert !actions[j - 1].Receive?;
    }
  }

  /** With no new arrivals the number unresolved strictly falls each epoch. */
  lemma EachEpochResolves(run: seq<State>, actions: seq<Action>, saved: nat, i: nat, j: nat)
    requires IsRun(run, actions, saved) && FollowsRule(actions) && i <= j < |run|
    requires forall k :: i <= k < j ==> !actions[k].Receive?
    requires !InRetry(run[i].manager) && run[i].current != [] && run[j].epoch > run[i].epoch
    ensures Unresolved(run[j]) < Unresolved(run[i])
  {
    UnresolvedFalls(run, actions, saved, i, j);
    NothingArrives(run, actions, saved, i, j);
  }

  /** From the test that finds an epoch finished to the switch, nothing can arrive. */
  lemma RetryResolves(run: seq<State>, actions: seq<Action>, saved: nat, i: nat, j: nat)
    requires IsRun(run, actions, saved) && FollowsRule(actions) && i < j < |run|
    requires run[i].manager == Check && run[i].current != []
    requires (forall k :: i < k <= j ==> InRetry(run[k].manager)) && run[j].manager == Switch
    ensures Unresolved(run[j]) < Unresolved(run[i])
  {
    UnresolvedFalls(run, actions, saved, i, j);
    forall k | i <= k < j ensures !actions[k].Receive? {
      assert Enabled(run[k], actions[k]);
      assert k > i ==> InRetry(run[k].manager);
    }
    NothingArrives(run, actions, saved, i, j);
  }
}
