/** The transaction manager and the coordinator around the bounded buffer, as interleaved steps.
    The manager fetches an epoch's transactions, sends them, waits for the epoch to finish and sends
    what was aborted again for the next one; the coordinator packs the buffer into workloads, has the
    epoch executed and reports it.  The source of transactions and the outcome of an epoch are left
    open. */
module Pipeline {
  import Aria = Serializability

  const SCALE := 100
  const MAX_BUFFER := 50 * SCALE
  const MAX_WORKLOAD := 10 * SCALE
  const MIN_WORKLOAD := 5 * SCALE
  const MAX_BATCH := 5 * SCALE

  /** A transaction, by identity. */
  type Id = nat

  datatype Tx = Tx(epoch: nat, result: Aria.Result)

  /** What the manager goes on with after a batch has been sent. */
  datatype Then = Fetching | Checking | Retrying(tx: Id, rest: seq<Id>) | Switching

  datatype ManagerPc =
    | Fetch
    | FetchNext
    | Sending(batch: seq<Id>, next: Then)
    | Check
    | Retry(rest: seq<Id>, batch: seq<Id>)
    | Switch

  datatype CoordinatorPc = Gather | Execute | Signal | Advance

  datatype Workload = Workload(epoch: nat, txs: seq<Id>)

  /** A transaction as of one epoch. */
  datatype Entry = Entry(id: Id, epoch: nat)

  /** Auxiliary: the epoch saved last at the start, the epochs that have been closed to it, all
      transactions fetched, all entries that were put into the buffer, all workloads packed, and the
      transactions handed to the block generator. */
  datatype State = State(
    manager: ManagerPc, epoch: nat, current: seq<Id>, following: seq<Id>,
    tx: map<Id, Tx>, buffer: seq<Id>,
    coordinator: CoordinatorPc, coordinatorEpoch: nat, finished: nat,
    saved: nat, closed: set<nat>, fetched: set<Id>, sent: seq<Entry>, workloads: seq<Workload>, handed: seq<Id>)

  /** The coordinator's epoch starts at 1, the manager's after the epoch saved last. */
  function Init(saved: nat): State {
    State(Fetch, saved + 1, [], [], map[], [], Gather, 1, saved, saved, {}, {}, [], [], [])
  }

  datatype Action =
    | Receive(batch: seq<Id>)
    | NoMore
    | Manage
    | Pack
    | Finish(outcome: map<Id, Aria.Result>)
    | Report

  function EpochOf(tx: map<Id, Tx>, id: Id): nat {
    if id in tx then tx[id].epoch else 0
  }

  function ResultOf(tx: map<Id, Tx>, id: Id): Aria.Result {
    if id in tx then tx[id].result else Aria.Pending
  }

  predicate Distinct(list: seq<Id>) {
    forall i, j :: 0 <= i < j < |list| ==> list[i] != list[j]
  }

  function Requested(s: State): nat {
    if s.manager == Fetch then s.epoch else s.epoch + 1
  }

  // ---------- The two loops over the buffer ----------

  /** A wrapper is emptied from its back. */
  function Reversed(batch: seq<Id>): (r: seq<Id>)
    ensures |r| == |batch| && forall i :: 0 <= i < |r| ==> r[i] == batch[|batch| - 1 - i]
  {
    seq(|batch|, i requires 0 <= i < |batch| => batch[|batch| - 1 - i])
  }

  method AddTransaction(s: State, wrapper: seq<Id>) returns (r: seq<Id>)
    ensures r == Sent(s, wrapper).buffer == s.buffer + Reversed(wrapper)
  {
    var left := wrapper;
    r := s.buffer;
    while |left| > 0
      invariant |left| <= |wrapper| && left == wrapper[..|left|]
      invariant r == s.buffer + Reversed(wrapper)[..|wrapper| - |left|]
    {
      r := r + [left[|left| - 1]];
      left := left[..|left| - 1];
    }
  }

  /** How many transactions the next workload takes: the first, and then those of the epoch. */
  function Packable(tx: map<Id, Tx>, buffer: seq<Id>, epoch: nat, k: nat): (n: nat)
    requires 1 <= k <= |buffer|
    decreases |buffer| - k
    ensures k <= n <= |buffer|
    ensures k <= MAX_WORKLOAD ==> n <= MAX_WORKLOAD
    ensures forall i :: k <= i < n ==> EpochOf(tx, buffer[i]) == epoch
    ensures n < |buffer| && n < MAX_WORKLOAD ==> EpochOf(tx, buffer[n]) != epoch
  {
    if k < |buffer| && EpochOf(tx, buffer[k]) == epoch && k < MAX_WORKLOAD
    then Packable(tx, buffer, epoch, k + 1)
    else k
  }

  method GetWorkload(tx: map<Id, Tx>, buffer: seq<Id>, epoch: nat) returns (workload: seq<Id>, rest: seq<Id>)
    requires |buffer| > 0
    ensures var n := Packable(tx, buffer, epoch, 1); workload == buffer[..n] && rest == buffer[n..]
  {
    workload, rest := [buffer[0]], buffer[1..];
    while rest != [] && EpochOf(tx, rest[0]) == epoch && |workload| < MAX_WORKLOAD
      invariant 1 <= |workload| <= |buffer| && workload == buffer[..|workload|] && rest == buffer[|workload|..]
      invariant Packable(tx, buffer, epoch, 1) == Packable(tx, buffer, epoch, |workload|)
    {
      workload, rest := workload + [rest[0]], rest[1..];
    }
  }

  // ---------- Steps ----------

  function Tagged(ids: seq<Id>, tx: map<Id, Tx>): (r: seq<Entry>)
    ensures |r| == |ids| && forall i :: 0 <= i < |r| ==> r[i] == Entry(ids[i], EpochOf(tx, ids[i]))
  {
    seq(|ids|, i requires 0 <= i < |ids| => Entry(ids[i], EpochOf(tx, ids[i])))
  }

  /** The batch goes into the buffer. */
  function Sent(s: State, batch: seq<Id>): State {
    s.(buffer := s.buffer + Reversed(batch), sent := s.sent + Tagged(Reversed(batch), s.tx))
  }

  predicate Room(s: State, batch: seq<Id>) {
    |s.buffer| + |batch| <= MAX_BUFFER
  }

  function Retried(s: State, rest: seq<Id>, batch: seq<Id>): State
    requires rest != []
  {
    var id, rest' := rest[0], rest[1..];
    match ResultOf(s.tx, id)
    case Abort =>
      var s' := s.(tx := s.tx[id := Tx(s.epoch + 1, Aria.Pending)]);
      if |batch| + 1 == MAX_BATCH then s'.(manager := Sending(batch + [id], Retrying(id, rest')))
      else s'.(manager := Retry(rest', batch + [id]), following := s.following + [id])
    case Pending => s.(manager := Retry(rest', batch))
    case _ => s.(manager := Retry(rest', batch), handed := s.handed + [id])
  }

  function Continued(s: State, next: Then): State {
    match next
    case Fetching => s.(manager := Fetch)
    case Checking => s.(manager := Check)
    case Retrying(id, rest) => s.(manager := Retry(rest, []), following := s.following + [id])
    case Switching => s.(manager := Switch)
  }

  function Managed(s: State): State {
    match s.manager
    case Fetch => s
    case FetchNext => s
    case Sending(batch, next) => if Room(s, batch) then Continued(Sent(s, batch), next) else s
    case Check => s.(manager := if s.finished == s.epoch then Retry(s.current, []) else Fetch)
    case Retry(rest, batch) => if rest == [] then s.(manager := Sending(batch, Switching)) else Retried(s, rest, batch)
    case Switch => s.(manager := Fetch, epoch := s.epoch + 1, current := s.following, following := [])
  }

  function Packed(s: State): State {
    var n, c := |s.buffer|, s.coordinatorEpoch;
    if n == 0 || (EpochOf(s.tx, s.buffer[n - 1]) <= c && n < MIN_WORKLOAD) then s
    else if EpochOf(s.tx, s.buffer[0]) > c then s.(coordinator := Execute)
    else
      var k := Packable(s.tx, s.buffer, c, 1);
      s.(buffer := s.buffer[k..], workloads := s.workloads + [Workload(EpochOf(s.tx, s.buffer[0]), s.buffer[..k])])
  }

  /** What the workloads hold, in order, each transaction with its workload's epoch. */
  function Contents(workloads: seq<Workload>): seq<Entry> {
    if workloads == [] then []
    else
      var n := |workloads| - 1;
      Contents(workloads[..n]) + OfWorkload(workloads[n])
  }

  function OfWorkload(w: Workload): (r: seq<Entry>)
    ensures |r| == |w.txs| && forall i :: 0 <= i < |r| ==> r[i] == Entry(w.txs[i], w.epoch)
  {
    seq(|w.txs|, i requires 0 <= i < |w.txs| => Entry(w.txs[i], w.epoch))
  }

  function WithResults(tx: map<Id, Tx>, outcome: map<Id, Aria.Result>): map<Id, Tx> {
    map id | id in tx :: if id in outcome then tx[id].(result := outcome[id]) else tx[id]
  }

  /** A batch holds new transactions of the requested epoch, which has not been closed. */
  ghost predicate CanReceive(s: State, batch: seq<Id>) {
    && (s.manager == Fetch || s.manager == FetchNext)
    && Requested(s) !in s.closed && |batch| <= MAX_BATCH
    && Distinct(batch) && forall id :: id in batch ==> id !in s.fetched
  }

  /** Every transaction in a workload of the epoch gets a result, and no other does. */
  ghost predicate CanFinish(s: State, outcome: map<Id, Aria.Result>) {
    && s.coordinator == Execute
    && (forall id :: id in outcome <==> Entry(id, s.coordinatorEpoch) in Contents(s.workloads))
    && forall id :: id in outcome ==> outcome[id] != Aria.Pending
  }

  ghost predicate Enabled(s: State, a: Action) {
    match a
    case Receive(batch) => CanReceive(s, batch)
    case NoMore => s.manager == Fetch || s.manager == FetchNext
    case Manage => true
    case Pack => s.coordinator == Gather
    case Finish(outcome) => CanFinish(s, outcome)
    case Report => s.coordinator == Signal || s.coordinator == Advance
  }

  function Step(s: State, a: Action): State
    requires Enabled(s, a)
  {
    match a
    case Receive(batch) =>
      var s' := s.(tx := s.tx + (map id | id in batch :: Tx(Requested(s), Aria.Pending)),
                   fetched := s.fetched + set id | id in batch);
      if s.manager == Fetch then s'.(current := s.current + batch, manager := Sending(batch, Fetching))
      else s'.(following := s.following + batch, manager := Sending(batch, Checking))
    case NoMore =>
      s.(closed := s.closed + {Requested(s)}, manager := if s.manager == Fetch then FetchNext else Check)
    case Manage => Managed(s)
    case Pack => Packed(s)
    case Finish(outcome) => s.(coordinator := Signal, tx := WithResults(s.tx, outcome))
    case Report =>
      if s.coordinator == Signal then s.(coordinator := Advance, finished := s.coordinatorEpoch)
      else s.(coordinator := Gather, coordinatorEpoch := s.coordinatorEpoch + 1)
  }

  // ---------- The invariant ----------

  /** The first epoch that the coordinator may still take transactions of. */
  function Open(s: State): nat {
    s.coordinatorEpoch + if s.coordinator == Gather then 0 else 1
  }

  /** The last epoch that has its results; the last that was reported. */
  function Executed(s: State): int {
    s.coordinatorEpoch - if s.coordinator == Signal || s.coordinator == Advance then 0 else 1
  }

  function Reported(s: State): int {
    s.coordinatorEpoch - if s.coordinator == Advance then 0 else 1
  }

  /** Transactions of the manager's epoch that have not been dealt with. */
  function Rest(s: State): seq<Id> {
    match s.manager
    case Retry(rest, _) => rest
    case Sending(_, Retrying(_, rest)) => rest
    case Sending(_, Switching) => []
    case Switch => []
    case _ => s.current
  }

  /** Transactions of the epoch after it. */
  function Ahead(s: State): seq<Id> {
    match s.manager
    case Sending(_, Retrying(id, _)) => s.following + [id]
    case _ => s.following
  }

  /** Those of them that are still to be put into the buffer. */
  function Batch(s: State): seq<Id> {
    match s.manager
    case Sending(batch, _) => batch
    case Retry(_, batch) => batch
    case _ => []
  }

  predicate InRetry(pc: ManagerPc) {
    pc.Retry? || pc.Switch? || (pc.Sending? && (pc.next.Retrying? || pc.next.Switching?))
  }

  /** In how many places a transaction is. */
  function Places(s: State, id: Id): nat {
    multiset(Rest(s))[id] + multiset(Ahead(s))[id] + multiset(s.handed)[id]
  }

  predicate SendsCurrent(pc: ManagerPc) {
    pc.Sending? && pc.next.Fetching?
  }

  /** A transaction that was fetched is in one place, with the epoch that goes with that place; it has
      been sent for that epoch or is in the batch about to be; and it has its result in time. */
  ghost predicate TxOk(s: State, id: Id) {
    var now := Entry(id, EpochOf(s.tx, id));
    && (id in s.tx <==> id in s.fetched)
    && Places(s, id) == (if id in s.fetched then 1 else 0)
    && (id in Rest(s) ==> now.epoch == s.epoch)
    && (id in Ahead(s) ==> now.epoch == s.epoch + 1)
    && (id in Rest(s) || id in Ahead(s) ==> id in Batch(s) || now in s.sent)
    && (id in Batch(s) ==> now !in s.sent && if SendsCurrent(s.manager) then id in Rest(s) else id in Ahead(s))
    && (id in s.buffer ==> now in s.sent && now.epoch >= Open(s))
    && (id in Rest(s) && Executed(s) >= s.epoch ==> ResultOf(s.tx, id) != Aria.Pending)
  }

  /** What has been sent was sent for an epoch no later than the transaction's present one; nothing is
      sent for the next epoch before this one is closed. */
  ghost predicate EntryOk(s: State, e: Entry) {
    && (e in s.sent ==> e.id in s.fetched && e.epoch <= EpochOf(s.tx, e.id) && e.epoch <= s.epoch + 1)
    && (e in s.sent && s.epoch !in s.closed ==> e.epoch <= s.epoch)
    && (e in Contents(s.workloads) ==> e.epoch <= s.coordinatorEpoch)
  }

  ghost predicate InOrder(e: Entry, f: Entry) {
    e != f && e.epoch <= f.epoch
  }

  ghost predicate AllInOrder(sent: seq<Entry>) {
    forall i, j {:trigger InOrder(sent[i], sent[j])} :: 0 <= i < j < |sent| ==> InOrder(sent[i], sent[j])
  }

  /** The two epochs, and what the manager can tell from the reported one. */
  ghost predicate Shaken(s: State) {
    && s.coordinatorEpoch >= 1
    && Open(s) <= s.epoch + 1 && (Open(s) == s.epoch + 1 ==> s.epoch in s.closed)
    && (s.finished == Reported(s) || (Reported(s) == 0 && s.finished == s.saved))
    && s.saved < s.epoch && (s.epoch == s.saved + 1 || Reported(s) >= s.epoch - 1)
    && (InRetry(s.manager) ==> Reported(s) == s.epoch)
    && (SendsCurrent(s.manager) ==> s.epoch !in s.closed)
    && (s.manager == Fetch || SendsCurrent(s.manager) || s.epoch in s.closed)
  }

  ghost predicate Inv(s: State) {
    && (forall id: Id :: TxOk(s, id))
    && (forall e: Entry :: EntryOk(s, e))
    && Shaken(s)
    && AllInOrder(s.sent)
    && s.sent == Contents(s.workloads) + Tagged(s.buffer, s.tx)
    && |s.buffer| <= MAX_BUFFER && Distinct(Batch(s))
  }

  // ---------- Small facts ----------

  lemma TaggedAppend(a: seq<Id>, b: seq<Id>, tx: map<Id, Tx>)
    ensures Tagged(a + b, tx) == Tagged(a, tx) + Tagged(b, tx)
  {
  }

  lemma TaggedIn(ids: seq<Id>, tx: map<Id, Tx>, e: Entry)
    ensures e in Tagged(ids, tx) <==> e.id in ids && e.epoch == EpochOf(tx, e.id)
  {
    if e.id in ids {
      var i :| 0 <= i < |ids| && ids[i] == e.id;
      assert Tagged(ids, tx)[i] in Tagged(ids, tx);
    }
  }

  lemma TaggedSame(ids: seq<Id>, tx: map<Id, Tx>, tx': map<Id, Tx>)
    requires forall id :: id in ids ==> EpochOf(tx', id) == EpochOf(tx, id)
    ensures Tagged(ids, tx') == Tagged(ids, tx)
  {
  }

  lemma ReversedIn(batch: seq<Id>, id: Id)
    ensures id in Reversed(batch) <==> id in batch
  {
    if id in batch {
      var i :| 0 <= i < |batch| && batch[i] == id;
      assert Reversed(batch)[|batch| - 1 - i] == id;
    }
  }

  lemma OrderAppend(sent: seq<Entry>, batch: seq<Id>, tx: map<Id, Tx>)
    requires AllInOrder(sent) && Distinct(batch)
    requires forall e, f :: e in sent && f in Tagged(Reversed(batch), tx) ==> InOrder(e, f)
    requires forall x, y :: x in batch && y in batch ==> EpochOf(tx, x) == EpochOf(tx, y)
    ensures AllInOrder(sent + Tagged(Reversed(batch), tx))
  {
    var more := Tagged(Reversed(batch), tx);
    var all := sent + more;
    forall i, j | 0 <= i < j < |all| ensures InOrder(all[i], all[j]) {
      if j < |sent| {
        assert InOrder(sent[i], sent[j]);
      } else if i < |sent| {
        assert all[i] in sent && all[j] in more;
      }
    }
  }

  lemma {:induction false} DistinctCounts(list: seq<Id>, id: Id)
    requires Distinct(list)
    ensures multiset(list)[id] == if id in list then 1 else 0
  {
    if list != [] {
      var n := |list| - 1;
      assert list == list[..n] + [list[n]];
      DistinctCounts(list[..n], id);
    }
  }
}
