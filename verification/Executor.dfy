/** What one worker does with its workload: run every transaction against the snapshot and
    reserve its keys, and later decide each of them from the shared reserve table.  What a
    chaincode does on the snapshot is handed in as an outcome for each transaction. */
module Executor {
  import opened ReserveTable
  import opened Serializability

  class Transaction {
    const tid: nat
    var rw: RWSet
    var result: Result

    constructor (tid: nat)
      requires tid != 0
      ensures this.tid == tid && rw == EMPTY_RWSET && result == Pending
    {
      this.tid := tid;
      rw, result := EMPTY_RWSET, Pending;
    }

    /** Nothing has happened to it in this epoch. */
    predicate Fresh()
      reads this
    {
      tid != 0 && result == Pending
    }

    /** It has been run and awaits its decision. */
    predicate Executed(o: Outcome)
      reads this
    {
      if o.Failed? then result == AbortNoRetry else result == Pending && rw == o.rw
    }
  }

  ghost predicate Distinct(list: seq<Transaction>) {
    forall i, j :: 0 <= i < j < |list| ==> list[i] != list[j]
  }

  ghost predicate ExecutedUpTo(list: seq<Transaction>, outs: seq<Outcome>, i: nat)
    requires i <= |list| == |outs|
    reads list
  {
    && (forall j :: 0 <= j < i ==> list[j].Executed(outs[j]))
    && (forall j :: i <= j < |list| ==> list[j].Fresh())
  }

  function AfterOutcome(t: Tables, o: Outcome, tid: nat): Tables {
    if o.Failed? then t else ReserveSet(t, o.rw, tid)
  }

  /** The tables after the first n transactions of a workload. */
  function AfterList(t: Tables, list: seq<Transaction>, outs: seq<Outcome>, n: nat): Tables
    requires n <= |list| == |outs|
  {
    if n == 0 then t else AfterOutcome(AfterList(t, list, outs, n - 1), outs[n - 1], list[n - 1].tid)
  }

  /** The result that a transaction ends its epoch with: ABORT is to be tried again. */
  ghost predicate EndsAs(result: Result, t: Tables, o: Outcome, tid: nat, stored: bool) {
    if o.Failed? then result == AbortNoRetry
    else
      && (result == Commit <==> Decide(t, o, tid) == Commit && stored)
      && (result == AbortNoRetry <==> Decide(t, o, tid) == Commit && !stored)
      && (result == Abort <==> Decide(t, o, tid) == Abort)
  }

  class ReserveTableProvider {
    var table: MockReserveTable?

    constructor ()
      ensures table == null
    {
      table := null;
    }

    /** What an epoch's table holds so far: a table of another epoch counts as empty. */
    ghost function Current(epoch: nat): Tables
      reads this, table
    {
      if table == null || table.epoch != epoch then EMPTY_TABLES else table.Contents()
    }

    method GetReserveTable(epoch: nat) returns (t: MockReserveTable)
      modifies this
      ensures t == table && t.epoch == epoch
      ensures t == old(table) || fresh(t)
      ensures Current(epoch) == old(Current(epoch))
    {
      if table == null || table.epoch != epoch {
        table := new MockReserveTable(epoch);
      }
      t := table;
    }
  }

  class TransactionExecutor {
    var reserveTable: MockReserveTable?

    constructor ()
      ensures reserveTable == null
    {
      reserveTable := null;
    }

    /** The executor looks at the epoch's shared table. */
    predicate Holds(provider: ReserveTableProvider, epoch: nat)
      reads this, provider
    {
      reserveTable != null && reserveTable == provider.table && reserveTable.epoch == epoch
    }

    method ExecuteOne(tx: Transaction, o: Outcome, provider: ReserveTableProvider, epoch: nat)
      requires tx.Fresh()
      modifies this, provider, provider.table, tx
      ensures tx.Executed(o)
      ensures provider.Current(epoch) == AfterOutcome(old(provider.Current(epoch)), o, tx.tid)
      ensures provider.table == old(provider.table) || fresh(provider.table)
      ensures if o.Ran? then Holds(provider, epoch)
              else reserveTable == old(reserveTable) && provider.table == old(provider.table)
    {
      match o {
        case Failed =>
          tx.result := AbortNoRetry;
        case Ran(rw) =>
          tx.rw := rw;
          reserveTable := provider.GetReserveTable(epoch);
          var _ := reserveTable.ReserveRWset(tx.rw, tx.tid);
      }
    }

    method ExecuteAt(list: seq<Transaction>, outs: seq<Outcome>, i: nat, provider: ReserveTableProvider, epoch: nat)
      requires i < |list| == |outs| && Distinct(list) && ExecutedUpTo(list, outs, i)
      modifies this, provider, provider.table, list
      ensures ExecutedUpTo(list, outs, i + 1)
      ensures provider.Current(epoch) == AfterOutcome(old(provider.Current(epoch)), outs[i], list[i].tid)
      ensures provider.table == old(provider.table) || fresh(provider.table)
      ensures Holds(provider, epoch)
                || (outs[i].Failed? && provider.table == old(provider.table) && reserveTable == old(reserveTable))
    {
      ExecuteOne(list[i], outs[i], provider, epoch);
      forall j | 0 <= j < |list| && j != i ensures unchanged(list[j]) {}
    }

    /** A failing chaincode marks its transaction and reserves nothing; any other leaves its read
        and write set and adds its reservations to the epoch's shared table. */
    method ExecuteList(list: seq<Transaction>, outs: seq<Outcome>, provider: ReserveTableProvider, epoch: nat)
      requires |list| == |outs| && Distinct(list) && forall tx <- list :: tx.Fresh()
      modifies this, provider, provider.table, list
      ensures forall i :: 0 <= i < |list| ==> list[i].Executed(outs[i])
      ensures provider.Current(epoch) == AfterList(old(provider.Current(epoch)), list, outs, |list|)
      ensures (exists o <- outs :: o.Ran?) ==> Holds(provider, epoch)
      ensures provider.table == old(provider.table) || fresh(provider.table)
    {
      ghost var start := provider.Current(epoch);
      for i := 0 to |list|
        invariant ExecutedUpTo(list, outs, i)
        invariant provider.Current(epoch) == AfterList(start, list, outs, i)
        invariant Holds(provider, epoch) || forall j :: 0 <= j < i ==> outs[j].Failed?
        invariant provider.table == old(provider.table) || fresh(provider.table)
      {
        ExecuteAt(list, outs, i, provider, epoch);
      }
    }

    method CommitOne(tx: Transaction, ghost o: Outcome, stored: bool)
      requires tx.Executed(o) && (o.Ran? ==> reserveTable != null)
      modifies tx
      ensures o.Failed? ==> tx.result == AbortNoRetry
      ensures o.Ran? ==> EndsAs(tx.result, reserveTable.Contents(), o, tx.tid, stored)
    {
      if tx.result != AbortNoRetry {
        var d := reserveTable.DependencyAnalysis(tx.rw, tx.tid);
        if d.waw {
          tx.result := Abort;
        } else if !d.war || !d.raw {
          tx.result := if stored then Commit else AbortNoRetry;
        } else {
          tx.result := Abort;
        }
      }
    }

    /** Every transaction of the workload gets its result.  One that ran is marked COMMIT exactly if it is
        decided to commit and the storage, whose answers are handed in, takes its update; ABORT_NO_RETRY
        exactly if the storage refuses it; and ABORT, to be tried again, exactly if it is decided to abort. */
    method CommitList(list: seq<Transaction>, ghost outs: seq<Outcome>, stored: seq<bool>)
      requires |list| == |outs| == |stored| && Distinct(list)
      requires forall i :: 0 <= i < |list| ==> list[i].Executed(outs[i])
      requires (exists o <- outs :: o.Ran?) ==> reserveTable != null
      modifies list
      ensures forall i :: 0 <= i < |list| && outs[i].Failed? ==> list[i].result == AbortNoRetry
      ensures forall i :: 0 <= i < |list| && outs[i].Ran? ==>
                var decision := Decide(reserveTable.Contents(), outs[i], list[i].tid);
                && (list[i].result == Commit <==> decision == Commit && stored[i])
                && (list[i].result == AbortNoRetry <==> decision == Commit && !stored[i])
                && (list[i].result == Abort <==> decision == Abort)
    {
      for i := 0 to |list|
        invariant forall j :: i <= j < |list| ==> list[j].Executed(outs[j])
        invariant forall j :: 0 <= j < i && outs[j].Failed? ==> list[j].result == AbortNoRetry
        invariant forall j :: 0 <= j < i && outs[j].Ran? ==>
                                EndsAs(list[j].result, reserveTable.Contents(), outs[j], list[j].tid, stored[j])
      {
        assert outs[i] in outs;
        CommitOne(list[i], outs[i], stored[i]);
      }
    }
  }

  // ---------- A whole epoch ----------

  function Flatten<T>(parts: seq<seq<T>>, n: nat): seq<T>
    requires n <= |parts|
  {
    if n == 0 then [] else Flatten(parts, n - 1) + parts[n - 1]
  }

  lemma {:induction false} InFlatten<T>(parts: seq<seq<T>>, n: nat, r: T)
    requires n <= |parts|
    ensures r in Flatten(parts, n) <==> exists i :: 0 <= i < n && r in parts[i]
  {
    if n > 0 {
      InFlatten(parts, n - 1, r);
    }
  }

  function OutcomeReservations(o: Outcome, tid: nat): seq<Reservation> {
    if o.Failed? then [] else Reservations(o.rw, tid)
  }

  /** The reservations of each transaction of a workload. */
  function Parts(list: seq<Transaction>, outs: seq<Outcome>): seq<seq<Reservation>>
    requires |list| == |outs|
  {
    seq(|list|, i requires 0 <= i < |list| => OutcomeReservations(outs[i], list[i].tid))
  }

  /** What a worker leaves in the tables is what its reservations, one by one, leave there. */
  lemma {:induction false} AfterListIsRun(t: Tables, list: seq<Transaction>, outs: seq<Outcome>, n: nat)
    requires n <= |list| == |outs|
    ensures AfterList(t, list, outs, n) == Run(t, Flatten(Parts(list, outs), n))
  {
    if n > 0 {
      AfterListIsRun(t, list, outs, n - 1);
      var before, part := Flatten(Parts(list, outs), n - 1), Parts(list, outs)[n - 1];
      RunConcat(t, before, part);
      if outs[n - 1].Ran? {
        ReserveSetIsRun(Run(t, before), outs[n - 1].rw, list[n - 1].tid);
      }
    }
  }

  /** list holds exactly the transactions of epoch e with their outcomes on the snapshot. */
  ghost predicate Lists(list: seq<Transaction>, outs: seq<Outcome>, e: Epoch, snap: Store) {
    && |list| == |outs|
    && (forall i :: 0 <= i < |list| ==> list[i].tid in e && outs[i] == e[list[i].tid](snap))
    && (forall t <- e :: exists i :: 0 <= i < |list| && list[i].tid == t)
  }

  lemma InReservations(rw: RWSet, tid: nat, r: Reservation)
    ensures r in Reservations(rw, tid) <==> r.tid == tid && Touches(Ran(rw), r.kind, r.key)
  {
    var rs, n := Reservations(rw, tid), |rw.readList|;
    if r in rs {
      var i :| 0 <= i < |rs| && rs[i] == r;
      if i < n {
        assert rw.readList[i] in rw.readList;
      } else {
        assert rw.writeList[i - n] in rw.writeList;
      }
    }
    if r.tid == tid && Touches(Ran(rw), r.kind, r.key) {
      if r.kind.ReadOf? {
        var i :| 0 <= i < n && rw.readList[i].key == r.key;
        assert rs[i] == r;
      } else {
        var i :| 0 <= i < |rw.writeList| && rw.writeList[i].key == r.key;
        assert rs[n + i] == r;
      }
    }
  }

  lemma InParts(list: seq<Transaction>, outs: seq<Outcome>, i: nat, r: Reservation)
    requires i < |list| == |outs|
    ensures r in Parts(list, outs)[i] <==> r.tid == list[i].tid && Touches(outs[i], r.kind, r.key)
  {
    if outs[i].Ran? {
      InReservations(outs[i].rw, list[i].tid, r);
    }
  }

  /** However an epoch is cut into workloads and however their reservations interleave, the
      reservations made are exactly those the serializability theorem speaks about. */
  lemma WorkloadsCover(list: seq<Transaction>, outs: seq<Outcome>, e: Epoch, snap: Store, rs: seq<Reservation>)
    requires Lists(list, outs, e, snap)
    requires forall r :: r in rs <==> r in Flatten(Parts(list, outs), |list|)
    ensures Covers(rs, e, snap)
  {
    forall r ensures r in rs <==> r.tid in e && Touches(e[r.tid](snap), r.kind, r.key) {
      InFlatten(Parts(list, outs), |list|, r);
      forall i | 0 <= i < |list|
        ensures r in Parts(list, outs)[i] <==> r.tid == list[i].tid && Touches(outs[i], r.kind, r.key)
      {
        InParts(list, outs, i, r);
      }
    }
  }

  /** The transactions decided to commit from the table that the workloads left, less any that the
      storage refused, are serializable; and the smallest id that ran is among them unless refused. */
  lemma EpochIsSerializable(list: seq<Transaction>, outs: seq<Outcome>, e: Epoch, snap: Store, refused: set<nat>)
    requires ValidEpoch(e) && Lists(list, outs, e, snap)
    ensures var rs := Flatten(Parts(list, outs), |list|);
            && Covers(rs, e, snap) && AfterList(EMPTY_TABLES, list, outs, |list|) == Run(EMPTY_TABLES, rs)
            && (exists order :: SerialEquivalent(e, snap, Committed(e, snap, rs) - refused, order))
            && forall tid :: SmallestThatRan(e, snap, tid) ==>
                               (tid in Committed(e, snap, rs) - refused <==> tid !in refused)
  {
    var rs := Flatten(Parts(list, outs), |list|);
    AfterListIsRun(EMPTY_TABLES, list, outs, |list|);
    WorkloadsCover(list, outs, e, snap, rs);
    CommittedAreSerializable(e, snap, rs, Committed(e, snap, rs) - refused);
    forall tid | SmallestThatRan(e, snap, tid) ensures tid in Committed(e, snap, rs) {
      SmallestCommits(e, snap, rs, tid);
    }
  }

  ghost predicate SmallestThatRan(e: Epoch, snap: Store, tid: nat) {
    tid in e && e[tid](snap).Ran? && forall t <- e :: e[t](snap).Ran? ==> tid <= t
  }

  lemma MarksSerializable(
      list: seq<Transaction>, outs: seq<Outcome>, e: Epoch, snap: Store, stored: seq<bool>, results: seq<Result>)
    requires ValidEpoch(e) && Lists(list, outs, e, snap) && |list| == |stored| == |results|
    requires forall i :: 0 <= i < |list| ==>
               EndsAs(results[i], AfterList(EMPTY_TABLES, list, outs, |list|), outs[i], list[i].tid, stored[i])
    ensures var marked := set i | 0 <= i < |list| && results[i] == Commit :: list[i].tid;
            exists order :: SerialEquivalent(e, snap, marked, order)
    ensures forall i :: 0 <= i < |list| && SmallestThatRan(e, snap, list[i].tid) ==>
                          (results[i] == Commit <==> stored[i])
  {
    EpochIsSerializable(list, outs, e, snap, {});
    var rs := Flatten(Parts(list, outs), |list|);
    var marked := set i | 0 <= i < |list| && results[i] == Commit :: list[i].tid;
    CommittedAreSerializable(e, snap, rs, marked);
  }

  /** The results of a list. */
  function Results(list: seq<Transaction>): (r: seq<Result>)
    reads list
    ensures |r| == |list| && forall i :: 0 <= i < |r| ==> r[i] == list[i].result
  {
    seq(|list|, i requires 0 <= i < |list| reads list => list[i].result)
  }

  /** A worker's two phases: its results follow from the table that its own workload has added to. */
  method RunWorkload(
      executor: TransactionExecutor, provider: ReserveTableProvider, epoch: nat, list: seq<Transaction>,
      outs: seq<Outcome>, stored: seq<bool>)
    requires |list| == |outs| == |stored| && Distinct(list) && forall tx <- list :: tx.Fresh()
    modifies executor, provider, provider.table, list
    ensures forall i :: 0 <= i < |list| ==>
                          EndsAs(list[i].result, AfterList(old(provider.Current(epoch)), list, outs, |list|),
                              outs[i], list[i].tid, stored[i])
  {
    executor.ExecuteList(list, outs, provider, epoch);
    ghost var t := provider.Current(epoch);
    assert (exists o <- outs :: o.Ran?) ==> executor.reserveTable != null && executor.reserveTable.Contents() == t;
    executor.CommitList(list, outs, stored);
    forall i | 0 <= i < |list| ensures EndsAs(list[i].result, t, outs[i], list[i].tid, stored[i]) {
      assert outs[i] in outs;
    }
  }

  /** With an epoch that is all in one workload: what is marked COMMIT in the end is serializable, and
      the smallest id that ran is marked so unless the storage refuses it. */
  method RunEpoch(
      executor: TransactionExecutor, provider: ReserveTableProvider, epoch: nat, list: seq<Transaction>,
      outs: seq<Outcome>, stored: seq<bool>, ghost e: Epoch, ghost snap: Store)
    requires |list| == |stored| && Distinct(list) && forall tx <- list :: tx.Fresh()
    requires ValidEpoch(e) && Lists(list, outs, e, snap)
    requires provider.Current(epoch) == EMPTY_TABLES
    modifies executor, provider, provider.table, list
    ensures var results := Results(list);
            var marked := set i | 0 <= i < |list| && results[i] == Commit :: list[i].tid;
            exists order :: SerialEquivalent(e, snap, marked, order)
    ensures forall i :: 0 <= i < |list| && SmallestThatRan(e, snap, list[i].tid) ==>
                          (list[i].result == Commit <==> stored[i])
  {
    RunWorkload(executor, provider, epoch, list, outs, stored);
    MarksSerializable(list, outs, e, snap, stored, Results(list));
  }
}
