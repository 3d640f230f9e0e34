/** What races for the entries of the reserve table do to the decisions of a whole epoch. */
module EpochDecisions {
  import opened Options
  import opened ReserveTable
  import opened Serializability
  import Race = ReserveRace
  import EpochRace

  /** The ids that touch a key. */
  ghost function Touching(e: Epoch, snap: Store, kind: Kind, k: Key): set<nat> {
    set t <- e | Touches(e[t](snap), kind, k)
  }

  /** Each entry is one of the ids that touch its key, if there are any. */
  ghost predicate RacedFor(t: Tables, e: Epoch, snap: Store) {
    forall kind, k :: EpochRace.RacedEntry(t.Get(kind, k), Touching(e, snap, kind, k))
  }

  lemma TidsAre(e: Epoch, snap: Store, rs: seq<Reservation>, kind: Kind, k: Key)
    requires Covers(rs, e, snap)
    ensures TidsFor(rs, kind, k) == Touching(e, snap, kind, k)
  {
    forall t | t in Touching(e, snap, kind, k) ensures t in TidsFor(rs, kind, k) {
      assert Reservation(kind, k, t) in rs;
    }
  }

  /** The tables that single steps would have left. */
  lemma ExactEntry(e: Epoch, snap: Store, rs: seq<Reservation>, kind: Kind, k: Key)
    requires ValidEpoch(e) && Covers(rs, e, snap)
    ensures IsLeast(Run(EMPTY_TABLES, rs).Get(kind, k), Touching(e, snap, kind, k))
  {
    TidsAre(e, snap, rs, kind, k);
    RunIsMinimum(rs, kind, k);
  }

  // ---------- Races only hide dependencies ----------

  lemma EntryHides(e: Epoch, snap: Store, rs: seq<Reservation>, t: Tables, tid: nat, kind: Kind, k: Key)
    requires ValidEpoch(e) && Covers(rs, e, snap) && RacedFor(t, e, snap)
    ensures Precedes(t.Get(kind, k), tid) ==> Precedes(Run(EMPTY_TABLES, rs).Get(kind, k), tid)
  {
    ExactEntry(e, snap, rs, kind, k);
    assert EpochRace.RacedEntry(t.Get(kind, k), Touching(e, snap, kind, k));
  }

  lemma RacesHide(e: Epoch, snap: Store, rs: seq<Reservation>, t: Tables, tid: nat)
    requires ValidEpoch(e) && Covers(rs, e, snap) && RacedFor(t, e, snap) && tid in e && e[tid](snap).Ran?
    ensures var rw := e[tid](snap).rw;
            var d, exact := DependencyOf(t, rw, tid), DependencyOf(Run(EMPTY_TABLES, rs), rw, tid);
            (d.waw ==> exact.waw) && (d.war ==> exact.war) && (d.raw ==> exact.raw)
  {
    forall kind, k ensures Precedes(t.Get(kind, k), tid) ==> Precedes(Run(EMPTY_TABLES, rs).Get(kind, k), tid) {
      EntryHides(e, snap, rs, t, tid, kind, k);
    }
  }

  /** All ids that touch the key are smaller, and there are some: no race can hide that. */
  ghost predicate AllSmaller(e: Epoch, snap: Store, tid: nat, kind: Kind, k: Key) {
    Touching(e, snap, kind, k) != {} && forall u :: u in Touching(e, snap, kind, k) ==> u < tid
  }

  ghost predicate SureWar(e: Epoch, snap: Store, tid: nat)
    requires tid in e
  {
    exists k :: Writes(e[tid](snap), k) && AllSmaller(e, snap, tid, ReadOf, k)
  }

  ghost predicate SureRaw(e: Epoch, snap: Store, tid: nat)
    requires tid in e
  {
    exists k :: Reads(e[tid](snap), k) && AllSmaller(e, snap, tid, WriteOf, k)
  }

  /** The decision does not depend on races: to begin with it is no abort, or it is one for a WAR and a
      RAW that cannot be hidden. */
  ghost predicate Settled(e: Epoch, snap: Store, rs: seq<Reservation>, tid: nat)
    requires tid in e
  {
    || Decide(Run(EMPTY_TABLES, rs), e[tid](snap), tid) != Abort
    || (SureWar(e, snap, tid) && SureRaw(e, snap, tid))
  }

  lemma SettledStays(e: Epoch, snap: Store, rs: seq<Reservation>, t: Tables, tid: nat)
    requires ValidEpoch(e) && Covers(rs, e, snap) && RacedFor(t, e, snap) && tid in e && Settled(e, snap, rs, tid)
    ensures Decide(t, e[tid](snap), tid) == Decide(Run(EMPTY_TABLES, rs), e[tid](snap), tid)
  {
    var o := e[tid](snap);
    if o.Ran? {
      RacesHide(e, snap, rs, t, tid);
      if SureWar(e, snap, tid) && SureRaw(e, snap, tid) {
        var w :| Writes(o, w) && AllSmaller(e, snap, tid, ReadOf, w);
        assert EpochRace.RacedEntry(t.Get(ReadOf, w), Touching(e, snap, ReadOf, w));
        var r :| Reads(o, r) && AllSmaller(e, snap, tid, WriteOf, r);
        assert EpochRace.RacedEntry(t.Get(WriteOf, r), Touching(e, snap, WriteOf, r));
        assert 0 !in Touching(e, snap, ReadOf, w) && 0 !in Touching(e, snap, WriteOf, r);
        assert DependencyOf(t, o.rw, tid).war && DependencyOf(t, o.rw, tid).raw;
      }
    }
  }

  // ---------- And may hide all others ----------

  /** The entry that is worst for tid. */
  ghost function Worst(e: Epoch, snap: Store, tid: nat, kind: Kind, k: Key): (v: nat)
    ensures EpochRace.RacedEntry(v, Touching(e, snap, kind, k))
    ensures Touching(e, snap, kind, k) != {} && v < tid ==> AllSmaller(e, snap, tid, kind, k)
  {
    var tids := Touching(e, snap, kind, k);
    if tids == {} then 0
    else if exists u :: u in tids && u >= tid then var u :| u in tids && u >= tid; u
    else var u :| u in tids; u
  }

  lemma WorstTables(e: Epoch, snap: Store, rs: seq<Reservation>, tid: nat) returns (t: Tables)
    requires ValidEpoch(e) && Covers(rs, e, snap)
    ensures forall kind, k :: t.Get(kind, k) == Worst(e, snap, tid, kind, k)
  {
    var exact := Run(EMPTY_TABLES, rs);
    t := Tables(map k | k in exact.readers :: Worst(e, snap, tid, ReadOf, k),
      map k | k in exact.writers :: Worst(e, snap, tid, WriteOf, k));
    forall kind, k ensures t.Get(kind, k) == Worst(e, snap, tid, kind, k) {
      RunKeys(rs, k);
      TidsAre(e, snap, rs, kind, k);
    }
  }

  lemma UnsettledCommits(e: Epoch, snap: Store, rs: seq<Reservation>, t: Tables, tid: nat)
    requires ValidEpoch(e) && Covers(rs, e, snap) && tid in e && !Settled(e, snap, rs, tid)
    requires forall kind, k :: t.Get(kind, k) == Worst(e, snap, tid, kind, k)
    ensures Decide(t, e[tid](snap), tid) == Commit
  {
    var o := e[tid](snap);
    var d := DependencyOf(t, o.rw, tid);
    forall w | w in o.rw.writeList ensures !Precedes(t.Get(WriteOf, w.key), tid) {
      assert Touches(o, WriteOf, w.key) && tid in Touching(e, snap, WriteOf, w.key);
    }
    assert !d.waw;
    if d.war {
      var w :| w in o.rw.writeList && Precedes(t.Get(ReadOf, w.key), tid);
      assert Writes(o, w.key) && AllSmaller(e, snap, tid, ReadOf, w.key);
    }
    if d.raw {
      var r :| r in o.rw.readList && Precedes(t.Get(WriteOf, r.key), tid);
      assert Reads(o, r.key) && AllSmaller(e, snap, tid, WriteOf, r.key);
    }
  }

  /** No tables with raced entries decide otherwise than the exact ones. */
  ghost predicate AlwaysSame(e: Epoch, snap: Store, rs: seq<Reservation>, tid: nat)
    requires tid in e
  {
    forall t: Tables :: RacedFor(t, e, snap) ==>
                          Decide(t, e[tid](snap), tid) == Decide(Run(EMPTY_TABLES, rs), e[tid](snap), tid)
  }

  /** A decision is the same whichever of the asking ids is left in each entry, if and only if it is not
      an abort or there are a WAR and a RAW for which all asking ids are smaller. */
  lemma SettledIff(e: Epoch, snap: Store, rs: seq<Reservation>, tid: nat)
    requires ValidEpoch(e) && Covers(rs, e, snap) && tid in e
    ensures AlwaysSame(e, snap, rs, tid) <==> Settled(e, snap, rs, tid)
  {
    if Settled(e, snap, rs, tid) {
      forall t: Tables | RacedFor(t, e, snap)
        ensures Decide(t, e[tid](snap), tid) == Decide(Run(EMPTY_TABLES, rs), e[tid](snap), tid)
      {
        SettledStays(e, snap, rs, t, tid);
      }
    } else {
      var t := WorstTables(e, snap, rs, tid);
      UnsettledCommits(e, snap, rs, t, tid);
      assert RacedFor(t, e, snap);
    }
  }

  // ---------- The interleavings of a whole epoch ----------

  /** The transactions that ran, in some order. */
  ghost predicate RanIds(e: Epoch, snap: Store, tids: seq<nat>) {
    forall t :: t in tids <==> t in e && e[t](snap).Ran?
  }

  /** One thread for each: its reads in order, then its writes. */
  ghost function ListsOf(e: Epoch, snap: Store, tids: seq<nat>): (lists: EpochRace.Lists)
    requires RanIds(e, snap, tids)
    ensures |lists| == |tids|
  {
    seq(|tids|, i requires 0 <= i < |tids| => Reservations(e[tids[i]](snap).rw, tids[i]))
  }

  lemma ListsSane(e: Epoch, snap: Store, tids: seq<nat>)
    requires ValidEpoch(e) && RanIds(e, snap, tids)
    ensures EpochRace.Sane(ListsOf(e, snap, tids))
  {
    var lists: seq<seq<Reservation>> := ListsOf(e, snap, tids);
    forall i: nat, j: nat | i < |lists| && j < |lists[i]| ensures lists[i][j].tid == tids[i] != 0 {
      assert tids[i] in tids;
    }
  }

  lemma ReservationOf(rw: RWSet, tid: nat, kind: Kind, k: Key) returns (j: nat)
    requires Touches(Ran(rw), kind, k)
    ensures j < |Reservations(rw, tid)| && Reservations(rw, tid)[j] == Reservation(kind, k, tid)
  {
    match kind
    case ReadOf =>
      var i: nat :| i < |rw.readList| && rw.readList[i].key == k;
      j := i;
    case WriteOf =>
      var i: nat :| i < |rw.writeList| && rw.writeList[i].key == k;
      j := |rw.readList| + i;
  }

  lemma CompetitorsTouch(e: Epoch, snap: Store, tids: seq<nat>, kind: Kind, k: Key)
    requires ValidEpoch(e) && RanIds(e, snap, tids)
    ensures EpochRace.Competitors(ListsOf(e, snap, tids), kind, k) == Touching(e, snap, kind, k)
  {
    var lists := ListsOf(e, snap, tids);
    forall t | t in Touching(e, snap, kind, k) ensures t in EpochRace.Competitors(lists, kind, k) {
      assert t in tids;
      var i: nat :| i < |tids| && tids[i] == t;
      var j := ReservationOf(e[t](snap).rw, t, kind, k);
      assert EpochRace.Asks(lists, i, j, kind, k) && lists[i][j].tid == t;
    }
    forall t | t in EpochRace.Competitors(lists, kind, k) ensures t in Touching(e, snap, kind, k) {
      var i: nat, j: nat :|
        i < |lists| && j < |lists[i]| && EpochRace.Asks(lists, i, j, kind, k) && lists[i][j].tid == t;
      assert tids[i] in tids;
      TouchOf(e[t](snap).rw, t, j);
    }
  }

  lemma TouchOf(rw: RWSet, tid: nat, j: nat)
    requires j < |Reservations(rw, tid)|
    ensures var r := Reservations(rw, tid)[j]; r.tid == tid && Touches(Ran(rw), r.kind, r.key)
  {
    if j < |rw.readList| {
      assert rw.readList[j] in rw.readList;
    } else {
      assert rw.writeList[j - |rw.readList|] in rw.writeList;
    }
  }

  /** The tables that an interleaving leaves, once all threads have finished. */
  ghost predicate Leaves(e: Epoch, snap: Store, tids: seq<nat>, sched: seq<Race.Choice>, t: Tables)
    requires RanIds(e, snap, tids)
  {
    var lists := ListsOf(e, snap, tids);
    var s := EpochRace.Exec(EpochRace.Init(lists), lists, sched);
    EpochRace.AllDone(s, lists) && s.tables == t
  }

  lemma LeftIsRaced(e: Epoch, snap: Store, tids: seq<nat>, sched: seq<Race.Choice>, t: Tables)
    requires ValidEpoch(e) && RanIds(e, snap, tids) && Leaves(e, snap, tids, sched, t)
    ensures RacedFor(t, e, snap)
  {
    ListsSane(e, snap, tids);
    EpochRace.FinishedIsRaced(ListsOf(e, snap, tids), sched);
    forall kind, k ensures EpochRace.RacedEntry(t.Get(kind, k), Touching(e, snap, kind, k)) {
      CompetitorsTouch(e, snap, tids, kind, k);
      assert EpochRace.RacedEntry(t.Get(kind, k), EpochRace.Competitors(ListsOf(e, snap, tids), kind, k));
    }
  }

  /** The transactions that tables decide to commit. */
  ghost function CommittedBy(e: Epoch, snap: Store, t: Tables): set<nat> {
    set tid <- e | Decide(t, e[tid](snap), tid) == Commit
  }

  /** However the reservations of an epoch interleave, what would have committed does; and if all
      decisions are settled, nothing else does, so that the committed ones have a serial order. */
  lemma RacesOnlyAddCommits(
      e: Epoch, snap: Store, rs: seq<Reservation>, tids: seq<nat>, sched: seq<Race.Choice>, t: Tables)
    requires ValidEpoch(e) && Covers(rs, e, snap) && RanIds(e, snap, tids) && Leaves(e, snap, tids, sched, t)
    ensures Committed(e, snap, rs) <= CommittedBy(e, snap, t)
    ensures (forall tid <- e :: Settled(e, snap, rs, tid)) ==>
              && CommittedBy(e, snap, t) == Committed(e, snap, rs)
              && exists order :: SerialEquivalent(e, snap, CommittedBy(e, snap, t), order)
  {
    LeftIsRaced(e, snap, tids, sched, t);
    forall tid | tid in e && Settled(e, snap, rs, tid)
      ensures tid in CommittedBy(e, snap, t) <==> tid in Committed(e, snap, rs)
    {
      SettledStays(e, snap, rs, t, tid);
    }
    CommittedAreSerializable(e, snap, rs, Committed(e, snap, rs));
  }

  // ---------- Two writers of one key ----------

  /** But for k, b does not touch what smaller ids write. */
  ghost predicate OnlyConflict(e: Epoch, snap: Store, b: nat, k: Key)
    requires b in e
  {
    forall a, k' :: a in e && a < b && k' != k && Writes(e[a](snap), k') ==>
                      !Writes(e[b](snap), k') && !Reads(e[b](snap), k')
  }

  /** Some interleaving commits b, although a smaller id writes k too, and with it the smallest id. */
  lemma BothCommit(e: Epoch, snap: Store, tids: seq<nat>, a: nat, b: nat, k: Key)
      returns (sched: seq<Race.Choice>, t: Tables)
    requires ValidEpoch(e) && RanIds(e, snap, tids)
    requires a in tids && b in tids && a < b && forall u <- tids :: a <= u
    requires Writes(e[b](snap), k) && OnlyConflict(e, snap, b, k)
    ensures Leaves(e, snap, tids, sched, t) && {a, b} <= CommittedBy(e, snap, t)
  {
    var lists := ListsOf(e, snap, tids);
    ListsSane(e, snap, tids);
    CompetitorsTouch(e, snap, tids, WriteOf, k);
    sched := EpochRace.LargerLeft(lists, WriteOf, k, b);
    t := EpochRace.Exec(EpochRace.Init(lists), lists, sched).tables;
    LeftIsRaced(e, snap, tids, sched, t);
    forall kind, k' ensures !Precedes(t.Get(kind, k'), a) {
      assert EpochRace.RacedEntry(t.Get(kind, k'), Touching(e, snap, kind, k'));
    }
    CommitsByEntries(e, snap, t, b, k);
  }

  lemma CommitsByEntries(e: Epoch, snap: Store, t: Tables, b: nat, k: Key)
    requires b in e && e[b](snap).Ran? && RacedFor(t, e, snap)
    requires OnlyConflict(e, snap, b, k) && t.Get(WriteOf, k) == b
    ensures b in CommittedBy(e, snap, t)
  {
    var o := e[b](snap);
    forall w | w in o.rw.writeList ensures !Precedes(t.Get(WriteOf, w.key), b) {
      assert Writes(o, w.key) && EpochRace.RacedEntry(t.Get(WriteOf, w.key), Touching(e, snap, WriteOf, w.key));
    }
    forall r | r in o.rw.readList ensures !Precedes(t.Get(WriteOf, r.key), b) {
      assert Reads(o, r.key) && EpochRace.RacedEntry(t.Get(WriteOf, r.key), Touching(e, snap, WriteOf, r.key));
    }
  }

  const COUNTER := Key("t", "n")

  /** Reads a value and writes it one character longer. */
  function Increment(s: Store): Outcome {
    var v := if COUNTER in s then s[COUNTER] else "";
    Ran(RWSet([Read(COUNTER, v)], [Write(COUNTER, Put(v + "1"))]))
  }

  const TWO: Epoch := map[1 := Increment, 2 := Increment]

  lemma IncrementTouches(s: Store, k: Key)
    ensures Reads(Increment(s), k) <==> k == COUNTER
    ensures Writes(Increment(s), k) <==> k == COUNTER
  {
    var rw := Increment(s).rw;
    assert rw.readList[0] in rw.readList && rw.writeList[0] in rw.writeList;
  }

  lemma IncrementDeterministic()
    ensures Deterministic(Increment)
  {
    forall s: Store, s': Store | (forall r <- Increment(s).rw.readList :: Lookup(s', r.key) == Lookup(s, r.key))
      ensures Increment(s') == Increment(s)
    {
      assert Increment(s).rw.readList[0] in Increment(s).rw.readList;
    }
  }

  lemma AfterIncrement(snap: Store)
    ensures var s := ApplyWrites(snap, Increment(snap).rw.writeList);
            COUNTER in s && |s[COUNTER]| == |Increment(snap).rw.readList[0].value| + 1
  {
    var ws := Increment(snap).rw.writeList;
    assert ApplyWrites(snap, ws) == Perform(ApplyWrites(snap, ws[..0]), ws[0]);
  }

  /** An increment after the other does not do what it does on the snapshot. */
  lemma NotSerial(snap: Store, order: seq<nat>)
    ensures !SerialEquivalent(TWO, snap, {1, 2}, order)
  {
    if (forall t <- order :: t in TWO) && OrderOf(order, {1, 2}) {
      assert 1 in order && 2 in order;
      var first := order[..1];
      assert first[..0] == [] && first[0] in order && order[1] in order;
      var s := Serial(TWO, snap, first);
      assert TWO[first[0]] == Increment && Serial(TWO, snap, first[..0]) == snap;
      assert s == ApplyWrites(snap, Increment(snap).rw.writeList);
      AfterIncrement(snap);
      assert |Increment(s).rw.readList[0].value| == |Increment(snap).rw.readList[0].value| + 1;
      assert !SerialAgrees(TWO, snap, order);
    }
  }

  /** Two increments of one value: some interleaving commits both, and no serial order explains them. */
  lemma LostUpdate(snap: Store) returns (sched: seq<Race.Choice>, t: Tables)
    ensures ValidEpoch(TWO) && RanIds(TWO, snap, [1, 2])
    ensures Leaves(TWO, snap, [1, 2], sched, t) && CommittedBy(TWO, snap, t) == {1, 2}
    ensures forall order :: !SerialEquivalent(TWO, snap, CommittedBy(TWO, snap, t), order)
  {
    IncrementDeterministic();
    forall k ensures (Reads(Increment(snap), k) <==> k == COUNTER) && (Writes(Increment(snap), k) <==> k == COUNTER) {
      IncrementTouches(snap, k);
    }
    sched, t := BothCommit(TWO, snap, [1, 2], 1, 2, COUNTER);
    forall order ensures !SerialEquivalent(TWO, snap, {1, 2}, order) {
      NotSerial(snap, order);
    }
  }
}
