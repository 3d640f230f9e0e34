/** The Aria commit rule: all transactions of an epoch run on one snapshot, the reserve
    tables decide which of them commit, and the committed ones are serializable. */
module Serializability {
  import opened Options
  import opened ReserveTable

  type Store = map<Key, string>

  function Lookup(s: Store, k: Key): Option<string> {
    if k in s then Some(s[k]) else None
  }

  function Perform(s: Store, w: Write): Store {
    match w.effect
    case Put(v) => s[w.key := v]
    case Delete => s - {w.key}
  }

  function ApplyWrites(s: Store, ws: seq<Write>): Store {
    if ws == [] then s else Perform(ApplyWrites(s, ws[..|ws| - 1]), ws[|ws| - 1])
  }

  /** Running a chaincode either fails or yields a read and write set. */
  datatype Outcome = Failed | Ran(rw: RWSet)

  type Program = Store -> Outcome

  /** What a program does is fixed by the values of the keys it read. */
  ghost predicate Deterministic(p: Program) {
    forall s: Store, s': Store ::
      p(s).Ran? && (forall r <- p(s).rw.readList :: Lookup(s', r.key) == Lookup(s, r.key)) ==> p(s') == p(s)
  }

  /** The transactions of one epoch by id. */
  type Epoch = map<nat, Program>

  ghost predicate ValidEpoch(e: Epoch) {
    0 !in e && forall t <- e :: Deterministic(e[t])
  }

  datatype Result = Pending | Commit | Abort | AbortNoRetry

  ghost function Decide(t: Tables, o: Outcome, tid: nat): Result {
    if o.Failed? then AbortNoRetry else
    var d := DependencyOf(t, o.rw, tid);
    if d.waw then Abort else if !d.war || !d.raw then Commit else Abort
  }

  ghost predicate Reads(o: Outcome, k: Key) {
    o.Ran? && exists r <- o.rw.readList :: r.key == k
  }

  ghost predicate Writes(o: Outcome, k: Key) {
    o.Ran? && exists w <- o.rw.writeList :: w.key == k
  }

  ghost predicate Touches(o: Outcome, kind: Kind, k: Key) {
    if kind.ReadOf? then Reads(o, k) else Writes(o, k)
  }

  /** The reservations rs are, as a set, exactly those of the transactions that ran. */
  ghost predicate Covers(rs: seq<Reservation>, e: Epoch, snap: Store) {
    forall r :: r in rs <==> r.tid in e && Touches(e[r.tid](snap), r.kind, r.key)
  }

  ghost predicate CommitsIn(e: Epoch, snap: Store, rs: seq<Reservation>, tid: nat) {
    tid in e && Decide(Run(EMPTY_TABLES, rs), e[tid](snap), tid) == Commit
  }

  ghost function Committed(e: Epoch, snap: Store, rs: seq<Reservation>): set<nat> {
    set t <- e | CommitsIn(e, snap, rs, t)
  }

  // ---------- What the tables say about two transactions ----------

  /** The stored id of a key that a transaction touched is that transaction's or a smaller one. */
  lemma EntryAtMost(e: Epoch, snap: Store, rs: seq<Reservation>, tid: nat, k: Key)
    requires ValidEpoch(e) && Covers(rs, e, snap) && tid in e
    ensures Reads(e[tid](snap), k) ==> 0 < Run(EMPTY_TABLES, rs).Get(ReadOf, k) <= tid
    ensures Writes(e[tid](snap), k) ==> 0 < Run(EMPTY_TABLES, rs).Get(WriteOf, k) <= tid
  {
    forall kind: Kind ensures IsLeast(Run(EMPTY_TABLES, rs).Get(kind, k), TidsFor(rs, kind, k)) {
      RunIsMinimum(rs, kind, k);
    }
    if Reads(e[tid](snap), k) {
      assert Reservation(ReadOf, k, tid) in rs;
      assert tid in TidsFor(rs, ReadOf, k);
      assert 0 !in TidsFor(rs, ReadOf, k);
    }
    if Writes(e[tid](snap), k) {
      assert Reservation(WriteOf, k, tid) in rs;
      assert tid in TidsFor(rs, WriteOf, k);
      assert 0 !in TidsFor(rs, WriteOf, k);
    }
  }

  ghost predicate HasRaw(e: Epoch, snap: Store, rs: seq<Reservation>, tid: nat) {
    tid in e && e[tid](snap).Ran? && DependencyOf(Run(EMPTY_TABLES, rs), e[tid](snap).rw, tid).raw
  }

  /** A committed transaction b and one with a smaller id a: they write disjoint keys; without
      RAW, b reads nothing that a writes; with RAW, a reads nothing that b writes. */
  lemma CommittedConflicts(e: Epoch, snap: Store, rs: seq<Reservation>, a: nat, b: nat, k: Key)
    requires ValidEpoch(e) && Covers(rs, e, snap)
    requires CommitsIn(e, snap, rs, b) && a in e && a < b
    ensures !(Writes(e[a](snap), k) && Writes(e[b](snap), k))
    ensures !HasRaw(e, snap, rs, b) ==> !(Writes(e[a](snap), k) && Reads(e[b](snap), k))
    ensures HasRaw(e, snap, rs, b) ==> !(Reads(e[a](snap), k) && Writes(e[b](snap), k))
  {
    EntryAtMost(e, snap, rs, a, k);
  }

  /** tid touches, in one way, a key that a transaction with a smaller id touches in another. */
  ghost predicate Follows(e: Epoch, snap: Store, tid: nat, mine: Kind, theirs: Kind)
    requires tid in e
  {
    exists a, k :: a in e && a < tid && Touches(e[a](snap), theirs, k) && Touches(e[tid](snap), mine, k)
  }

  lemma EntryPrecedes(e: Epoch, snap: Store, rs: seq<Reservation>, tid: nat, kind: Kind, k: Key)
    requires ValidEpoch(e) && Covers(rs, e, snap)
    ensures Precedes(Run(EMPTY_TABLES, rs).Get(kind, k), tid) <==>
              exists a :: a in e && a < tid && Touches(e[a](snap), kind, k)
  {
    RunIsMinimum(rs, kind, k);
    var v := Run(EMPTY_TABLES, rs).Get(kind, k);
    if Precedes(v, tid) {
      assert v in TidsFor(rs, kind, k);
      assert Reservation(kind, k, v) in rs;
    }
    if a :| a in e && a < tid && Touches(e[a](snap), kind, k) {
      assert Reservation(kind, k, a) in rs;
      assert a in TidsFor(rs, kind, k);
    }
  }

  /** The commit rule without tables: a transaction commits exactly if it ran, writes nothing that a
      smaller id writes, and does not both write something that a smaller id reads and read something
      that a smaller id writes. */
  lemma CommitRule(e: Epoch, snap: Store, rs: seq<Reservation>, tid: nat)
    requires ValidEpoch(e) && Covers(rs, e, snap) && tid in e
    ensures tid in Committed(e, snap, rs) <==>
              && e[tid](snap).Ran?
              && !Follows(e, snap, tid, WriteOf, WriteOf)
              && !(Follows(e, snap, tid, WriteOf, ReadOf) && Follows(e, snap, tid, ReadOf, WriteOf))
  {
    var o := e[tid](snap);
    if o.Ran? {
      var d := DependencyOf(Run(EMPTY_TABLES, rs), o.rw, tid);
      forall kind, k
        ensures Precedes(Run(EMPTY_TABLES, rs).Get(kind, k), tid) <==>
                  exists a :: a in e && a < tid && Touches(e[a](snap), kind, k)
      {
        EntryPrecedes(e, snap, rs, tid, kind, k);
      }
      WritesFollow(e, snap, rs, tid, WriteOf);
      WritesFollow(e, snap, rs, tid, ReadOf);
      ReadsFollow(e, snap, rs, tid);
    }
  }

  lemma WritesFollow(e: Epoch, snap: Store, rs: seq<Reservation>, tid: nat, theirs: Kind)
    requires ValidEpoch(e) && Covers(rs, e, snap) && tid in e && e[tid](snap).Ran?
    ensures (exists w <- e[tid](snap).rw.writeList :: Precedes(Run(EMPTY_TABLES, rs).Get(theirs, w.key), tid)) <==>
              Follows(e, snap, tid, WriteOf, theirs)
  {
    var ws, t := e[tid](snap).rw.writeList, Run(EMPTY_TABLES, rs);
    if w :| w in ws && Precedes(t.Get(theirs, w.key), tid) {
      EntryPrecedes(e, snap, rs, tid, theirs, w.key);
      assert Touches(e[tid](snap), WriteOf, w.key);
    }
    if Follows(e, snap, tid, WriteOf, theirs) {
      var a, k :| a in e && a < tid && Touches(e[a](snap), theirs, k) && Touches(e[tid](snap), WriteOf, k);
      EntryPrecedes(e, snap, rs, tid, theirs, k);
      var w :| w in ws && w.key == k;
    }
  }

  lemma ReadsFollow(e: Epoch, snap: Store, rs: seq<Reservation>, tid: nat)
    requires ValidEpoch(e) && Covers(rs, e, snap) && tid in e && e[tid](snap).Ran?
    ensures (exists r <- e[tid](snap).rw.readList :: Precedes(Run(EMPTY_TABLES, rs).Get(WriteOf, r.key), tid)) <==>
              Follows(e, snap, tid, ReadOf, WriteOf)
  {
    var all, t := e[tid](snap).rw.readList, Run(EMPTY_TABLES, rs);
    if r :| r in all && Precedes(t.Get(WriteOf, r.key), tid) {
      EntryPrecedes(e, snap, rs, tid, WriteOf, r.key);
      assert Touches(e[tid](snap), ReadOf, r.key);
    }
    if Follows(e, snap, tid, ReadOf, WriteOf) {
      var a, k :| a in e && a < tid && Touches(e[a](snap), WriteOf, k) && Touches(e[tid](snap), ReadOf, k);
      EntryPrecedes(e, snap, rs, tid, WriteOf, k);
      var r :| r in all && r.key == k;
    }
  }

  // ---------- The serial order ----------

  lemma MaxExists(s: set<nat>) returns (m: nat)
    requires s != {}
    ensures m in s && forall x <- s :: x <= m
  {
    var a :| a in s;
    m := a;
    if s != {a} {
      var n := MaxExists(s - {a});
      m := if n > a then n else a;
      assert forall x <- s :: x == a || x in s - {a};
    } else {
      assert forall x <- s :: x == a;
    }
  }

  ghost predicate OrderOf(order: seq<nat>, s: set<nat>) {
    && (forall t :: t in order <==> t in s)
    && (forall i, j :: 0 <= i < j < |order| ==> order[i] != order[j])
  }

  /** Nobody in the order reads or writes what an earlier one wrote. */
  ghost predicate NoInterference(e: Epoch, snap: Store, order: seq<nat>)
    requires forall t <- order :: t in e
  {
    forall i, j, k {:trigger Writes(e[order[i]](snap), k), order[j]} ::
      0 <= i < j < |order| && Writes(e[order[i]](snap), k) ==>
        !Reads(e[order[j]](snap), k) && !Writes(e[order[j]](snap), k)
  }

  /** b may follow everything in order; b may precede everything in order. */
  ghost predicate MayFollow(e: Epoch, snap: Store, order: seq<nat>, b: nat)
    requires b in e && forall t <- order :: t in e
  {
    forall a, k :: a in order && Writes(e[a](snap), k) ==> !Reads(e[b](snap), k) && !Writes(e[b](snap), k)
  }

  ghost predicate MayPrecede(e: Epoch, snap: Store, order: seq<nat>, b: nat)
    requires b in e && forall t <- order :: t in e
  {
    forall a, k :: a in order && Writes(e[b](snap), k) ==> !Reads(e[a](snap), k) && !Writes(e[a](snap), k)
  }

  lemma Append(e: Epoch, snap: Store, order: seq<nat>, b: nat)
    requires (forall t <- order :: t in e) && b in e
    requires NoInterference(e, snap, order) && MayFollow(e, snap, order, b)
    ensures NoInterference(e, snap, order + [b])
  {
  }

  lemma Prepend(e: Epoch, snap: Store, order: seq<nat>, b: nat)
    requires (forall t <- order :: t in e) && b in e
    requires NoInterference(e, snap, order) && MayPrecede(e, snap, order, b)
    ensures NoInterference(e, snap, [b] + order)
  {
  }

  /** Ascending by id, a transaction with RAW goes to the front and any other to the back. */
  lemma {:induction false} SerialOrder(
      e: Epoch, snap: Store, rs: seq<Reservation>, s: set<nat>)
    returns (order: seq<nat>)
    requires ValidEpoch(e) && Covers(rs, e, snap)
    requires s <= Committed(e, snap, rs)
    ensures OrderOf(order, s) && NoInterference(e, snap, order)
  {
    if s == {} {
      order := [];
    } else {
      var b := MaxExists(s);
      var rest := SerialOrder(e, snap, rs, s - {b});
      if HasRaw(e, snap, rs, b) {
        forall a, k | a in rest && Writes(e[b](snap), k) ensures !Reads(e[a](snap), k) && !Writes(e[a](snap), k) {
          CommittedConflicts(e, snap, rs, a, b, k);
        }
        Prepend(e, snap, rest, b);
        order := [b] + rest;
      } else {
        forall a, k | a in rest && Writes(e[a](snap), k) ensures !Reads(e[b](snap), k) && !Writes(e[b](snap), k) {
          CommittedConflicts(e, snap, rs, a, b, k);
        }
        Append(e, snap, rest, b);
        order := rest + [b];
      }
    }
  }

  // ---------- Serial execution ----------

  function Serial(e: Epoch, s: Store, order: seq<nat>): Store
    requires forall t <- order :: t in e
  {
    if order == [] then s else
    var before := Serial(e, s, order[..|order| - 1]);
    match e[order[|order| - 1]](before)
    case Failed => before
    case Ran(rw) => ApplyWrites(before, rw.writeList)
  }

  lemma {:induction false} ApplyWritesAt(s: Store, s': Store, ws: seq<Write>, k: Key)
    ensures (exists w <- ws :: w.key == k) ==> Lookup(ApplyWrites(s, ws), k) == Lookup(ApplyWrites(s', ws), k)
    ensures !(exists w <- ws :: w.key == k) ==> Lookup(ApplyWrites(s, ws), k) == Lookup(s, k)
  {
    if ws != [] {
      assert ws == ws[..|ws| - 1] + [ws[|ws| - 1]];
      ApplyWritesAt(s, s', ws[..|ws| - 1], k);
    }
  }

  /** Of several writes of a key the last one counts: it leaves its value, or nothing if it deletes. */
  lemma {:induction false} LastWriteCounts(s: Store, ws: seq<Write>, i: nat)
    requires i < |ws| && forall j :: i < j < |ws| ==> ws[j].key != ws[i].key
    ensures Lookup(ApplyWrites(s, ws), ws[i].key) == match ws[i].effect case Put(v) => Some(v) case Delete => None
  {
    var n := |ws| - 1;
    if i < n {
      LastWriteCounts(s, ws[..n], i);
    }
  }

  /** The value a key ends with: that of its one committed writer, or the snapshot's. */
  ghost predicate FinalValue(e: Epoch, snap: Store, order: seq<nat>, final: Store, k: Key)
    requires forall t <- order :: t in e
  {
    && (forall t <- order :: Writes(e[t](snap), k) ==>
                               Lookup(final, k) == Lookup(ApplyWrites(snap, e[t](snap).rw.writeList), k))
    && ((forall t <- order :: !Writes(e[t](snap), k)) ==> Lookup(final, k) == Lookup(snap, k))
  }

  ghost predicate SerialAgrees(e: Epoch, snap: Store, order: seq<nat>)
    requires forall t <- order :: t in e
  {
    forall i :: 0 <= i < |order| ==> e[order[i]](Serial(e, snap, order[..i])) == e[order[i]](snap)
  }

  /** A transaction that reads nothing the others wrote sees the snapshot after they have run. */
  lemma SeesSnapshot(e: Epoch, snap: Store, order: seq<nat>, t: nat, s: Store)
    requires ValidEpoch(e) && (forall u <- order :: u in e) && t in e && e[t](snap).Ran?
    requires MayFollow(e, snap, order, t)
    requires forall k :: FinalValue(e, snap, order, s, k)
    ensures e[t](s) == e[t](snap)
  {
    forall r | r in e[t](snap).rw.readList ensures Lookup(s, r.key) == Lookup(snap, r.key) {
      assert Reads(e[t](snap), r.key);
      assert FinalValue(e, snap, order, s, r.key);
    }
  }

  lemma FinalValueStep(e: Epoch, snap: Store, order: seq<nat>, t: nat, s: Store, k: Key)
    requires (forall u <- order :: u in e && e[u](snap).Ran?) && t in e && e[t](snap).Ran?
    requires MayFollow(e, snap, order, t) && FinalValue(e, snap, order, s, k)
    ensures FinalValue(e, snap, order + [t], ApplyWrites(s, e[t](snap).rw.writeList), k)
  {
    ApplyWritesAt(s, snap, e[t](snap).rw.writeList, k);
  }

  lemma SplitLast(e: Epoch, snap: Store, order: seq<nat>, t: nat)
    requires (forall u <- order :: u in e) && t in e && NoInterference(e, snap, order + [t])
    ensures NoInterference(e, snap, order) && MayFollow(e, snap, order, t)
  {
    var all, n := order + [t], |order|;
    forall i, j, k | 0 <= i < j < n && Writes(e[order[i]](snap), k)
      ensures !Reads(e[order[j]](snap), k) && !Writes(e[order[j]](snap), k)
    {
      assert all[i] == order[i] && all[j] == order[j];
    }
    forall a, k | a in order && Writes(e[a](snap), k) ensures !Reads(e[t](snap), k) && !Writes(e[t](snap), k) {
      var i :| 0 <= i < n && order[i] == a;
      assert all[i] == a && all[n] == t;
    }
  }

  /** Run serially, each transaction of a non-interfering order does what it did on the snapshot. */
  lemma {:induction false} SerialMatches(e: Epoch, snap: Store, order: seq<nat>)
    requires ValidEpoch(e) && (forall t <- order :: t in e && e[t](snap).Ran?) && NoInterference(e, snap, order)
    ensures SerialAgrees(e, snap, order)
    ensures forall k :: FinalValue(e, snap, order, Serial(e, snap, order), k)
  {
    if order != [] {
      var n := |order| - 1;
      var before, t := order[..n], order[n];
      var s := Serial(e, snap, before);
      assert order == before + [t];
      SplitLast(e, snap, before, t);
      SerialMatches(e, snap, before);
      SeesSnapshot(e, snap, before, t, s);
      forall i | 0 <= i < |order| ensures e[order[i]](Serial(e, snap, order[..i])) == e[order[i]](snap) {
        if i < n {
          assert order[..i] == before[..i] && order[i] == before[i];
        }
      }
      forall k ensures FinalValue(e, snap, order, Serial(e, snap, order), k) {
        FinalValueStep(e, snap, before, t, s, k);
      }
    }
  }

  ghost predicate SerialEquivalent(e: Epoch, snap: Store, committed: set<nat>, order: seq<nat>) {
    && (forall t <- order :: t in e)
    && OrderOf(order, committed)
    && SerialAgrees(e, snap, order)
    && (forall k :: FinalValue(e, snap, order, Serial(e, snap, order), k))
  }

  /** For every epoch, every snapshot and every order of the reservations there is a serial
      order of the transactions decided to commit, or of any of them, in which each reads and writes
      exactly what it did on the snapshot; each key is written by at most one of them, and the serial
      run ends in the snapshot overlaid with their writes. */
  lemma CommittedAreSerializable(e: Epoch, snap: Store, rs: seq<Reservation>, s: set<nat>)
    requires ValidEpoch(e) && Covers(rs, e, snap) && s <= Committed(e, snap, rs)
    ensures exists order :: SerialEquivalent(e, snap, s, order)
    ensures forall a, b, k :: a in s && b in s && a != b ==>
                                !(Writes(e[a](snap), k) && Writes(e[b](snap), k))
  {
    var order := SerialOrder(e, snap, rs, s);
    SerialMatches(e, snap, order);
    assert SerialEquivalent(e, snap, s, order);
    forall a, b, k | a in s && b in s && a != b ensures !(Writes(e[a](snap), k) && Writes(e[b](snap), k)) {
      CommittedConflicts(e, snap, rs, if a < b then a else b, if a < b then b else a, k);
    }
  }

  /** Any split into workloads and any interleaving of reservations decides the same way. */
  lemma DecisionsOrderIndependent(e: Epoch, snap: Store, rs: seq<Reservation>, rs': seq<Reservation>, tid: nat)
    requires ValidEpoch(e) && Covers(rs, e, snap) && Covers(rs', e, snap) && tid in e
    ensures Decide(Run(EMPTY_TABLES, rs), e[tid](snap), tid) == Decide(Run(EMPTY_TABLES, rs'), e[tid](snap), tid)
  {
    OrderIndependent(rs, rs');
  }

  /** The smallest id among the transactions that ran always commits. */
  lemma SmallestCommits(e: Epoch, snap: Store, rs: seq<Reservation>, tid: nat)
    requires ValidEpoch(e) && Covers(rs, e, snap)
    requires tid in e && e[tid](snap).Ran?
    requires forall t <- e :: e[t](snap).Ran? ==> tid <= t
    ensures tid in Committed(e, snap, rs)
  {
    forall kind: Kind, k ensures !Precedes(Run(EMPTY_TABLES, rs).Get(kind, k), tid) {
      RunIsMinimum(rs, kind, k);
      forall t | t in TidsFor(rs, kind, k) ensures tid <= t {
        var r :| r in rs && r.kind == kind && r.key == k && r.tid == t;
      }
    }
  }

  /** The transactions that the next epoch has to run again. */
  ghost function Retried(e: Epoch, snap: Store, rs: seq<Reservation>): set<nat> {
    set t <- e | Decide(Run(EMPTY_TABLES, rs), e[t](snap), t) == Abort
  }

  lemma SomeResolved(e: Epoch, snap: Store, rs: seq<Reservation>) returns (tid: nat)
    requires ValidEpoch(e) && Covers(rs, e, snap) && e != map[]
    ensures tid in e && tid !in Retried(e, snap, rs)
  {
    tid :| tid in e;
    if e[tid](snap).Ran? {
      var ran := set t <- e | e[t](snap).Ran?;
      assert tid in ran;
      tid := MinExists(ran);
      forall t | t in e && e[t](snap).Ran? ensures tid <= t {
        assert t in ran;
      }
      SmallestCommits(e, snap, rs, tid);
    }
  }

  /** A non-empty epoch resolves at least one transaction: strictly fewer are left to retry. */
  lemma EpochMakesProgress(e: Epoch, snap: Store, rs: seq<Reservation>)
    requires ValidEpoch(e) && Covers(rs, e, snap) && e != map[]
    ensures |Retried(e, snap, rs)| < |e|
  {
    var resolved := SomeResolved(e, snap, rs);
    var retried := Retried(e, snap, rs);
    SubsetSize(retried, e.Keys - {resolved});
  }

  lemma MinExists(s: set<nat>) returns (m: nat)
    requires s != {}
    ensures m in s && forall x <- s :: m <= x
  {
    var a :| a in s;
    m := a;
    if s != {a} {
      var n := MinExists(s - {a});
      m := if n < a then n else a;
      assert forall x <- s :: x == a || x in s - {a};
    } else {
      assert forall x <- s :: x == a;
    }
  }

  lemma SubsetSize<T>(a: set<T>, b: set<T>)
    requires a <= b
    ensures |a| <= |b|
  {
    assert b == a + (b - a);
  }
}
