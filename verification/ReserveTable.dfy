/** The per-epoch reserve table: for every key, the smallest transaction id that reads it
    and the smallest that writes it.  A key that is absent and a key that holds 0 are the
    same thing, as 0 is what the hash map hands out for a key it has not seen. */
module ReserveTable {

  datatype Key = Key(table: string, key: string)

  type Table = map<Key, nat>

  function Reserved(t: Table, k: Key): nat {
    if k in t then t[k] else 0
  }

  datatype Kind = ReadOf | WriteOf

  /** One reservation of one key by one transaction: the unit of interleaving. */
  datatype Reservation = Reservation(kind: Kind, key: Key, tid: nat)

  datatype Tables = Tables(readers: Table, writers: Table) {
    function Get(kind: Kind, k: Key): nat {
      Reserved(if kind.ReadOf? then readers else writers, k)
    }
  }

  const EMPTY_TABLES := Tables(map[], map[])

  /** The smaller of a stored id (0 meaning none) and a new one. */
  function Meet(stored: nat, tid: nat): nat {
    if stored != 0 && stored <= tid then stored else tid
  }

  function Reserve(t: Table, k: Key, tid: nat): Table {
    t[k := Meet(Reserved(t, k), tid)]
  }

  function Apply(t: Tables, r: Reservation): Tables {
    match r.kind
    case ReadOf => t.(readers := Reserve(t.readers, r.key, r.tid))
    case WriteOf => t.(writers := Reserve(t.writers, r.key, r.tid))
  }

  /** The tables after a run of reservations, in the order they took effect. */
  function Run(t: Tables, rs: seq<Reservation>): Tables {
    if rs == [] then t else Apply(Run(t, rs[..|rs| - 1]), rs[|rs| - 1])
  }

  lemma {:induction false} RunConcat(t: Tables, a: seq<Reservation>, b: seq<Reservation>)
    ensures Run(t, a + b) == Run(Run(t, a), b)
  {
    if b == [] {
      assert a + b == a;
    } else {
      assert (a + b)[..|a + b| - 1] == a + b[..|b| - 1];
      RunConcat(t, a, b[..|b| - 1]);
    }
  }

  lemma RunStep(t: Tables, rs: seq<Reservation>, i: nat)
    requires i < |rs|
    ensures Run(t, rs[..i + 1]) == Apply(Run(t, rs[..i]), rs[i])
  {
    assert rs[..i + 1][..i] == rs[..i];
  }

  // ---------- What a table means: the minimum over a set of ids ----------

  ghost function TidsFor(rs: seq<Reservation>, kind: Kind, k: Key): set<nat> {
    set r <- rs | r.kind == kind && r.key == k :: r.tid
  }

  /** v is the smallest element of tids, or 0 when there is none. */
  ghost predicate IsLeast(v: nat, tids: set<nat>) {
    if tids == {} then v == 0 else v in tids && forall t <- tids :: v <= t
  }

  ghost predicate NonZero(rs: seq<Reservation>) {
    forall r <- rs :: r.tid != 0
  }

  /** After any run from empty tables each entry is the minimum of the ids that asked for it. */
  lemma {:induction false} RunIsMinimum(rs: seq<Reservation>, kind: Kind, k: Key)
    requires NonZero(rs)
    ensures IsLeast(Run(EMPTY_TABLES, rs).Get(kind, k), TidsFor(rs, kind, k))
  {
    if rs != [] {
      var before, r := rs[..|rs| - 1], rs[|rs| - 1];
      RunIsMinimum(before, kind, k);
      assert rs == before + [r];
      var earlier := TidsFor(before, kind, k);
      assert TidsFor(rs, kind, k) == if r.kind == kind && r.key == k then earlier + {r.tid} else earlier;
    }
  }

  lemma {:induction false} RunKeys(rs: seq<Reservation>, k: Key)
    ensures k in Run(EMPTY_TABLES, rs).readers <==> TidsFor(rs, ReadOf, k) != {}
    ensures k in Run(EMPTY_TABLES, rs).writers <==> TidsFor(rs, WriteOf, k) != {}
  {
    if rs != [] {
      var before, r := rs[..|rs| - 1], rs[|rs| - 1];
      RunKeys(before, k);
      assert rs == before + [r];
      assert r.tid in TidsFor(rs, r.kind, r.key);
      forall kind: Kind
        ensures TidsFor(rs, kind, k) ==
                if r.kind == kind && r.key == k then TidsFor(before, kind, k) + {r.tid}
                else TidsFor(before, kind, k)
      {}
    }
  }

  lemma SameEntries(a: seq<Reservation>, b: seq<Reservation>, k: Key)
    requires NonZero(a)
    requires forall r :: r in a <==> r in b
    ensures var s, t := Run(EMPTY_TABLES, a), Run(EMPTY_TABLES, b);
            && s.Get(ReadOf, k) == t.Get(ReadOf, k)
            && s.Get(WriteOf, k) == t.Get(WriteOf, k)
            && (k in s.readers <==> k in t.readers)
            && (k in s.writers <==> k in t.writers)
  {
    forall kind: Kind ensures TidsFor(a, kind, k) == TidsFor(b, kind, k) {}
    RunIsMinimum(a, ReadOf, k);
    RunIsMinimum(b, ReadOf, k);
    RunIsMinimum(a, WriteOf, k);
    RunIsMinimum(b, WriteOf, k);
    RunKeys(a, k);
    RunKeys(b, k);
  }

  /** Any two runs that perform the same set of reservations, in any order, split over any
      number of workers and with any repetition, leave identical tables. */
  lemma OrderIndependent(a: seq<Reservation>, b: seq<Reservation>)
    requires NonZero(a)
    requires forall r :: r in a <==> r in b
    ensures Run(EMPTY_TABLES, a) == Run(EMPTY_TABLES, b)
  {
    var s, t := Run(EMPTY_TABLES, a), Run(EMPTY_TABLES, b);
    forall k ensures k in s.readers <==> k in t.readers
             ensures k in s.writers <==> k in t.writers
    {
      SameEntries(a, b, k);
    }
    forall k | k in s.readers ensures s.readers[k] == t.readers[k] {
      SameEntries(a, b, k);
    }
    forall k | k in s.writers ensures s.writers[k] == t.writers[k] {
      SameEntries(a, b, k);
    }
    assert s.readers == t.readers && s.writers == t.writers;
  }

  // ---------- Read and write sets ----------

  datatype Effect = Put(value: string) | Delete
  datatype Read = Read(key: Key, value: string)
  datatype Write = Write(key: Key, effect: Effect)
  datatype RWSet = RWSet(readList: seq<Read>, writeList: seq<Write>)

  const EMPTY_RWSET := RWSet([], [])

  /** The reservations made for one transaction: its reads in order, then its writes. */
  function Reservations(rw: RWSet, tid: nat): seq<Reservation> {
    seq(|rw.readList|, i requires 0 <= i < |rw.readList| => Reservation(ReadOf, rw.readList[i].key, tid)) +
    seq(|rw.writeList|, i requires 0 <= i < |rw.writeList| => Reservation(WriteOf, rw.writeList[i].key, tid))
  }

  function ReserveReads(t: Table, rs: seq<Read>, tid: nat, n: nat): Table
    requires n <= |rs|
  {
    if n == 0 then t else Reserve(ReserveReads(t, rs, tid, n - 1), rs[n - 1].key, tid)
  }

  function ReserveWrites(t: Table, ws: seq<Write>, tid: nat, n: nat): Table
    requires n <= |ws|
  {
    if n == 0 then t else Reserve(ReserveWrites(t, ws, tid, n - 1), ws[n - 1].key, tid)
  }

  /** The tables after one transaction has reserved its whole read and write set. */
  function ReserveSet(t: Tables, rw: RWSet, tid: nat): Tables {
    Tables(ReserveReads(t.readers, rw.readList, tid, |rw.readList|),
           ReserveWrites(t.writers, rw.writeList, tid, |rw.writeList|))
  }

  lemma {:induction false} RunPrefix(t: Tables, rw: RWSet, tid: nat, n: nat)
    requires n <= |rw.readList| + |rw.writeList|
    ensures var m := |rw.readList|;
            Run(t, Reservations(rw, tid)[..n]) ==
            if n <= m then t.(readers := ReserveReads(t.readers, rw.readList, tid, n))
            else Tables(ReserveReads(t.readers, rw.readList, tid, m),
                ReserveWrites(t.writers, rw.writeList, tid, n - m))
  {
    if n > 0 {
      RunPrefix(t, rw, tid, n - 1);
      RunStep(t, Reservations(rw, tid), n - 1);
    }
  }

  lemma ReserveSetIsRun(t: Tables, rw: RWSet, tid: nat)
    ensures ReserveSet(t, rw, tid) == Run(t, Reservations(rw, tid))
  {
    var rs := Reservations(rw, tid);
    RunPrefix(t, rw, tid, |rs|);
    assert rs[..|rs|] == rs;
  }

  datatype Dependency = Dependency(waw: bool, war: bool, raw: bool)

  /** An id smaller than tid holds the reservation. */
  predicate Precedes(reserved: nat, tid: nat) {
    reserved != 0 && tid > reserved
  }

  ghost function DependencyOf(t: Tables, rw: RWSet, tid: nat): Dependency {
    Dependency(
      exists w <- rw.writeList :: Precedes(t.Get(WriteOf, w.key), tid),
      exists w <- rw.writeList :: Precedes(t.Get(ReadOf, w.key), tid),
      exists r <- rw.readList :: Precedes(t.Get(WriteOf, r.key), tid))
  }

  /** One reservation loop run with no interference.  The plain store comes before the
      compare-exchange, so the exchange against the value loaded earlier fails and a second
      round sees its own id: never more than two rounds. */
  method ReserveKey(t: Table, k: Key, tid: nat) returns (t': Table, rounds: nat)
    requires tid != 0
    ensures t' == Reserve(t, k, tid)
    ensures rounds == if Meet(Reserved(t, k), tid) == Reserved(t, k) then 1 else 2
  {
    t', rounds := t, 0;
    var exchanged := false;
    while !exchanged
      invariant !exchanged && rounds <= 1
      invariant rounds == 0 ==> t' == t
      invariant rounds == 1 ==> t' == t[k := tid] && Meet(Reserved(t, k), tid) == tid != Reserved(t, k)
      decreases 2 - rounds
    {
      rounds := rounds + 1;
      var stored := Reserved(t', k);
      if stored <= tid && stored != 0 {
        break;
      }
      t' := t'[k := tid];
      exchanged := Reserved(t', k) == stored;
    }
  }

  class MockReserveTable {
    const epoch: nat
    var readTable: Table
    var writeTable: Table

    ghost function Contents(): Tables
      reads this
    {
      Tables(readTable, writeTable)
    }

    constructor (epoch: nat)
      ensures this.epoch == epoch && Contents() == EMPTY_TABLES
    {
      this.epoch := epoch;
      readTable, writeTable := map[], map[];
    }

    method ReserveRWset(rw: RWSet, tid: nat) returns (ok: bool)
      requires tid != 0
      modifies this
      ensures ok && Contents() == ReserveSet(old(Contents()), rw, tid)
    {
      for i := 0 to |rw.readList|
        invariant readTable == ReserveReads(old(readTable), rw.readList, tid, i) && writeTable == old(writeTable)
      {
        var updated, _ := ReserveKey(readTable, rw.readList[i].key, tid);
        readTable := updated;
      }
      for i := 0 to |rw.writeList|
        invariant readTable == ReserveReads(old(readTable), rw.readList, tid, |rw.readList|)
        invariant writeTable == ReserveWrites(old(writeTable), rw.writeList, tid, i)
      {
        var updated, _ := ReserveKey(writeTable, rw.writeList[i].key, tid);
        writeTable := updated;
      }
      return true;
    }

    method DependencyAnalysis(rw: RWSet, tid: nat) returns (d: Dependency)
      ensures d == DependencyOf(Contents(), rw, tid)
    {
      d := Dependency(false, false, false);
      for i := 0 to |rw.writeList|
        invariant d == Dependency(false, false, false)
        invariant forall j :: 0 <= j < i ==> !Precedes(Reserved(writeTable, rw.writeList[j].key), tid)
      {
        if Precedes(Reserved(writeTable, rw.writeList[i].key), tid) {
          d := d.(waw := true);
          break;
        }
      }
      assert d.waw == DependencyOf(Contents(), rw, tid).waw;
      for i := 0 to |rw.writeList|
        invariant d == Dependency(d.waw, false, false)
        invariant d.waw == DependencyOf(Contents(), rw, tid).waw
        invariant forall j :: 0 <= j < i ==> !Precedes(Reserved(readTable, rw.writeList[j].key), tid)
      {
        if Precedes(Reserved(readTable, rw.writeList[i].key), tid) {
          d := d.(war := true);
          break;
        }
      }
      assert d.war == DependencyOf(Contents(), rw, tid).war;
      for i := 0 to |rw.readList|
        invariant d == Dependency(d.waw, d.war, false)
        invariant d.waw == DependencyOf(Contents(), rw, tid).waw
        invariant d.war == DependencyOf(Contents(), rw, tid).war
        invariant forall j :: 0 <= j < i ==> !Precedes(Reserved(writeTable, rw.readList[j].key), tid)
      {
        if Precedes(Reserved(writeTable, rw.readList[i].key), tid) {
          d := d.(raw := true);
          break;
        }
      }
    }
  }
}
