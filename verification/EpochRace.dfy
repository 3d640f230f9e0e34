/** The reservation loops of whole transactions, run by several threads at once: each thread goes through
    its list of reservations in order, one shared access per step. */
module EpochRace {
  import opened ReserveTable
  import Race = ReserveRace

  /** The reservation that a thread is at, and how far it is with it. */
  datatype Thread = Thread(pos: nat, pc: Race.Pc)

  datatype State = State(tables: Tables, threads: seq<Thread>)

  type Lists = seq<seq<Reservation>>

  function Init(lists: Lists): State {
    State(EMPTY_TABLES, seq(|lists|, i => Thread(0, Race.Start)))
  }

  /** The plain store of the id, whatever is there. */
  function Put(t: Tables, r: Reservation): Tables {
    match r.kind
    case ReadOf => t.(readers := t.readers[r.key := r.tid])
    case WriteOf => t.(writers := t.writers[r.key := r.tid])
  }

  function Set(s: State, i: nat, thread: Thread): State
    requires i < |s.threads|
  {
    s.(threads := s.threads[i := thread])
  }

  function Step(s: State, lists: Lists, c: Race.Choice): (s': State)
    requires |s.threads| == |lists|
    ensures |s'.threads| == |lists|
  {
    var i := c.thread;
    if i >= |lists| || s.threads[i].pos >= |lists[i]| then s
    else
      var Thread(pos, pc) := s.threads[i];
      var r := lists[i][pos];
      var there := s.tables.Get(r.kind, r.key);
      match pc
      case Start =>
        if there <= r.tid && there != 0 then Set(s, i, Thread(pos + 1, Race.Start))
        else Set(s, i, Thread(pos, Race.Loaded(there)))
      case Loaded(v) => Set(s, i, Thread(pos, Race.Stored(v))).(tables := Put(s.tables, r))
      case Stored(v) =>
        if there == v && !c.spurious then Set(s, i, Thread(pos + 1, Race.Start)).(tables := Put(s.tables, r))
        else Set(s, i, Thread(pos, Race.Start))
      case Done => s
  }

  function Exec(s: State, lists: Lists, sched: seq<Race.Choice>): (s': State)
    requires |s.threads| == |lists|
    ensures |s'.threads| == |lists|
  {
    if sched == [] then s
    else
      var n := |sched| - 1;
      Step(Exec(s, lists, sched[..n]), lists, sched[n])
  }

  ghost predicate AllDone(s: State, lists: Lists)
    requires |s.threads| == |lists|
  {
    forall i :: 0 <= i < |lists| ==> s.threads[i].pos >= |lists[i]|
  }

  /** The ids are not zero, and a list is of one transaction. */
  ghost predicate Sane(lists: Lists) {
    forall i, j, k :: 0 <= i < |lists| && 0 <= j < |lists[i]| && 0 <= k < |lists[i]| ==>
                        lists[i][j].tid == lists[i][k].tid != 0
  }

  ghost predicate Asks(lists: Lists, i: nat, j: nat, kind: Kind, k: Key) {
    i < |lists| && j < |lists[i]| && lists[i][j].kind == kind && lists[i][j].key == k
  }

  /** The ids that ask for an entry. */
  ghost function Competitors(lists: Lists, kind: Kind, k: Key): set<nat> {
    set i, j | 0 <= i < |lists| && 0 <= j < |lists[i]| && Asks(lists, i, j, kind, k) :: lists[i][j].tid
  }

  // ---------- Whatever is left is one of the competing ids ----------

  lemma PutGet(t: Tables, r: Reservation, kind: Kind, k: Key)
    ensures Put(t, r).Get(kind, k) == if kind == r.kind && k == r.key then r.tid else t.Get(kind, k)
  {
  }

  /** A step is a step of the loop for the key that the thread is at, as for one key alone, and touches no
      other key and no other thread; the thread goes on to its next reservation when that loop ends. */
  lemma StepIsOfOneKey(s: State, lists: Lists, c: Race.Choice)
    requires |s.threads| == |lists| && c.thread < |lists| && s.threads[c.thread].pos < |lists[c.thread]|
    requires s.threads[c.thread].pc != Race.Done
    ensures var s', Thread(pos, pc) := Step(s, lists, c), s.threads[c.thread];
            var r := lists[c.thread][pos];
            var key := Race.State(s.tables.Get(r.kind, r.key), [pc]);
            var key' := Race.Step(key, [r.tid], Race.Choice(0, c.spurious));
            && (forall kind, k :: s'.tables.Get(kind, k) ==
                  if kind == r.kind && k == r.key then key'.cell else s.tables.Get(kind, k))
            && s'.threads == s.threads[c.thread :=
                  if key'.pcs[0] == Race.Done then Thread(pos + 1, Race.Start) else Thread(pos, key'.pcs[0])]
  {
    var r := lists[c.thread][s.threads[c.thread].pos];
    forall kind, k
      ensures Put(s.tables, r).Get(kind, k) == if kind == r.kind && k == r.key then r.tid else s.tables.Get(kind, k)
    {
      PutGet(s.tables, r, kind, k);
    }
  }

  /** A thread past a reservation, or past its store, has left a trace. */
  ghost predicate Trace(s: State, lists: Lists, i: nat, j: nat)
    requires i < |lists| == |s.threads| && j < |lists[i]|
  {
    j < s.threads[i].pos || (j == s.threads[i].pos && s.threads[i].pc.Stored?) ==>
      s.tables.Get(lists[i][j].kind, lists[i][j].key) != 0
  }

  ghost predicate EntryOk(s: State, lists: Lists, kind: Kind, k: Key) {
    var v := s.tables.Get(kind, k);
    v == 0 || v in Competitors(lists, kind, k)
  }

  ghost predicate Inv(s: State, lists: Lists) {
    && |s.threads| == |lists|
    && (forall kind, k :: EntryOk(s, lists, kind, k))
    && (forall i: nat, j: nat :: i < |lists| && j < |lists[i]| ==> Trace(s, lists, i, j))
    && forall i :: 0 <= i < |lists| ==> s.threads[i].pc != Race.Done
  }

  lemma StepKeepsInv(s: State, lists: Lists, c: Race.Choice)
    requires Sane(lists) && Inv(s, lists)
    ensures Inv(Step(s, lists, c), lists)
  {
    var s' := Step(s, lists, c);
    if s' != s {
      var i := c.thread;
      var r := lists[i][s.threads[i].pos];
      assert Asks(lists, i, s.threads[i].pos, r.kind, r.key) && r.tid in Competitors(lists, r.kind, r.key);
      assert r.tid != 0;
      forall kind, k
        ensures || s'.tables.Get(kind, k) == s.tables.Get(kind, k)
                || (kind == r.kind && k == r.key && s'.tables.Get(kind, k) == r.tid)
      {
        PutGet(s.tables, r, kind, k);
      }
      forall kind, k ensures EntryOk(s', lists, kind, k) {
        assert EntryOk(s, lists, kind, k);
      }
      forall a: nat, j: nat | a < |lists| && j < |lists[a]| ensures Trace(s', lists, a, j) {
        assert Trace(s, lists, a, j);
        PutGet(s.tables, r, r.kind, r.key);
      }
    }
  }

  lemma {:induction false} ExecKeepsInv(lists: Lists, sched: seq<Race.Choice>)
    requires Sane(lists)
    ensures Inv(Exec(Init(lists), lists, sched), lists)
  {
    if sched != [] {
      ExecKeepsInv(lists, sched[..|sched| - 1]);
      StepKeepsInv(Exec(Init(lists), lists, sched[..|sched| - 1]), lists, sched[|sched| - 1]);
    }
  }

  /** Tables that races may leave: each entry is one of the ids that ask for it, if there are any. */
  ghost predicate Raced(t: Tables, lists: Lists) {
    forall kind, k :: RacedEntry(t.Get(kind, k), Competitors(lists, kind, k))
  }

  ghost predicate RacedEntry(v: nat, tids: set<nat>) {
    if tids == {} then v == 0 else v in tids
  }

  lemma FinishedIsRaced(lists: Lists, sched: seq<Race.Choice>)
    requires Sane(lists) && AllDone(Exec(Init(lists), lists, sched), lists)
    ensures Raced(Exec(Init(lists), lists, sched).tables, lists)
  {
    var s := Exec(Init(lists), lists, sched);
    ExecKeepsInv(lists, sched);
    forall kind, k ensures RacedEntry(s.tables.Get(kind, k), Competitors(lists, kind, k)) {
      assert EntryOk(s, lists, kind, k);
      if tid :| tid in Competitors(lists, kind, k) {
        var i: nat, j: nat :| i < |lists| && j < |lists[i]| && Asks(lists, i, j, kind, k) && lists[i][j].tid == tid;
        assert Trace(s, lists, i, j);
      }
    }
  }

  // ---------- Threads that run undisturbed ----------

  lemma {:induction false} ExecConcat(s: State, lists: Lists, a: seq<Race.Choice>, b: seq<Race.Choice>)
    requires |s.threads| == |lists|
    ensures Exec(s, lists, a + b) == Exec(Exec(s, lists, a), lists, b)
  {
    if b == [] {
      assert a + b == a;
    } else {
      var n := |b| - 1;
      assert (a + b)[..|a| + n] == a + b[..n];
      ExecConcat(s, lists, a, b[..n]);
    }
  }

  lemma ExecOne(s: State, lists: Lists, c: Race.Choice)
    requires |s.threads| == |lists|
    ensures Exec(s, lists, [c]) == Step(s, lists, c)
  {
    assert [c][..0] == [];
  }

  /** From s to s' only thread i has moved, from the start of one reservation to that of another; what
      held its id still does, and entries that it did not ask for meanwhile are as they were. */
  ghost predicate Alone(s: State, s': State, lists: Lists, i: nat, p: nat)
    requires i < |lists| == |s.threads| == |s'.threads|
  {
    && s.threads[i].pos <= p <= |lists[i]|
    && s'.threads == s.threads[i := Thread(p, Race.Start)]
    && (forall kind, k :: p > 0 && lists[i] != [] && s.tables.Get(kind, k) == lists[i][0].tid ==>
                            s'.tables.Get(kind, k) == lists[i][0].tid)
    && (forall kind, k :: (forall j: nat :: s.threads[i].pos <= j < p ==> !Asks(lists, i, j, kind, k)) ==>
                            s'.tables.Get(kind, k) == s.tables.Get(kind, k))
  }

  /** One reservation, undisturbed. */
  lemma RunOne(s: State, lists: Lists, i: nat) returns (sched: seq<Race.Choice>)
    requires Sane(lists) && i < |lists| == |s.threads|
    requires s.threads[i].pc == Race.Start && s.threads[i].pos < |lists[i]|
    ensures Alone(s, Exec(s, lists, sched), lists, i, s.threads[i].pos + 1)
  {
    var p := s.threads[i].pos;
    var r, c := lists[i][p], Race.Choice(i, false);
    var there := s.tables.Get(r.kind, r.key);
    assert r.tid == lists[i][0].tid != 0;
    assert Asks(lists, i, p, r.kind, r.key);
    forall kind, k
      ensures Put(s.tables, r).Get(kind, k) == if kind == r.kind && k == r.key then r.tid else s.tables.Get(kind, k)
    {
      PutGet(s.tables, r, kind, k);
    }
    if there <= r.tid && there != 0 {
      sched := [c];
      ExecOne(s, lists, c);
    } else {
      var s1 := Set(s, i, Thread(p, Race.Loaded(there)));
      var s2 := Set(s, i, Thread(p, Race.Stored(there))).(tables := Put(s.tables, r));
      var s3 := Set(s, i, Thread(p, Race.Start)).(tables := Put(s.tables, r));
      var s4 := Set(s, i, Thread(p + 1, Race.Start)).(tables := Put(s.tables, r));
      assert Step(s, lists, c) == s1;
      assert Step(s1, lists, c) == s2;
      assert Step(s2, lists, c) == s3;
      assert Step(s3, lists, c) == s4;
      sched := FourSteps(s, lists, c, s1, s2, s3, s4);
    }
  }

  lemma FourSteps(s: State, lists: Lists, c: Race.Choice, s1: State, s2: State, s3: State, s4: State)
      returns (sched: seq<Race.Choice>)
    requires |s.threads| == |s1.threads| == |s2.threads| == |s3.threads| == |lists|
    requires Step(s, lists, c) == s1 && Step(s1, lists, c) == s2 && Step(s2, lists, c) == s3 && Step(s3, lists, c) == s4
    ensures Exec(s, lists, sched) == s4
  {
    ExecOne(s, lists, c);
    ExecOne(s1, lists, c);
    ExecOne(s2, lists, c);
    ExecOne(s3, lists, c);
    ExecConcat(s, lists, [c], [c]);
    ExecConcat(s, lists, [c] + [c], [c]);
    ExecConcat(s, lists, [c] + [c] + [c], [c]);
    sched := [c] + [c] + [c] + [c];
  }

  /** Thread i, undisturbed, gets to its reservation p. */
  lemma {:induction false} RunTo(s: State, lists: Lists, i: nat, p: nat) returns (sched: seq<Race.Choice>)
    requires Sane(lists) && i < |lists| == |s.threads|
    requires s.threads[i].pc == Race.Start && s.threads[i].pos <= p <= |lists[i]|
    ensures Alone(s, Exec(s, lists, sched), lists, i, p)
    decreases p - s.threads[i].pos
  {
    if s.threads[i].pos == p {
      sched := [];
      assert s.threads == s.threads[i := Thread(p, Race.Start)];
    } else {
      var first := RunOne(s, lists, i);
      var s' := Exec(s, lists, first);
      var rest := RunTo(s', lists, i, p);
      ExecConcat(s, lists, first, rest);
      sched := first + rest;
    }
  }

  /** Threads below n other than b, each undisturbed, run to their ends. */
  lemma {:induction false} OthersRun(s: State, lists: Lists, b: nat, n: nat) returns (sched: seq<Race.Choice>)
    requires Sane(lists) && b < |lists| == |s.threads| && n <= |lists|
    requires forall i :: 0 <= i < |lists| && i != b ==> s.threads[i] == Thread(0, Race.Start)
    ensures var s' := Exec(s, lists, sched);
            && s'.threads[b] == s.threads[b]
            && forall i :: 0 <= i < |lists| && i != b ==>
                             s'.threads[i] == Thread(if i < n then |lists[i]| else 0, Race.Start)
  {
    if n == 0 {
      sched := [];
    } else {
      sched := OthersRun(s, lists, b, n - 1);
      if n - 1 != b {
        var rest := RunTo(Exec(s, lists, sched), lists, n - 1, |lists[n - 1]|);
        ExecConcat(s, lists, sched, rest);
        sched := sched + rest;
      }
    }
  }

  lemma {:induction false} FirstAsk(lists: Lists, b: nat, j: nat, kind: Kind, k: Key) returns (p: nat)
    requires Asks(lists, b, j, kind, k)
    ensures p <= j && Asks(lists, b, p, kind, k) && forall i: nat :: i < p ==> !Asks(lists, b, i, kind, k)
  {
    if i: nat :| i < j && Asks(lists, b, i, kind, k) {
      p := FirstAsk(lists, b, i, kind, k);
    } else {
      p := j;
    }
  }

  /** Some interleaving leaves the id of any thread that asks for an entry: it finds the entry empty, is
      held up while all others run, and then stores. */
  lemma LeaveId(lists: Lists, b: nat, p: nat, kind: Kind, k: Key) returns (sched: seq<Race.Choice>)
    requires Sane(lists) && Asks(lists, b, p, kind, k) && forall i: nat :: i < p ==> !Asks(lists, b, i, kind, k)
    ensures AllDone(Exec(Init(lists), lists, sched), lists)
    ensures Exec(Init(lists), lists, sched).tables.Get(kind, k) == lists[b][p].tid
  {
    var s0, c, r := Init(lists), Race.Choice(b, false), lists[b][p];
    var toP := RunTo(s0, lists, b, p);
    var s1 := Exec(s0, lists, toP);
    assert s1.tables.Get(kind, k) == 0;
    var s2 := Step(s1, lists, c);
    assert s2.threads == s1.threads[b := Thread(p, Race.Loaded(0))];
    var others := OthersRun(s2, lists, b, |lists|);
    var s3 := Exec(s2, lists, others);
    var s5 := StoreLate(s3, lists, b, p, kind, k);
    var rest := RunTo(s5, lists, b, |lists[b]|);
    assert r.tid == lists[b][0].tid;
    sched := Joined(lists, s0, toP, c, others, rest);
  }

  /** The store after the others', and the exchange that fails. */
  lemma StoreLate(s: State, lists: Lists, b: nat, p: nat, kind: Kind, k: Key) returns (s': State)
    requires Sane(lists) && |s.threads| == |lists| && Asks(lists, b, p, kind, k)
    requires s.threads[b] == Thread(p, Race.Loaded(0))
    ensures var c := Race.Choice(b, false); s' == Step(Step(s, lists, c), lists, c)
    ensures s'.threads == s.threads[b := Thread(p, Race.Start)] && s'.tables.Get(kind, k) == lists[b][p].tid
  {
    var c, r := Race.Choice(b, false), lists[b][p];
    PutGet(s.tables, r, kind, k);
    assert r.tid != 0;
    s' := Step(Step(s, lists, c), lists, c);
  }

  lemma Joined(lists: Lists, s: State, a: seq<Race.Choice>, c: Race.Choice, b: seq<Race.Choice>, d: seq<Race.Choice>)
      returns (sched: seq<Race.Choice>)
    requires |s.threads| == |lists|
    ensures var s2 := Step(Exec(s, lists, a), lists, c);
            var s5 := Step(Step(Exec(s2, lists, b), lists, c), lists, c);
            Exec(s, lists, sched) == Exec(s5, lists, d)
  {
    var s1 := Exec(s, lists, a);
    var s2 := Step(s1, lists, c);
    var s3 := Exec(s2, lists, b);
    ExecOne(s1, lists, c);
    ExecConcat(s, lists, a, [c]);
    ExecConcat(s, lists, a + [c], b);
    ExecOne(s3, lists, c);
    ExecConcat(s, lists, a + [c] + b, [c]);
    ExecOne(Step(s3, lists, c), lists, c);
    ExecConcat(s, lists, a + [c] + b + [c], [c]);
    ExecConcat(s, lists, a + [c] + b + [c] + [c], d);
    sched := a + [c] + b + [c] + [c] + d;
  }

  // ---------- When a whole epoch's tables are exact ----------

  ghost predicate Exact(t: Tables, lists: Lists) {
    forall kind, k :: IsLeast(t.Get(kind, k), Competitors(lists, kind, k))
  }

  ghost predicate AlwaysExact(lists: Lists) {
    forall sched :: AllDone(Exec(Init(lists), lists, sched), lists) ==>
                      Exact(Exec(Init(lists), lists, sched).tables, lists)
  }

  ghost predicate Uncontended(lists: Lists, kind: Kind, k: Key) {
    forall t, u :: t in Competitors(lists, kind, k) && u in Competitors(lists, kind, k) ==> t == u
  }

  /** Every interleaving of the reservations of whole transactions leaves the smallest id for every
      entry, if and only if no entry is asked for by two of them. */
  lemma AlwaysExactIff(lists: Lists)
    requires Sane(lists)
    ensures AlwaysExact(lists) <==> forall kind, k :: Uncontended(lists, kind, k)
  {
    if forall kind, k :: Uncontended(lists, kind, k) {
      forall sched | AllDone(Exec(Init(lists), lists, sched), lists)
        ensures Exact(Exec(Init(lists), lists, sched).tables, lists)
      {
        FinishedIsRaced(lists, sched);
        var t := Exec(Init(lists), lists, sched).tables;
        forall kind, k ensures IsLeast(t.Get(kind, k), Competitors(lists, kind, k)) {
          assert RacedEntry(t.Get(kind, k), Competitors(lists, kind, k)) && Uncontended(lists, kind, k);
        }
      }
    } else {
      var kind, k :| !Uncontended(lists, kind, k);
      var t, u :| t in Competitors(lists, kind, k) && u in Competitors(lists, kind, k) && t < u;
      var sched := LargerLeft(lists, kind, k, u);
      assert !IsLeast(u, Competitors(lists, kind, k));
    }
  }

  lemma LargerLeft(lists: Lists, kind: Kind, k: Key, u: nat) returns (sched: seq<Race.Choice>)
    requires Sane(lists) && u in Competitors(lists, kind, k)
    ensures AllDone(Exec(Init(lists), lists, sched), lists)
    ensures Exec(Init(lists), lists, sched).tables.Get(kind, k) == u
  {
    var b: nat, j: nat :| b < |lists| && j < |lists[b]| && Asks(lists, b, j, kind, k) && lists[b][j].tid == u;
    var p := FirstAsk(lists, b, j, kind, k);
    sched := LeaveId(lists, b, p, kind, k);
  }
}
