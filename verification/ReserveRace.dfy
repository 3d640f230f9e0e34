/** The reservation loop of one key, run by several threads at once, one shared access per
    step.  The code stores the new id with a plain store before its compare-exchange, so
    an interleaving can lose the smallest id; this module says exactly when it cannot. */
module ReserveRace {
  import opened ReserveTable

  datatype Pc = Start | Loaded(stored: nat) | Stored(stored: nat) | Done

  datatype State = State(cell: nat, pcs: seq<Pc>)

  /** A scheduling choice: which thread moves, and whether a weak exchange fails spuriously. */
  datatype Choice = Choice(thread: nat, spurious: bool)

  function Init(v: nat, tids: seq<nat>): State {
    State(v, seq(|tids|, i => Start))
  }

  function Step(s: State, tids: seq<nat>, c: Choice): (s': State)
    requires |s.pcs| == |tids|
    ensures |s'.pcs| == |tids|
  {
    if c.thread >= |tids| then s else
    var i, tid := c.thread, tids[c.thread];
    match s.pcs[i]
    case Start =>
      if s.cell <= tid && s.cell != 0 then s.(pcs := s.pcs[i := Done])
      else s.(pcs := s.pcs[i := Loaded(s.cell)])
    case Loaded(v) => State(tid, s.pcs[i := Stored(v)])
    case Stored(v) =>
      if s.cell == v && !c.spurious then State(tid, s.pcs[i := Done])
      else s.(pcs := s.pcs[i := Start])
    case Done => s
  }

  function Exec(s: State, tids: seq<nat>, sched: seq<Choice>): (s': State)
    requires |s.pcs| == |tids|
    ensures |s'.pcs| == |tids|
  {
    if sched == [] then s else Step(Exec(s, tids, sched[..|sched| - 1]), tids, sched[|sched| - 1])
  }

  ghost predicate AllDone(s: State) {
    forall pc <- s.pcs :: pc == Done
  }

  /** The ids competing for the key: the one already stored, if any, and the threads' own. */
  ghost function Competing(v: nat, tids: seq<nat>): set<nat> {
    (set t <- tids) + (if v == 0 then {} else {v})
  }

  /** The thread would write if it looked at the cell now. */
  predicate Passes(v: nat, tid: nat) {
    v == 0 || tid < v
  }

  ghost predicate AtMostOneWriter(v: nat, tids: seq<nat>) {
    forall t <- tids, u <- tids :: Passes(v, t) && Passes(v, u) ==> t == u
  }

  ghost predicate AlwaysLeast(v: nat, tids: seq<nat>) {
    forall sched :: AllDone(Exec(Init(v, tids), tids, sched))
                    ==> IsLeast(Exec(Init(v, tids), tids, sched).cell, Competing(v, tids))
  }

  // ---------- At most one id below the stored one: every interleaving is right ----------

  ghost predicate Inv(v: nat, tids: seq<nat>, s: State)
    requires |s.pcs| == |tids|
  {
    && (s.cell == v || (s.cell in tids && Passes(v, s.cell)))
    && (forall i :: 0 <= i < |tids| && !Passes(v, tids[i]) ==> s.pcs[i] in {Start, Done})
    && (forall i :: 0 <= i < |tids| && Passes(v, tids[i]) && (s.pcs[i].Stored? || s.pcs[i].Done?)
                    ==> s.cell == tids[i])
  }

  lemma {:induction false} OneWriterKeepsInv(v: nat, tids: seq<nat>, sched: seq<Choice>)
    requires 0 !in tids && AtMostOneWriter(v, tids)
    ensures Inv(v, tids, Exec(Init(v, tids), tids, sched))
  {
    if sched != [] {
      OneWriterKeepsInv(v, tids, sched[..|sched| - 1]);
    }
  }

  // ---------- Two ids below the stored one: some interleaving loses the smaller ----------

  lemma {:induction false} ExecConcat(s: State, tids: seq<nat>, a: seq<Choice>, b: seq<Choice>)
    requires |s.pcs| == |tids|
    ensures Exec(s, tids, a + b) == Exec(Exec(s, tids, a), tids, b)
  {
    if b == [] {
      assert a + b == a;
    } else {
      assert (a + b)[..|a + b| - 1] == a + b[..|b| - 1];
      ExecConcat(s, tids, a, b[..|b| - 1]);
    }
  }

  lemma ExecThree(s: State, tids: seq<nat>, c: Choice)
    requires |s.pcs| == |tids|
    ensures Exec(s, tids, [c, c, c]) == Step(Step(Step(s, tids, c), tids, c), tids, c)
  {
    assert [c, c, c][..2] == [c, c] && [c, c][..1] == [c] && [c][..0] == [];
    assert Exec(s, tids, [c]) == Step(s, tids, c);
    assert Exec(s, tids, [c, c]) == Step(Exec(s, tids, [c]), tids, c);
  }

  /** Four steps in a row take any thread from Start to Done and touch no other thread. */
  lemma FourStepsFinish(s: State, tids: seq<nat>, i: nat)
    requires |s.pcs| == |tids| && i < |tids| && s.pcs[i] == Start && tids[i] != 0
    ensures var c := Choice(i, false);
            Exec(s, tids, [c, c, c, c]).pcs == s.pcs[i := Done]
  {
    var c := Choice(i, false);
    ExecThree(s, tids, c);
    assert [c, c, c, c][..3] == [c, c, c];
  }

  /** Threads 0..k-1 except j run to the end one after another. */
  lemma {:induction false} OthersFinish(s: State, tids: seq<nat>, j: nat, k: nat) returns (sched: seq<Choice>)
    requires |s.pcs| == |tids| && j < |tids| && k <= |tids| && 0 !in tids
    requires forall i :: 0 <= i < |tids| && i != j ==> s.pcs[i] == Start
    ensures var s' := Exec(s, tids, sched);
            && s'.pcs[j] == s.pcs[j]
            && forall i :: 0 <= i < |tids| && i != j ==> s'.pcs[i] == if i < k then Done else Start
  {
    if k == 0 {
      sched := [];
    } else {
      sched := OthersFinish(s, tids, j, k - 1);
      if k - 1 != j {
        var c := Choice(k - 1, false);
        FourStepsFinish(Exec(s, tids, sched), tids, k - 1);
        ExecConcat(s, tids, sched, [c, c, c, c]);
        sched := sched + [c, c, c, c];
      }
    }
  }

  lemma LosingSchedule(v: nat, tids: seq<nat>, j: nat) returns (sched: seq<Choice>)
    requires j < |tids| && 0 !in tids && Passes(v, tids[j])
    ensures AllDone(Exec(Init(v, tids), tids, sched))
    ensures Exec(Init(v, tids), tids, sched).cell == tids[j]
  {
    var c := Choice(j, false);
    var s0 := Init(v, tids);
    var s1 := Step(s0, tids, c);
    assert [c][..0] == [];
    assert s1 == Exec(s0, tids, [c]) && s1.pcs[j] == Loaded(v);
    var middle := OthersFinish(s1, tids, j, |tids|);
    var s2 := Exec(s1, tids, middle);
    ExecConcat(s0, tids, [c], middle);
    ExecThree(s2, tids, c);
    ExecConcat(s0, tids, [c] + middle, [c, c, c]);
    sched := [c] + middle + [c, c, c];
  }

  /** Every finished interleaving leaves the smallest id exactly when at most one distinct id
      could still write when the race began: a fact a caller can check beforehand. */
  lemma MinimumKeptIff(v: nat, tids: seq<nat>)
    requires 0 !in tids
    ensures AlwaysLeast(v, tids) <==> AtMostOneWriter(v, tids)
  {
    if AtMostOneWriter(v, tids) {
      forall sched | AllDone(Exec(Init(v, tids), tids, sched))
        ensures IsLeast(Exec(Init(v, tids), tids, sched).cell, Competing(v, tids))
      {
        var s := Exec(Init(v, tids), tids, sched);
        OneWriterKeepsInv(v, tids, sched);
        forall t | t in tids && Passes(v, t) ensures s.cell == t {
          var i :| 0 <= i < |tids| && tids[i] == t;
          assert s.pcs[i] in s.pcs;
        }
        assert Competing(v, tids) == {} ==> v == 0 && tids == [] by {
          if tids != [] { assert tids[0] in Competing(v, tids); }
        }
      }
    } else {
      var t, u :| t in tids && u in tids && Passes(v, t) && Passes(v, u) && t < u;
      var j :| 0 <= j < |tids| && tids[j] == u;
      var sched := LosingSchedule(v, tids, j);
      assert t in Competing(v, tids);
    }
  }

  /** The concrete loss: ids 5 and 3 on a fresh key can leave 5. */
  lemma SmallerIdLost()
    ensures !AlwaysLeast(0, [5, 3])
  {
    var tids := [5, 3];
    assert 5 in tids && 3 in tids && Passes(0, 5) && Passes(0, 3);
    MinimumKeptIff(0, tids);
  }
}
