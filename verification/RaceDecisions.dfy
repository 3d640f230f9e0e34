/** What the race for one key does to the decisions: all competing transactions write that key and
    nothing else. */
module RaceDecisions {
  import opened ReserveTable
  import opened ReserveRace
  import Aria = Serializability

  function WritesOnly(k: Key): Aria.Outcome {
    Aria.Ran(RWSet([], [Write(k, Delete)]))
  }

  /** The tables when the race has left id v for the key. */
  function After(k: Key, v: nat): Tables {
    Tables(map[], map[k := v])
  }

  ghost predicate Commits(k: Key, v: nat, tid: nat) {
    Aria.Decide(After(k, v), WritesOnly(k), tid) == Aria.Commit
  }

  lemma CommitsIff(k: Key, v: nat, tid: nat)
    ensures Commits(k, v, tid) <==> v == 0 || tid <= v
  {
    var rw := RWSet([], [Write(k, Delete)]);
    var d := DependencyOf(After(k, v), rw, tid);
    assert rw.writeList[0] in rw.writeList;
    assert After(k, v).Get(WriteOf, k) == v;
    assert d.waw <==> Precedes(v, tid);
    assert !d.raw;
  }

  /** Exactly one of the competing transactions commits. */
  ghost predicate OneCommits(k: Key, v: nat, tids: set<nat>) {
    exists t :: t in tids && Commits(k, v, t) && forall u :: u in tids && Commits(k, v, u) ==> u == t
  }

  /** If the race leaves an id other than the smallest, both of them commit, each of them writing the
      key; if it leaves the smallest, that one alone does. */
  lemma LostMinimumTwoWriters(k: Key, v: nat, least: nat, tids: set<nat>)
    requires 0 !in tids && v in tids && IsLeast(least, tids)
    ensures Commits(k, v, v) && Commits(k, v, least)
    ensures OneCommits(k, v, tids) <==> v == least
  {
    CommitsIff(k, v, v);
    CommitsIff(k, v, least);
    forall u: nat ensures Commits(k, v, u) <==> v == 0 || u <= v {
      CommitsIff(k, v, u);
    }
  }

  /** However the race goes, some competing id is left. */
  lemma {:induction false} CellCompetes(v: nat, tids: seq<nat>, sched: seq<Choice>)
    requires 0 !in tids
    ensures var s := Exec(Init(v, tids), tids, sched);
            && (s.cell == v || s.cell in tids)
            && (forall pc <- s.pcs :: pc.Stored? || pc.Done? ==> s.cell != 0)
  {
    if sched != [] {
      var n := |sched| - 1;
      CellCompetes(v, tids, sched[..n]);
      var s, s' := Exec(Init(v, tids), tids, sched[..n]), Exec(Init(v, tids), tids, sched);
      assert s' == Step(s, tids, sched[n]);
      forall pc | pc in s'.pcs && (pc.Stored? || pc.Done?) ensures s'.cell != 0 {
        if sched[n].thread < |tids| {
          assert s.pcs[sched[n].thread] in s.pcs;
        }
      }
    }
  }

  ghost predicate AlwaysOneCommits(k: Key, v: nat, tids: seq<nat>) {
    forall sched :: AllDone(Exec(Init(v, tids), tids, sched)) ==>
                      OneCommits(k, Exec(Init(v, tids), tids, sched).cell, Competing(v, tids))
  }

  /** The race leaves the decisions alone exactly when it cannot lose the minimum: at most one distinct
      id can still write when it begins.  Otherwise some interleaving commits two writers of the key. */
  lemma DecisionsKeptIff(k: Key, v: nat, tids: seq<nat>)
    requires 0 !in tids && tids != []
    ensures AlwaysOneCommits(k, v, tids) <==> AtMostOneWriter(v, tids)
  {
    var all := Competing(v, tids);
    assert tids[0] in all;
    var least := Aria.MinExists(all);
    forall sched | AllDone(Exec(Init(v, tids), tids, sched))
      ensures var c := Exec(Init(v, tids), tids, sched).cell;
              OneCommits(k, c, all) <==> IsLeast(c, all)
    {
      var s := Exec(Init(v, tids), tids, sched);
      CellCompetes(v, tids, sched);
      assert s.pcs[0] in s.pcs;
      LostMinimumTwoWriters(k, s.cell, least, all);
    }
    assert AlwaysOneCommits(k, v, tids) <==> AlwaysLeast(v, tids);
    MinimumKeptIff(v, tids);
  }
}
