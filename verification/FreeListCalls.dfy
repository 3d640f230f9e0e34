/** What the calls of the free list achieve: adding lists the node, getting takes the first one, and
    getting comes back with nothing only if there was nothing. */
module FreeListCalls {
  import opened Options
  import opened FreeList

  // ---------- Giving up ----------

  /** In the middle of getting a node, with None as the head seen last. */
  predicate CarriesNone(pc: Pc) {
    match pc
    case GetDec(_, h) => h == None
    case AkLoad(_, k) => k == Resume(None)
    case AkSetNext(_, _, k) => k == Resume(None)
    case AkSetRefs(_, _, k) => k == Resume(None)
    case AkCas(_, _, k) => k == Resume(None)
    case AkFail(_, _, k) => k == Resume(None)
    case _ => false
  }

  /** Getting a node, and not adding one. */
  predicate Getting(pc: Pc) {
    match pc
    case Idle => false
    case AddStart(_) => false
    case AkLoad(_, k) => k.Resume?
    case AkSetNext(_, _, k) => k.Resume?
    case AkSetRefs(_, _, k) => k.Resume?
    case AkCas(_, _, k) => k.Resume?
    case AkFail(_, _, k) => k.Resume?
    case _ => true
  }

  ghost predicate WasEmpty(run: seq<State>, m: nat, k: nat)
    requires k < |run|
  {
    exists i :: m <= i <= k && run[i].list == []
  }

  ghost predicate Busy(s: State, t: nat) {
    t < |s.pcs| && s.pcs[t] != Idle
  }

  lemma EmptyList(run: seq<State>, actions: seq<Action>, nodes: nat, threads: nat, i: nat)
    requires IsRun(run, actions, nodes, threads) && i < |run|
    ensures run[i].head == None ==> run[i].list == []
  {
    RunKeepsInv(run, actions, nodes, threads, i);
  }

  lemma {:induction false} NoneSeen(
      run: seq<State>, actions: seq<Action>, nodes: nat, threads: nat, m: nat, k: nat, t: nat)
    requires IsRun(run, actions, nodes, threads) && m < k < |run| && actions[m] == BeginGet(t)
    requires forall i :: m < i <= k ==> Busy(run[i], t)
    ensures Busy(run[k], t) && Getting(run[k].pcs[t]) && (CarriesNone(run[k].pcs[t]) ==> WasEmpty(run, m, k))
  {
    assert Enabled(run[k - 1], actions[k - 1]) && run[k] == Step(run[k - 1], actions[k - 1]) && Busy(run[k], t);
    if k == m + 1 {
      BeginsGetting(run[m], t);
    } else {
      NoneSeen(run, actions, nodes, threads, m, k - 1, t);
      StillGetting(run[k - 1], actions[k - 1], t, run[k]);
      EmptyList(run, actions, nodes, threads, k - 1);
    }
  }

  lemma BeginsGetting(s: State, t: nat)
    requires Enabled(s, BeginGet(t))
    ensures Step(s, BeginGet(t)).pcs[t] == GetLoad
  {
  }

  lemma StillGetting(s: State, a: Action, t: nat, s': State)
    requires Enabled(s, a) && s' == Step(s, a) && Busy(s, t) && Getting(s.pcs[t]) && Busy(s', t)
    ensures Getting(s'.pcs[t])
    ensures CarriesNone(s'.pcs[t]) ==> CarriesNone(s.pcs[t]) || s.head == None
  {
  }

  /** In every interleaving: a call that gets a node either takes one, or the list was empty at some
      moment of the call. */
  lemma GivesUpOnlyWhenEmpty(
      run: seq<State>, actions: seq<Action>, nodes: nat, threads: nat, m: nat, k: nat, t: nat)
    requires IsRun(run, actions, nodes, threads) && m < k < |actions| && actions[m] == BeginGet(t)
    requires (forall i :: m < i <= k ==> Busy(run[i], t)) && t < |run[k + 1].pcs| && run[k + 1].pcs[t] == Idle
    ensures Busy(run[k], t)
    ensures || (run[k].pcs[t].GetTaken? && run[k].pcs[t].n < |run[k + 1].nodes|
                && run[k + 1].nodes[run[k].pcs[t].n].status == Owned)
            || WasEmpty(run, m, k)
  {
    NoneSeen(run, actions, nodes, threads, m, k, t);
    assert Enabled(run[k], actions[k]) && run[k + 1] == Step(run[k], actions[k]);
    RunKeepsInv(run, actions, nodes, threads, k);
    OthersLeave(run[k], actions[k], t);
    GivesUp(run[k], t);
    EmptyList(run, actions, nodes, threads, k);
  }

  lemma OthersLeave(s: State, a: Action, t: nat)
    requires Enabled(s, a) && Busy(s, t)
    ensures if a == Move(t) then Step(s, a) == MoveThread(s, t) else Busy(Step(s, a), t)
  {
  }

  lemma GivesUp(s: State, t: nat)
    requires Inv(s) && Busy(s, t) && Getting(s.pcs[t]) && MoveThread(s, t).pcs[t] == Idle
    ensures || (s.pcs[t].GetTaken? && s.pcs[t].n < |s.nodes| == |MoveThread(s, t).nodes|
                && MoveThread(s, t).nodes[s.pcs[t].n].status == Owned)
            || CarriesNone(s.pcs[t]) || s.head == None
  {
    assert ThreadOk(s.pcs[t], t, s.nodes);
  }

  // ---------- Undisturbed ----------

  /** Thread t takes k steps, and no other thread does. */
  function Moves(s: State, t: nat, k: nat): (s': State)
    requires t < |s.pcs|
    ensures |s'.pcs| == |s.pcs|
  {
    if k == 0 then s else MoveThread(Moves(s, t, k - 1), t)
  }

  lemma OneMore(s: State, t: nat, k: nat, s': State, s'': State)
    requires t < |s.pcs| && Moves(s, t, k) == s' && MoveThread(s', t) == s''
    ensures Moves(s, t, k + 1) == s''
  {
  }

  /** Undisturbed, a call that gets a node takes the first one of the list in six steps, and comes back
      with nothing in one exactly if there is none. */
  lemma GetAlone(s: State, t: nat)
    requires Inv(s) && t < |s.pcs| && s.pcs[t] == GetLoad
    ensures Moves(s, t, 1).pcs[t] == Idle <==> s.list == []
    ensures s.list != [] ==>
              && s.list[0] < |s.nodes|
              && var s', n := Moves(s, t, 6), s.list[0];
                 && s'.pcs[t] == Idle && s'.list == s.list[1..]
                 && s'.nodes == s.nodes[n := s.nodes[n].(count := s.nodes[n].count - 1, status := Owned)]
  {
    if s.list == [] {
      assert Moves(s, t, 0) == s;
    } else {
      var n := s.list[0];
      assert n in s.list && s.nodes[n].status == Listed && NodeOk(s.nodes[n], Holders(s.pcs, n));
      TakeFirst(s, t, n, s.nodes[n]);
    }
  }

  lemma TakeFirst(s: State, t: nat, n: nat, x: Node)
    requires t < |s.pcs| && s.pcs[t] == GetLoad && s.head == Some(n) && n < |s.nodes| && s.nodes[n] == x
    requires s.list != [] && x.count > 0
    ensures Moves(s, t, 1).pcs[t] != Idle
    ensures var s' := Moves(s, t, 6);
            && s'.pcs[t] == Idle && s'.list == s.list[1..]
            && s'.nodes == s.nodes[n := x.(count := x.count - 1, status := Owned)]
  {
    RefersToFirst(s, t, n, x);
    UnlinksFirst(s, t, n, x, x.(count := x.count + 1));
  }

  lemma UnlinksFirst(s: State, t: nat, n: nat, x: Node, y: Node)
    requires t < |s.pcs| && s.head == Some(n) && n < |s.nodes| && s.nodes[n] == x && s.list != []
    requires y == x.(count := x.count + 1) && Moves(s, t, 3) == Set(s, t, GetNext(n), n, y)
    ensures var s' := Moves(s, t, 6);
            && s'.pcs[t] == Idle && s'.list == s.list[1..]
            && s'.nodes == s.nodes[n := x.(count := x.count - 1, status := Owned)]
  {
    ReadsNext(s, t, n, y);
    var z := y.(status := Taken(t));
    Unlinks(s, t, n, y, z);
    var s5 := Set(s, t, GetTaken(n), n, z).(head := y.next, list := s.list[1..]);
    var s6 := Set(s5, t, Idle, n, z.(count := z.count - 2, status := Owned));
    assert s5.pcs[t] == GetTaken(n) && s5.nodes[n] == z;
    assert MoveThread(s5, t) == s6;
    OneMore(s, t, 5, s5, s6);
    assert s6.nodes == s.nodes[n := x.(count := x.count - 1, status := Owned)];
  }

  lemma Unlinks(s: State, t: nat, n: nat, y: Node, z: Node)
    requires t < |s.pcs| && s.head == Some(n) && n < |s.nodes| && s.list != [] && z == y.(status := Taken(t))
    requires Moves(s, t, 4) == Set(s, t, GetCasHead(n, y.next), n, y)
    ensures Moves(s, t, 5) == Set(s, t, GetTaken(n), n, z).(head := y.next, list := s.list[1..])
  {
    var s4 := Set(s, t, GetCasHead(n, y.next), n, y);
    var s5 := Set(s, t, GetTaken(n), n, z).(head := y.next, list := s.list[1..]);
    assert s4.pcs[t] == GetCasHead(n, y.next) && s4.nodes[n] == y;
    assert s4.pcs[t := GetTaken(n)] == s5.pcs && s4.nodes[n := z] == s5.nodes;
    assert MoveThread(s4, t) == s5;
    OneMore(s, t, 4, s4, s5);
  }

  lemma ReadsNext(s: State, t: nat, n: nat, y: Node)
    requires t < |s.pcs| && n < |s.nodes| && Moves(s, t, 3) == Set(s, t, GetNext(n), n, y)
    ensures Moves(s, t, 4) == Set(s, t, GetCasHead(n, y.next), n, y)
  {
    var s3, s4 := Set(s, t, GetNext(n), n, y), Set(s, t, GetCasHead(n, y.next), n, y);
    assert s3.pcs[t] == GetNext(n) && s3.nodes[n] == y && s3.pcs[t := GetCasHead(n, y.next)] == s4.pcs;
    assert MoveThread(s3, t) == s4;
    OneMore(s, t, 3, s3, s4);
  }

  lemma RefersToFirst(s: State, t: nat, n: nat, x: Node)
    requires t < |s.pcs| && s.pcs[t] == GetLoad && s.head == Some(n) && n < |s.nodes| && s.nodes[n] == x && x.count > 0
    ensures Moves(s, t, 1).pcs[t] != Idle
    ensures Moves(s, t, 3) == Set(s, t, GetNext(n), n, x.(count := x.count + 1))
  {
    var s1 := Local(s, t, GetRefs(n));
    OneMore(s, t, 0, s, s1);
    var s2 := Local(s, t, GetCasRefs(n, x.count, x.flag));
    assert s1.pcs[t := GetCasRefs(n, x.count, x.flag)] == s2.pcs;
    OneMore(s, t, 1, s1, s2);
    var s3 := Set(s, t, GetNext(n), n, x.(count := x.count + 1));
    assert s2.pcs[t := GetNext(n)] == s3.pcs;
    OneMore(s, t, 2, s2, s3);
  }

  /** Undisturbed, a node being inserted is first on the list after four steps. */
  lemma InsertAlone(s: State, t: nat, n: nat, k: Cont)
    requires t < |s.pcs| && s.pcs[t] == AkLoad(n, k) && n < |s.nodes|
    ensures var s' := Moves(s, t, 4);
            && s'.pcs[t] == Continue(k) && s'.head == Some(n) && s'.list == [n] + s.list
            && s'.nodes == s.nodes[n := Node(s.head, 1, false, Listed)]
  {
    var x, h := s.nodes[n], s.head;
    var s1 := Local(s, t, AkSetNext(n, h, k));
    OneMore(s, t, 0, s, s1);
    var s2 := Set(s1, t, AkSetRefs(n, h, k), n, x.(next := h));
    OneMore(s, t, 1, s1, s2);
    var s3 := Set(s2, t, AkCas(n, h, k), n, Node(h, 1, false, Late(t)));
    OneMore(s, t, 2, s2, s3);
    var s4 := Set(s3, t, Continue(k), n, Node(h, 1, false, Listed)).(head := Some(n), list := [n] + s.list);
    OneMore(s, t, 3, s3, s4);
  }

  /** Adding a node begins to insert it exactly if no thread holds a reference to it; otherwise it is
      marked for the thread that gives the last one back, which then begins to insert it. */
  lemma AddOrLeave(s: State, t: nat)
    requires Inv(s) && t < |s.pcs| && s.pcs[t].AddStart?
    ensures s.pcs[t].n < |s.nodes|
    ensures var n, s' := s.pcs[t].n, MoveThread(s, t);
            if Holders(s.pcs, n) == 0 then s'.pcs[t] == AkLoad(n, Finish)
            else s'.pcs[t] == Idle && s'.nodes[n].status == Pending && s'.nodes[n].flag
  {
    Facts(s, t);
  }

  lemma LastOneInserts(s: State, t: nat)
    requires Inv(s) && t < |s.pcs| && s.pcs[t].GetDec?
    ensures s.pcs[t].n < |s.nodes|
    ensures var n, s' := s.pcs[t].n, MoveThread(s, t);
            s'.pcs[t] == AkLoad(n, Resume(s.pcs[t].head)) <==> s.nodes[n].status == Pending && Holders(s.pcs, n) == 1
  {
    Facts(s, t);
  }
}
