/** The reference-counted lock-free free list, as interleaved steps of any number of threads
    under sequential consistency: one step is one access to shared memory. */
module FreeList {
  import opened Options
  import opened Sums

  /** Where a node is.  This is an auxiliary variable: no step of the code looks at it.
      Owned: held by a user.  Releasing: add has been called.  Pending: to be listed by whoever
      drops the last reference.  Early and Late: being inserted by a thread, before and after its
      reference count is set to one.  Listed: on the list.  Taken: unlinked, its count not yet
      lowered. */
  datatype Status =
    | Owned
    | Releasing(thread: nat)
    | Pending
    | Early(thread: nat)
    | Late(thread: nat)
    | Listed
    | Taken(thread: nat)

  /** refs is split into its count (the low 31 bits) and the should-be-on-freelist bit. */
  datatype Node = Node(next: Option<nat>, count: int, flag: bool, status: Status)

  /** What a thread does after it has inserted a node: return, or go on with try_get. */
  datatype Cont = Finish | Resume(head: Option<nat>)

  datatype Pc =
    | Idle
    | AddStart(n: nat)
    | AkLoad(n: nat, k: Cont)
    | AkSetNext(n: nat, h: Option<nat>, k: Cont)
    | AkSetRefs(n: nat, h: Option<nat>, k: Cont)
    | AkCas(n: nat, h: Option<nat>, k: Cont)
    | AkFail(n: nat, h: Option<nat>, k: Cont)
    | GetLoad
    | GetRefs(n: nat)
    | GetCasRefs(n: nat, count: int, flag: bool)
    | GetNext(n: nat)
    | GetCasHead(n: nat, next: Option<nat>)
    | GetTaken(n: nat)
    | GetDec(n: nat, head: Option<nat>)

  /** list is auxiliary: the nodes reachable from head, as the invariant shows. */
  datatype State = State(head: Option<nat>, nodes: seq<Node>, pcs: seq<Pc>, list: seq<nat>)

  function Continue(k: Cont): Pc {
    match k
    case Finish => Idle
    case Resume(None) => Idle
    case Resume(Some(h)) => GetRefs(h)
  }

  /** A user begins an operation, or a thread in the middle of one takes its next step. */
  datatype Action = BeginAdd(t: nat, n: nat) | BeginGet(t: nat) | Move(t: nat)

  function Init(nodes: nat, threads: nat): State {
    State(None, seq(nodes, i => Node(None, 0, false, Owned)), seq(threads, i => Idle), [])
  }

  function Local(s: State, t: nat, pc: Pc): State
    requires t < |s.pcs|
  {
    s.(pcs := s.pcs[t := pc])
  }

  function Set(s: State, t: nat, pc: Pc, n: nat, x: Node): State
    requires t < |s.pcs| && n < |s.nodes|
  {
    s.(pcs := s.pcs[t := pc], nodes := s.nodes[n := x])
  }

  /** The node a thread is working on. */
  function Subject(pc: Pc): Option<nat> {
    match pc
    case Idle => None
    case GetLoad => None
    case _ => Some(pc.n)
  }

  function MoveThread(s: State, t: nat): State
    requires t < |s.pcs|
  {
    if Subject(s.pcs[t]).Some? && s.pcs[t].n >= |s.nodes| then s else
    match s.pcs[t]
    case Idle => s
    case AddStart(n) =>
      var x := s.nodes[n];
      if x.count == 0 && !x.flag then Set(s, t, AkLoad(n, Finish), n, x.(flag := true, status := Early(t)))
      else Set(s, t, Idle, n, x.(flag := true, status := Pending))
    case AkLoad(n, k) => Local(s, t, AkSetNext(n, s.head, k))
    case AkSetNext(n, h, k) => Set(s, t, AkSetRefs(n, h, k), n, s.nodes[n].(next := h))
    case AkSetRefs(n, h, k) => Set(s, t, AkCas(n, h, k), n, s.nodes[n].(count := 1, flag := false, status := Late(t)))
    case AkCas(n, h, k) =>
      if s.head == h then
        Set(s, t, Continue(k), n, s.nodes[n].(status := Listed)).(head := Some(n), list := [n] + s.list)
      else Local(s, t, AkFail(n, s.head, k))
    case AkFail(n, h, k) =>
      var x := s.nodes[n];
      var y := x.(count := x.count - 1, flag := true);
      if x.count == 1 && !x.flag then Set(s, t, AkSetNext(n, h, k), n, y.(status := Early(t)))
      else Set(s, t, Continue(k), n, y.(status := Pending))
    case GetLoad => Local(s, t, Continue(Resume(s.head)))
    case GetRefs(n) =>
      var x := s.nodes[n];
      Local(s, t, if x.count == 0 then GetLoad else GetCasRefs(n, x.count, x.flag))
    case GetCasRefs(n, c, f) =>
      var x := s.nodes[n];
      if x.count == c && x.flag == f then Set(s, t, GetNext(n), n, x.(count := c + 1))
      else Local(s, t, GetLoad)
    case GetNext(n) => Local(s, t, GetCasHead(n, s.nodes[n].next))
    case GetCasHead(n, next) =>
      if s.head == Some(n) then
        var rest := if s.list == [] then [] else s.list[1..];
        Set(s, t, GetTaken(n), n, s.nodes[n].(status := Taken(t))).(head := next, list := rest)
      else Local(s, t, GetDec(n, s.head))
    case GetTaken(n) =>
      var x := s.nodes[n];
      Set(s, t, Idle, n, x.(count := x.count - 2, status := Owned))
    case GetDec(n, h) =>
      var x := s.nodes[n];
      var y := x.(count := x.count - 1);
      if x.count == 1 && x.flag then Set(s, t, AkLoad(n, Resume(h)), n, y.(status := Early(t)))
      else Set(s, t, Continue(Resume(h)), n, y)
  }

  /** add is called only for a node that its caller owns. */
  predicate Enabled(s: State, a: Action) {
    && a.t < |s.pcs|
    && (a.Move? || s.pcs[a.t] == Idle)
    && (a.BeginAdd? ==> a.n < |s.nodes| && s.nodes[a.n].status == Owned)
  }

  function Step(s: State, a: Action): State
    requires Enabled(s, a)
  {
    match a
    case BeginAdd(t, n) => Set(s, t, AddStart(n), n, s.nodes[n].(status := Releasing(t)))
    case BeginGet(t) => Local(s, t, GetLoad)
    case Move(t) => MoveThread(s, t)
  }

  // ---------- The invariant ----------

  /** The thread holds a counted reference to n. */
  predicate Holds(pc: Pc, n: int) {
    (pc.GetNext? || pc.GetCasHead? || pc.GetTaken? || pc.GetDec?) && pc.n == n
  }

  function Bit(b: bool): nat {
    if b then 1 else 0
  }

  function Holding(n: int, pc: Pc): nat {
    Bit(Holds(pc, n))
  }

  function Holders(pcs: seq<Pc>, n: int): nat {
    Sum<int, Pc>(Holding, n, pcs)
  }

  /** The reference that being listed, or about to be, or just no longer, is worth. */
  function ListRef(st: Status): nat {
    Bit(st.Late? || st.Listed? || st.Taken?)
  }

  ghost predicate NodeOk(x: Node, holders: nat) {
    && x.count == holders + ListRef(x.status)
    && (x.flag <==> x.status.Pending? || x.status.Early?)
    && (x.status.Early? ==> holders == 0)
    && (x.status.Pending? ==> holders > 0)
  }

  ghost predicate InRange(h: Option<nat>, size: nat) {
    h.Some? ==> h.value < size
  }

  /** What the node a thread works on looks like at each point of the thread. */
  ghost predicate ThreadOk(pc: Pc, t: nat, nodes: seq<Node>) {
    && (Subject(pc).Some? ==> pc.n < |nodes|)
    && match pc
       case AddStart(n) => nodes[n].status == Releasing(t)
       case AkLoad(n, k) => nodes[n].status == Early(t) && (k.Resume? ==> InRange(k.head, |nodes|))
       case AkSetNext(n, h, k) => nodes[n].status == Early(t) && InRange(h, |nodes|)
           && (k.Resume? ==> InRange(k.head, |nodes|))
       case AkSetRefs(n, h, k) => nodes[n].status == Early(t) && nodes[n].next == h && InRange(h, |nodes|)
           && (k.Resume? ==> InRange(k.head, |nodes|))
       case AkCas(n, h, k) => nodes[n].status == Late(t) && nodes[n].next == h && InRange(h, |nodes|)
           && (k.Resume? ==> InRange(k.head, |nodes|))
       case AkFail(n, h, k) => nodes[n].status == Late(t) && InRange(h, |nodes|)
           && (k.Resume? ==> InRange(k.head, |nodes|))
       case GetCasRefs(n, c, f) => c > 0
       case GetCasHead(n, next) => nodes[n].next == next
       case GetTaken(n) => nodes[n].status == Taken(t)
       case GetDec(n, h) => InRange(h, |nodes|)
       case _ => true
  }

  predicate EarlyOn(pc: Pc, n: nat) {
    (pc.AkLoad? || pc.AkSetNext? || pc.AkSetRefs?) && pc.n == n
  }

  predicate LateOn(pc: Pc, n: nat) {
    (pc.AkCas? || pc.AkFail?) && pc.n == n
  }

  /** A node that is in the hands of a thread names the thread that has it in hand. */
  ghost predicate HandOk(x: Node, n: nat, pcs: seq<Pc>) {
    && (x.status.Releasing? ==> x.status.thread < |pcs| && pcs[x.status.thread] == AddStart(n))
    && (x.status.Early? ==> x.status.thread < |pcs| && EarlyOn(pcs[x.status.thread], n))
    && (x.status.Late? ==> x.status.thread < |pcs| && LateOn(pcs[x.status.thread], n))
    && (x.status.Taken? ==> x.status.thread < |pcs| && pcs[x.status.thread] == GetTaken(n))
  }

  /** From head the next pointers spell out the list, without repetition. */
  ghost predicate Chain(head: Option<nat>, list: seq<nat>, nodes: seq<Node>)
    decreases |list|
  {
    if list == [] then head == None
    else
      && head == Some(list[0]) && list[0] < |nodes| && list[0] !in list[1..]
      && Chain(nodes[list[0]].next, list[1..], nodes)
  }

  ghost predicate Linked(s: State) {
    && Chain(s.head, s.list, s.nodes)
    && (forall n :: 0 <= n < |s.nodes| ==> (n in s.list <==> s.nodes[n].status == Listed))
  }

  lemma {:induction false} ChainFrame(head: Option<nat>, list: seq<nat>, nodes: seq<Node>, m: nat, x: Node)
    requires Chain(head, list, nodes) && m < |nodes|
    requires m in list ==> x.next == nodes[m].next
    ensures Chain(head, list, nodes[m := x])
    decreases |list|
  {
    if list != [] {
      ChainFrame(nodes[list[0]].next, list[1..], nodes, m, x);
    }
  }

  ghost predicate Inv(s: State) {
    && (forall n :: 0 <= n < |s.nodes| ==> NodeOk(s.nodes[n], Holders(s.pcs, n)) && HandOk(s.nodes[n], n, s.pcs))
    && (forall t :: 0 <= t < |s.pcs| ==> ThreadOk(s.pcs[t], t, s.nodes))
    && Linked(s)
  }

  // ---------- Preservation ----------

  /** No other thread has the node in hand. */
  predicate InHandOf(st: Status, t: nat) {
    !(st.Owned? || st.Pending? || st.Listed?) ==> st.thread == t
  }

  /** A step of thread t that changes at most node m keeps the invariant, provided the new node and
      the thread's new program counter are right and no other thread could notice. */
  lemma LocalChange(s: State, t: nat, pc: Pc, m: nat, x: Node, head: Option<nat>, list: seq<nat>)
    requires Inv(s) && t < |s.pcs| && m < |s.nodes|
    requires forall n :: Holds(s.pcs[t], n) || Holds(pc, n) ==> n == m
    requires Subject(s.pcs[t]).Some? ==> s.pcs[t].n == m
    requires Holders(s.pcs, m) >= Bit(Holds(s.pcs[t], m))
    requires NodeOk(x, Holders(s.pcs, m) - Bit(Holds(s.pcs[t], m)) + Bit(Holds(pc, m)))
    requires HandOk(x, m, s.pcs[t := pc]) && ThreadOk(pc, t, s.nodes[m := x])
    requires x.status == s.nodes[m].status || (InHandOf(s.nodes[m].status, t) && InHandOf(x.status, t))
    requires x.next == s.nodes[m].next || s.nodes[m].status == Early(t)
    requires Linked(State(head, s.nodes[m := x], s.pcs, list))
    ensures Inv(State(head, s.nodes[m := x], s.pcs[t := pc], list))
  {
    var s' := State(head, s.nodes[m := x], s.pcs[t := pc], list);
    forall n | 0 <= n < |s'.nodes|
      ensures NodeOk(s'.nodes[n], Holders(s'.pcs, n)) && HandOk(s'.nodes[n], n, s'.pcs)
    {
      SumUpdate<int, Pc>(Holding, n, s.pcs, t, pc);
      if n != m {
        OtherNode(s, t, pc, n);
      }
    }
    forall u | 0 <= u < |s'.pcs| ensures ThreadOk(s'.pcs[u], u, s'.nodes) {
      if u != t {
        OtherThread(s, t, m, x, u);
      }
    }
    assert Linked(s');
  }

  lemma OtherNode(s: State, t: nat, pc: Pc, n: nat)
    requires Inv(s) && t < |s.pcs| && n < |s.nodes|
    requires Subject(s.pcs[t]).Some? ==> s.pcs[t].n != n
    ensures HandOk(s.nodes[n], n, s.pcs[t := pc])
  {
    assert HandOk(s.nodes[n], n, s.pcs);
  }

  lemma OtherThread(s: State, t: nat, m: nat, x: Node, u: nat)
    requires Inv(s) && t < |s.pcs| && m < |s.nodes| && u < |s.pcs| && u != t
    requires x.status == s.nodes[m].status || InHandOf(s.nodes[m].status, t)
    requires x.next == s.nodes[m].next || s.nodes[m].status == Early(t)
    ensures ThreadOk(s.pcs[u], u, s.nodes[m := x])
  {
    var pc := s.pcs[u];
    assert ThreadOk(pc, u, s.nodes);
    if Holds(pc, m) {
      SumAtLeast<int, Pc>(Holding, m, s.pcs, u);
      assert NodeOk(s.nodes[m], Holders(s.pcs, m));
    }
  }

  /** A thread moves on without touching a node, in the same role towards every node. */
  lemma OnlyLocal(s: State, t: nat, pc: Pc)
    requires Inv(s) && t < |s.pcs| && ThreadOk(pc, t, s.nodes)
    requires forall n :: Holds(s.pcs[t], n) == Holds(pc, n)
    requires forall n :: EarlyOn(s.pcs[t], n) == EarlyOn(pc, n) && LateOn(s.pcs[t], n) == LateOn(pc, n)
    requires !s.pcs[t].AddStart? && !s.pcs[t].GetTaken?
    ensures Inv(Local(s, t, pc))
  {
    var s' := Local(s, t, pc);
    forall n | 0 <= n < |s.nodes| ensures NodeOk(s'.nodes[n], Holders(s'.pcs, n)) && HandOk(s'.nodes[n], n, s'.pcs) {
      SumUpdate<int, Pc>(Holding, n, s.pcs, t, pc);
      assert NodeOk(s.nodes[n], Holders(s.pcs, n)) && HandOk(s.nodes[n], n, s.pcs);
    }
    assert Linked(s');
  }

  /** The list does not notice a change of a node that keeps its pointer, or is not listed. */
  lemma StillLinked(s: State, m: nat, x: Node)
    requires Linked(s) && m < |s.nodes|
    requires (x.status == Listed) == (s.nodes[m].status == Listed)
    requires x.next == s.nodes[m].next || s.nodes[m].status != Listed
    ensures Linked(s.(nodes := s.nodes[m := x]))
  {
    ChainFrame(s.head, s.list, s.nodes, m, x);
  }

  /** A step that changes node m but neither the head nor who is on the list. */
  lemma OffList(s: State, t: nat, pc: Pc, m: nat, x: Node)
    requires Inv(s) && t < |s.pcs| && m < |s.nodes|
    requires forall n :: Holds(s.pcs[t], n) || Holds(pc, n) ==> n == m
    requires Subject(s.pcs[t]).Some? ==> s.pcs[t].n == m
    requires Holders(s.pcs, m) >= Bit(Holds(s.pcs[t], m))
    requires NodeOk(x, Holders(s.pcs, m) - Bit(Holds(s.pcs[t], m)) + Bit(Holds(pc, m)))
    requires HandOk(x, m, s.pcs[t := pc]) && ThreadOk(pc, t, s.nodes[m := x])
    requires x.status == s.nodes[m].status || (InHandOf(s.nodes[m].status, t) && InHandOf(x.status, t))
    requires x.next == s.nodes[m].next || s.nodes[m].status == Early(t)
    requires (x.status == Listed) == (s.nodes[m].status == Listed)
    ensures Inv(Set(s, t, pc, m, x))
  {
    StillLinked(s, m, x);
    assert s.(nodes := s.nodes[m := x]) == State(s.head, s.nodes[m := x], s.pcs, s.list);
    LocalChange(s, t, pc, m, x, s.head, s.list);
  }

  lemma Facts(s: State, t: nat)
    requires Inv(s) && t < |s.pcs|
    ensures ThreadOk(s.pcs[t], t, s.nodes)
    ensures Subject(s.pcs[t]).Some? ==>
              var n := s.pcs[t].n;
              && NodeOk(s.nodes[n], Holders(s.pcs, n)) && HandOk(s.nodes[n], n, s.pcs)
              && Holders(s.pcs, n) >= Bit(Holds(s.pcs[t], n))
    ensures InRange(s.head, |s.nodes|)
  {
    assert ThreadOk(s.pcs[t], t, s.nodes);
    if Subject(s.pcs[t]).Some? && Holds(s.pcs[t], s.pcs[t].n) {
      SumAtLeast<int, Pc>(Holding, s.pcs[t].n, s.pcs, t);
    }
  }

  // One lemma for each kind of step.

  lemma AddStartStep(s: State, t: nat)
    requires Inv(s) && t < |s.pcs| && s.pcs[t].AddStart?
    ensures Inv(MoveThread(s, t))
  {
    Facts(s, t);
    var n := s.pcs[t].n;
    var x := s.nodes[n];
    if x.count == 0 && !x.flag {
      OffList(s, t, AkLoad(n, Finish), n, x.(flag := true, status := Early(t)));
    } else {
      OffList(s, t, Idle, n, x.(flag := true, status := Pending));
    }
  }

  lemma SetNextStep(s: State, t: nat)
    requires Inv(s) && t < |s.pcs| && s.pcs[t].AkSetNext?
    ensures Inv(MoveThread(s, t))
  {
    Facts(s, t);
    var AkSetNext(n, h, k) := s.pcs[t];
    OffList(s, t, AkSetRefs(n, h, k), n, s.nodes[n].(next := h));
  }

  lemma SetRefsStep(s: State, t: nat)
    requires Inv(s) && t < |s.pcs| && s.pcs[t].AkSetRefs?
    ensures Inv(MoveThread(s, t))
  {
    Facts(s, t);
    var AkSetRefs(n, h, k) := s.pcs[t];
    OffList(s, t, AkCas(n, h, k), n, s.nodes[n].(count := 1, flag := false, status := Late(t)));
  }

  lemma InsertFailedStep(s: State, t: nat)
    requires Inv(s) && t < |s.pcs| && s.pcs[t].AkFail?
    ensures Inv(MoveThread(s, t))
  {
    Facts(s, t);
    var AkFail(n, h, k) := s.pcs[t];
    var x := s.nodes[n];
    var y := x.(count := x.count - 1, flag := true);
    if x.count == 1 && !x.flag {
      OffList(s, t, AkSetNext(n, h, k), n, y.(status := Early(t)));
    } else {
      ContinueOk(k, t, s.nodes[n := y.(status := Pending)]);
      assert HandOk(y.(status := Pending), n, s.pcs[t := Continue(k)]);
      OffList(s, t, Continue(k), n, y.(status := Pending));
    }
  }

  lemma ContinueOk(k: Cont, t: nat, nodes: seq<Node>)
    requires k.Resume? ==> InRange(k.head, |nodes|)
    ensures Continue(k).Idle? || Continue(k).GetRefs?
    ensures ThreadOk(Continue(k), t, nodes)
    ensures forall n :: !Holds(Continue(k), n)
  {
  }

  lemma InsertedLinked(s: State, n: nat)
    requires Linked(s) && n < |s.nodes| && n !in s.list && s.nodes[n].next == s.head
    ensures Linked(s.(head := Some(n), list := [n] + s.list, nodes := s.nodes[n := s.nodes[n].(status := Listed)]))
  {
    var x := s.nodes[n].(status := Listed);
    ChainFrame(s.head, s.list, s.nodes, n, x);
    assert ([n] + s.list)[1..] == s.list;
  }

  lemma InsertStep(s: State, t: nat)
    requires Inv(s) && t < |s.pcs| && s.pcs[t].AkCas?
    ensures Inv(MoveThread(s, t))
  {
    Facts(s, t);
    var AkCas(n, h, k) := s.pcs[t];
    if s.head == h {
      var x := s.nodes[n].(status := Listed);
      InsertedLinked(s, n);
      assert s.(head := Some(n), list := [n] + s.list, nodes := s.nodes[n := x]) ==
             State(Some(n), s.nodes[n := x], s.pcs, [n] + s.list);
      ContinueOk(k, t, s.nodes[n := x]);
      LocalChange(s, t, Continue(k), n, x, Some(n), [n] + s.list);
    } else {
      OnlyLocal(s, t, AkFail(n, s.head, k));
    }
  }

  lemma UnlinkedLinked(s: State, n: nat, t: nat)
    requires Linked(s) && s.head == Some(n)
    ensures n < |s.nodes| && s.list != []
    ensures var taken := s.nodes[n := s.nodes[n].(status := Taken(t))];
            Linked(s.(head := s.nodes[n].next, list := s.list[1..], nodes := taken))
  {
    var x := s.nodes[n].(status := Taken(t));
    ChainFrame(s.nodes[n].next, s.list[1..], s.nodes, n, x);
    assert s.list == [n] + s.list[1..];
  }

  lemma UnlinkStep(s: State, t: nat)
    requires Inv(s) && t < |s.pcs| && s.pcs[t].GetCasHead?
    ensures Inv(MoveThread(s, t))
  {
    Facts(s, t);
    var GetCasHead(n, next) := s.pcs[t];
    if s.head == Some(n) {
      var x := s.nodes[n].(status := Taken(t));
      UnlinkedLinked(s, n, t);
      assert s.(head := next, list := s.list[1..], nodes := s.nodes[n := x]) ==
          State(next, s.nodes[n := x], s.pcs, s.list[1..]);
      assert n in s.list;
      LocalChange(s, t, GetTaken(n), n, x, next, s.list[1..]);
    } else {
      OnlyLocal(s, t, GetDec(n, s.head));
    }
  }

  /** Taking a reference succeeds only from a count that is not zero. */
  lemma RefStep(s: State, t: nat)
    requires Inv(s) && t < |s.pcs| && s.pcs[t].GetCasRefs?
    ensures Inv(MoveThread(s, t))
  {
    Facts(s, t);
    var GetCasRefs(n, c, f) := s.pcs[t];
    var x := s.nodes[n];
    if x.count == c && x.flag == f {
      assert !x.status.Early?;
      OffList(s, t, GetNext(n), n, x.(count := c + 1));
    } else {
      OnlyLocal(s, t, GetLoad);
    }
  }

  lemma TakenStep(s: State, t: nat)
    requires Inv(s) && t < |s.pcs| && s.pcs[t].GetTaken?
    ensures Inv(MoveThread(s, t))
  {
    Facts(s, t);
    var n := s.pcs[t].n;
    var x := s.nodes[n];
    var y := x.(count := x.count - 2, status := Owned);
    assert MoveThread(s, t) == Set(s, t, Idle, n, y);
    assert NodeOk(y, Holders(s.pcs, n) - 1);
    assert HandOk(y, n, s.pcs[t := Idle]);
    OffList(s, t, Idle, n, y);
  }

  /** Giving a reference back: the last one to do so for a pending node inserts it. */
  lemma ReleaseLastRef(s: State, t: nat)
    requires Inv(s) && t < |s.pcs| && s.pcs[t].GetDec? && s.pcs[t].n < |s.nodes|
    requires var x := s.nodes[s.pcs[t].n]; x.count == 1 && x.flag
    ensures Inv(MoveThread(s, t))
  {
    Facts(s, t);
    var GetDec(n, h) := s.pcs[t];
    var y := s.nodes[n].(count := 0, status := Early(t));
    assert NodeOk(y, Holders(s.pcs, n) - 1);
    var pc := AkLoad(n, Resume(h));
    assert MoveThread(s, t) == Set(s, t, pc, n, y);
    assert HandOk(y, n, s.pcs[t := pc]);
    assert ThreadOk(pc, t, s.nodes[n := y]);
    OffList(s, t, pc, n, y);
  }

  lemma ReleaseRef(s: State, t: nat)
    requires Inv(s) && t < |s.pcs| && s.pcs[t].GetDec? && s.pcs[t].n < |s.nodes|
    requires var x := s.nodes[s.pcs[t].n]; !(x.count == 1 && x.flag)
    ensures Inv(MoveThread(s, t))
  {
    Facts(s, t);
    var GetDec(n, h) := s.pcs[t];
    var x := s.nodes[n];
    var y, pc := x.(count := x.count - 1), Continue(Resume(h));
    ContinueOk(Resume(h), t, s.nodes[n := y]);
    assert MoveThread(s, t) == Set(s, t, pc, n, y);
    assert NodeOk(y, Holders(s.pcs, n) - 1);
    assert HandOk(y, n, s.pcs[t := pc]);
    OffList(s, t, pc, n, y);
  }

  lemma ReleaseRefStep(s: State, t: nat)
    requires Inv(s) && t < |s.pcs| && s.pcs[t].GetDec?
    ensures Inv(MoveThread(s, t))
  {
    Facts(s, t);
    var x := s.nodes[s.pcs[t].n];
    if x.count == 1 && x.flag {
      ReleaseLastRef(s, t);
    } else {
      ReleaseRef(s, t);
    }
  }

  // The steps that only look.

  lemma LoadStep(s: State, t: nat)
    requires Inv(s) && t < |s.pcs| && (s.pcs[t].AkLoad? || s.pcs[t].GetLoad?)
    ensures Inv(MoveThread(s, t))
  {
    Facts(s, t);
    if s.pcs[t].AkLoad? {
      var AkLoad(n, k) := s.pcs[t];
      OnlyLocal(s, t, AkSetNext(n, s.head, k));
    } else {
      ContinueOk(Resume(s.head), t, s.nodes);
      OnlyLocal(s, t, Continue(Resume(s.head)));
    }
  }

  lemma LookStep(s: State, t: nat)
    requires Inv(s) && t < |s.pcs| && (s.pcs[t].GetRefs? || s.pcs[t].GetNext?)
    ensures Inv(MoveThread(s, t))
  {
    Facts(s, t);
    var n := s.pcs[t].n;
    var x := s.nodes[n];
    if s.pcs[t].GetRefs? {
      OnlyLocal(s, t, if x.count == 0 then GetLoad else GetCasRefs(n, x.count, x.flag));
    } else {
      OnlyLocal(s, t, GetCasHead(n, x.next));
    }
  }

  lemma BeginStep(s: State, a: Action)
    requires Inv(s) && Enabled(s, a) && !a.Move?
    ensures Inv(Step(s, a))
  {
    Facts(s, a.t);
    match a {
      case BeginAdd(t, n) =>
        assert NodeOk(s.nodes[n], Holders(s.pcs, n));
        OffList(s, t, AddStart(n), n, s.nodes[n].(status := Releasing(t)));
      case BeginGet(t) => OnlyLocal(s, t, GetLoad);
    }
  }

  lemma StepKeepsInv(s: State, a: Action)
    requires Inv(s) && Enabled(s, a)
    ensures Inv(Step(s, a))
  {
    if !a.Move? {
      BeginStep(s, a);
    } else {
      match s.pcs[a.t] {
        case Idle =>
        case AddStart(_) => AddStartStep(s, a.t);
        case AkSetNext(_, _, _) => SetNextStep(s, a.t);
        case AkSetRefs(_, _, _) => SetRefsStep(s, a.t);
        case AkCas(_, _, _) => InsertStep(s, a.t);
        case AkFail(_, _, _) => InsertFailedStep(s, a.t);
        case GetCasRefs(_, _, _) => RefStep(s, a.t);
        case GetCasHead(_, _) => UnlinkStep(s, a.t);
        case GetTaken(_) => TakenStep(s, a.t);
        case GetDec(_, _) => ReleaseRefStep(s, a.t);
        case AkLoad(_, _) => LoadStep(s, a.t);
        case GetLoad => LoadStep(s, a.t);
        case _ => LookStep(s, a.t);
      }
    }
  }

  lemma InitInv(nodes: nat, threads: nat)
    ensures Inv(Init(nodes, threads))
  {
    var s := Init(nodes, threads);
    forall n | 0 <= n < nodes ensures Holders(s.pcs, n) == 0 {
      ZeroSum<int, Pc>(Holding, n, s.pcs);
    }
  }

  // ---------- Whole runs ----------

  /** A run: a legal action between any two neighbouring states. */
  ghost predicate IsRun(run: seq<State>, actions: seq<Action>, nodes: nat, threads: nat) {
    && |run| == |actions| + 1
    && run[0] == Init(nodes, threads)
    && forall i {:trigger actions[i]} :: 0 <= i < |actions| ==>
          Enabled(run[i], actions[i]) && run[i + 1] == Step(run[i], actions[i])
  }

  lemma {:induction false} RunKeepsInv(run: seq<State>, actions: seq<Action>, nodes: nat, threads: nat, i: nat)
    requires IsRun(run, actions, nodes, threads) && i < |run|
    ensures Inv(run[i])
  {
    if i == 0 {
      InitInv(nodes, threads);
    } else {
      RunKeepsInv(run, actions, nodes, threads, i - 1);
      StepKeepsInv(run[i - 1], actions[i - 1]);
    }
  }

  /** The thread is releasing, inserting or has just taken n. */
  predicate InHand(pc: Pc, n: nat) {
    pc == AddStart(n) || EarlyOn(pc, n) || LateOn(pc, n) || pc == GetTaken(n)
  }

  lemma {:induction false} ChainDistinct(head: Option<nat>, list: seq<nat>, nodes: seq<Node>, i: nat, j: nat)
    requires Chain(head, list, nodes) && i < j < |list|
    ensures list[i] != list[j]
    decreases |list|
  {
    if i > 0 {
      ChainDistinct(nodes[list[0]].next, list[1..], nodes, i - 1, j - 1);
    } else {
      assert list[j] == list[1..][j - 1];
    }
  }

  /** In every state of every run: no node is on the list twice; a node in one thread's hand is in
      no other's, and is neither on the list nor owned by a user; a node on the list is not owned. */
  lemma NodeInOnePlace(run: seq<State>, actions: seq<Action>, nodes: nat, threads: nat, i: nat)
    requires IsRun(run, actions, nodes, threads) && i < |run|
    ensures var s := run[i];
            && Chain(s.head, s.list, s.nodes)
            && (forall a, b :: 0 <= a < b < |s.list| ==> s.list[a] != s.list[b])
            && (forall t, u, n: nat ::
                  0 <= t < |s.pcs| && 0 <= u < |s.pcs| && InHand(s.pcs[t], n) && InHand(s.pcs[u], n) ==> t == u)
            && (forall t, n: nat :: 0 <= t < |s.pcs| && InHand(s.pcs[t], n) ==>
                                 n < |s.nodes| && n !in s.list && s.nodes[n].status != Owned)
            && (forall n <- s.list :: n < |s.nodes| && s.nodes[n].status != Owned)
  {
    RunKeepsInv(run, actions, nodes, threads, i);
    var s := run[i];
    forall a, b | 0 <= a < b < |s.list| ensures s.list[a] != s.list[b] {
      ChainDistinct(s.head, s.list, s.nodes, a, b);
    }
    forall t, n: nat | 0 <= t < |s.pcs| && InHand(s.pcs[t], n)
      ensures n < |s.nodes| && !(s.nodes[n].status in {Owned, Pending, Listed}) && s.nodes[n].status.thread == t
    {
      assert ThreadOk(s.pcs[t], t, s.nodes);
    }
    forall n | n in s.list ensures n < |s.nodes| {
      ChainInRange(s.head, s.list, s.nodes, n);
    }
  }

  lemma {:induction false} ChainInRange(head: Option<nat>, list: seq<nat>, nodes: seq<Node>, n: nat)
    requires Chain(head, list, nodes) && n in list
    ensures n < |nodes|
    decreases |list|
  {
    if n != list[0] {
      assert list == [list[0]] + list[1..];
      ChainInRange(nodes[list[0]].next, list[1..], nodes, n);
    }
  }

  /** While any thread holds a counted reference to a node, no step changes its next pointer: the
      value read before the exchange of the head is still right when the exchange succeeds. */
  lemma NextStableWhileHeld(s: State, a: Action, t: nat, n: nat)
    requires Inv(s) && Enabled(s, a) && t < |s.pcs| && Holds(s.pcs[t], n)
    ensures n < |s.nodes| && n < |Step(s, a).nodes|
    ensures Step(s, a).nodes[n].next == s.nodes[n].next
  {
    Facts(s, t);
    Facts(s, a.t);
  }

  /** A successful pop removes the first node of the list and leaves the rest of it. */
  lemma PopTakesFirst(s: State, t: nat)
    requires Inv(s) && t < |s.pcs| && s.pcs[t].GetCasHead? && s.head == Some(s.pcs[t].n)
    ensures s.list != [] && s.list[0] == s.pcs[t].n
    ensures var s' := MoveThread(s, t);
            s'.pcs[t] == GetTaken(s.list[0]) && s'.list == s.list[1..] && Chain(s'.head, s.list[1..], s'.nodes)
  {
    Facts(s, t);
    UnlinkStep(s, t);
  }

  /** A thread that has unlinked a node finds its should-be-on-freelist bit clear, as the code
      asserts; and counts stay between zero and one more than the number of threads, so they never
      run into that bit. */
  lemma CountsFit(s: State, n: nat)
    requires Inv(s) && n < |s.nodes|
    ensures 0 <= s.nodes[n].count <= |s.pcs| + 1
    ensures forall t :: 0 <= t < |s.pcs| && s.pcs[t] == GetTaken(n) ==> !s.nodes[n].flag && s.nodes[n].count >= 2
  {
    SumAtMost<int, Pc>(Holding, n, s.pcs);
    assert NodeOk(s.nodes[n], Holders(s.pcs, n));
    forall t | 0 <= t < |s.pcs| && s.pcs[t] == GetTaken(n) ensures !s.nodes[n].flag && s.nodes[n].count >= 2 {
      Facts(s, t);
    }
  }

  /** When no operation is under way no node is lost: each is owned, with count zero, or on the
      list, with count one. */
  lemma NothingLost(s: State, n: nat)
    requires Inv(s) && n < |s.nodes| && forall t :: 0 <= t < |s.pcs| ==> s.pcs[t] == Idle
    ensures if n in s.list then s.nodes[n].count == 1 else s.nodes[n].status == Owned && s.nodes[n].count == 0
    ensures !s.nodes[n].flag
  {
    ZeroSum<int, Pc>(Holding, n, s.pcs);
    assert NodeOk(s.nodes[n], Holders(s.pcs, n)) && HandOk(s.nodes[n], n, s.pcs);
  }
}
