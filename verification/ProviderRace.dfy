/** Several executors of one epoch asking for its reserve table at once: the pointer is tested, and
    tested again under a lock before a table is made.  Tables are numbered as they are made. */
module ProviderRace {
  import opened Options

  datatype Table = Table(epoch: nat, id: nat)

  datatype Pc = Idle | Testing | Locking | Retesting | Unlocking | Returning | Got(table: Option<Table>)

  datatype State = State(table: Option<Table>, made: nat, holder: Option<nat>, pcs: seq<Pc>)

  function Init(table: Option<Table>, threads: nat): State {
    State(table, if table.Some? then table.value.id + 1 else 0, None, seq(threads, i => Idle))
  }

  predicate Fits(table: Option<Table>, epoch: nat) {
    table.Some? && table.value.epoch == epoch
  }

  function At(s: State, t: nat, pc: Pc): State
    requires t < |s.pcs|
  {
    s.(pcs := s.pcs[t := pc])
  }

  /** Thread t moves on with its call for the epoch, or begins one. */
  function Step(s: State, epoch: nat, t: nat): State {
    if t >= |s.pcs| then s
    else
      match s.pcs[t]
      case Idle => At(s, t, Testing)
      case Testing => At(s, t, if Fits(s.table, epoch) then Returning else Locking)
      case Locking => if s.holder == None then At(s, t, Retesting).(holder := Some(t)) else s
      case Retesting =>
        if Fits(s.table, epoch) then At(s, t, Unlocking)
        else At(s, t, Unlocking).(table := Some(Table(epoch, s.made)), made := s.made + 1)
      case Unlocking => At(s, t, Returning).(holder := None)
      case Returning => At(s, t, Got(s.table))
      case Got(_) => At(s, t, Idle)
  }

  function Exec(s: State, epoch: nat, schedule: seq<nat>): State {
    if schedule == [] then s
    else
      var n := |schedule| - 1;
      Step(Exec(s, epoch, schedule[..n]), epoch, schedule[n])
  }

  /** Once the epoch has its table it is never replaced; whoever is past the tests sees it. */
  ghost predicate Inv(s: State, epoch: nat, start: State) {
    && |s.pcs| == |start.pcs|
    && (s.holder.Some? ==>
          && s.holder.value < |s.pcs|
          && (s.pcs[s.holder.value].Retesting? || s.pcs[s.holder.value].Unlocking?))
    && (if Fits(s.table, epoch) then
          if Fits(start.table, epoch) then s.table == start.table && s.made == start.made
          else s.table == Some(Table(epoch, start.made)) && s.made == start.made + 1
        else s.table == start.table && s.made == start.made)
    && (forall t :: 0 <= t < |s.pcs| ==>
          && (s.pcs[t].Retesting? || s.pcs[t].Unlocking? ==> s.holder == Some(t))
          && (s.pcs[t].Unlocking? || s.pcs[t].Returning? ==> Fits(s.table, epoch))
          && (s.pcs[t].Got? ==> Fits(s.table, epoch) && s.pcs[t].table == s.table))
  }

  lemma {:induction false} ExecKeepsInv(start: State, epoch: nat, schedule: seq<nat>)
    requires start.holder == None && forall t :: 0 <= t < |start.pcs| ==> start.pcs[t] == Idle
    ensures Inv(Exec(start, epoch, schedule), epoch, start)
  {
    if schedule != [] {
      var n := |schedule| - 1;
      ExecKeepsInv(start, epoch, schedule[..n]);
    }
  }

  /** However the calls of one epoch interleave: at most one table is made, and only if there was none
      for the epoch; and all calls get the same table, which is of that epoch. */
  lemma OneTablePerEpoch(table: Option<Table>, threads: nat, epoch: nat, schedule: seq<nat>, t: nat, u: nat)
    requires t < threads && u < threads
    ensures var start := Init(table, threads);
            var s := Exec(start, epoch, schedule);
            && |s.pcs| == threads
            && start.made <= s.made <= start.made + (if Fits(table, epoch) then 0 else 1)
            && (s.pcs[t].Got? ==> Fits(s.pcs[t].table, epoch) && s.pcs[t].table == s.table)
            && (s.pcs[t].Got? && s.pcs[u].Got? ==> s.pcs[t].table == s.pcs[u].table)
  {
    ExecKeepsInv(Init(table, threads), epoch, schedule);
  }

  function StepsLeft(pc: Pc): nat {
    match pc
    case Testing => 5
    case Locking => 4
    case Retesting => 3
    case Unlocking => 2
    case Returning => 1
    case _ => 0
  }

  /** No call hangs: while one is under way, its thread or the one that holds the lock can take a step
      that brings its own call nearer to its end and concerns no other. */
  lemma CallsEnd(table: Option<Table>, threads: nat, epoch: nat, schedule: seq<nat>, t: nat) returns (u: nat)
    requires t < threads
    ensures var s := Exec(Init(table, threads), epoch, schedule);
            && |s.pcs| == threads && u < threads && (u == t || s.holder == Some(u))
            && (StepsLeft(s.pcs[t]) > 0 ==>
                  var s' := Step(s, epoch, u);
                  |s'.pcs| == threads && s'.pcs == s.pcs[u := s'.pcs[u]] && StepsLeft(s'.pcs[u]) < StepsLeft(s.pcs[u]))
  {
    ExecKeepsInv(Init(table, threads), epoch, schedule);
    var s := Exec(Init(table, threads), epoch, schedule);
    u := if s.pcs[t].Locking? && s.holder.Some? then s.holder.value else t;
  }
}
