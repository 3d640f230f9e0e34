/** Lookups in the block index while its one writer inserts and doubles, as interleaved steps.  A
    header, once published, keeps its array of entries; the entries themselves are shared by the
    headers.  A doubled index is built in private and published in one step. */
module LookupRace {
  import opened Powers
  import opened Options
  import opened BlockIndex

  /** An entry; its key is kept as the unbounded number of its block and only used modulo 2^64. */
  datatype Cell = Cell(block: Option<int>, full: bool)

  /** Auxiliary: the shift from blocks to slots, and the capacity as a power of two. */
  datatype Header = Header(index: seq<nat>, tail: nat, shift: int, c: nat, d: nat)

  datatype Writer = Idle | Keyed

  /** A lookup of block q: with header h, with the tail's slot, and with the key read there. */
  datatype Reader =
    | Resting
    | Wants(q: int)
    | HasHeader(q: int, h: nat)
    | HasTail(q: int, h: nat, slot: nat)
    | HasKey(q: int, h: nat, slot: nat, key: nat)
    | Found(q: int, entry: nat)

  /** Auxiliary: the blocks from low to next are in the index, and after them those taken back. */
  datatype State = State(cells: seq<Cell>, headers: seq<Header>, writer: Writer, readers: seq<Reader>,
                         low: int, next: int, rewound: nat)

  datatype Action =
    | PutKey
    | StoreTail
    | Double
    | Fill
    | Rewind
    | Release(q: int)
    | Begin(r: nat, q: int)
    | Look(r: nat)

  function At(q: int, h: Header): nat
    requires |h.index| > 0
  {
    Slot(q, h.shift, |h.index|)
  }

  ghost predicate Formed(s: State) {
    |s.headers| > 0 && forall i :: 0 <= i < |s.headers| ==> |s.headers[i].index| > 0
  }

  function Current(s: State): Header
    requires |s.headers| > 0
  {
    s.headers[|s.headers| - 1]
  }

  /** The entry that a header has for block q. */
  function EntryOf(h: Header, q: int): nat
    requires |h.index| > 0
  {
    h.index[At(q, h)]
  }

  predicate IsFull(s: State, q: int)
    requires |s.headers| > 0 && |Current(s).index| > 0
  {
    var e := EntryOf(Current(s), q);
    e < |s.cells| && s.cells[e].full
  }

  predicate Live(s: State, q: int)
    requires |s.headers| > 0 && |Current(s).index| > 0
  {
    s.low <= q < s.next && IsFull(s, q)
  }

  // ---------- Steps ----------

  function SetCell(s: State, e: nat, cell: Cell): State {
    if e < |s.cells| then s.(cells := s.cells[e := cell]) else s
  }

  function SetFull(s: State, e: nat, full: bool): State {
    if e < |s.cells| then s.(cells := s.cells[e := s.cells[e].(full := full)]) else s
  }

  function SetCurrent(s: State, h: Header): State
    requires |s.headers| > 0
  {
    s.(headers := s.headers[|s.headers| - 1 := h])
  }

  /** Key and tail are stored one after the other.  When every entry holds a block, the lowest has to
      be gone. */
  function KeyPut(s: State): State
    requires |s.headers| > 0 && |Current(s).index| > 0
  {
    SetCell(s, EntryOf(Current(s), s.next), Cell(Some(s.next), false))
    .(writer := Keyed,
      low := if s.next == s.low + |Current(s).index| then s.low + 1 else s.low,
      rewound := if s.rewound > 0 then s.rewound else 1)
  }

  function TailStored(s: State): State
    requires |s.headers| > 0 && |Current(s).index| > 0
  {
    var h := Current(s);
    SetCurrent(s, h.(tail := (h.tail + 1) % |h.index|))
    .(writer := Idle, next := s.next + 1, rewound := if s.rewound > 0 then s.rewound - 1 else 0)
  }

  function Doubled(h: Header, base: nat): seq<nat>
    requires |h.index| > 0
  {
    seq(2 * |h.index|, i requires 0 <= i < 2 * |h.index| =>
      if i < |h.index| then h.index[(h.tail + 1 + i) % |h.index|] else base + i - |h.index|)
  }

  function WithDoubled(s: State): State
    requires |s.headers| > 0 && |Current(s).index| > 0 && Current(s).d > 0
  {
    var h := Current(s);
    var n := |h.index|;
    s.(cells := s.cells + seq(n, i => Cell(None, false)),
       headers := s.headers + [Header(Doubled(h, |s.cells|), n - 1, -s.low, h.c + 1, h.d - 1)])
  }

  function Looked(s: State, r: nat): State
    requires r < |s.readers| && |s.headers| > 0
  {
    match s.readers[r]
    case Resting => s
    case Wants(q) => s.(readers := s.readers[r := HasHeader(q, |s.headers| - 1)])
    case HasHeader(q, h) =>
      if h < |s.headers| then s.(readers := s.readers[r := HasTail(q, h, s.headers[h].tail)]) else s
    case HasTail(q, h, slot) =>
      if h < |s.headers| && slot < |s.headers[h].index| then
        var e := s.headers[h].index[slot];
        if e < |s.cells| && s.cells[e].block.Some? then
          s.(readers := s.readers[r := HasKey(q, h, slot, Key(s.cells[e].block.value))])
        else s
      else s
    case HasKey(q, h, slot, key) =>
      if h < |s.headers| && |s.headers[h].index| > 0 then
        var n := |s.headers[h].index|;
        s.(readers := s.readers[r := Found(q, s.headers[h].index[BlockIndex.Found(slot, key, Key(q), n)])])
      else s
    case Found(_, _) => s.(readers := s.readers[r := Resting])
  }

  predicate Looking(reader: Reader, q: int) {
    !reader.Resting? && reader.q == q
  }

  /** The next key is put over an entry that is not full; otherwise the index is doubled.  A block is
      released when nobody looks for it any more. */
  ghost predicate Enabled(s: State, a: Action) {
    && |s.headers| > 0 && |Current(s).index| > 0
    && match a
       case PutKey => s.writer == Idle && !IsFull(s, s.next)
       case StoreTail => s.writer == Keyed
       case Double => s.writer == Idle && IsFull(s, s.next) && Current(s).d > 0
       case Fill => s.writer == Idle && s.low < s.next
       case Rewind => s.writer == Idle && s.low < s.next && !IsFull(s, s.next - 1)
       case Release(q) => Live(s, q) && forall reader :: reader in s.readers ==> !Looking(reader, q)
       case Begin(r, q) => r < |s.readers| && s.readers[r] == Resting && Live(s, q)
       case Look(r) => r < |s.readers|
  }

  function Step(s: State, a: Action): State
    requires Enabled(s, a)
  {
    var h := Current(s);
    match a
    case PutKey => KeyPut(s)
    case StoreTail => TailStored(s)
    case Double => WithDoubled(s)
    case Fill => SetFull(s, EntryOf(h, s.next - 1), true)
    case Rewind =>
      SetCurrent(s, h.(tail := (h.tail - 1) % |h.index|)).(next := s.next - 1, rewound := s.rewound + 1)
    case Release(q) => SetFull(s, EntryOf(h, q), false)
    case Begin(r, q) => s.(readers := s.readers[r := Wants(q)])
    case Look(r) => Looked(s, r)
  }

  function Init(c: nat, d: nat, capacity: nat, first: int, readers: nat): State
    requires IsCapacity(capacity, c, d)
  {
    State(seq(capacity, i => Cell(None, false)),
          [Header(seq(capacity, i => i), capacity - 1, -first, c, d)], Idle,
          seq(readers, i => Resting), first, first, 0)
  }

  // ---------- The invariant ----------

  /** Every slot of a header has an entry of its own, which holds a block of that slot or none. */
  ghost predicate SlotOk(cells: seq<Cell>, h: Header, i: nat)
    requires i < |h.index|
  {
    && h.index[i] < |cells|
    && (cells[h.index[i]].block.Some? ==> At(cells[h.index[i]].block.value, h) == i)
    && forall j :: 0 <= j < |h.index| && h.index[j] == h.index[i] ==> j == i
  }

  ghost predicate HeaderOk(cells: seq<Cell>, h: Header) {
    && IsCapacity(|h.index|, h.c, h.d) && h.tail < |h.index|
    && forall i: nat :: i < |h.index| ==> SlotOk(cells, h, i)
  }

  /** Block q of the current index. */
  ghost predicate WindowOk(s: State, q: int)
    requires Formed(s)
  {
    var e := EntryOf(Current(s), q);
    && e < |s.cells|
    && (q < s.next + s.rewound ==> s.cells[e].block == Some(q))
    && (q >= s.next ==> !s.cells[e].full)
    && (q >= s.next + s.rewound ==> s.cells[e].block == None)
  }

  ghost predicate Divides(a: nat, b: nat) {
    exists m: nat :: b == m * a
  }

  /** A header that has been replaced: every entry holds a block, and its capacity divides the present
      one. */
  ghost predicate OldOk(s: State, i: nat)
    requires Formed(s) && i < |s.headers|
  {
    var h := s.headers[i];
    && Divides(|h.index|, |Current(s).index|)
    && forall j :: 0 <= j < |h.index| ==> h.index[j] < |s.cells| && s.cells[h.index[j]].block.Some?
  }

  /** The key was that of some block of the slot. */
  ghost predicate KeyOf(h: Header, slot: nat, key: nat)
    requires |h.index| > 0
  {
    exists p: int :: At(p, h) == slot && Key(p) == key
  }

  /** The block looked for is live, and its entry is the same in the reader's header and the current
      one. */
  ghost predicate ReaderOk(s: State, reader: Reader)
    requires Formed(s)
  {
    reader.Resting? || (
      && Live(s, reader.q)
      && (reader.HasHeader? || reader.HasTail? || reader.HasKey? ==>
            && reader.h < |s.headers|
            && EntryOf(s.headers[reader.h], reader.q) == EntryOf(Current(s), reader.q))
      && (reader.HasTail? ==>
            && reader.slot < |s.headers[reader.h].index|
            && s.headers[reader.h].index[reader.slot] < |s.cells|
            && s.cells[s.headers[reader.h].index[reader.slot]].block.Some?)
      && (reader.HasKey? ==> KeyOf(s.headers[reader.h], reader.slot, reader.key))
      && (reader.Found? ==> reader.entry == EntryOf(Current(s), reader.q)))
  }

  ghost predicate Inv(s: State) {
    && Formed(s)
    && s.low <= s.next && s.next + s.rewound <= s.low + |Current(s).index|
    && (s.writer == Keyed ==> s.rewound > 0)
    && Current(s).tail == At(s.next - 1, Current(s))
    && (forall i :: 0 <= i < |s.headers| ==> HeaderOk(s.cells, s.headers[i]))
    && (forall q :: s.low <= q < s.low + |Current(s).index| ==> WindowOk(s, q))
    && (forall i :: 0 <= i < |s.headers| - 1 ==> OldOk(s, i))
    && forall r :: 0 <= r < |s.readers| ==> ReaderOk(s, s.readers[r])
  }

  // ---------- A change of one entry ----------

  /** Entries of different blocks of the current index are different. */
  lemma EntriesDiffer(s: State, p: int, q: int)
    requires Inv(s) && s.low <= p < s.low + |Current(s).index| && s.low <= q < s.low + |Current(s).index| && p != q
    ensures EntryOf(Current(s), p) != EntryOf(Current(s), q)
  {
    var h := Current(s);
    if p < q {
      SlotsDiffer(p, q, h.shift, |h.index|);
    } else {
      SlotsDiffer(q, p, h.shift, |h.index|);
    }
    assert SlotOk(s.cells, h, At(p, h));
  }

  /** Filling or releasing changes no key. */
  lemma FullStep(s: State, p: int, full: bool)
    requires Inv(s) && s.low <= p < s.next
    requires full || forall r :: 0 <= r < |s.readers| ==> !Looking(s.readers[r], p)
    ensures Inv(SetFull(s, EntryOf(Current(s), p), full))
  {
    var e := EntryOf(Current(s), p);
    var s' := SetFull(s, e, full);
    assert WindowOk(s, p);
    forall i | 0 <= i < |s'.headers| ensures HeaderOk(s'.cells, s'.headers[i]) {
      SameKeys(s.cells, s'.cells, s.headers[i]);
    }
    forall q | s'.low <= q < s'.low + |Current(s').index| ensures WindowOk(s', q) {
      assert WindowOk(s, q);
      if q != p {
        EntriesDiffer(s, p, q);
      }
    }
    forall i | 0 <= i < |s'.headers| - 1 ensures OldOk(s', i) {
      assert OldOk(s, i);
    }
    forall r | 0 <= r < |s'.readers| ensures ReaderOk(s', s'.readers[r]) {
      assert ReaderOk(s, s.readers[r]) && !(Looking(s.readers[r], p) && !full);
      if !s.readers[r].Resting? && s.readers[r].q != p {
        EntriesDiffer(s, p, s.readers[r].q);
      }
    }
  }

  lemma SameKeys(cells: seq<Cell>, after: seq<Cell>, h: Header)
    requires HeaderOk(cells, h) && |after| >= |cells|
    requires forall e :: 0 <= e < |cells| ==> after[e].block == cells[e].block
    ensures HeaderOk(after, h)
  {
    forall i: nat | i < |h.index| ensures SlotOk(after, h, i) {
      assert SlotOk(cells, h, i);
    }
  }

  // ---------- Steps of a reader ----------

  lemma OneReader(s: State, r: nat, reader: Reader)
    requires Inv(s) && r < |s.readers| && ReaderOk(s, reader)
    ensures Inv(s.(readers := s.readers[r := reader]))
  {
    var s' := s.(readers := s.readers[r := reader]);
    forall q | s'.low <= q < s'.low + |Current(s').index| ensures WindowOk(s', q) {
      assert WindowOk(s, q);
    }
    forall i | 0 <= i < |s'.headers| - 1 ensures OldOk(s', i) {
      assert OldOk(s, i);
    }
    forall t | 0 <= t < |s'.readers| ensures ReaderOk(s', s'.readers[t]) {
      assert t != r ==> ReaderOk(s, s.readers[t]);
    }
  }

  /** The slot of a header's tail always holds a block, once there is a live one. */
  lemma TailHasBlock(s: State, i: nat)
    requires Inv(s) && i < |s.headers| && s.low < s.next
    ensures var h := s.headers[i];
            && h.tail < |h.index| && h.index[h.tail] < |s.cells|
            && s.cells[h.index[h.tail]].block.Some?
  {
    var h := s.headers[i];
    assert HeaderOk(s.cells, h) && SlotOk(s.cells, h, h.tail);
    if i == |s.headers| - 1 {
      assert WindowOk(s, s.next - 1);
    } else {
      assert OldOk(s, i);
    }
  }

  lemma LookStep(s: State, r: nat)
    requires Inv(s) && r < |s.readers|
    ensures Inv(Looked(s, r))
  {
    var reader := s.readers[r];
    assert ReaderOk(s, reader);
    match reader {
      case Resting =>
      case Wants(q) => OneReader(s, r, HasHeader(q, |s.headers| - 1));
      case HasHeader(q, h) =>
        TailHasBlock(s, h);
        OneReader(s, r, HasTail(q, h, s.headers[h].tail));
      case HasTail(q, h, slot) =>
        var block := s.cells[s.headers[h].index[slot]].block.value;
        assert HeaderOk(s.cells, s.headers[h]) && SlotOk(s.cells, s.headers[h], slot);
        assert At(block, s.headers[h]) == slot && Key(block) == Key(block);
        OneReader(s, r, HasKey(q, h, slot, Key(block)));
      case HasKey(q, h, slot, key) =>
        var header := s.headers[h];
        assert HeaderOk(s.cells, header);
        var p: int :| At(p, header) == slot && Key(p) == key;
        FoundIsSlot(p, q, header.shift, |header.index|, header.c, header.d);
        OneReader(s, r, Found(q, EntryOf(header, q)));
      case Found(_, _) => OneReader(s, r, Resting);
    }
  }

  // ---------- Steps of the writer ----------

  /** The tail moves by one block, over an entry that is not full; what is written stays. */
  lemma TailMoves(s: State, s': State, tail: nat)
    requires Inv(s)
    requires s' == SetCurrent(s, Current(s).(tail := tail)).(writer := Idle, next := s'.next, rewound := s'.rewound)
    requires s.low <= s'.next && s'.next + s'.rewound == s.next + s.rewound
    requires s'.next == s.next + 1 || (s'.next == s.next - 1 && !IsFull(s, s.next - 1))
    requires tail == At(s'.next - 1, Current(s))
    ensures Inv(s')
  {
    var h, h' := Current(s), Current(s');
    assert |h'.index| == |h.index| && h'.index == h.index && h'.shift == h.shift;
    forall i | 0 <= i < |s'.headers| ensures HeaderOk(s'.cells, s'.headers[i]) {
      assert HeaderOk(s.cells, s.headers[i]);
      forall j: nat | j < |s'.headers[i].index| ensures SlotOk(s'.cells, s'.headers[i], j) {
        assert SlotOk(s.cells, s.headers[i], j);
      }
    }
    forall q | s'.low <= q < s'.low + |h'.index| ensures WindowOk(s', q) {
      assert WindowOk(s, q);
      assert q == s.next - 1 ==> !IsFull(s, q) || s'.next == s.next + 1;
    }
    forall i | 0 <= i < |s'.headers| - 1 ensures OldOk(s', i) {
      assert OldOk(s, i);
    }
    forall r | 0 <= r < |s'.readers| ensures ReaderOk(s', s'.readers[r]) {
      assert ReaderOk(s, s.readers[r]);
    }
  }

  lemma StoreTailStep(s: State)
    requires Inv(s) && s.writer == Keyed
    ensures Inv(TailStored(s))
  {
    var h := Current(s);
    SlotMoves(s.next - 1, 1, h.shift, |h.index|);
    TailMoves(s, TailStored(s), (h.tail + 1) % |h.index|);
  }

  lemma RewindStep(s: State)
    requires Inv(s) && Enabled(s, Rewind)
    ensures Inv(Step(s, Rewind))
  {
    var h := Current(s);
    SlotMoves(s.next - 1, -1, h.shift, |h.index|);
    TailMoves(s, Step(s, Rewind), (h.tail - 1) % |h.index|);
  }

  /** What was in the next block's slot: nothing, that block taken back, or the lowest block. */
  lemma NextSlotHolds(s: State)
    requires Inv(s)
    ensures var e, n := EntryOf(Current(s), s.next), |Current(s).index|;
            && e < |s.cells|
            && s.cells[e].block in {None, Some(s.next), Some(s.next - n)}
            && (s.cells[e].full ==> s.next == s.low + n)
  {
    var h := Current(s);
    if s.next < s.low + |h.index| {
      assert WindowOk(s, s.next);
    } else {
      assert WindowOk(s, s.low);
      SlotTurns(s.low, h.shift, |h.index|);
    }
  }

  /** Blocks a multiple of the capacity apart share a slot of every header. */
  lemma SameSlot(h: Header, p: int, n: nat)
    requires |h.index| > 0 && Divides(|h.index|, n)
    ensures At(p - n, h) == At(p, h)
  {
    var m: nat :| n == m * |h.index|;
    var k: int := 0 - m;
    assert k * |h.index| == 0 - n;
    ModShift(p + h.shift, k, |h.index|);
  }

  lemma KeyKeepsHeader(s: State, i: nat)
    requires Inv(s) && i < |s.headers|
    ensures HeaderOk(KeyPut(s).cells, s.headers[i])
  {
    NextSlotHolds(s);
    var e, h, after := EntryOf(Current(s), s.next), s.headers[i], KeyPut(s).cells;
    assert HeaderOk(s.cells, h);
    forall j: nat | j < |h.index| ensures SlotOk(after, h, j) {
      assert SlotOk(s.cells, h, j);
      if h.index[j] == e {
        if i == |s.headers| - 1 {
          assert SlotOk(s.cells, h, At(s.next, h));
        } else {
          assert OldOk(s, i);
          SameSlot(h, s.next, |Current(s).index|);
        }
      }
    }
  }

  lemma PutKeyStep(s: State)
    requires Inv(s) && s.writer == Idle && !IsFull(s, s.next)
    ensures Inv(KeyPut(s))
  {
    var s', h := KeyPut(s), Current(s);
    var e := EntryOf(h, s.next);
    NextSlotHolds(s);
    SlotTurns(s.low, h.shift, |h.index|);
    forall i | 0 <= i < |s'.headers| ensures HeaderOk(s'.cells, s'.headers[i]) {
      KeyKeepsHeader(s, i);
    }
    PutKeyWindow(s);
    forall i | 0 <= i < |s'.headers| - 1 ensures OldOk(s', i) {
      assert OldOk(s, i);
    }
    forall r | 0 <= r < |s'.readers| ensures ReaderOk(s', s'.readers[r]) {
      assert ReaderOk(s, s.readers[r]);
    }
  }

  lemma PutKeyWindow(s: State)
    requires Inv(s) && s.writer == Idle && !IsFull(s, s.next)
    ensures forall q :: KeyPut(s).low <= q < KeyPut(s).low + |Current(s).index| ==> WindowOk(KeyPut(s), q)
  {
    var s', h := KeyPut(s), Current(s);
    var low := s'.low;
    NextSlotHolds(s);
    forall q | low <= q < low + |h.index| ensures WindowOk(s', q) {
      if q != s.next {
        assert WindowOk(s, q);
        if q < s.next {
          SlotsDiffer(q, s.next, h.shift, |h.index|);
        } else {
          SlotsDiffer(s.next, q, h.shift, |h.index|);
        }
        assert HeaderOk(s.cells, h) && SlotOk(s.cells, h, At(q, h));
      }
    }
  }

  /** Where the doubled index has block q. */
  lemma DoubledEntry(s: State, q: int)
    requires Inv(s) && Enabled(s, Double)
    requires s.low <= q < s.low + 2 * |Current(s).index|
    ensures var h, h' := Current(s), Current(WithDoubled(s));
            var n := |h.index|;
            && s.next == s.low + n && s.rewound == 0
            && |h'.index| == 2 * n && At(q, h') == q - s.low
            && EntryOf(h', q) == if q < s.low + n then EntryOf(h, q) else |s.cells| + (q - s.low - n)
  {
    NextSlotHolds(s);
    var h, h' := Current(s), Current(WithDoubled(s));
    var n, i := |h.index|, q - s.low;
    ModUnique(i, 0, 2 * n, i);
    if i < n {
      SlotMoves(s.next - 1, 1 + i, h.shift, n);
      SlotTurns(q, h.shift, n);
    }
  }

  lemma SlotHasBlock(s: State, j: nat) returns (q: int)
    requires Inv(s) && j < |Current(s).index|
    ensures s.low <= q < s.low + |Current(s).index| && At(q, Current(s)) == j
  {
    var h := Current(s);
    var n, a := |h.index|, At(s.low, h);
    var d := if j >= a then j - a else j - a + n;
    q := s.low + d;
    SlotMoves(s.low, d, h.shift, n);
    ModUnique(a + d, if j >= a then 0 else 1, n, j);
  }

  lemma DoubledHeader(s: State)
    requires Inv(s) && Enabled(s, Double)
    ensures HeaderOk(WithDoubled(s).cells, Current(WithDoubled(s)))
  {
    var s', h := WithDoubled(s), Current(s);
    var h', n := Current(s'), |h.index|;
    assert HeaderOk(s.cells, h);
    CapacityDoubles(n, h.c, h.d);
    forall i: nat | i < 2 * n ensures SlotOk(s'.cells, h', i) {
      DoubledSlotOk(s, i);
    }
  }

  lemma DoubledSlotOk(s: State, i: nat)
    requires Inv(s) && Enabled(s, Double) && i < 2 * |Current(s).index|
    ensures SlotOk(WithDoubled(s).cells, Current(WithDoubled(s)), i)
  {
    var s', h := WithDoubled(s), Current(s);
    var h', n := Current(s'), |h.index|;
    DoubledEntry(s, s.low + i);
    assert i < n ==> WindowOk(s, s.low + i);
    forall j | 0 <= j < 2 * n && h'.index[j] == h'.index[i] ensures j == i {
      DoubledEntry(s, s.low + j);
      assert j < n ==> WindowOk(s, s.low + j);
      if i < n && j < n && i != j {
        EntriesDiffer(s, s.low + i, s.low + j);
      }
    }
  }

  lemma DoubleOld(s: State, i: nat)
    requires Inv(s) && Enabled(s, Double) && i < |s.headers|
    ensures OldOk(WithDoubled(s), i)
  {
    var s', h := WithDoubled(s), s.headers[i];
    var n := |Current(s).index|;
    DoubledEntry(s, s.low);
    if i == |s.headers| - 1 {
      assert 2 * n == 2 * |h.index|;
      forall j | 0 <= j < n ensures h.index[j] < |s.cells| && s.cells[h.index[j]].block.Some? {
        var q := SlotHasBlock(s, j);
        assert WindowOk(s, q);
      }
    } else {
      assert OldOk(s, i);
      var m: nat :| n == m * |h.index|;
      assert 2 * n == (2 * m) * |h.index|;
    }
  }

  lemma DoubleStep(s: State)
    requires Inv(s) && Enabled(s, Double)
    ensures Inv(WithDoubled(s))
  {
    var s' := WithDoubled(s);
    DoubledHeader(s);
    NextSlotHolds(s);
    DoubledEntry(s, s.next - 1);
    forall i | 0 <= i < |s'.headers| ensures HeaderOk(s'.cells, s'.headers[i]) {
      if i < |s.headers| {
        SameKeys(s.cells, s'.cells, s.headers[i]);
      }
    }
    forall q | s'.low <= q < s'.low + |Current(s').index| ensures WindowOk(s', q) {
      DoubledEntry(s, q);
      assert q < s.next ==> WindowOk(s, q);
    }
    forall i | 0 <= i < |s'.headers| - 1 ensures OldOk(s', i) {
      DoubleOld(s, i);
    }
    forall r | 0 <= r < |s'.readers| ensures ReaderOk(s', s'.readers[r]) {
      assert ReaderOk(s, s.readers[r]);
      if !s.readers[r].Resting? {
        DoubledEntry(s, s.readers[r].q);
      }
    }
  }

  // ---------- Whole runs ----------

  lemma StepKeepsInv(s: State, a: Action)
    requires Inv(s) && Enabled(s, a)
    ensures Inv(Step(s, a))
  {
    match a {
      case PutKey => PutKeyStep(s);
      case StoreTail => StoreTailStep(s);
      case Double => DoubleStep(s);
      case Fill => FullStep(s, s.next - 1, true);
      case Rewind => RewindStep(s);
      case Release(q) =>
        assert forall r :: 0 <= r < |s.readers| ==> s.readers[r] in s.readers;
        FullStep(s, q, false);
      case Begin(r, q) => OneReader(s, r, Wants(q));
      case Look(r) => LookStep(s, r);
    }
  }

  lemma InitInv(c: nat, d: nat, capacity: nat, first: int, readers: nat)
    requires IsCapacity(capacity, c, d)
    ensures Inv(Init(c, d, capacity, first, readers))
  {
    ModUnique(-1, -1, capacity, capacity - 1);
  }

  ghost predicate IsRun(run: seq<State>, actions: seq<Action>) {
    && |run| == |actions| + 1
    && forall i {:trigger actions[i]} ::
         0 <= i < |actions| ==> Enabled(run[i], actions[i]) && run[i + 1] == Step(run[i], actions[i])
  }

  lemma {:induction false} RunKeepsInv(
      run: seq<State>, actions: seq<Action>, c: nat, d: nat, capacity: nat, first: int, readers: nat, i: nat)
    requires IsCapacity(capacity, c, d) && IsRun(run, actions) && run[0] == Init(c, d, capacity, first, readers)
    requires i < |run|
    ensures Inv(run[i])
  {
    if i == 0 {
      InitInv(c, d, capacity, first, readers);
    } else {
      RunKeepsInv(run, actions, c, d, capacity, first, readers, i - 1);
      assert run[i] == Step(run[i - 1], actions[i - 1]);
      StepKeepsInv(run[i - 1], actions[i - 1]);
    }
  }

  /** In every interleaving of one writer that inserts, doubles and takes back and any number of lookups
      of live blocks: the entry that a lookup finds is the block's own and still holds it; and no lookup
      meets an entry without a key or a slot outside its array. */
  lemma LookupsSound(
      run: seq<State>, actions: seq<Action>, c: nat, d: nat, capacity: nat, first: int, readers: nat, i: nat, r: nat)
    requires IsCapacity(capacity, c, d) && IsRun(run, actions) && run[0] == Init(c, d, capacity, first, readers)
    requires i < |run| && r < |run[i].readers|
    ensures var s := run[i];
            && (s.readers[r].Found? ==>
                  && s.readers[r].entry < |s.cells|
                  && s.cells[s.readers[r].entry] == Cell(Some(s.readers[r].q), true))
            && (!s.readers[r].Resting? ==> Enabled(s, Look(r)) && Looked(s, r) != s)
  {
    RunKeepsInv(run, actions, c, d, capacity, first, readers, i);
    var s := run[i];
    assert ReaderOk(s, s.readers[r]);
    if !s.readers[r].Resting? {
      assert WindowOk(s, s.readers[r].q);
      assert Looked(s, r).readers[r] != s.readers[r];
    }
  }
}
