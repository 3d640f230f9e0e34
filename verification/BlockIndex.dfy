/** The block index of an implicit producer: a circular array of entries, doubled when full, in which
    the block of a queue index is found by arithmetic modulo 2^64.  Blocks are numbered without bound
    here; block q holds the indices from 32 q on, and its key is that number modulo 2^64. */
module BlockIndex {
  import opened Powers
  import opened Options

  const WORD: nat := 0x1_0000_0000_0000_0000
  const BLOCK: nat := 32
  const LIMIT: nat := 0x800_0000_0000_0000

  /** A key, unless the entry was never used, and whether it holds a block with items in it. */
  datatype Entry = Entry(key: Option<nat>, full: bool)

  const FREE := Entry(None, false)

  function Key(q: int): nat {
    q * BLOCK % WORD
  }

  function Slot(q: int, shift: int, capacity: nat): nat
    requires capacity > 0
  {
    (q + shift) % capacity
  }

  /** The capacity is a power of two that divides 2^59 = 2^64 / 32. */
  predicate IsCapacity(n: nat, c: nat, d: nat) {
    n == Pow2(c) && Pow2(c) * Pow2(d) == LIMIT
  }

  // ---------- Slots ----------

  lemma SlotsDiffer(p: int, q: int, shift: int, capacity: nat)
    requires capacity > 0 && p < q < p + capacity
    ensures Slot(p, shift, capacity) != Slot(q, shift, capacity)
  {
    var a, b, d, r := p + shift, q + shift, q - p, Slot(p, shift, capacity);
    if r == b % capacity {
      var x, y := a / capacity, b / capacity;
      if r + d < capacity {
        SameQuotient(y, x, capacity, r, r + d);
      } else {
        assert (x + 1) * capacity == x * capacity + capacity;
        SameQuotient(y, x + 1, capacity, r, r + d - capacity);
      }
    }
  }

  /** Moving on from a slot by d, in front or behind, is the slot d blocks on. */
  lemma SlotMoves(q: int, d: int, shift: int, capacity: nat)
    requires capacity > 0
    ensures (Slot(q, shift, capacity) + d) % capacity == Slot(q + d, shift, capacity)
  {
    var a := q + shift;
    var k := a / capacity;
    assert a % capacity + d == a + d + (-k) * capacity;
    ModShift(a + d, -k, capacity);
  }

  lemma SlotTurns(q: int, shift: int, capacity: nat)
    requires capacity > 0
    ensures Slot(q + capacity, shift, capacity) == Slot(q, shift, capacity)
  {
    ModShift(q + shift, 1, capacity);
  }

  // ---------- Finding a block ----------

  lemma KeyIs(q: int)
    ensures Key(q) == BLOCK * (q % LIMIT)
  {
    ModUnique(q * BLOCK, q / LIMIT, WORD, BLOCK * (q % LIMIT));
  }

  /** The difference of two keys, in 64 bits and divided without sign, is the difference of the blocks
      modulo 2^59. */
  lemma OffsetIs(p: int, q: int)
    ensures (Key(q) - Key(p)) % WORD / BLOCK == (q - p) % LIMIT
  {
    KeyIs(p);
    KeyIs(q);
    var x, y := q % LIMIT, p % LIMIT;
    if x >= y {
      ModUnique(q - p, q / LIMIT - p / LIMIT, LIMIT, x - y);
      ModUnique(Key(q) - Key(p), 0, WORD, BLOCK * (x - y));
    } else {
      ModUnique(q - p, q / LIMIT - p / LIMIT - 1, LIMIT, x - y + LIMIT);
      ModUnique(Key(q) - Key(p), -1, WORD, BLOCK * (x - y + LIMIT));
    }
  }

  /** Where a lookup goes that starts from a slot and the key found there. */
  function Found(slot: nat, key: nat, wanted: nat, capacity: nat): nat
    requires capacity > 0
  {
    (slot + (wanted - key) % WORD / BLOCK) % capacity
  }

  /** From the slot of any block and its key, the arithmetic leads to the slot of the block wanted, in
      front or behind, however often the keys have wrapped. */
  lemma FoundIsSlot(p: int, q: int, shift: int, capacity: nat, c: nat, d: nat)
    requires IsCapacity(capacity, c, d)
    ensures Found(Slot(p, shift, capacity), Key(p), Key(q), capacity) == Slot(q, shift, capacity)
  {
    OffsetIs(p, q);
    var a, e, m := p + shift, q - p, Pow2(d);
    var k, l := a / capacity, e / LIMIT;
    assert a % capacity == a - k * capacity && e % LIMIT == e - l * LIMIT;
    assert l * LIMIT == (l * m) * capacity;
    assert (-k - l * m) * capacity == -(k * capacity) - (l * m) * capacity;
    ModShift(q + shift, -k - l * m, capacity);
  }

  /** Twice that capacity is one too many: the block just before the tail's is not found. */
  lemma TooLarge(shift: int)
    ensures Found(Slot(0, shift, 2 * LIMIT), Key(0), Key(-1), 2 * LIMIT) != Slot(-1, shift, 2 * LIMIT)
  {
    OffsetIs(0, -1);
    var n := 2 * LIMIT;
    var a := Slot(0, shift, n);
    SlotMoves(0, -1, shift, n);
    assert (-1) % LIMIT == LIMIT - 1;
    if a + LIMIT - 1 < n {
      ModUnique(a + LIMIT - 1, 0, n, a + LIMIT - 1);
    } else {
      ModUnique(a + LIMIT - 1, 1, n, a + LIMIT - 1 - n);
    }
    if a >= 1 {
      ModUnique(a - 1, 0, n, a - 1);
    } else {
      ModUnique(a - 1, -1, n, a - 1 + n);
    }
  }

  /** Different blocks in the index have different keys. */
  lemma KeysDiffer(p: int, q: int)
    requires p < q < p + LIMIT
    ensures Key(p) != Key(q)
  {
    KeyIs(p);
    KeyIs(q);
    SlotsDiffer(p, q, 0, LIMIT);
  }

  // ---------- The index ----------

  /** The blocks from low up to next are in the index, then those whose insertion was taken back, then
      entries never used: all the way round. */
  ghost predicate Shape(index: seq<Entry>, low: int, next: int, rewound: nat, shift: int) {
    && |index| > 0 && low <= next && next + rewound <= low + |index|
    && forall q :: low <= q < low + |index| ==> EntryOk(index, next, rewound, shift, q)
  }

  ghost predicate EntryOk(index: seq<Entry>, next: int, rewound: nat, shift: int, q: int)
    requires |index| > 0
  {
    var e := index[Slot(q, shift, |index|)];
    && (q < next + rewound ==> e.key == Some(Key(q)))
    && (q >= next ==> !e.full)
    && (q >= next + rewound ==> e == FREE)
  }

  /** A change of one entry, for block p, concerns no other block. */
  lemma Updated(index: seq<Entry>, low: int, shift: int, p: int, q: int, e: Entry)
    requires |index| > 0 && low <= p < low + |index| && low <= q < low + |index|
    ensures index[Slot(p, shift, |index|) := e][Slot(q, shift, |index|)]
            == if q == p then e else index[Slot(q, shift, |index|)]
  {
    if q < p {
      SlotsDiffer(q, p, shift, |index|);
    } else if p < q {
      SlotsDiffer(p, q, shift, |index|);
    }
  }

  /** Putting the key of the next block in its slot, which holds no live block, drops at most the
      lowest block, and only when all the way round is taken. */
  lemma PutShape(index: seq<Entry>, low: int, next: int, rewound: nat, shift: int)
    requires Shape(index, low, next, rewound, shift) && !index[Slot(next, shift, |index|)].full
    ensures var after := index[Slot(next, shift, |index|) := Entry(Some(Key(next)), false)];
            var low' := if next == low + |index| then low + 1 else low;
            Shape(after, low', next + 1, if rewound > 0 then rewound - 1 else 0, shift)
  {
    var n := |index|;
    var after := index[Slot(next, shift, n) := Entry(Some(Key(next)), false)];
    var low' := if next == low + n then low + 1 else low;
    var rewound' := if rewound > 0 then rewound - 1 else 0;
    var next' := next + 1;
    SlotTurns(low, shift, n);
    forall q | low' <= q < low' + n ensures EntryOk(after, next', rewound', shift, q) {
      Updated(index, low', shift, next, q, Entry(Some(Key(next)), false));
      assert q < low + n ==> EntryOk(index, next, rewound, shift, q);
    }
  }

  /** What doubling makes of the index: the old entries in order, the rest unused. */
  ghost predicate Doubled(index: seq<Entry>, tail: nat, after: seq<Entry>)
    requires |index| > 0
  {
    && |after| == 2 * |index|
    && (forall i :: 0 <= i < |index| ==> after[i] == index[(tail + 1 + i) % |index|])
    && forall i :: |index| <= i < |after| ==> after[i] == FREE
  }

  /** Doubling a full index moves block q to slot q - low. */
  lemma DoubledSlot(index: seq<Entry>, low: int, shift: int, tail: nat, after: seq<Entry>, q: int)
    requires |index| > 0 && tail == Slot(low + |index| - 1, shift, |index|) && Doubled(index, tail, after)
    requires low <= q < low + |after|
    ensures after[Slot(q, -low, |after|)] == if q < low + |index| then index[Slot(q, shift, |index|)] else FREE
  {
    var n := |index|;
    ModUnique(q - low, 0, |after|, q - low);
    if q < low + n {
      SlotMoves(low + n - 1, 1 + q - low, shift, n);
      SlotTurns(q, shift, n);
    }
  }

  lemma DoubledShape(index: seq<Entry>, low: int, shift: int, tail: nat, after: seq<Entry>)
    requires Shape(index, low, low + |index|, 0, shift)
    requires tail == Slot(low + |index| - 1, shift, |index|) && Doubled(index, tail, after)
    ensures Shape(after, low, low + |index|, 0, -low)
  {
    var next, shift' := low + |index|, -low;
    forall q | low <= q < low + |after| ensures EntryOk(after, next, 0, shift', q) {
      DoubledSlot(index, low, shift, tail, after, q);
      assert q < low + |index| ==> EntryOk(index, low + |index|, 0, shift, q);
    }
  }

  lemma CapacityDoubles(n: nat, c: nat, d: nat)
    requires IsCapacity(n, c, d) && d > 0
    ensures IsCapacity(2 * n, c + 1, d - 1)
  {
    assert Pow2(d) == 2 * Pow2(d - 1);
    assert (2 * Pow2(c)) * Pow2(d - 1) == Pow2(c) * (2 * Pow2(d - 1));
  }

  class Index {
    var index: seq<Entry>
    var tail: nat
    var nextCapacity: nat
    ghost var low: int
    ghost var next: int
    ghost var rewound: nat
    ghost var shift: int
    ghost var c: nat
    ghost var d: nat

    ghost predicate Valid()
      reads this
    {
      && IsCapacity(|index|, c, d) && nextCapacity == 2 * |index|
      && Shape(index, low, next, rewound, shift)
      && tail == Slot(next - 1, shift, |index|)
    }

    /** Block q is in the index and not yet released. */
    ghost predicate Live(q: int)
      reads this
      requires |index| > 0
    {
      low <= q < next && index[Slot(q, shift, |index|)].full
    }

    constructor (ghost c: nat, ghost d: nat, capacity: nat, ghost first: int)
      requires IsCapacity(capacity, c, d)
      ensures Valid() && |index| == capacity && next == first && forall q :: !Live(q)
    {
      index := seq(capacity, i => FREE);
      tail, nextCapacity := capacity - 1, 2 * capacity;
      low, next, rewound, shift := first, first, 0, -first;
      this.c, this.d := c, d;
      new;
      ModUnique(-1, -1, capacity, capacity - 1);
    }

    method PutKey(key: nat, newTail: nat)
      requires Valid() && key == Key(next) && newTail == Slot(next, shift, |index|) && !index[newTail].full
      modifies this`index, this`tail, this`low, this`next, this`rewound
      ensures Valid() && next == old(next) + 1 && |index| == old(|index|)
      ensures index[tail] == Entry(Some(key), false)
      ensures forall q :: Live(q) <==> old(Live(q))
    {
      PutShape(index, low, next, rewound, shift);
      SlotTurns(low, shift, |index|);
      ghost var was, wasLow := index, low;
      index := index[newTail := Entry(Some(key), false)];
      if next == low + |index| {
        low := low + 1;
      }
      next, rewound := next + 1, if rewound > 0 then rewound - 1 else 0;
      tail := newTail;
      forall q ensures Live(q) <==> old(Live(q)) {
        if low <= q < next {
          Updated(was, low, shift, next - 1, q, Entry(Some(key), false));
        }
      }
    }

    method CopyIndex() returns (after: seq<Entry>)
      requires |index| > 0 && tail < |index|
      ensures Doubled(index, tail, after)
    {
      var capacity, pos, i := |index|, tail, 0;
      after := [];
      while i == 0 || pos != tail
        invariant |after| == i <= capacity && pos == Slot(i, tail, capacity)
        invariant forall k :: 0 <= k < i ==> after[k] == index[(tail + 1 + k) % capacity]
        decreases capacity - i
      {
        SlotTurns(0, tail, capacity);
        SlotMoves(i, 1, tail, capacity);
        pos := (pos + 1) % capacity;
        after := after + [index[pos]];
        i := i + 1;
      }
      if i < capacity {
        SlotsDiffer(0, i, tail, capacity);
      }
      for k := 0 to capacity
        invariant |after| == capacity + k
        invariant forall j :: 0 <= j < capacity ==> after[j] == index[(tail + 1 + j) % capacity]
        invariant forall j :: capacity <= j < |after| ==> after[j] == FREE
      {
        after := after + [FREE];
      }
    }

    /** A new index of twice the capacity: the old entries from the one after the tail on, and as many
        unused ones. */
    method Double()
      requires Valid() && next == low + |index| && d > 0
      modifies this
      ensures Valid() && |index| == 2 * old(|index|) && next == old(next) && low == old(low)
      ensures forall q :: Live(q) <==> old(Live(q))
    {
      var after := CopyIndex();
      DoubledShape(index, low, shift, tail, after);
      CapacityDoubles(|index|, c, d);
      forall q | low <= q < next
        ensures after[Slot(q, -low, |after|)] == index[Slot(q, shift, |index|)]
      {
        DoubledSlot(index, low, shift, tail, after, q);
      }
      index, tail := after, (|index| - 1) % nextCapacity;
      shift, c, d := -low, c + 1, d - 1;
      nextCapacity := 2 * nextCapacity;
      assert tail == Slot(next - 1, shift, |index|);
    }

    method NextTail() returns (newTail: nat)
      requires Valid()
      ensures newTail == Slot(next, shift, |index|) == Slot(next - |index|, shift, |index|)
    {
      newTail := (tail + 1) % |index|;
      SlotMoves(next - 1, 1, shift, |index|);
      SlotTurns(next - |index|, shift, |index|);
    }

    /** The entry for the next block.  There is room unless the block that is one time round before it is
        live still; then the index is doubled, and if that cannot be had nothing is inserted. */
    method Insert(key: nat, canAllocate: bool) returns (ok: bool)
      requires Valid() && key == Key(next) && (canAllocate ==> d > 0)
      modifies this
      ensures Valid()
      ensures ok <==> canAllocate || !old(Live(next - |index|))
      ensures |index| == if ok && old(Live(next - |index|)) then 2 * old(|index|) else old(|index|)
      ensures next == old(next) + (if ok then 1 else 0)
      ensures forall q :: Live(q) <==> old(Live(q))
      ensures !ok ==> index == old(index) && tail == old(tail)
      ensures ok ==> index[tail] == Entry(Some(key), false)
    {
      var newTail := NextTail();
      assert EntryOk(index, next, rewound, shift, if next < low + |index| then next else low);
      if index[newTail].key == None || !index[newTail].full {
        PutKey(key, newTail);
        return true;
      }
      if !canAllocate {
        return false;
      }
      Double();
      newTail := NextTail();
      assert EntryOk(index, next, rewound, shift, next);
      PutKey(key, newTail);
      return true;
    }

    /** The block just inserted is put in its entry. */
    method Fill()
      requires Valid() && low < next
      modifies this`index
      ensures Valid() && |index| == old(|index|)
      ensures forall q :: Live(q) <==> old(Live(q)) || q == next - 1
    {
      SetFull(tail, next - 1, true);
    }

    /** The last insertion is taken back; its block was never put in, or is gone. */
    method Rewind()
      requires Valid() && low < next && !Live(next - 1)
      modifies this`tail, this`next, this`rewound
      ensures Valid() && next == old(next) - 1
      ensures forall q :: Live(q) <==> old(Live(q))
    {
      SlotMoves(next - 1, -1, shift, |index|);
      ghost var back, more := next - 1, rewound + 1;
      forall q | low <= q < low + |index| ensures EntryOk(index, back, more, shift, q) {
        assert EntryOk(index, next, rewound, shift, q);
      }
      next, rewound := next - 1, rewound + 1;
      tail := (tail - 1) % |index|;
    }

    /** For every index in a live block, after any number of doublings and wraps of the 64-bit index:
        the entry found is the block's own. */
    method Lookup(position: nat, ghost v: int) returns (found: nat)
      requires Valid() && position == v % WORD && Live(v / BLOCK)
      ensures found == Slot(v / BLOCK, shift, |index|)
      ensures found < |index| && index[found] == Entry(Some(Key(v / BLOCK)), true)
    {
      ghost var q := v / BLOCK;
      BlockStart(v);
      assert EntryOk(index, next, rewound, shift, q);
      assert EntryOk(index, next, rewound, shift, next - 1);
      var start, tailKey := position - position % BLOCK, index[tail].key.value;
      found := Found(tail, tailKey, start, |index|);
      FoundIsSlot(next - 1, q, shift, |index|, c, d);
    }

    /** The block is gone from its entry. */
    method Release(position: nat, ghost v: int)
      requires Valid() && position == v % WORD && Live(v / BLOCK)
      modifies this`index
      ensures Valid() && |index| == old(|index|)
      ensures forall q :: Live(q) <==> old(Live(q)) && q != v / BLOCK
    {
      var found := Lookup(position, v);
      SetFull(found, v / BLOCK, false);
    }

    method SetFull(slot: nat, ghost p: int, full: bool)
      requires Valid() && low <= p < next && slot == Slot(p, shift, |index|)
      modifies this`index
      ensures Valid() && |index| == old(|index|)
      ensures forall q :: Live(q) <==> if q == p then full else old(Live(q))
    {
      ghost var was := index;
      index := index[slot := index[slot].(full := full)];
      forall q | low <= q < low + |index| ensures EntryOk(index, next, rewound, shift, q) {
        assert EntryOk(was, next, rewound, shift, q);
        Updated(was, low, shift, p, q, was[slot].(full := full));
      }
      forall q | low <= q < next
        ensures index[Slot(q, shift, |index|)].full == if q == p then full else was[Slot(q, shift, |index|)].full
      {
        Updated(was, low, shift, p, q, was[slot].(full := full));
      }
    }
  }

  /** Clearing the low bits of a 64-bit index gives the key of its block. */
  lemma BlockStart(v: int)
    ensures v % WORD - v % WORD % BLOCK == Key(v / BLOCK)
  {
    var q, r := v / BLOCK, v % BLOCK;
    KeyIs(q);
    var x := q % LIMIT;
    ModUnique(v, q / LIMIT, WORD, BLOCK * x + r);
    ModUnique(v % WORD, x, BLOCK, r);
  }
}
