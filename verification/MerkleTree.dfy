/** The incremental Merkle tree: one list of nodes per level, where a node without a right
    half is promoted and not stored. */
module MerkleTree {
  import opened Options
  import opened MerkleConfig
  import opened Powers
  import opened MerkleReference

  /** A tag shorter than a digest is filled up with zero bytes. */
  function Pad(tag: seq<bv8>): (r: Digest)
    requires |tag| <= HASH_LENGTH
    ensures |r| == HASH_LENGTH && r[..|tag|] == tag && forall i :: |tag| <= i < HASH_LENGTH ==> r[i] == 0
  {
    tag + seq(HASH_LENGTH - |tag|, i => 0)
  }

  /** Two tags have the same padded form exactly if the longer is the shorter and zero bytes; so tags of
      one length have different forms if they differ. */
  lemma PadTellsApart(a: seq<bv8>, b: seq<bv8>)
    requires |a| <= |b| <= HASH_LENGTH
    ensures Pad(a) == Pad(b) <==> a == b[..|a|] && forall i :: |a| <= i < |b| ==> b[i] == 0
    ensures |a| == |b| ==> (Pad(a) == Pad(b) <==> a == b)
  {
    var p, q := Pad(a), Pad(b);
    assert forall i :: 0 <= i < |b| ==> q[i] == q[..|b|][i] == b[i];
    assert forall i :: 0 <= i < |a| ==> p[i] == p[..|a|][i] == a[i];
    if a == b[..|a|] && forall i :: |a| <= i < |b| ==> b[i] == 0 {
      forall i | 0 <= i < HASH_LENGTH ensures p[i] == q[i] {
        assert i < |a| ==> b[..|a|][i] == b[i];
      }
      assert p == q;
    } else if p == q {
      assert a == p[..|a|] == q[..|b|][..|a|];
    }
  }

  // ---------- What the levels hold ----------

  /** Node i of level l is stored: a leaf, or a node with a non-empty right half. */
  predicate Stored(n: nat, l: nat, i: nat) {
    if l == 0 then i < n else (2 * i + 1) * Pow2(l - 1) < n
  }

  ghost predicate SizeOk(n: nat, l: nat, level: seq<Digest>) {
    forall i: nat :: i < |level| <==> Stored(n, l, i)
  }

  ghost predicate LevelOk(h: Hasher, leaves: seq<Digest>, l: nat, level: seq<Digest>) {
    && SizeOk(|leaves|, l, level)
    && (forall i: nat {:trigger level[i]} :: i < |level| ==>
          i * Pow2(l) < |leaves| && level[i] == BlockRoot(h, leaves, l, i))
  }

  /** The levels lo..hi-1 are those of a tree over the given leaves. */
  ghost predicate LevelsOk(h: Hasher, leaves: seq<Digest>, levels: seq<seq<Digest>>, lo: nat, hi: nat)
    requires lo <= hi <= |levels|
  {
    forall l :: lo <= l < hi ==> LevelOk(h, leaves, l, levels[l])
  }

  lemma LeavesOk(h: Hasher, leaves: seq<Digest>)
    ensures LevelOk(h, leaves, 0, leaves)
  {
    forall i: nat | i < |leaves| ensures i * Pow2(0) < |leaves| && leaves[i] == BlockRoot(h, leaves, 0, i) {
      LeafBlock(h, leaves, i);
    }
  }

  /** The leaves determine every level: two trees over the same leaves are the same tree. */
  lemma LevelDetermined(h: Hasher, leaves: seq<Digest>, l: nat, a: seq<Digest>, b: seq<Digest>)
    requires LevelOk(h, leaves, l, a) && LevelOk(h, leaves, l, b)
    ensures a == b
  {
    assert |a| == |b| by {
      assert |a| < |a| <==> Stored(|leaves|, l, |a|);
      assert |b| < |b| <==> Stored(|leaves|, l, |b|);
    }
    forall i: nat | i < |a| ensures a[i] == b[i] {}
  }

  /** Above a level that covers all leaves nothing is stored. */
  lemma HighLevelsEmpty(n: nat, l: nat, m: nat, i: nat)
    requires n <= Pow2(l) && l < m
    ensures !Stored(n, m, i)
  {
    Pow2Monotone(l, m - 1);
    MulMonotone(1, 2 * i + 1, Pow2(m - 1));
  }

  lemma NothingAbove(h: Hasher, n: nat, leaves: seq<Digest>, l: nat, m: nat, level: seq<Digest>)
    requires n <= |leaves| <= Pow2(l) && l < m && SizeOk(n, m, level)
    ensures level == [] && LevelOk(h, leaves, m, level)
  {
    HighLevelsEmpty(n, l, m, 0);
    assert 0 < |level| <==> Stored(n, m, 0);
    forall i: nat ensures !Stored(|leaves|, m, i) {
      HighLevelsEmpty(|leaves|, l, m, i);
    }
  }

  // ---------- Adding a leaf ----------

  /** A block that does not reach the new leaf is unchanged. */
  lemma BlockBeforeAppend(h: Hasher, leaves: seq<Digest>, x: Digest, l: nat, i: nat)
    requires (i + 1) * Pow2(l) <= |leaves|
    ensures i * Pow2(l) < |leaves|
    ensures BlockRoot(h, leaves + [x], l, i) == BlockRoot(h, leaves, l, i)
  {
    assert (i + 1) * Pow2(l) == i * Pow2(l) + Pow2(l);
    assert Block(leaves + [x], l, i) == Block(leaves, l, i);
  }

  /** q is the node of level l above leaf i. */
  predicate Above(i: nat, l: nat, q: nat) {
    q * Pow2(l) <= i < (q + 1) * Pow2(l)
  }

  lemma AboveParent(i: nat, l: nat, q: nat)
    requires Above(i, l, q)
    ensures Above(i, l + 1, q / 2)
    ensures q == 2 * (q / 2) + q % 2
  {
    Halve(q, Pow2(l));
    ChildBlocks(l, q / 2);
    assert (q + 1) * Pow2(l) == q * Pow2(l) + Pow2(l);
  }

  /** Nodes to the left of the path are full; those to its right are not stored. */
  lemma StoredNear(n: nat, l: nat, q: nat, i: nat)
    requires l > 0 && Above(n, l, q)
    ensures i < q ==> Stored(n, l, i) && Stored(n + 1, l, i) && (i + 1) * Pow2(l) <= n
    ensures i > q ==> !Stored(n, l, i) && !Stored(n + 1, l, i)
    ensures Stored(n, l, i) ==> Stored(n + 1, l, i)
  {
    ChildBlocks(l - 1, i);
    if i < q {
      MulMonotone(i + 1, q, Pow2(l));
    } else if i > q {
      MulMonotone(q + 1, i, Pow2(l));
    }
  }

  /** Whatever is stored next to the path, the list reaches it: its length is q or q + 1. */
  lemma LevelLength(n: nat, l: nat, q: nat, level: seq<Digest>)
    requires l > 0 && Above(n, l, q) && SizeOk(n, l, level)
    ensures |level| == if Stored(n, l, q) then q + 1 else q
  {
    StoredNear(n, l, q, |level|);
    StoredNear(n, l, q, q + 1);
    assert |level| < |level| <==> Stored(n, l, |level|);
    if q > 0 {
      StoredNear(n, l, q, q - 1);
    }
  }

  /** The level above an appended leaf: its node there, when stored, is replaced or added, and no
      other node changes. */
  lemma AppendLevel(h: Hasher, leaves: seq<Digest>, x: Digest, l: nat, q: nat, before: seq<Digest>, after: seq<Digest>)
    requires l > 0 && Above(|leaves|, l, q) && (q > 0 ==> LevelOk(h, leaves, l, before))
    requires |after| == if Stored(|leaves| + 1, l, q) then q + 1 else q
    requires forall i :: 0 <= i < q ==> i < |before| && after[i] == before[i]
    requires Stored(|leaves| + 1, l, q) ==> after[q] == BlockRoot(h, leaves + [x], l, q)
    ensures LevelOk(h, leaves + [x], l, after)
  {
    var n, m := |leaves|, |leaves + [x]|;
    forall i: nat ensures i < |after| <==> Stored(m, l, i) {
      StoredNear(n, l, q, i);
    }
    forall i: nat | i < |after| ensures i * Pow2(l) < m && after[i] == BlockRoot(h, leaves + [x], l, i) {
      StoredNear(n, l, q, i);
      if i < q {
        BlockBeforeAppend(h, leaves, x, l, i);
      }
    }
  }

  // ---------- Replacing a leaf ----------

  lemma BlockAwayFromUpdate(h: Hasher, leaves: seq<Digest>, off: nat, x: Digest, l: nat, i: nat, q: nat)
    requires off < |leaves| && i * Pow2(l) < |leaves| && Above(off, l, q) && i != q
    ensures BlockRoot(h, leaves[off := x], l, i) == BlockRoot(h, leaves, l, i)
  {
    if i < q {
      MulMonotone(i + 1, q, Pow2(l));
    } else {
      MulMonotone(q + 1, i, Pow2(l));
    }
    assert Block(leaves[off := x], l, i) == Block(leaves, l, i);
  }

  lemma UpdateLevel(h: Hasher, leaves: seq<Digest>, off: nat, x: Digest, l: nat, q: nat, level: seq<Digest>, d: Digest)
    requires off < |leaves| && Above(off, l, q) && LevelOk(h, leaves, l, level)
    requires q * Pow2(l) < |leaves| && d == BlockRoot(h, leaves[off := x], l, q)
    ensures LevelOk(h, leaves[off := x], l, if q < |level| then level[q := d] else level)
  {
    var after := if q < |level| then level[q := d] else level;
    forall i: nat | i < |after|
      ensures i * Pow2(l) < |leaves| && after[i] == BlockRoot(h, leaves[off := x], l, i)
    {
      if i != q {
        assert after[i] == level[i];
        BlockAwayFromUpdate(h, leaves, off, x, l, i, q);
      }
    }
  }

  // ---------- Reading the levels ----------

  /** Node (m, o) has the leaves of node (l, offset). */
  ghost predicate SameBlock(h: Hasher, leaves: seq<Digest>, l: nat, offset: nat, m: nat, o: nat) {
    && o * Pow2(m) == offset * Pow2(l)
    && (offset * Pow2(l) < |leaves| ==> BlockRoot(h, leaves, m, o) == BlockRoot(h, leaves, l, offset))
  }

  /** If its level does not have it, it is its left child, or its block is empty. */
  lemma NotStored(h: Hasher, leaves: seq<Digest>, l: nat, offset: nat, m: nat, o: nat, level: seq<Digest>)
    requires SameBlock(h, leaves, l, offset, m, o) && LevelOk(h, leaves, m, level) && o >= |level|
    ensures if m > 0 then SameBlock(h, leaves, l, offset, m - 1, 2 * o) else offset * Pow2(l) >= |leaves|
  {
    assert !Stored(|leaves|, m, o);
    if m > 0 {
      ChildBlocks(m - 1, o);
      if o * Pow2(m) < |leaves| {
        PromotedBlock(h, leaves, m - 1, o);
      }
    }
  }

  /** The root of node (l, offset), whether it is stored there or was promoted from below. */
  method FindRightNeighbor(ghost h: Hasher, levels: seq<seq<Digest>>, offset: nat, l: nat) returns (r: Option<Digest>)
    requires l < |levels| && LevelsOk(h, levels[0], levels, 0, l + 1)
    ensures r == if offset * Pow2(l) < |levels[0]| then Some(BlockRoot(h, levels[0], l, offset)) else None
  {
    var o: nat, m: int := offset, l;
    while m > -1
      invariant -1 <= m <= l
      invariant if m >= 0 then SameBlock(h, levels[0], l, offset, m, o) else offset * Pow2(l) >= |levels[0]|
    {
      assert LevelOk(h, levels[0], m, levels[m]);
      if o < |levels[m]| {
        return Some(levels[m][o]);
      }
      NotStored(h, levels[0], l, offset, m, o, levels[m]);
      m, o := m - 1, 2 * o;
    }
    return None;
  }

  lemma AboveInside(i: nat, l: nat, q: nat, n: nat)
    requires Above(i, l, q) && i < n
    ensures q * Pow2(l) < n
    ensures q > 0 ==> (q - 1) * Pow2(l) + Pow2(l) == q * Pow2(l)
  {
  }

  /** One level up: the parent's root from the node's own and its neighbour's, if it has one. */
  lemma ParentRoot(h: Hasher, leaves: seq<Digest>, off: nat, l: nat, q: nat)
    requires off < |leaves| && Above(off, l, q)
    ensures q * Pow2(l) < |leaves| && (q / 2) * Pow2(l + 1) < |leaves|
    ensures q % 2 == 1 ==> (q - 1) * Pow2(l) < |leaves| &&
                           BlockRoot(h, leaves, l + 1, q / 2) ==
                           Node(h, BlockRoot(h, leaves, l, q - 1), BlockRoot(h, leaves, l, q))
    ensures q % 2 == 0 && (q + 1) * Pow2(l) < |leaves| ==>
              BlockRoot(h, leaves, l + 1, q / 2) ==
              Node(h, BlockRoot(h, leaves, l, q), BlockRoot(h, leaves, l, q + 1))
    ensures q % 2 == 0 && (q + 1) * Pow2(l) >= |leaves| ==>
              BlockRoot(h, leaves, l + 1, q / 2) == BlockRoot(h, leaves, l, q)
  {
    AboveInside(off, l, q, |leaves|);
    AboveParent(off, l, q);
    AboveInside(off, l + 1, q / 2, |leaves|);
    var i := q / 2;
    if q % 2 == 1 {
      assert q == 2 * i + 1;
      PairedBlock(h, leaves, l, i);
    } else {
      assert q == 2 * i;
      if (q + 1) * Pow2(l) < |leaves| {
        PairedBlock(h, leaves, l, i);
      } else {
        PromotedBlock(h, leaves, l, i);
      }
    }
  }

  /** A left node always has its sibling stored, once something to its right exists. */
  lemma LeftSiblingStored(n: nat, l: nat, q: nat)
    requires q % 2 == 1 && q * Pow2(l) < n
    ensures Stored(n, l, q - 1)
  {
    if l > 0 {
      var i := q - 1;
      ChildBlocks(l - 1, i);
      assert (i + 1) * Pow2(l) == q * Pow2(l);
    } else {
      assert q * Pow2(0) == q;
    }
  }

  /** The loop body shared by update and verify.  The levels are those of the current leaves; the
      digest is the path's root once leaf off is replaced by x. */
  method Ascend(h: Hasher, levels: seq<seq<Digest>>, ghost off: nat, ghost x: Digest, l: nat, q: nat, digest: Digest)
    returns (parent: Digest)
    requires l < |levels| && LevelsOk(h, levels[0], levels, 0, l + 1)
    requires off < |levels[0]| && Above(off, l, q) && q * Pow2(l) < |levels[0]|
    requires digest == BlockRoot(h, levels[0][off := x], l, q)
    ensures (q / 2) * Pow2(l + 1) < |levels[0]| && parent == BlockRoot(h, levels[0][off := x], l + 1, q / 2)
  {
    ghost var leaves, after := levels[0], levels[0][off := x];
    ParentRoot(h, after, off, l, q);
    if q % 2 == 0 {
      var right := FindRightNeighbor(h, levels, q + 1, l);
      if right != None {
        BlockAwayFromUpdate(h, leaves, off, x, l, q + 1, q);
        parent := Node(h, digest, right.value);
      } else {
        parent := digest;
      }
    } else {
      LeftSiblingStored(|leaves|, l, q);
      assert LevelOk(h, leaves, l, levels[l]);
      BlockAwayFromUpdate(h, leaves, off, x, l, q - 1, q);
      parent := Node(h, levels[l][q - 1], digest);
    }
  }

  /** The level at which the readers stop: the first that covers all leaves, but never above 18,
      since the top list is excluded. */
  predicate HasNextLevelExceptRoot(levels: seq<seq<Digest>>, l: nat)
    requires |levels| == TREE_LEVELS
  {
    l + 1 < TREE_LEVELS - 1 && |levels[l + 1]| > 0
  }

  lemma NextLevelIff(n: nat, levels: seq<seq<Digest>>, l: nat)
    requires |levels| == TREE_LEVELS && l + 1 < TREE_LEVELS && SizeOk(n, l + 1, levels[l + 1])
    ensures HasNextLevelExceptRoot(levels, l) <==> l < 18 && Pow2(l) < n
  {
    assert 0 < |levels[l + 1]| <==> Stored(n, l + 1, 0);
    assert (2 * 0 + 1) * Pow2(l) == Pow2(l);
  }

  /** The root of the block of 2^18 leaves that holds the given one. */
  ghost function ChunkRoot(h: Hasher, leaves: seq<Digest>, off: nat): Digest
    requires off < |leaves| < MAX_ELEMS
  {
    ChunkAbove(off);
    BlockRoot(h, leaves, 18, ChunkIndex(off))
  }

  function ChunkIndex(off: nat): nat {
    if off < 262144 then 0 else 1
  }

  lemma ChunkAbove(off: nat)
    requires off < MAX_ELEMS
    ensures Above(off, 18, ChunkIndex(off))
  {
    Pow2Values();
  }

  lemma AboveUnique(i: nat, l: nat, q: nat, q': nat)
    requires Above(i, l, q) && Above(i, l, q')
    ensures q == q'
  {
    if q < q' {
      MulMonotone(q + 1, q', Pow2(l));
    } else if q' < q {
      MulMonotone(q' + 1, q, Pow2(l));
    }
  }

  /** Where the climb stops, it has the root of the leaf's chunk. */
  lemma TopIsChunk(h: Hasher, leaves: seq<Digest>, off: nat, l: nat, q: nat)
    requires off < |leaves| < MAX_ELEMS && l <= 18 && Above(off, l, q) && q * Pow2(l) < |leaves|
    requires l == 18 || |leaves| <= Pow2(l)
    ensures BlockRoot(h, leaves, l, q) == ChunkRoot(h, leaves, off)
    ensures q == if l == 18 then ChunkIndex(off) else 0
  {
    ChunkAbove(off);
    if l == 18 {
      AboveUnique(off, 18, q, ChunkIndex(off));
    } else {
      Pow2Monotone(l, 18);
      MulMonotone(0, q, Pow2(l));
      AboveUnique(off, l, q, 0);
      WholeBlock(h, leaves, l);
      WholeBlock(h, leaves, 18);
    }
  }

  lemma LevelBound(n: nat, l: nat, q: nat)
    requires n < MAX_ELEMS && q > 0 && Above(n, l, q)
    ensures l < 19
    ensures l == 18 ==> q / 2 == 0
  {
    Pow2Values();
    if l >= 19 {
      Pow2Monotone(19, l);
      MulMonotone(1, q, Pow2(l));
    } else if l == 18 && q >= 2 {
      MulMonotone(2, q, Pow2(18));
    }
  }

  function AddOrUpdate(level: seq<Digest>, digest: Digest, i: nat): seq<Digest>
    requires i <= |level|
  {
    if i == |level| then level + [digest] else level[i := digest]
  }

  /** One round of adding, at a right child: the parent is hashed ... */
  lemma {:induction false} AddRight(h: Hasher, leaves: seq<Digest>, x: Digest, l: nat, p: nat, level: seq<Digest>)
    requires Above(|leaves|, l, 2 * p + 1) && LevelOk(h, leaves + [x], l, level)
    ensures Above(|leaves|, l + 1, p) && p * Pow2(l + 1) <= |leaves| && 2 * p < |level|
    ensures BlockRoot(h, leaves + [x], l + 1, p) == Node(h, level[2 * p], BlockRoot(h, leaves + [x], l, 2 * p + 1))
  {
    ChildBlocks(l, p);
    PairedBlock(h, leaves + [x], l, p);
    LeftSiblingStored(|leaves + [x]|, l, 2 * p + 1);
  }

  /** ... and stored. */
  lemma {:induction false} AddRightLevel(
      h: Hasher, leaves: seq<Digest>, x: Digest, l: nat, p: nat, next: seq<Digest>, d: Digest)
    requires Above(|leaves|, l, 2 * p + 1) && p * Pow2(l + 1) <= |leaves| && d == BlockRoot(h, leaves + [x], l + 1, p)
    requires SizeOk(|leaves|, l + 1, next) && (p > 0 ==> LevelOk(h, leaves, l + 1, next))
    ensures p <= |next| && LevelOk(h, leaves + [x], l + 1, AddOrUpdate(next, d, p))
  {
    ChildBlocks(l, p);
    LevelLength(|leaves|, l + 1, p, next);
    StoredNear(|leaves|, l + 1, p, p);
    AppendLevel(h, leaves, x, l + 1, p, next, AddOrUpdate(next, d, p));
  }

  /** One round of adding, at a left child: it is promoted and the parent's list stays. */
  lemma {:induction false} AddLeft(h: Hasher, leaves: seq<Digest>, x: Digest, l: nat, p: nat, next: seq<Digest>)
    requires Above(|leaves|, l, 2 * p)
    requires SizeOk(|leaves|, l + 1, next) && (p > 0 ==> LevelOk(h, leaves, l + 1, next))
    ensures Above(|leaves|, l + 1, p) && p * Pow2(l + 1) <= |leaves|
    ensures BlockRoot(h, leaves + [x], l + 1, p) == BlockRoot(h, leaves + [x], l, 2 * p)
    ensures LevelOk(h, leaves + [x], l + 1, next)
  {
    var n, all := |leaves|, leaves + [x];
    ChildBlocks(l, p);
    PromotedBlock(h, all, l, p);
    LevelLength(n, l + 1, p, next);
    StoredNear(n, l + 1, p, p);
    AppendLevel(h, leaves, x, l + 1, p, next, next);
  }

  ghost predicate Pending(h: Hasher, leaves: seq<Digest>, levels: seq<seq<Digest>>, l: nat) {
    forall m :: l < m < |levels| ==>
                  SizeOk(|leaves|, m, levels[m]) && (m < TREE_LEVELS - 1 ==> LevelOk(h, leaves, m, levels[m]))
  }

  /** Level l has been reached on the way up from the new leaf x. */
  ghost predicate Climbing(
      h: Hasher, leaves: seq<Digest>, x: Digest, levels: seq<seq<Digest>>, l: nat, q: nat, digest: Digest)
  {
    && |levels| == TREE_LEVELS && l < TREE_LEVELS && levels[0] == leaves + [x] && |leaves| + 1 < MAX_ELEMS
    && Above(|leaves|, l, q) && q * Pow2(l) <= |leaves| && digest == BlockRoot(h, leaves + [x], l, q)
    && LevelsOk(h, leaves + [x], levels, 0, l + 1)
    && Pending(h, leaves, levels, l)
  }

  lemma ClimbingStart(h: Hasher, before: seq<seq<Digest>>, x: Digest)
    requires |before| == TREE_LEVELS && |before[0]| + 1 < MAX_ELEMS && Pending(h, before[0], before, 0)
    ensures Climbing(h, before[0], x, before[0 := before[0] + [x]], 0, |before[0]|, x)
  {
    LeavesOk(h, before[0] + [x]);
    LeafBlock(h, before[0] + [x], |before[0]|);
  }

  /** With the list of the next level done, that level is reached. */
  lemma ClimbingNext(
      h: Hasher, leaves: seq<Digest>, x: Digest, levels: seq<seq<Digest>>, l: nat, q: nat, digest: Digest,
      next: seq<Digest>, digest': Digest)
    requires Climbing(h, leaves, x, levels, l, q, digest) && l + 1 < TREE_LEVELS
    requires LevelOk(h, leaves + [x], l + 1, next)
    requires Above(|leaves|, l + 1, q / 2) && q / 2 * Pow2(l + 1) <= |leaves|
    requires digest' == BlockRoot(h, leaves + [x], l + 1, q / 2)
    ensures Climbing(h, leaves, x, levels[l + 1 := next], l + 1, q / 2, digest')
  {
  }

  lemma AddsRight(
      h: Hasher, leaves: seq<Digest>, x: Digest, levels: seq<seq<Digest>>, l: nat, q: nat, digest: Digest)
    requires q % 2 == 1 && Climbing(h, leaves, x, levels, l, q, digest)
    ensures l + 1 < TREE_LEVELS && q - 1 < |levels[l]| && q / 2 <= |levels[l + 1]|
    ensures var parent := Node(h, levels[l][q - 1], digest);
            var levels' := levels[l + 1 := AddOrUpdate(levels[l + 1], parent, q / 2)];
            Climbing(h, leaves, x, levels', l + 1, q / 2, parent)
  {
    LevelBound(|leaves|, l, q);
    AddRight(h, leaves, x, l, q / 2, levels[l]);
    var parent := Node(h, levels[l][q - 1], digest);
    AddRightLevel(h, leaves, x, l, q / 2, levels[l + 1], parent);
    ClimbingNext(h, leaves, x, levels, l, q, digest, AddOrUpdate(levels[l + 1], parent, q / 2), parent);
  }

  lemma AddsLeft(
      h: Hasher, leaves: seq<Digest>, x: Digest, levels: seq<seq<Digest>>, l: nat, q: nat, digest: Digest)
    requires q > 0 && q % 2 == 0 && Climbing(h, leaves, x, levels, l, q, digest)
    ensures Climbing(h, leaves, x, levels, l + 1, q / 2, digest)
  {
    LevelBound(|leaves|, l, q);
    AddLeft(h, leaves, x, l, q / 2, levels[l + 1]);
    ClimbingNext(h, leaves, x, levels, l, q, digest, levels[l + 1], digest);
    assert levels[l + 1 := levels[l + 1]] == levels;
  }

  method AddRound(
      h: Hasher, ghost leaves: seq<Digest>, ghost x: Digest, levels: seq<seq<Digest>>, l: nat, q: nat, digest: Digest)
    returns (levels': seq<seq<Digest>>, digest': Digest)
    requires q > 0 && Climbing(h, leaves, x, levels, l, q, digest)
    ensures Climbing(h, leaves, x, levels', l + 1, q / 2, digest')
  {
    if q % 2 == 1 {
      AddsRight(h, leaves, x, levels, l, q, digest);
      digest' := Node(h, levels[l][q - 1], digest);
      levels' := levels[l + 1 := AddOrUpdate(levels[l + 1], digest', q / 2)];
    } else {
      AddsLeft(h, leaves, x, levels, l, q, digest);
      digest', levels' := digest, levels;
    }
  }

  lemma ClimbingEnd(h: Hasher, leaves: seq<Digest>, x: Digest, levels: seq<seq<Digest>>, l: nat, digest: Digest)
    requires Climbing(h, leaves, x, levels, l, 0, digest)
    ensures LevelsOk(h, leaves + [x], levels, 0, TREE_LEVELS)
  {
    forall m | l < m < TREE_LEVELS ensures LevelOk(h, leaves + [x], m, levels[m]) {
      NothingAbove(h, |leaves|, leaves + [x], l, m, levels[m]);
    }
  }

  // ---------- Walking up from an existing leaf ----------

  /** Level l has been reached from leaf off; what is below uses x there instead. */
  ghost predicate Walking(h: Hasher, leaves: seq<Digest>, off: nat, x: Digest, l: nat, q: nat, digest: Digest) {
    && off < |leaves| < MAX_ELEMS && l <= 18 && (l > 0 ==> Pow2(l - 1) < |leaves|)
    && Above(off, l, q) && q * Pow2(l) < |leaves|
    && digest == BlockRoot(h, leaves[off := x], l, q)
  }

  lemma WalkingStart(h: Hasher, leaves: seq<Digest>, off: nat, x: Digest)
    requires off < |leaves| < MAX_ELEMS
    ensures Walking(h, leaves, off, x, 0, off, x)
  {
    LeafBlock(h, leaves[off := x], off);
  }

  /** The entry that the walk ends at, if there is one, holds the root of the leaf's chunk. */
  lemma WalkingEnd(
      h: Hasher, leaves: seq<Digest>, off: nat, x: Digest, l: nat, q: nat, digest: Digest, level: seq<Digest>)
    requires Walking(h, leaves, off, x, l, q, digest) && LevelOk(h, leaves, l, level)
    requires l == 18 || |leaves| <= Pow2(l)
    ensures digest == ChunkRoot(h, leaves[off := x], off)
    ensures q < |level| <==> ChunkReadable(|leaves|, off)
    ensures q < |level| ==> level[q] == ChunkRoot(h, leaves, off)
  {
    TopIsChunk(h, leaves[off := x], off, l, q);
    TopIsChunk(h, leaves, off, l, q);
    ChunkStored(|leaves|, l, q, off);
    assert q < |level| <==> Stored(|leaves|, l, q);
  }

  lemma {:induction false} ChunkStored(n: nat, l: nat, q: nat, off: nat)
    requires off < n && l <= 18 && (l > 0 ==> Pow2(l - 1) < n) && (l == 18 || n <= Pow2(l))
    requires q == if l == 18 then ChunkIndex(off) else 0
    ensures Stored(n, l, q) <==> ChunkReadable(n, off)
  {
    Pow2Values();
    if l == 18 {
      assert Pow2(18) == 2 * Pow2(17);
    } else {
      Pow2Monotone(l, 18);
    }
  }

  /** The readers find an entry to look at: always up to 2^18 leaves, and beyond when the second
      chunk's node is stored. */
  predicate ChunkReadable(n: nat, off: nat) {
    n <= 262144 || off < 262144 || n > 393216
  }

  lemma TopEntry(h: Hasher, leaves: seq<Digest>, l: nat, level: seq<Digest>)
    requires |leaves| < MAX_ELEMS && l <= 18 && (l > 0 ==> Pow2(l - 1) < |leaves|) && LevelOk(h, leaves, l, level)
    requires l == 18 || |leaves| <= Pow2(l)
    ensures level == [] <==> leaves == []
    ensures level != [] ==> level[0] == Root(h, leaves[..if |leaves| <= 262144 then |leaves| else 262144])
  {
    assert 0 < |level| <==> Stored(|leaves|, l, 0);
    if l > 0 {
      assert (2 * 0 + 1) * Pow2(l - 1) == Pow2(l - 1);
    }
    if leaves != [] {
      Pow2Values();
      Pow2Monotone(l, 18);
      assert Block(leaves, l, 0) == leaves[..if |leaves| <= 262144 then |leaves| else 262144];
    }
  }

  function UpdateIfExists(level: seq<Digest>, digest: Digest, i: nat): seq<Digest> {
    if i < |level| then level[i := digest] else level
  }

  /** Leaf off has become x and the change has been carried up to level l. */
  ghost predicate Updating(
      h: Hasher, before: seq<seq<Digest>>, levels: seq<seq<Digest>>, off: nat, x: Digest, l: nat, q: nat,
      digest: Digest)
  {
    && |before| == |levels| == TREE_LEVELS
    && LevelsOk(h, before[0], before, 0, TREE_LEVELS - 1)
    && Walking(h, before[0], off, x, l, q, digest)
    && levels[0] == before[0][off := x]
    && LevelsOk(h, levels[0], levels, 0, l + 1)
    && forall m :: l < m < TREE_LEVELS ==> levels[m] == before[m]
  }

  lemma UpdatingStart(h: Hasher, before: seq<seq<Digest>>, off: nat, x: Digest)
    requires |before| == TREE_LEVELS && LevelsOk(h, before[0], before, 0, TREE_LEVELS - 1)
    requires off < |before[0]| < MAX_ELEMS
    ensures Updating(h, before, before[0 := before[0][off := x]], off, x, 0, off, x)
  {
    WalkingStart(h, before[0], off, x);
    LeavesOk(h, before[0][off := x]);
  }

  method UpdateRound(
      h: Hasher, ghost before: seq<seq<Digest>>, levels: seq<seq<Digest>>, ghost off: nat, ghost x: Digest,
      l: nat, q: nat, digest: Digest)
    returns (levels': seq<seq<Digest>>, digest': Digest)
    requires Updating(h, before, levels, off, x, l, q, digest) && l < 18 && Pow2(l) < |before[0]|
    ensures Updating(h, before, levels', off, x, l + 1, q / 2, digest')
  {
    assert levels[0][off := x] == levels[0];
    AboveParent(off, l, q);
    digest' := Ascend(h, levels, off, x, l, q, digest);
    levels' := levels[l + 1 := UpdateIfExists(levels[l + 1], digest', q / 2)];
    UpdatingStep(h, before, levels, off, x, l, q, digest, digest');
  }

  /** The list above gets the new digest of its node, if it has that node. */
  lemma UpdatingStep(
      h: Hasher, before: seq<seq<Digest>>, levels: seq<seq<Digest>>, off: nat, x: Digest, l: nat, q: nat,
      digest: Digest, digest': Digest)
    requires Updating(h, before, levels, off, x, l, q, digest) && l < 18
    requires Walking(h, before[0], off, x, l + 1, q / 2, digest')
    ensures var levels' := levels[l + 1 := UpdateIfExists(levels[l + 1], digest', q / 2)];
            Updating(h, before, levels', off, x, l + 1, q / 2, digest')
  {
    assert LevelOk(h, before[0], l + 1, before[l + 1]);
    UpdateLevel(h, before[0], off, x, l + 1, q / 2, before[l + 1], digest');
  }

  lemma UpdatingNext(
      h: Hasher, before: seq<seq<Digest>>, levels: seq<seq<Digest>>, off: nat, x: Digest, l: nat, q: nat,
      digest: Digest)
    requires Updating(h, before, levels, off, x, l, q, digest)
    requires SizeOk(|before[0]|, TREE_LEVELS - 1, before[TREE_LEVELS - 1])
    ensures HasNextLevelExceptRoot(levels, l) <==> l < 18 && Pow2(l) < |before[0]|
  {
    if l < 18 {
      assert LevelOk(h, before[0], l + 1, before[l + 1]);
    }
    NextLevelIff(|before[0]|, levels, l);
  }

  lemma UpdatingEnd(
      h: Hasher, before: seq<seq<Digest>>, levels: seq<seq<Digest>>, off: nat, x: Digest, l: nat, q: nat,
      digest: Digest)
    requires Updating(h, before, levels, off, x, l, q, digest)
    requires l == 18 || |before[0]| <= Pow2(l)
    ensures LevelsOk(h, levels[0], levels, 0, TREE_LEVELS - 1)
  {
    forall m | l < m < TREE_LEVELS - 1 ensures LevelOk(h, levels[0], m, levels[m]) {
      NothingAbove(h, |before[0]|, levels[0], l, m, before[m]);
    }
  }

  /** The closing look at the walk's last entry finds the digest there, if there is an entry. */
  lemma EntryReadable(
      h: Hasher, before: seq<seq<Digest>>, levels: seq<seq<Digest>>, off: nat, x: Digest, l: nat, q: nat,
      digest: Digest)
    requires Updating(h, before, levels, off, x, l, q, digest)
    requires l == 18 || |before[0]| <= Pow2(l)
    ensures q < |levels[l]| <==> ChunkReadable(|before[0]|, off)
    ensures q < |levels[l]| ==> levels[l][q] == digest
  {
    TopIsChunk(h, levels[0], off, l, q);
    ChunkStored(|before[0]|, l, q, off);
    assert LevelOk(h, levels[0], l, levels[l]);
    assert q < |levels[l]| <==> Stored(|before[0]|, l, q);
  }

  /** The body of an update.  The flag says whether the closing look at the walk's last entry,
      which only an assertion takes, finds one. */
  method UpdatePath(h: Hasher, before: seq<seq<Digest>>, x: Digest, off: nat)
    returns (levels: seq<seq<Digest>>, readable: bool)
    requires |before| == TREE_LEVELS && off < |before[0]| < MAX_ELEMS
    requires LevelsOk(h, before[0], before, 0, TREE_LEVELS - 1)
    requires SizeOk(|before[0]|, TREE_LEVELS - 1, before[TREE_LEVELS - 1])
    ensures |levels| == TREE_LEVELS && levels[0] == before[0][off := x]
    ensures LevelsOk(h, levels[0], levels, 0, TREE_LEVELS - 1)
    ensures levels[TREE_LEVELS - 1] == before[TREE_LEVELS - 1]
    ensures readable == ChunkReadable(|before[0]|, off)
  {
    var digest := x;
    UpdatingStart(h, before, off, x);
    levels := before[0 := before[0][off := digest]];
    var q: nat, l: nat := off, 0;
    while HasNextLevelExceptRoot(levels, l)
      invariant Updating(h, before, levels, off, x, l, q, digest)
      decreases 18 - l
    {
      UpdatingNext(h, before, levels, off, x, l, q, digest);
      levels, digest := UpdateRound(h, before, levels, off, x, l, q, digest);
      q, l := q / 2, l + 1;
    }
    UpdatingNext(h, before, levels, off, x, l, q, digest);
    UpdatingEnd(h, before, levels, off, x, l, q, digest);
    EntryReadable(h, before, levels, off, x, l, q, digest);
    readable := q < |levels[l]|;
  }

  /** One round of verifying. */
  method VerifyRound(
      h: Hasher, levels: seq<seq<Digest>>, ghost off: nat, ghost x: Digest, l: nat, q: nat, digest: Digest)
    returns (parent: Digest)
    requires |levels| == TREE_LEVELS && LevelsOk(h, levels[0], levels, 0, TREE_LEVELS - 1)
    requires Walking(h, levels[0], off, x, l, q, digest) && l < 18 && Pow2(l) < |levels[0]|
    ensures Walking(h, levels[0], off, x, l + 1, q / 2, parent)
  {
    AboveParent(off, l, q);
    parent := Ascend(h, levels, off, x, l, q, digest);
  }

  /** From the leaf up to where the readers stop: whether there is an entry to compare with, and whether
      it is the same. */
  method VerifyPath(h: Hasher, levels: seq<seq<Digest>>, x: Digest, off: nat) returns (readable: bool, matches: bool)
    requires |levels| == TREE_LEVELS && LevelsOk(h, levels[0], levels, 0, TREE_LEVELS - 1)
    requires off < |levels[0]| < MAX_ELEMS
    ensures readable == ChunkReadable(|levels[0]|, off)
    ensures readable ==>
              (matches <==> ChunkRoot(h, levels[0][off := x], off) == ChunkRoot(h, levels[0], off))
  {
    var digest, q: nat, l: nat := x, off, 0;
    WalkingStart(h, levels[0], off, x);
    while HasNextLevelExceptRoot(levels, l)
      invariant Walking(h, levels[0], off, x, l, q, digest)
      decreases 18 - l
    {
      NextLevelIff(|levels[0]|, levels, l);
      digest := VerifyRound(h, levels, off, x, l, q, digest);
      q, l := q / 2, l + 1;
    }
    if l < 18 {
      NextLevelIff(|levels[0]|, levels, l);
    }
    WalkingEnd(h, levels[0], off, x, l, q, digest, levels[l]);
    readable := q < |levels[l]|;
    matches := readable && digest == levels[l][q];
  }

  /** Up to 2^18 leaves the top list is empty, and so it is right. */
  lemma TopListSound(h: Hasher, n: nat, levels: seq<seq<Digest>>)
    requires |levels| == TREE_LEVELS && n == |levels[0]| && SizeOk(n, 19, levels[19])
    ensures n <= 262144 ==> LevelOk(h, levels[0], 19, levels[19])
  {
    if n <= 262144 {
      Pow2Values();
      NothingAbove(h, n, levels[0], 18, 19, levels[19]);
    }
  }

  class Tree {
    const h: Hasher
    var elems: nat
    var levels: seq<seq<Digest>>

    /** All lists below the top one are those of a tree over the leaves; the top one has its size. */
    ghost predicate Valid()
      reads this
    {
      && |levels| == TREE_LEVELS
      && elems == |levels[0]| < MAX_ELEMS
      && LevelsOk(h, levels[0], levels, 0, TREE_LEVELS - 1)
      && SizeOk(elems, TREE_LEVELS - 1, levels[TREE_LEVELS - 1])
    }

    /** The top list is right as well: the whole tree is the one over its leaves. */
    ghost predicate Sound()
      reads this
    {
      Valid() && LevelOk(h, levels[0], TREE_LEVELS - 1, levels[TREE_LEVELS - 1])
    }

    constructor (h: Hasher)
      ensures this.h == h && Sound() && levels[0] == []
    {
      this.h := h;
      elems := 0;
      levels := seq(TREE_LEVELS, i => []);
      new;
      forall l: nat | l < TREE_LEVELS ensures LevelOk(h, [], l, []) {
        forall i: nat ensures !Stored(0, l, i) {}
      }
    }

    /** Appends a leaf.  The lists assert that they stay below their maximum. */
    method Add(tag: seq<bv8>) returns (status: Status)
      requires Valid() && elems + 1 < MAX_ELEMS
      modifies this`elems, this`levels
      ensures status == if |tag| <= HASH_LENGTH then Success else IllegalParam
      ensures status == IllegalParam ==> elems == old(elems) && levels == old(levels)
      ensures status == Success ==> Sound() && levels[0] == old(levels[0]) + [Pad(tag)]
    {
      if |tag| > HASH_LENGTH {
        return IllegalParam;
      }
      var digest := Pad(tag);
      ghost var leaves, x := levels[0], digest;
      ClimbingStart(h, levels, x);
      levels := levels[0 := levels[0] + [digest]];
      elems := elems + 1;
      var q: nat, l: nat := elems - 1, 0;
      while q > 0 && l < TREE_LEVELS
        invariant Climbing(h, leaves, x, levels, l, q, digest) && elems == |leaves| + 1
        decreases q
      {
        var levels', digest' := AddRound(h, leaves, x, levels, l, q, digest);
        levels, digest, q, l := levels', digest', q / 2, l + 1;
      }
      ClimbingEnd(h, leaves, x, levels, l, digest);
      return Success;
    }

    /** Replaces a leaf.  Every list but the top one then is that of the tree over the new leaves;
        the top one is never touched, which is right as long as it is empty.  NullRead stands for the
        closing comparison, which only an assertion makes: without assertions the code reports success
        there, having done the same. */
    method Update(tag: seq<bv8>, offset: nat) returns (status: Status)
      requires Valid()
      modifies this`levels
      ensures status == IllegalParam <==> |tag| > HASH_LENGTH || offset >= elems
      ensures status == IllegalParam ==> levels == old(levels)
      ensures status != IllegalParam ==>
                && Valid()
                && levels[0] == old(levels[0])[offset := Pad(tag)]
                && levels[TREE_LEVELS - 1] == old(levels[TREE_LEVELS - 1])
                && status == (if ChunkReadable(elems, offset) then Success else NullRead)
      ensures status != IllegalParam && elems <= 262144 ==> Sound()
    {
      if |tag| > HASH_LENGTH || offset >= elems {
        return IllegalParam;
      }
      var updated, readable := UpdatePath(h, levels, Pad(tag), offset);
      levels := updated;
      TopListSound(h, elems, levels);
      return if readable then Success else NullRead;
    }

    /** Accepts exactly the values that leave the root of the leaf's chunk as it is. */
    method Verify(tag: seq<bv8>, offset: nat) returns (status: Status)
      requires Valid()
      ensures status in {Success, RootMismatch, IllegalParam, NullRead}
      ensures status == IllegalParam <==> |tag| > HASH_LENGTH || offset >= elems
      ensures status != IllegalParam ==> (status == NullRead <==> !ChunkReadable(elems, offset))
      ensures status == Success || status == RootMismatch ==>
                (status == Success <==>
                 ChunkRoot(h, levels[0][offset := Pad(tag)], offset) == ChunkRoot(h, levels[0], offset))
    {
      if |tag| > HASH_LENGTH || offset >= elems {
        return IllegalParam;
      }
      var readable, matches := VerifyPath(h, levels, Pad(tag), offset);
      return if !readable then NullRead else if matches then Success else RootMismatch;
    }

    method GetRoot() returns (status: Status, root: Digest)
      requires Valid()
      ensures status == if elems == 0 then NullRead else Success
      ensures elems > 0 ==> root == Root(h, levels[0][..if elems <= 262144 then elems else 262144])
    {
      ghost var leaves := levels[0];
      NextLevelIff(elems, levels, 0);
      var l: nat := 0;
      while HasNextLevelExceptRoot(levels, l)
        invariant l <= 18 && (l > 0 ==> Pow2(l - 1) < |leaves|)
        invariant HasNextLevelExceptRoot(levels, l) <==> l < 18 && Pow2(l) < |leaves|
        decreases 18 - l
      {
        l := l + 1;
        NextLevelIff(elems, levels, l);
      }
      if |levels[l]| == 0 {
        TopEntry(h, leaves, l, levels[l]);
        return NullRead, [];
      }
      TopEntry(h, leaves, l, levels[l]);
      return Success, levels[l][0];
    }
  }
}
