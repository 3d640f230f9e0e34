/** What the tree's contracts amount to: soundness of verification, and the exact number of
    leaves up to which the root and an update are right. */
module MerkleBounds {
  import opened Powers
  import opened MerkleConfig
  import opened MerkleReference
  import opened MerkleTree

  const LIMIT := 262144

  lemma ChunkBlock(h: Hasher, leaves: seq<Digest>, off: nat, x: Digest)
    requires off < |leaves| < MAX_ELEMS
    ensures ChunkIndex(off) * Pow2(18) <= off
    ensures off - ChunkIndex(off) * Pow2(18) < |Block(leaves, 18, ChunkIndex(off))|
    ensures Block(leaves, 18, ChunkIndex(off))[off - ChunkIndex(off) * Pow2(18)] == leaves[off]
    ensures Block(leaves[off := x], 18, ChunkIndex(off)) ==
            Block(leaves, 18, ChunkIndex(off))[off - ChunkIndex(off) * Pow2(18) := x]
  {
    ChunkAbove(off);
    Pow2Values();
  }

  /** If another value leaves the root of the leaf's chunk as it is, the node hash has a collision,
      exhibited from the two paths. */
  lemma AcceptedForgeryCollides(h: Hasher, leaves: seq<Digest>, off: nat, x: Digest) returns (c: Collision)
    requires off < |leaves| < MAX_ELEMS
    requires ChunkRoot(h, leaves[off := x], off) == ChunkRoot(h, leaves, off)
    ensures x != leaves[off] ==> IsCollision(h, c)
  {
    c := Collision([], [], [], []);
    if x != leaves[off] {
      ChunkBlock(h, leaves, off, x);
      var i := ChunkIndex(off);
      c := SharedRootCollides(h, Block(leaves, 18, i), off - i * Pow2(18), x);
    }
  }

  /** A call of Verify, at any size of the tree.  It accepts the leaf's own value, and when it accepts
      any other the node hash has a collision.  It reads through a null pointer exactly for the leaves
      from 2^18 on of a tree of more than 2^18 and at most 3 * 2^17 leaves. */
  method VerifyLeaf(t: Tree, tag: seq<bv8>, offset: nat) returns (status: Status, ghost c: Collision)
    requires t.Valid()
    ensures status in {Success, RootMismatch, IllegalParam, NullRead}
    ensures status == IllegalParam <==> |tag| > HASH_LENGTH || offset >= t.elems
    ensures status == NullRead <==> |tag| <= HASH_LENGTH && LIMIT <= offset < t.elems <= 393216
    ensures status == RootMismatch ==> Pad(tag) != t.levels[0][offset]
    ensures status == Success && Pad(tag) != t.levels[0][offset] ==> IsCollision(t.h, c)
    ensures status == Success && |tag| == HASH_LENGTH && tag != t.levels[0][offset] ==> IsCollision(t.h, c)
  {
    c := Collision([], [], [], []);
    status := t.Verify(tag, offset);
    if status != IllegalParam {
      assert t.levels[0][offset := t.levels[0][offset]] == t.levels[0];
      if status == Success {
        c := AcceptedForgeryCollides(t.h, t.levels[0], offset, Pad(tag));
        assert |tag| == HASH_LENGTH ==> Pad(tag)[..|tag|] == Pad(tag);
      }
    }
  }

  /** A tag is added, and one of the same length verified at its place, in a tree of any size: the tag
      itself is accepted, another only with a collision, unless the place is one that cannot be read. */
  method VerifyAdded(t: Tree, added: seq<bv8>, tag: seq<bv8>) returns (status: Status, ghost c: Collision)
    requires t.Valid() && t.elems + 1 < MAX_ELEMS && |added| == |tag| <= HASH_LENGTH
    modifies t
    ensures t.Sound() && t.elems == old(t.elems) + 1
    ensures status == NullRead <==> LIMIT <= old(t.elems) < 393216
    ensures status != NullRead && tag == added ==> status == Success
    ensures status != NullRead && tag != added ==> status == RootMismatch || (status == Success && IsCollision(t.h, c))
  {
    PadTellsApart(added, tag);
    status := t.Add(added);
    status, c := VerifyLeaf(t, tag, t.elems - 1);
  }

  /** The first such leaf: the last one of 2^18 + 1. */
  lemma FirstUnreadable()
    ensures !ChunkReadable(LIMIT + 1, LIMIT)
  {
  }

  /** Up to the limit the chunk is the whole tree. */
  lemma ChunkIsTree(h: Hasher, leaves: seq<Digest>, off: nat)
    requires off < |leaves| <= LIMIT
    ensures ChunkRoot(h, leaves, off) == Root(h, leaves)
  {
    Pow2Values();
    WholeBlock(h, leaves, 18);
  }

  // ---------- Beyond the limit ----------

  /** A node hash that keeps only its right operand. */
  const KEEP_RIGHT: Hasher := (l, r) => r

  lemma {:induction false} KeepRightRoot(s: seq<Digest>)
    requires s != []
    ensures Root(KEEP_RIGHT, s) == s[|s| - 1]
    decreases |s|
  {
    if |s| > 1 {
      KeepRightRoot(s[Split(|s|)..]);
    }
  }

  /** What is returned as root, by the contract of GetRoot, is the root of all leaves. */
  ghost predicate RootRightOn(h: Hasher, leaves: seq<Digest>) {
    leaves != [] ==> Root(h, leaves[..if |leaves| <= LIMIT then |leaves| else LIMIT]) == Root(h, leaves)
  }

  ghost predicate RootRight(n: nat) {
    forall h: Hasher, leaves: seq<Digest> :: |leaves| == n ==> RootRightOn(h, leaves)
  }

  /** The value returned as root is the root of all leaves, for every node hash and every content,
      exactly when there are at most 2^18 leaves. */
  lemma RootRightIff(n: nat)
    requires n > 0
    ensures RootRight(n) <==> n <= LIMIT
  {
    if n <= LIMIT {
      forall h: Hasher, leaves: seq<Digest> | |leaves| == n ensures RootRightOn(h, leaves) {
        assert leaves[..n] == leaves;
      }
    } else {
      var leaves: seq<Digest> := seq(n, i => if i == n - 1 then [1] else [0]);
      KeepRightRoot(leaves);
      KeepRightRoot(leaves[..LIMIT]);
      assert leaves[n - 1] == [1] && leaves[..LIMIT][LIMIT - 1] == [0];
      assert !RootRightOn(KEEP_RIGHT, leaves);
    }
  }

  /** Beyond the limit, for whatever node hash: if the value returned as root is right before and after
      a leaf from 2^18 on is replaced, the node hash has a collision. */
  lemma RightRootsCollide(h: Hasher, leaves: seq<Digest>, off: nat, x: Digest) returns (c: Collision)
    requires LIMIT <= off < |leaves| && x != leaves[off]
    requires RootRightOn(h, leaves) && RootRightOn(h, leaves[off := x])
    ensures IsCollision(h, c)
  {
    assert leaves[off := x][..LIMIT] == leaves[..LIMIT];
    c := SharedRootCollides(h, leaves, off, x);
  }

  /** An update leaves the top list alone: it is still right afterwards. */
  ghost predicate TopKept(h: Hasher, leaves: seq<Digest>, off: nat, x: Digest, top: seq<Digest>)
    requires off < |leaves|
  {
    LevelOk(h, leaves, 19, top) ==> LevelOk(h, leaves[off := x], 19, top)
  }

  ghost predicate UpdateRight(n: nat) {
    forall h: Hasher, leaves: seq<Digest>, off: nat, x: Digest, top: seq<Digest> ::
      off < |leaves| == n ==> TopKept(h, leaves, off, x, top)
  }

  /** An update leaves the whole tree as one built over the new leaves, for every node hash and
      every content, exactly when there are at most 2^18 leaves. */
  lemma UpdateRightIff(n: nat)
    requires n < MAX_ELEMS
    ensures UpdateRight(n) <==> n <= LIMIT
  {
    Pow2Values();
    if n <= LIMIT {
      forall h: Hasher, leaves: seq<Digest>, off: nat, x: Digest, top: seq<Digest> |
        off < |leaves| == n
        ensures TopKept(h, leaves, off, x, top)
      {
        if LevelOk(h, leaves, 19, top) {
          NothingAbove(h, n, leaves[off := x], 18, 19, top);
        }
      }
    } else {
      var leaves: seq<Digest> := seq(n, i => [0]);
      var after := leaves[n - 1 := [1]];
      WholeBlock(KEEP_RIGHT, leaves, 19);
      WholeBlock(KEEP_RIGHT, after, 19);
      KeepRightRoot(leaves);
      KeepRightRoot(after);
      var top: seq<Digest> := [[0]];
      assert LevelOk(KEEP_RIGHT, leaves, 19, top) by {
        forall i: nat ensures i < |top| <==> Stored(n, 19, i) {
          if i > 0 {
            MulMonotone(2, 2 * i + 1, Pow2(18));
          }
        }
      }
      assert top[0] != after[n - 1];
      assert !TopKept(KEEP_RIGHT, leaves, n - 1, [1], top);
    }
  }

  /** Beyond the limit, for whatever node hash: if the top list is right before and after any leaf is
      replaced, the node hash has a collision. */
  lemma KeptTopCollides(h: Hasher, leaves: seq<Digest>, off: nat, x: Digest, top: seq<Digest>) returns (c: Collision)
    requires off < |leaves| && LIMIT < |leaves| < MAX_ELEMS && x != leaves[off]
    requires LevelOk(h, leaves, 19, top) && LevelOk(h, leaves[off := x], 19, top)
    ensures IsCollision(h, c)
  {
    Pow2Values();
    assert Stored(|leaves|, 19, 0);
    WholeBlock(h, leaves, 19);
    WholeBlock(h, leaves[off := x], 19);
    assert top[0] == Root(h, leaves) == Root(h, leaves[off := x]);
    c := SharedRootCollides(h, leaves, off, x);
  }
}
