/** The simple tree that the incremental one has to agree with: a list of more than one leaf is
    cut at the largest power of two below its length, as in section 2.1 of RFC 6962, and the
    roots of both parts are hashed together.  Leaves are not hashed. */
module MerkleReference {
  import opened Powers

  type Digest = seq<bv8>
  type Hasher = (Digest, Digest) -> Digest

  function Node(h: Hasher, left: Digest, right: Digest): Digest {
    h(left, right)
  }

  /** The largest power of two below n. */
  function Split(n: nat): (k: nat)
    requires n >= 2
    ensures 0 < k < n <= 2 * k
  {
    if n == 2 then 1 else 2 * Split((n + 1) / 2)
  }

  lemma {:induction false} SplitIsPower(n: nat) returns (e: nat)
    requires n >= 2
    ensures Split(n) == Pow2(e)
  {
    if n == 2 {
      e := 0;
    } else {
      e := SplitIsPower((n + 1) / 2);
      e := e + 1;
    }
  }

  lemma SplitUnique(n: nat, l: nat)
    requires n >= 2 && Pow2(l) < n <= 2 * Pow2(l)
    ensures Split(n) == Pow2(l)
  {
    var e := SplitIsPower(n);
    if e < l {
      Pow2Monotone(e, l);
    } else {
      Pow2Monotone(l, e);
    }
  }

  function Root(h: Hasher, s: seq<Digest>): Digest
    requires s != []
    decreases |s|
  {
    if |s| == 1 then s[0] else
    var k := Split(|s|);
    Node(h, Root(h, s[..k]), Root(h, s[k..]))
  }

  datatype Collision = Collision(a: Digest, b: Digest, c: Digest, d: Digest)

  ghost predicate IsCollision(h: Hasher, x: Collision) {
    (x.a, x.b) != (x.c, x.d) && h(x.a, x.b) == h(x.c, x.d)
  }

  /** Two lists that differ in one leaf and share a root exhibit a collision of the node hash,
      found on the path from that leaf to the root. */
  lemma {:induction false} SharedRootCollides(h: Hasher, s: seq<Digest>, i: nat, x: Digest) returns (c: Collision)
    requires i < |s| && x != s[i]
    requires Root(h, s[i := x]) == Root(h, s)
    ensures IsCollision(h, c)
    decreases |s|
  {
    assert |s| > 1;
    var k, t := Split(|s|), s[i := x];
    var l, r, l', r' := Root(h, s[..k]), Root(h, s[k..]), Root(h, t[..k]), Root(h, t[k..]);
    if l != l' || r != r' {
      c := Collision(l, r, l', r');
    } else if i < k {
      assert t[..k] == s[..k][i := x];
      c := SharedRootCollides(h, s[..k], i, x);
    } else {
      assert t[k..] == s[k..][i - k := x];
      c := SharedRootCollides(h, s[k..], i - k, x);
    }
  }

  // ---------- Aligned blocks ----------

  /** The leaves below node i of level l. */
  function Block(leaves: seq<Digest>, l: nat, i: nat): (b: seq<Digest>)
    requires i * Pow2(l) < |leaves|
    ensures b != []
  {
    var p := Pow2(l);
    assert (i + 1) * p == i * p + p;
    leaves[i * p .. if (i + 1) * p < |leaves| then (i + 1) * p else |leaves|]
  }

  function BlockRoot(h: Hasher, leaves: seq<Digest>, l: nat, i: nat): Digest
    requires i * Pow2(l) < |leaves|
  {
    Root(h, Block(leaves, l, i))
  }

  lemma LeafBlock(h: Hasher, leaves: seq<Digest>, i: nat)
    requires i < |leaves|
    ensures i * Pow2(0) == i && BlockRoot(h, leaves, 0, i) == leaves[i]
  {
    assert Block(leaves, 0, i) == [leaves[i]];
  }

  /** A node with a non-empty right half is the hash of its two children. */
  lemma PairedBlock(h: Hasher, leaves: seq<Digest>, l: nat, i: nat)
    requires (2 * i + 1) * Pow2(l) < |leaves|
    ensures i * Pow2(l + 1) == 2 * i * Pow2(l) < |leaves|
    ensures BlockRoot(h, leaves, l + 1, i) ==
            h(BlockRoot(h, leaves, l, 2 * i), BlockRoot(h, leaves, l, 2 * i + 1))
  {
    var p := Pow2(l);
    ChildBlocks(l, i);
    var b := Block(leaves, l + 1, i);
    SplitUnique(|b|, l);
    assert b[..p] == Block(leaves, l, 2 * i);
    assert b[p..] == Block(leaves, l, 2 * i + 1);
  }

  /** A node whose right half is empty is its left child, promoted. */
  lemma PromotedBlock(h: Hasher, leaves: seq<Digest>, l: nat, i: nat)
    requires 2 * i * Pow2(l) < |leaves| <= (2 * i + 1) * Pow2(l)
    ensures i * Pow2(l + 1) == 2 * i * Pow2(l)
    ensures BlockRoot(h, leaves, l + 1, i) == BlockRoot(h, leaves, l, 2 * i)
  {
    ChildBlocks(l, i);
    assert Block(leaves, l + 1, i) == Block(leaves, l, 2 * i);
  }

  lemma ChildBlocks(l: nat, i: nat)
    ensures i * Pow2(l + 1) == 2 * i * Pow2(l)
    ensures (2 * i + 1) * Pow2(l) == 2 * i * Pow2(l) + Pow2(l)
    ensures (2 * i + 2) * Pow2(l) == (i + 1) * Pow2(l + 1) == 2 * i * Pow2(l) + 2 * Pow2(l)
  {
    var p := Pow2(l);
    assert i * (2 * p) == 2 * i * p;
    assert (i + 1) * (2 * p) == (2 * i + 2) * p;
  }

  /** A block that holds all leaves has the root of all leaves. */
  lemma WholeBlock(h: Hasher, leaves: seq<Digest>, l: nat)
    requires 0 < |leaves| <= Pow2(l)
    ensures 0 * Pow2(l) == 0 && BlockRoot(h, leaves, l, 0) == Root(h, leaves)
  {
    assert Block(leaves, l, 0) == leaves;
  }
}
