/** The two bit tricks of the array list, on 32-bit numbers as integers: testing for a power of two,
    and rounding up to one. */
module BitTricks {
  import opened Powers

  const WORD := 0x1_0000_0000
  const WORD_BITS: nat := 32

  function And(a: nat, b: nat): nat {
    if a == 0 then 0 else 2 * And(a / 2, b / 2) + (if a % 2 == 1 && b % 2 == 1 then 1 else 0)
  }

  function Or(a: nat, b: nat): nat
    decreases a + b
  {
    if a + b == 0 then 0 else 2 * Or(a / 2, b / 2) + (if a % 2 == 1 || b % 2 == 1 then 1 else 0)
  }

  function IsPowerOfTwo(v: nat): bool {
    v != 0 && And(v, v - 1) == 0
  }

  function Smear(v: nat): nat {
    var v1 := Or(v, ShiftRight(v, 1));
    var v2 := Or(v1, ShiftRight(v1, 2));
    var v3 := Or(v2, ShiftRight(v2, 4));
    var v4 := Or(v3, ShiftRight(v3, 8));
    Or(v4, ShiftRight(v4, 16))
  }

  /** Adds one in 32 bits, and once more if that gave zero. */
  function AddOne(v: nat): nat {
    var r := (v + 1) % WORD;
    r + if r == 0 then 1 else 0
  }

  function RoundNextPowerTwo(v: nat): nat {
    AddOne(Smear((v - 1) % WORD))
  }

  // ---------- Testing ----------

  lemma {:induction false} AndSelf(a: nat)
    ensures And(a, a) == a
  {
    if a > 0 {
      AndSelf(a / 2);
    }
  }

  lemma {:induction false} PowerPasses(k: nat)
    ensures IsPowerOfTwo(Pow2(k))
  {
    if k > 0 {
      var u := Pow2(k - 1);
      PowerPasses(k - 1);
      assert Pow2(k) / 2 == u && (Pow2(k) - 1) / 2 == u - 1;
    }
  }

  lemma {:induction false} PassesIsPower(v: nat) returns (k: nat)
    requires IsPowerOfTwo(v)
    ensures v == Pow2(k)
  {
    if v % 2 == 1 {
      AndSelf(v / 2);
      assert (v - 1) / 2 == v / 2;
      k := 0;
    } else {
      assert (v - 1) / 2 == v / 2 - 1;
      k := PassesIsPower(v / 2);
      k := k + 1;
    }
  }

  /** The test is right for every number. */
  lemma PowerOfTwoIff(v: nat)
    ensures IsPowerOfTwo(v) <==> exists k: nat :: v == Pow2(k)
  {
    if IsPowerOfTwo(v) {
      var k := PassesIsPower(v);
    }
    if k: nat :| v == Pow2(k) {
      PowerPasses(k);
    }
  }

  // ---------- Rounding ----------

  predicate Bit(v: nat, i: nat) {
    ShiftRight(v, i) % 2 == 1
  }

  lemma {:induction false} BitOfShift(v: nat, k: nat, i: nat)
    ensures Bit(ShiftRight(v, k), i) == Bit(v, i + k)
  {
    if k > 0 {
      BitOfShift(v / 2, k - 1, i);
    }
  }

  lemma {:induction false} BitOfOr(a: nat, b: nat, i: nat)
    ensures Bit(Or(a, b), i) == (Bit(a, i) || Bit(b, i))
    decreases i
  {
    var o := Or(a, b);
    if a + b == 0 {
      NoBits(i);
    } else if i > 0 {
      assert o / 2 == Or(a / 2, b / 2);
      BitOfOr(a / 2, b / 2, i - 1);
    }
  }

  lemma {:induction false} NoBits(i: nat)
    ensures !Bit(0, i)
  {
    if i > 0 {
      NoBits(i - 1);
    }
  }

  ghost predicate BitWithin(w: nat, i: nat, k: nat) {
    exists j: nat :: i <= j < i + k && Bit(w, j)
  }

  /** Each bit of v says whether w has a bit at that place or less than k above. */
  ghost predicate Smeared(w: nat, v: nat, k: nat) {
    forall i: nat :: Bit(v, i) <==> BitWithin(w, i, k)
  }

  lemma SmearStep(w: nat, v: nat, k: nat)
    requires Smeared(w, v, k)
    ensures Smeared(w, Or(v, ShiftRight(v, k)), 2 * k)
  {
    forall i: nat ensures Bit(Or(v, ShiftRight(v, k)), i) <==> BitWithin(w, i, 2 * k) {
      BitOfOr(v, ShiftRight(v, k), i);
      BitOfShift(v, k, i);
      assert Bit(v, i) <==> BitWithin(w, i, k);
      assert Bit(v, i + k) <==> BitWithin(w, i + k, k);
    }
  }

  lemma SmearAll(w: nat)
    ensures Smeared(w, Smear(w), WORD_BITS)
  {
    forall i: nat ensures Bit(w, i) <==> BitWithin(w, i, 1) {}
    var v1 := Or(w, ShiftRight(w, 1));
    SmearStep(w, w, 1);
    var v2 := Or(v1, ShiftRight(v1, 2));
    SmearStep(w, v1, 2);
    var v3 := Or(v2, ShiftRight(v2, 4));
    SmearStep(w, v2, 4);
    var v4 := Or(v3, ShiftRight(v3, 8));
    SmearStep(w, v3, 8);
    SmearStep(w, v4, 16);
  }

  /** The number of bits up to the highest that is set. */
  function Width(w: nat): nat {
    if w == 0 then 0 else 1 + Width(w / 2)
  }

  lemma {:induction false} WidthBounds(w: nat)
    ensures w < Pow2(Width(w))
    ensures w > 0 ==> Pow2(Width(w) - 1) <= w && Bit(w, Width(w) - 1)
    ensures forall i: nat :: i >= Width(w) ==> !Bit(w, i)
  {
    if w > 0 {
      WidthBounds(w / 2);
      forall i: nat | i >= Width(w) ensures !Bit(w, i) {
        assert !Bit(w / 2, i - 1);
      }
    } else {
      forall i: nat ensures !Bit(w, i) {
        NoBits(i);
      }
    }
  }

  /** A number whose bits below n, and no others, are set. */
  lemma {:induction false} AllOnes(v: nat, n: nat)
    requires forall i: nat :: Bit(v, i) <==> i < n
    ensures v + 1 == Pow2(n)
  {
    assert Bit(v, 0) <==> 0 < n;
    if n == 0 {
      if v > 0 {
        WidthBounds(v);
      }
    } else {
      forall i: nat ensures Bit(v / 2, i) <==> i < n - 1 {
        assert Bit(v, i + 1) <==> i + 1 < n;
      }
      AllOnes(v / 2, n - 1);
    }
  }

  lemma SmearIs(w: nat)
    requires w < WORD
    ensures Smear(w) + 1 == Pow2(Width(w)) && Width(w) <= WORD_BITS
  {
    SmearedWidth(w);
    forall i: nat ensures Bit(Smear(w), i) <==> i < Width(w) {
      SmearedBit(w, i);
    }
    AllOnes(Smear(w), Width(w));
  }

  lemma SmearedWidth(w: nat)
    requires w < WORD
    ensures Width(w) <= WORD_BITS
  {
    WidthBounds(w);
    WordBits();
    if w > 0 {
      PowersLess(Width(w) - 1, WORD_BITS);
    }
  }

  lemma SmearedBit(w: nat, i: nat)
    requires w < WORD
    ensures Bit(Smear(w), i) <==> i < Width(w)
  {
    SmearAll(w);
    WidthBounds(w);
    SmearedWidth(w);
    assert Bit(Smear(w), i) <==> BitWithin(w, i, WORD_BITS);
    if i < Width(w) {
      assert Bit(w, Width(w) - 1);
    }
  }

  lemma {:induction false} WordBits()
    ensures Pow2(WORD_BITS) == WORD && Pow2(31) == 0x8000_0000
  {
    assert Pow2(8) == 256;
    assert Pow2(16) == 0x1_0000;
    assert Pow2(24) == 0x100_0000;
    assert Pow2(31) == 0x8000_0000;
  }

  ghost predicate IsLeastPower(p: nat, v: nat) {
    && (exists k: nat :: p == Pow2(k))
    && p >= v
    && forall j: nat :: Pow2(j) >= v ==> Pow2(j) >= p
  }

  lemma PowersLess(a: nat, b: nat)
    ensures Pow2(a) < Pow2(b) ==> a < b
  {
    if a >= b {
      Pow2Monotone(b, a);
    }
  }

  lemma WidthAtMost(w: nat)
    requires w < WORD
    ensures if w < 0x8000_0000 then Width(w) <= 31 && Pow2(Width(w)) <= 0x8000_0000 else Width(w) == WORD_BITS
  {
    WidthBounds(w);
    WordBits();
    var n := Width(w);
    if n > 0 {
      PowersLess(n - 1, 31);
      PowersLess(n - 1, WORD_BITS);
    }
    PowersLess(31, n);
    if n <= 31 {
      Pow2Monotone(n, 31);
    }
  }

  lemma AddOneIs(v: nat)
    requires v < WORD
    ensures AddOne(v) == if v + 1 == WORD then 1 else v + 1
  {
  }

  lemma RoundIs(v: nat)
    requires v < WORD
    ensures RoundNextPowerTwo(v) == if 0 < v <= 0x8000_0000 then Pow2(Width(v - 1)) else 1
  {
    var w := if v == 0 then WORD - 1 else v - 1;
    assert (v - 1) % WORD == w;
    SmearIs(w);
    WidthAtMost(w);
    WordBits();
    AddOneIs(Smear(w));
  }

  /** Rounding gives the least power of two at or above the number, and exactly for the 32-bit numbers
      up to 2^31; above, the result is 1. */
  lemma RoundIsLeastIff(v: nat)
    requires v < WORD
    ensures IsLeastPower(RoundNextPowerTwo(v), v) <==> v <= 0x8000_0000
    ensures v > 0x8000_0000 ==> RoundNextPowerTwo(v) == 1
  {
    RoundIs(v);
    assert Pow2(0) == 1;
    if 0 < v <= 0x8000_0000 {
      WidthIsLeast(v);
    }
  }

  lemma WidthIsLeast(v: nat)
    requires v > 0
    ensures IsLeastPower(Pow2(Width(v - 1)), v)
  {
    var n := Width(v - 1);
    WidthBounds(v - 1);
    forall j: nat | Pow2(j) >= v ensures Pow2(j) >= Pow2(n) {
      if j < n {
        Pow2Monotone(j, n - 1);
      } else {
        Pow2Monotone(n, j);
      }
    }
  }
}
