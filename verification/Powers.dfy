/** Powers of two and the little arithmetic that other proofs need. */
module Powers {

  function Pow2(n: nat): (p: nat)
    ensures p > 0
  {
    if n == 0 then 1 else 2 * Pow2(n - 1)
  }

  function ShiftRight(x: nat, k: nat): nat {
    if k == 0 then x else ShiftRight(x / 2, k - 1)
  }

  lemma {:induction false} Pow2Monotone(a: nat, b: nat)
    requires a <= b
    ensures Pow2(a) <= Pow2(b)
    ensures a < b ==> 2 * Pow2(a) <= Pow2(b)
    decreases b - a
  {
    if a < b {
      Pow2Monotone(a, b - 1);
    }
  }

  /** Halving an index doubles the block it names. */
  lemma Halve(q: nat, p: nat)
    ensures q % 2 == 0 ==> q * p == (q / 2) * (2 * p)
    ensures q % 2 == 1 ==> q * p == (q / 2) * (2 * p) + p
  {
    assert q == 2 * (q / 2) + q % 2;
    assert q * p == (2 * (q / 2) + q % 2) * p;
  }

  lemma MulMonotone(a: nat, b: nat, p: nat)
    requires a <= b
    ensures a * p <= b * p
    ensures a < b ==> a * p + p <= b * p
  {
    assert b * p == a * p + (b - a) * p;
    if a < b {
      assert (b - a) * p == p + (b - a - 1) * p;
    }
  }

  lemma Pow2Values()
    ensures Pow2(18) == 262144 && Pow2(19) == 524288
  {
    assert Pow2(6) == 64;
    assert Pow2(12) == 4096;
    assert Pow2(18) == 262144;
  }

  lemma Distribute(x: int, d: nat, n: nat)
    requires d > 0
    ensures (x + d) * n == x * n + d * n >= x * n + n
  {
  }

  lemma SameQuotient(x: int, y: int, n: nat, r: nat, b: nat)
    requires x * n + r == y * n + b && r < n && b < n
    ensures x == y
  {
    if x < y {
      Distribute(x, y - x, n);
    } else if y < x {
      Distribute(y, x - y, n);
    }
  }

  /** A remainder is known by any way to write the number as a multiple and a remainder. */
  lemma ModUnique(a: int, k: int, n: nat, r: nat)
    requires a == k * n + r && r < n
    ensures a % n == r
  {
    SameQuotient(a / n, k, n, a % n, r);
  }

  lemma ModShift(a: int, k: int, n: nat)
    requires n > 0
    ensures (a + k * n) % n == a % n
  {
    var q, r := a / n, a % n;
    assert (q + k) * n == q * n + k * n;
    ModUnique(a + k * n, q + k, n, r);
  }
}
