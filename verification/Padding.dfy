/** Padding a message for SHA-256: the bytes that the code produces, the bits that section 4.1 of RFC
    4634 asks for, and that these are the same. */
module Padding {
  import opened Powers
  import opened Sequences

  type Byte = x: nat | x < 256

  const BLOCK := 64
  const BYTE_BITS := 8
  const LENGTH_BYTES := 8
  const LENGTH_BITS := 64

  function Zeros(n: nat): (r: seq<Byte>)
    ensures |r| == n && forall i :: 0 <= i < n ==> r[i] == 0
  {
    seq(n, i => 0)
  }

  /** The n low bytes of x, the highest first. */
  function BigEndian(x: nat, n: nat): (r: seq<Byte>)
    ensures |r| == n
  {
    if n == 0 then [] else BigEndian(x / 256, n - 1) + [x % 256]
  }

  /** Zero bytes up to a block less 8; zero bits up to 512 less 64. */
  function ZeroBytes(length: nat): nat {
    (55 - length) % 64
  }

  function ZeroBits(length: nat): nat {
    (447 - length) % 512
  }

  /** The message, the byte that holds its last bits and the mark, zeros up to a block less 8, and the
      length in bits. */
  function Pad(message: seq<Byte>, last: Byte, bits: nat): (r: seq<Byte>)
    ensures |r| % BLOCK == 0 && |r| >= |message| + 9 && r[..|message|] == message
  {
    message + [last] + Zeros(ZeroBytes(|message|)) + BigEndian(bits, LENGTH_BYTES)
  }

  /** The first n bits of a byte, then a 1, then zeros: the lower bits masked off, and the mark. */
  function LastByte(byte: Byte, n: nat): nat
    requires n < 8
  {
    ShiftRight(byte, 8 - n) * Pow2(8 - n) + Pow2(7 - n)
  }

  // ---------- Bits ----------

  /** The n low bits of x, the highest first. */
  function BigBits(x: nat, n: nat): (r: seq<bool>)
    ensures |r| == n
  {
    if n == 0 then [] else BigBits(x / 2, n - 1) + [x % 2 == 1]
  }

  function Bits(bytes: seq<Byte>): (r: seq<bool>)
    ensures |r| == 8 * |bytes|
  {
    if bytes == [] then [] else Bits(bytes[..|bytes| - 1]) + BigBits(bytes[|bytes| - 1], BYTE_BITS)
  }

  function Falses(n: nat): (r: seq<bool>)
    ensures |r| == n && forall i :: 0 <= i < n ==> !r[i]
  {
    seq(n, i => false)
  }

  /** Section 4.1: a 1, the least number of zeros that leaves 64 bits to a multiple of 512, and the
      length of the message as 64 bits. */
  function RfcPad(message: seq<bool>): seq<bool> {
    message + [true] + Falses(ZeroBits(|message|)) + BigBits(|message|, LENGTH_BITS)
  }

  // ---------- Bytes and bits agree ----------

  lemma {:induction false} BitsAppend(a: seq<Byte>, b: seq<Byte>)
    ensures Bits(a + b) == Bits(a) + Bits(b)
  {
    if b == [] {
      assert a + b == a;
    } else {
      var n := |b| - 1;
      var init, last := b[..n], b[n];
      var all := a + b;
      assert all[..|all| - 1] == a + init && all[|all| - 1] == last;
      BitsAppend(a, init);
      Associative(Bits(a), Bits(init), BigBits(last, BYTE_BITS));
    }
  }

  lemma {:induction false} BitsOne(b: Byte)
    ensures Bits([b]) == BigBits(b, BYTE_BITS)
  {
    assert [b][..0] == [];
  }

  lemma {:induction false} BitsOfZero(n: nat)
    ensures BigBits(0, n) == Falses(n)
  {
    if n > 0 {
      BitsOfZero(n - 1);
    }
  }

  lemma {:induction false} BitsOfZeros(n: nat)
    ensures Bits(Zeros(n)) == Falses(8 * n)
  {
    if n > 0 {
      assert Zeros(n)[..n - 1] == Zeros(n - 1);
      BitsOfZeros(n - 1);
      BitsOfZero(BYTE_BITS);
    }
  }

  /** The bits of a number are those of its upper part and then those of its lower part. */
  lemma {:induction false} BitsSplit(upper: nat, lower: nat, n: nat, k: nat)
    requires lower < Pow2(k)
    ensures BigBits(upper * Pow2(k) + lower, n + k) == BigBits(upper, n) + BigBits(lower, k)
  {
    if k > 0 {
      var x := upper * Pow2(k) + lower;
      LowBit(upper, lower, Pow2(k - 1), x);
      BitsSplit(upper, lower / 2, n, k - 1);
      Associative(BigBits(upper, n), BigBits(lower / 2, k - 1), [x % 2 == 1]);
    }
  }

  lemma LowBit(upper: nat, lower: nat, p: nat, x: nat)
    requires x == upper * (2 * p) + lower
    ensures x / 2 == upper * p + lower / 2 && x % 2 == lower % 2
  {
    var q := upper * p;
    assert x == 2 * q + lower;
  }

  lemma {:induction false} BitsOfPower(k: nat)
    ensures BigBits(Pow2(k), k + 1) == [true] + Falses(k)
  {
    if k > 0 {
      BitsOfPower(k - 1);
      assert Falses(k) == Falses(k - 1) + [false];
    } else {
      assert BigBits(1, 1) == BigBits(0, 0) + [true];
    }
  }

  lemma {:induction false} ByteSplit(upper: nat, byte: Byte, n: nat)
    ensures BigBits(256 * upper + byte, n + BYTE_BITS) == BigBits(upper, n) + BigBits(byte, BYTE_BITS)
  {
    assert Pow2(8) == Pow2(BYTE_BITS) == 256;
    BitsSplit(upper, byte, n, BYTE_BITS);
  }

  lemma {:induction false} BigEndianBits(x: nat, n: nat)
    ensures Bits(BigEndian(x, n)) == BigBits(x, 8 * n)
  {
    if n > 0 {
      var upper: nat, byte: Byte := x / 256, x % 256;
      BigEndianBits(upper, n - 1);
      ByteSplit(upper, byte, 8 * (n - 1));
      assert 8 * n == 8 * (n - 1) + BYTE_BITS;
      var r := BigEndian(x, n);
      assert r[..n - 1] == BigEndian(upper, n - 1) && r[n - 1] == byte;
    }
  }

  lemma {:induction false} ShiftBounds(x: nat, k: nat)
    ensures ShiftRight(x, k) * Pow2(k) <= x
  {
    if k > 0 {
      ShiftBounds(x / 2, k - 1);
      assert ShiftRight(x, k) * Pow2(k) == 2 * (ShiftRight(x / 2, k - 1) * Pow2(k - 1));
    }
  }

  lemma {:induction false} ShiftBits(x: nat, n: nat, k: nat)
    ensures BigBits(x, n + k)[..n] == BigBits(ShiftRight(x, k), n)
  {
    if k > 0 {
      ShiftBits(x / 2, n, k - 1);
    }
  }

  lemma {:induction false} MarkedBits(x: nat, n: nat, j: nat)
    ensures BigBits(ShiftRight(x, j + 1) * Pow2(j + 1) + Pow2(j), n + (j + 1))
            == BigBits(x, n + (j + 1))[..n] + ([true] + Falses(j))
  {
    ShiftBits(x, n, j + 1);
    BitsSplit(ShiftRight(x, j + 1), Pow2(j), n, j + 1);
    BitsOfPower(j);
  }

  lemma {:induction false} LastByteBits(byte: Byte, n: nat)
    requires n < 8
    ensures LastByte(byte, n) < 256
    ensures BigBits(LastByte(byte, n), BYTE_BITS) == BigBits(byte, BYTE_BITS)[..n] + ([true] + Falses(7 - n))
  {
    MarkedBits(byte, n, 7 - n);
    LastByteFits(byte, n);
  }

  lemma {:induction false} LastByteFits(byte: Byte, n: nat)
    requires n < 8
    ensures LastByte(byte, n) < 256
  {
    ShiftBounds(byte, 8 - n);
    UnitFits(byte, n, ShiftRight(byte, 8 - n));
  }

  /** A byte's upper part is at most all ones, so that the mark fits below. */
  lemma {:induction false} UnitFits(byte: Byte, n: nat, q: nat)
    requires n < 8 && q * Pow2(8 - n) <= byte
    ensures q * Pow2(8 - n) + Pow2(7 - n) < 256
  {
    assert Pow2(0) == 1 && Pow2(1) == 2 && Pow2(2) == 4 && Pow2(3) == 8;
    assert Pow2(4) == 16 && Pow2(5) == 32 && Pow2(6) == 64 && Pow2(7) == 128 && Pow2(8) == 256;
    assert n == 0 || n == 1 || n == 2 || n == 3 || n == 4 || n == 5 || n == 6 || n == 7;
  }

  /** The padding fills whole blocks, with less than a block more than it needs. */
  lemma RfcPadLength(message: seq<bool>)
    ensures |RfcPad(message)| % 512 == 0 && |message| + 65 <= |RfcPad(message)| < |message| + 65 + 512
  {
    var n := |message|;
    var q, k := (447 - n) / 512, (447 - n) % 512;
    assert n + 65 + k == 512 * (1 - q);
  }

  lemma {:induction false} PadBits(message: seq<Byte>, last: Byte, bits: nat)
    ensures Bits(Pad(message, last, bits))
            == Bits(message) + BigBits(last, BYTE_BITS) + Falses(8 * ZeroBytes(|message|)) + BigBits(bits, LENGTH_BITS)
  {
    BitsAppend(message + [last] + Zeros(ZeroBytes(|message|)), BigEndian(bits, LENGTH_BYTES));
    BitsAppend(message + [last], Zeros(ZeroBytes(|message|)));
    BitsAppend(message, [last]);
    BitsOne(last);
    BitsOfZeros(ZeroBytes(|message|));
    BigEndianBits(bits, LENGTH_BYTES);
  }

  /** Counting zero bits after the mark, or zero bytes after the byte with the mark. */
  lemma ZeroCount(m: nat, n: nat)
    requires n < 8
    ensures ZeroBits(8 * m + n) == 8 * ZeroBytes(m) + (7 - n)
  {
    var q, k := (55 - m) / 64, (55 - m) % 64;
    assert 447 - (8 * m + n) == 512 * q + (8 * k + 7 - n);
  }

  lemma Regroup(m: seq<bool>, last: seq<bool>, f: seq<bool>, j: nat, k: nat, end: seq<bool>)
    requires last == f + ([true] + Falses(j))
    ensures m + last + Falses(k) + end == (m + f) + [true] + Falses(k + j) + end
  {
    assert Falses(j) + Falses(k) == Falses(k + j);
    assert m + last + Falses(k) == (m + f) + [true] + Falses(k + j);
  }

  /** For every message of whole bytes and up to seven more bits: what the code pads is the padding of
      section 4.1 of the message's bits. */
  lemma {:induction false} PaddingIsRfc(message: seq<Byte>, byte: Byte, n: nat)
    requires n < 8
    ensures LastByte(byte, n) < 256
    ensures Bits(Pad(message, LastByte(byte, n), 8 * |message| + n)) ==
              RfcPad(Bits(message) + BigBits(byte, BYTE_BITS)[..n])
  {
    LastByteBits(byte, n);
    MarkedPad(message, LastByte(byte, n), BigBits(byte, BYTE_BITS)[..n], n);
  }

  lemma {:induction false} MarkedPad(message: seq<Byte>, last: Byte, f: seq<bool>, n: nat)
    requires n < 8 && |f| == n && BigBits(last, BYTE_BITS) == f + ([true] + Falses(7 - n))
    ensures Bits(Pad(message, last, 8 * |message| + n)) == RfcPad(Bits(message) + f)
  {
    var bits, k, m := 8 * |message| + n, ZeroBytes(|message|), Bits(message);
    PadBits(message, last, bits);
    ZeroCount(|message|, n);
    assert |m + f| == bits;
    Regroup(m, BigBits(last, BYTE_BITS), f, 7 - n, 8 * k, BigBits(bits, LENGTH_BITS));
  }

  // ---------- Distinct messages are padded differently ----------

  lemma {:induction false} BigBitsInjective(x: nat, y: nat, n: nat)
    requires x < Pow2(n) && y < Pow2(n) && BigBits(x, n) == BigBits(y, n)
    ensures x == y
  {
    if n > 0 {
      var a, b := BigBits(x, n), BigBits(y, n);
      assert a[..n - 1] == BigBits(x / 2, n - 1) && b[..n - 1] == BigBits(y / 2, n - 1);
      assert a[n - 1] == (x % 2 == 1) && b[n - 1] == (y % 2 == 1);
      BigBitsInjective(x / 2, y / 2, n - 1);
    }
  }

  /** Two messages under 2^64 bits with the same padding are the same. */
  lemma {:induction false} PaddingInjective(a: seq<bool>, b: seq<bool>)
    requires |a| < Pow2(LENGTH_BITS) && |b| < Pow2(LENGTH_BITS)
    ensures RfcPad(a) == RfcPad(b) <==> a == b
  {
    var p, q := RfcPad(a), RfcPad(b);
    if p == q {
      assert p[|p| - 64..] == BigBits(|a|, LENGTH_BITS) && q[|q| - 64..] == BigBits(|b|, LENGTH_BITS);
      BigBitsInjective(|a|, |b|, LENGTH_BITS);
      assert p[..|a|] == a && q[..|b|] == b;
    }
  }

  /** So what is hashed tells messages apart: equal padded bytes come from equal bits. */
  lemma {:induction false} PadTellsApart(a: seq<Byte>, x: Byte, m: nat, b: seq<Byte>, y: Byte, n: nat)
    requires m < 8 && n < 8 && 8 * |a| + m < Pow2(LENGTH_BITS) && 8 * |b| + n < Pow2(LENGTH_BITS)
    ensures LastByte(x, m) < 256 && LastByte(y, n) < 256
    ensures Pad(a, LastByte(x, m), 8 * |a| + m) == Pad(b, LastByte(y, n), 8 * |b| + n) ==>
              Bits(a) + BigBits(x, BYTE_BITS)[..m] == Bits(b) + BigBits(y, BYTE_BITS)[..n]
  {
    PaddingIsRfc(a, x, m);
    PaddingIsRfc(b, y, n);
    PaddingInjective(Bits(a) + BigBits(x, BYTE_BITS)[..m], Bits(b) + BigBits(y, BYTE_BITS)[..n]);
  }
}
