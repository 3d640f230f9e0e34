/** SHA-256 in pieces: a context takes a message in any number of calls and gives its digest.  The
    function that mixes one block into the hash is a parameter. */
module Sha256 {
  import opened Padding

  const WORD := 0x1_0000_0000

  /** Eight 32-bit words. */
  datatype Hash = Hash(a: nat, b: nat, c: nat, d: nat, e: nat, f: nat, g: nat, h: nat)

  type Compressor = (Hash, seq<Byte>) -> Hash

  /** The reference: the blocks of a padded message mixed into the hash, one after the other. */
  ghost function Fold(mix: Compressor, start: Hash, bytes: seq<Byte>): Hash
    requires |bytes| % BLOCK == 0
  {
    if bytes == [] then start
    else
      var n := |bytes| - BLOCK;
      mix(Fold(mix, start, bytes[..n]), bytes[n..])
  }

  lemma {:induction false} FoldAppend(mix: Compressor, start: Hash, bytes: seq<Byte>, block: seq<Byte>)
    requires |bytes| % BLOCK == 0 && |block| == BLOCK
    ensures Fold(mix, start, bytes + block) == mix(Fold(mix, start, bytes), block)
  {
    var all := bytes + block;
    assert all[..|all| - BLOCK] == bytes && all[|all| - BLOCK..] == block;
  }

  // ---------- The buffer ----------

  /** The hash covers the whole blocks of the message, the buffer holds the rest. */
  ghost predicate Absorbed(mix: Compressor, start: Hash, hash: Hash, buffer: seq<Byte>, message: seq<Byte>) {
    && |buffer| == |message| % BLOCK
    && buffer == message[|message| - |buffer|..]
    && hash == Fold(mix, start, message[..|message| - |buffer|])
  }

  lemma NextLength(length: nat, buffered: nat)
    requires buffered == length % BLOCK
    ensures (length + 1) % BLOCK == if buffered < BLOCK - 1 then buffered + 1 else 0
    ensures (length - buffered) % BLOCK == 0
    ensures ZeroBytes(length) == if buffered < BLOCK - 8 then 55 - buffered else 63 - buffered + 56
  {
  }

  lemma {:induction false} AbsorbByte(
      mix: Compressor, start: Hash, hash: Hash, buffer: seq<Byte>, message: seq<Byte>, b: Byte)
    requires Absorbed(mix, start, hash, buffer, message)
    ensures |buffer| < BLOCK - 1 ==> Absorbed(mix, start, hash, buffer + [b], message + [b])
    ensures |buffer| == BLOCK - 1 ==> Absorbed(mix, start, mix(hash, buffer + [b]), [], message + [b])
  {
    NextLength(|message|, |buffer|);
    var head := message[..|message| - |buffer|];
    assert message == head + buffer;
    assert message + [b] == head + (buffer + [b]);
    if |buffer| < BLOCK - 1 {
      Parts(mix, start, head, buffer + [b], message + [b]);
    } else {
      BlockFull(mix, start, head, buffer + [b], message + [b]);
    }
  }

  lemma {:induction false} Parts(mix: Compressor, start: Hash, head: seq<Byte>, buffer: seq<Byte>, all: seq<Byte>)
    requires |head| % BLOCK == 0 && |buffer| < BLOCK && all == head + buffer
    ensures Absorbed(mix, start, Fold(mix, start, head), buffer, all)
  {
    assert all[..|head|] == head && all[|head|..] == buffer;
  }

  lemma {:induction false} BlockFull(mix: Compressor, start: Hash, head: seq<Byte>, block: seq<Byte>, all: seq<Byte>)
    requires |head| % BLOCK == 0 && |block| == BLOCK && all == head + block && |all| % BLOCK == 0
    ensures Absorbed(mix, start, mix(Fold(mix, start, head), block), [], all)
  {
    FoldAppend(mix, start, head, block);
    assert all[..|all|] == all;
  }

  lemma Regroup(head: seq<Byte>, buffer: seq<Byte>, last: Byte, i: nat, j: nat, end: seq<Byte>)
    ensures head + buffer + [last] + Zeros(i + j) + end == head + (buffer + [last] + Zeros(i)) + (Zeros(j) + end)
    ensures head + buffer + [last] + Zeros(i) + end == head + (buffer + [last] + Zeros(i) + end)
  {
    assert Zeros(i + j) == Zeros(i) + Zeros(j);
  }

  /** What is left to mix in when the message ends: one block if the mark and the length still fit,
      two otherwise. */
  ghost function Padded(mix: Compressor, hash: Hash, buffer: seq<Byte>, last: Byte, end: seq<Byte>): Hash
    requires |buffer| < BLOCK
  {
    if |buffer| < BLOCK - 8 then mix(hash, buffer + [last] + Zeros(55 - |buffer|) + end)
    else mix(mix(hash, buffer + [last] + Zeros(63 - |buffer|)), Zeros(56) + end)
  }

  lemma {:induction false} OneBlock(
      mix: Compressor, start: Hash, head: seq<Byte>, buffer: seq<Byte>, last: Byte, end: seq<Byte>, all: seq<Byte>)
    requires |head| % BLOCK == 0 && |buffer| < BLOCK - 8 && |end| == 8
    requires all == head + buffer + [last] + Zeros(55 - |buffer|) + end && |all| % BLOCK == 0
    ensures Padded(mix, Fold(mix, start, head), buffer, last, end) == Fold(mix, start, all)
  {
    var block := buffer + [last] + Zeros(55 - |buffer|) + end;
    Regroup(head, buffer, last, 55 - |buffer|, 0, end);
    assert all == head + block;
    FoldAppend(mix, start, head, block);
  }

  lemma {:induction false} TwoBlocks(
      mix: Compressor, start: Hash, head: seq<Byte>, buffer: seq<Byte>, last: Byte, end: seq<Byte>, all: seq<Byte>)
    requires |head| % BLOCK == 0 && BLOCK - 8 <= |buffer| < BLOCK && |end| == 8
    requires all == head + buffer + [last] + Zeros(63 - |buffer| + 56) + end && |all| % BLOCK == 0
    ensures Padded(mix, Fold(mix, start, head), buffer, last, end) == Fold(mix, start, all)
  {
    var first, second := buffer + [last] + Zeros(63 - |buffer|), Zeros(56) + end;
    Regroup(head, buffer, last, 63 - |buffer|, 56, end);
    assert all == head + first + second;
    FoldAppend(mix, start, head, first);
    FoldAppend(mix, start, head + first, second);
  }

  lemma {:induction false} PaddedIsFold(
      mix: Compressor, start: Hash, hash: Hash, buffer: seq<Byte>, message: seq<Byte>, last: Byte, bits: nat)
    requires Absorbed(mix, start, hash, buffer, message)
    ensures Padded(mix, hash, buffer, last, BigEndian(bits, LENGTH_BYTES)) == Fold(mix, start, Pad(message, last, bits))
  {
    NextLength(|message|, |buffer|);
    var head, end := message[..|message| - |buffer|], BigEndian(bits, LENGTH_BYTES);
    assert message == head + buffer;
    if |buffer| < BLOCK - 8 {
      OneBlock(mix, start, head, buffer, last, end, Pad(message, last, bits));
    } else {
      TwoBlocks(mix, start, head, buffer, last, end, Pad(message, last, bits));
    }
  }

  // ---------- Taking in a message byte by byte ----------

  /** What a context has made of the message so far. */
  datatype Midway = Midway(hash: Hash, buffer: seq<Byte>)

  function Next(mix: Compressor, m: Midway, b: Byte): Midway {
    if |m.buffer| == BLOCK - 1 then Midway(mix(m.hash, m.buffer + [b]), []) else m.(buffer := m.buffer + [b])
  }

  function TakeIn(mix: Compressor, m: Midway, bytes: seq<Byte>): Midway {
    if bytes == [] then m else Next(mix, TakeIn(mix, m, bytes[..|bytes| - 1]), bytes[|bytes| - 1])
  }

  lemma {:induction false} TakeInAppend(mix: Compressor, m: Midway, a: seq<Byte>, b: seq<Byte>)
    ensures TakeIn(mix, TakeIn(mix, m, a), b) == TakeIn(mix, m, a + b)
  {
    if b == [] {
      assert a + b == a;
    } else {
      var n := |b| - 1;
      assert (a + b)[..|a| + n] == a + b[..n];
      TakeInAppend(mix, m, a, b[..n]);
    }
  }

  lemma {:induction false} TakeInAbsorbs(mix: Compressor, start: Hash, message: seq<Byte>)
    ensures var m := TakeIn(mix, Midway(start, []), message);
            Absorbed(mix, start, m.hash, m.buffer, message)
  {
    if message != [] {
      var n := |message| - 1;
      TakeInAbsorbs(mix, start, message[..n]);
      var m := TakeIn(mix, Midway(start, []), message[..n]);
      AbsorbByte(mix, start, m.hash, m.buffer, message[..n], message[n]);
      assert message == message[..n] + [message[n]];
    }
  }

  /** Pieces taken in and padded at the end give the hash of the whole message, padded. */
  lemma {:induction false} StreamingIsFold(mix: Compressor, start: Hash, message: seq<Byte>, last: Byte, bits: nat)
    ensures var m := TakeIn(mix, Midway(start, []), message);
            && |m.buffer| < BLOCK
            && Padded(mix, m.hash, m.buffer, last, BigEndian(bits, LENGTH_BYTES)) ==
                  Fold(mix, start, Pad(message, last, bits))
  {
    TakeInAbsorbs(mix, start, message);
    var m := TakeIn(mix, Midway(start, []), message);
    PaddedIsFold(mix, start, m.hash, m.buffer, message, last, bits);
  }

  // ---------- The length as bytes ----------

  function Power256(n: nat): nat {
    if n == 0 then 1 else 256 * Power256(n - 1)
  }

  lemma {:induction false} BigEndianSplit(upper: nat, lower: nat, n: nat, k: nat)
    requires lower < Power256(k)
    ensures BigEndian(upper * Power256(k) + lower, n + k) == BigEndian(upper, n) + BigEndian(lower, k)
  {
    if k > 0 {
      var x := upper * Power256(k) + lower;
      LowDigit(upper, lower, Power256(k - 1), x);
      BigEndianSplit(upper, lower / 256, n, k - 1);
    }
  }

  lemma LowDigit(upper: nat, lower: nat, p: nat, x: nat)
    requires x == upper * (256 * p) + lower
    ensures x / 256 == upper * p + lower / 256 && x % 256 == lower % 256
  {
    var q := upper * p;
    assert x == 256 * q + lower;
  }

  /** The four bytes of a word, as shifts and truncations give them. */
  function WordBytes(w: nat): seq<Byte> {
    [w / 0x100_0000 % 256, w / 0x1_0000 % 256, w / 0x100 % 256, w % 256]
  }

  lemma WordBytesAre(w: nat)
    ensures BigEndian(w, 4) == WordBytes(w)
  {
    assert w / 256 / 256 == w / 0x1_0000 && w / 0x1_0000 / 256 == w / 0x100_0000;
    assert BigEndian(w / 0x100_0000, 1) == BigEndian(w / 0x100_0000 / 256, 0) + [w / 0x100_0000 % 256];
    assert BigEndian(w / 0x1_0000, 2) == BigEndian(w / 0x100_0000, 1) + [w / 0x1_0000 % 256];
    assert BigEndian(w / 256, 3) == BigEndian(w / 0x1_0000, 2) + [w / 256 % 256];
  }

  lemma LengthBytes(high: nat, low: nat)
    requires low < WORD
    ensures BigEndian(high * WORD + low, LENGTH_BYTES) == WordBytes(high) + WordBytes(low)
  {
    assert Power256(4) == WORD;
    BigEndianSplit(high, low, 4, 4);
    WordBytesAre(high);
    WordBytesAre(low);
  }

  // ---------- The context ----------

  const LIMIT := 0x1_0000_0000_0000_0000

  const SUCCESS := 0
  const STATE_ERROR := 3

  /** The two length words after adding, and whether they have overflowed. */
  method AddLength(high: nat, low: nat, length: nat) returns (high': nat, low': nat, overflow: nat)
    requires high < WORD && low < WORD && length < WORD
    ensures high' < WORD && low' < WORD
    ensures var sum := high * WORD + low + length;
            && overflow == (if sum < LIMIT then 0 else 1)
            && high' * WORD + low' == if sum < LIMIT then sum else sum - LIMIT
  {
    high', overflow := high, 0;
    low' := (low + length) % WORD;
    if low' < low {
      high' := (high + 1) % WORD;
      overflow := if high' == 0 then 1 else 0;
    }
  }

  /** A word of the hash. */
  function Word(h: Hash, i: nat): nat {
    [h.a, h.b, h.c, h.d, h.e, h.f, h.g, h.h][i % 8]
  }

  function Digest(h: Hash, size: nat): seq<Byte> {
    seq(size, i requires 0 <= i < size => WordBytes(Word(h, i / 4))[i % 4])
  }

  /** The words of a hash one after the other, the highest byte of each first. */
  ghost function Words(h: Hash): (r: seq<Byte>)
    ensures |r| == 32
    ensures r[0..4] == BigEndian(h.a, 4) && r[4..8] == BigEndian(h.b, 4)
    ensures r[8..12] == BigEndian(h.c, 4) && r[12..16] == BigEndian(h.d, 4)
    ensures r[16..20] == BigEndian(h.e, 4) && r[20..24] == BigEndian(h.f, 4)
    ensures r[24..28] == BigEndian(h.g, 4) && r[28..32] == BigEndian(h.h, 4)
  {
    BigEndian(h.a, 4) + BigEndian(h.b, 4) + BigEndian(h.c, 4) + BigEndian(h.d, 4)
    + BigEndian(h.e, 4) + BigEndian(h.f, 4) + BigEndian(h.g, 4) + BigEndian(h.h, 4)
  }

  /** Byte i of the words is byte i % 4 of word i / 4. */
  lemma WordsAt(h: Hash, i: nat)
    requires i < 32
    ensures Words(h)[i] == WordBytes(Word(h, i / 4))[i % 4]
  {
    WordsPart(h, i / 4);
    WordBytesAre(Word(h, i / 4));
    PartAt(Words(h), i, BigEndian(Word(h, i / 4), 4));
  }

  lemma PartAt(bytes: seq<Byte>, i: nat, part: seq<Byte>)
    requires i < |bytes| == 32 && part == bytes[i / 4 * 4..i / 4 * 4 + 4]
    ensures bytes[i] == part[i % 4]
  {
  }

  lemma WordsPart(h: Hash, w: nat)
    requires w < 8
    ensures Words(h)[w * 4..w * 4 + 4] == BigEndian(Word(h, w), 4)
  {
    match w {
      case 0 => case 1 => case 2 => case 3 => case 4 => case 5 => case 6 => case 7 =>
    }
  }

  /** The digest is the words of the hash, as many of their bytes as are asked for. */
  lemma DigestIsWords(h: Hash, size: nat)
    requires size <= 32
    ensures Digest(h, size) == Words(h)[..size]
  {
    forall i | 0 <= i < size ensures Digest(h, size)[i] == Words(h)[i] {
      WordsAt(h, i);
    }
  }

  predicate WordsFit(h: Hash) {
    h.a < WORD && h.b < WORD && h.c < WORD && h.d < WORD && h.e < WORD && h.f < WORD && h.g < WORD && h.h < WORD
  }

  lemma {:induction false} BigEndianInjective(x: nat, y: nat, n: nat)
    requires x < Power256(n) && y < Power256(n) && BigEndian(x, n) == BigEndian(y, n)
    ensures x == y
  {
    if n > 0 {
      var a, b := BigEndian(x, n), BigEndian(y, n);
      assert a[..n - 1] == BigEndian(x / 256, n - 1) && b[..n - 1] == BigEndian(y / 256, n - 1);
      assert a[n - 1] == x % 256 && b[n - 1] == y % 256;
      BigEndianInjective(x / 256, y / 256, n - 1);
    }
  }

  const WORD_BYTES := 4

  lemma {:induction false} WordsInjective(x: nat, y: nat)
    requires x < WORD && y < WORD && BigEndian(x, WORD_BYTES) == BigEndian(y, WORD_BYTES)
    ensures x == y
  {
    assert Power256(4) == WORD;
    BigEndianInjective(x, y, WORD_BYTES);
  }

  /** Two hashes of 32-bit words with the same 32-byte digest are the same. */
  lemma DigestTellsApart(g: Hash, h: Hash)
    requires WordsFit(g) && WordsFit(h)
    ensures Digest(g, 32) == Digest(h, 32) <==> g == h
  {
    if Digest(g, 32) == Digest(h, 32) {
      DigestIsWords(g, 32);
      DigestIsWords(h, 32);
      assert Words(g)[..32] == Words(g) && Words(h)[..32] == Words(h);
      WordsInjective(g.a, h.a);
      WordsInjective(g.b, h.b);
      WordsInjective(g.c, h.c);
      WordsInjective(g.d, h.d);
      WordsInjective(g.e, h.e);
      WordsInjective(g.f, h.f);
      WordsInjective(g.g, h.g);
      WordsInjective(g.h, h.h);
    }
  }

  class Context {
    const mix: Compressor
    const block: array<Byte>
    var hash: Hash
    var high: nat
    var low: nat
    var index: nat
    var computed: bool
    var corrupted: nat

    ghost predicate Live()
      reads this
    {
      !computed && corrupted == SUCCESS
    }

    ghost predicate Valid()
      reads this
    {
      block.Length == BLOCK && index <= BLOCK && high < WORD && low < WORD && (Live() ==> index < BLOCK)
    }

    ghost function Taken(): Midway
      reads this, block
      requires Valid()
    {
      Midway(hash, block[..index])
    }

    ghost function Length(): nat
      reads this
    {
      high * WORD + low
    }

    constructor (mix: Compressor, start: Hash)
      ensures Valid() && Live() && Taken() == Midway(start, []) && Length() == 0 && this.mix == mix && fresh(block)
    {
      this.mix, this.hash := mix, start;
      this.block := new Byte[BLOCK](i => 0);
      high, low, index, computed, corrupted := 0, 0, 0, false, SUCCESS;
    }

    method ProcessBlock()
      requires block.Length == BLOCK
      modifies this`hash, this`index
      ensures hash == mix(old(hash), block[..]) && index == 0
    {
      hash := mix(hash, block[..]);
      index := 0;
    }

    method Store(b: Byte)
      requires index < BLOCK == block.Length
      modifies this`index, block
      ensures index == old(index) + 1 && block[..index] == old(block[..index]) + [b]
    {
      block[index] := b;
      index := index + 1;
      assert block[..index - 1] == old(block[..index]);
    }

    method MixWhenFull()
      requires 0 < index <= BLOCK == block.Length
      modifies this`hash, this`index
      ensures index < BLOCK
      ensures Midway(hash, block[..index]) ==
              if old(index) == BLOCK then Midway(mix(old(hash), old(block[..index])), [])
              else Midway(old(hash), old(block[..index]))
    {
      if index == BLOCK {
        assert block[..] == block[..index];
        ProcessBlock();
      }
    }

    /** One byte more, unless the length overflows. */
    method Absorb(b: Byte)
      requires Valid() && Live()
      modifies this, block
      ensures Valid() && !computed
      ensures if old(Length()) + 8 < LIMIT
              then Live() && Taken() == Next(mix, old(Taken()), b) && Length() == old(Length()) + 8
              else corrupted == 1
    {
      Store(b);
      high, low, corrupted := AddLength(high, low, 8);
      if corrupted == SUCCESS {
        MixWhenFull();
      }
    }

    /** The next piece of the message.  Pieces are refused once the digest is computed, or after an
        error; a message that reaches 2^64 bits is taken for an error without saying so. */
    method Input(bytes: seq<Byte>) returns (status: nat)
      requires Valid()
      modifies this, block
      ensures Valid() && computed == old(computed)
      ensures bytes == [] ==>
                status == SUCCESS && corrupted == old(corrupted) && Taken() == old(Taken()) && Length() == old(Length())
      ensures bytes != [] && old(computed) ==> status == corrupted == STATE_ERROR
      ensures bytes != [] && !old(computed) && old(corrupted) != SUCCESS ==> status == corrupted == old(corrupted)
      ensures bytes != [] && old(Live()) ==>
                && status == SUCCESS
                && if old(Length()) + 8 * |bytes| < LIMIT
                   then Live() && Taken() == TakeIn(mix, old(Taken()), bytes) && Length() == old(Length()) + 8 * |bytes|
                   else corrupted == 1
    {
      if bytes == [] {
        return SUCCESS;
      }
      if computed {
        corrupted := STATE_ERROR;
        return STATE_ERROR;
      }
      if corrupted != SUCCESS {
        return corrupted;
      }
      var n := 0;
      while n < |bytes| && corrupted == SUCCESS
        invariant n <= |bytes| && Valid() && !computed
        invariant if corrupted == SUCCESS
                  then Taken() == TakeIn(mix, old(Taken()), bytes[..n]) && Length() == old(Length()) + 8 * n
                  else corrupted == 1 && old(Length()) + 8 * |bytes| >= LIMIT
      {
        assert bytes[..n + 1][..n] == bytes[..n];
        Absorb(bytes[n]);
        n := n + 1;
      }
      assert bytes[..|bytes|] == bytes;
      return SUCCESS;
    }

    method FillZeros(upto: nat)
      requires index <= upto <= BLOCK == block.Length
      modifies this`index, block
      ensures index == upto && block[..upto] == old(block[..index]) + Zeros(upto - old(index))
    {
      ghost var from := index;
      while index < upto
        invariant from <= index <= upto
        invariant block[..index] == old(block[..index]) + Zeros(index - from)
      {
        block[index] := 0;
        index := index + 1;
        assert Zeros(index - from) == Zeros(index - 1 - from) + [0];
        assert block[..index] == block[..index - 1] + [0];
      }
    }

    method PutLength()
      requires block.Length == BLOCK && high < WORD && low < WORD
      modifies block
      ensures block[..] == old(block[..56]) + BigEndian(Length(), LENGTH_BYTES)
    {
      var h, l := WordBytes(high), WordBytes(low);
      block[56], block[57], block[58], block[59] := h[0], h[1], h[2], h[3];
      block[60], block[61], block[62], block[63] := l[0], l[1], l[2], l[3];
      LengthBytes(high, low);
      assert block[56..60] == h && block[60..] == l;
      assert block[56..] == block[56..60] + block[60..];
      assert block[..56] == old(block[..56]);
      assert block[..] == block[..56] + block[56..];
    }

    method FillBlock()
      requires index <= BLOCK == block.Length
      modifies this`hash, this`index, block
      ensures index == 0 && hash == mix(old(hash), old(block[..index]) + Zeros(BLOCK - old(index)))
    {
      FillZeros(BLOCK);
      assert block[..] == block[..BLOCK];
      ProcessBlock();
    }

    method FillLastBlock()
      requires index <= 56 && block.Length == BLOCK && high < WORD && low < WORD
      modifies this`hash, this`index, block
      ensures index == 0
      ensures hash == mix(old(hash), old(block[..index]) + Zeros(56 - old(index)) + BigEndian(Length(), LENGTH_BYTES))
    {
      FillZeros(BLOCK - 8);
      PutLength();
      ProcessBlock();
    }

    /** Pads with the given byte and mixes the last one or two blocks in. */
    method PadMessage(last: Byte)
      requires block.Length == BLOCK && index < BLOCK && high < WORD && low < WORD
      modifies this`hash, this`index, block
      ensures index == 0
      ensures hash == Padded(mix, old(hash), old(block[..index]), last, BigEndian(Length(), LENGTH_BYTES))
    {
      if index >= BLOCK - 8 {
        Store(last);
        FillBlock();
        assert block[..index] == [];
        assert [] + Zeros(56) == Zeros(56);
      } else {
        Store(last);
      }
      FillLastBlock();
    }

    /** Pads, and forgets the message. */
    method Finalize(last: Byte)
      requires Valid() && index < BLOCK
      modifies this, block
      ensures Valid() && computed && corrupted == old(corrupted)
      ensures Length() == 0 && forall i :: 0 <= i < BLOCK ==> block[i] == 0
      ensures hash == Padded(mix, old(hash), old(block[..index]), last, BigEndian(old(Length()), LENGTH_BYTES))
    {
      PadMessage(last);
      for i := 0 to BLOCK
        modifies block
        invariant forall k :: 0 <= k < i ==> block[k] == 0
      {
        block[i] := 0;
      }
      low, high := 0, 0;
      computed := true;
    }

    /** The last few bits of the message, in the upper part of a byte; nothing may follow. */
    method FinalBits(bits: Byte, length: nat) returns (status: nat)
      requires Valid()
      modifies this, block
      ensures Valid()
      ensures length == 0 ==>
                status == SUCCESS && computed == old(computed) && corrupted == old(corrupted) && Taken() == old(Taken())
      ensures length > 0 && (old(computed) || length >= 8) ==>
                status == corrupted == STATE_ERROR && computed == old(computed)
      ensures 0 < length < 8 && !old(computed) && old(corrupted) != SUCCESS ==>
                status == corrupted == old(corrupted) && !computed
      ensures 0 < length < 8 && old(Live()) ==>
                && status == SUCCESS && computed && LastByte(bits, length) < 256
                && (old(Length()) + length < LIMIT ==>
                      corrupted == SUCCESS &&
                      hash == Padded(mix, old(hash), old(block[..index]), LastByte(bits, length),
                          BigEndian(old(Length()) + length, LENGTH_BYTES)))
                && (old(Length()) + length >= LIMIT ==> corrupted == 1)
    {
      if length == 0 {
        return SUCCESS;
      }
      if computed || length >= 8 {
        corrupted := STATE_ERROR;
        return STATE_ERROR;
      }
      if corrupted != SUCCESS {
        return corrupted;
      }
      LastByteFits(bits, length);
      var last: Byte := LastByte(bits, length);
      high, low, corrupted := AddLength(high, low, length);
      Finalize(last);
      return SUCCESS;
    }

    /** The digest, computed at the first call; later calls change nothing and give it again. */
    method Result(size: nat) returns (status: nat, digest: seq<Byte>)
      requires Valid()
      modifies this, block
      ensures Valid()
      ensures status == corrupted == old(corrupted)
      ensures status != SUCCESS ==> digest == [] && computed == old(computed) && hash == old(hash)
      ensures status == SUCCESS ==> computed && digest == Digest(hash, size)
      ensures status == SUCCESS && size <= 32 ==> digest == Words(hash)[..size]
      ensures status == SUCCESS && old(computed) ==> hash == old(hash)
      ensures status == SUCCESS && !old(computed) ==>
                hash == Padded(mix, old(hash), old(block[..index]), 0x80, BigEndian(old(Length()), LENGTH_BYTES))
    {
      if corrupted != SUCCESS {
        return corrupted, [];
      }
      if !computed {
        Finalize(0x80);
      }
      if size <= 32 {
        DigestIsWords(hash, size);
      }
      return SUCCESS, Digest(hash, size);
    }
  }

  function Joined(pieces: seq<seq<Byte>>): seq<Byte> {
    if pieces == [] then [] else Joined(pieces[..|pieces| - 1]) + pieces[|pieces| - 1]
  }

  lemma {:induction false} JoinedPrefix(pieces: seq<seq<Byte>>, n: nat)
    requires n <= |pieces|
    ensures |Joined(pieces[..n])| <= |Joined(pieces)|
  {
    if n < |pieces| {
      var k := |pieces| - 1;
      assert pieces[..k][..n] == pieces[..n];
      JoinedPrefix(pieces[..k], n);
    } else {
      assert pieces[..n] == pieces;
    }
  }

  /** A fresh context takes the pieces in. */
  method InputAll(mix: Compressor, start: Hash, pieces: seq<seq<Byte>>) returns (context: Context)
    requires 8 * |Joined(pieces)| < LIMIT
    ensures fresh(context) && fresh(context.block) && context.Valid() && context.Live() && context.mix == mix
    ensures context.Taken() == TakeIn(mix, Midway(start, []), Joined(pieces))
    ensures context.Length() == 8 * |Joined(pieces)|
  {
    context := new Context(mix, start);
    for i := 0 to |pieces|
      invariant fresh(context) && fresh(context.block) && context.Valid() && context.Live() && context.mix == mix
      invariant context.Taken() == TakeIn(mix, Midway(start, []), Joined(pieces[..i]))
      invariant context.Length() == 8 * |Joined(pieces[..i])|
    {
      assert pieces[..i + 1][..i] == pieces[..i];
      assert Joined(pieces[..i + 1]) == Joined(pieces[..i]) + pieces[i];
      JoinedPrefix(pieces, i + 1);
      TakeInAppend(mix, Midway(start, []), Joined(pieces[..i]), pieces[i]);
      var status := context.Input(pieces[i]);
    }
    assert pieces[..|pieces|] == pieces;
  }

  /** For any message under 2^64 bits and any division of it into pieces, the digest is that of the
      padded message, block after block; and asking twice gives the same answer. */
  method HashPieces(
      mix: Compressor, start: Hash, pieces: seq<seq<Byte>>, size: nat)
    returns (first: seq<Byte>, second: seq<Byte>)
    requires 8 * |Joined(pieces)| < LIMIT
    ensures var hash := Fold(mix, start, Pad(Joined(pieces), 0x80, 8 * |Joined(pieces)|));
            first == Digest(hash, size) && (size <= 32 ==> first == Words(hash)[..size])
    ensures second == first
  {
    StreamingIsFold(mix, start, Joined(pieces), 0x80, 8 * |Joined(pieces)|);
    var context := InputAll(mix, start, pieces);
    var status;
    status, first := context.Result(size);
    status, second := context.Result(size);
  }

  lemma BitsAreFold(mix: Compressor, start: Hash, message: seq<Byte>, bits: Byte, n: nat, m: Midway)
    requires 0 < n < 8 && m == TakeIn(mix, Midway(start, []), message)
    ensures LastByte(bits, n) < 256 && |m.buffer| < BLOCK
    ensures Padded(mix, m.hash, m.buffer, LastByte(bits, n), BigEndian(8 * |message| + n, LENGTH_BYTES))
            == Fold(mix, start, Pad(message, LastByte(bits, n), 8 * |message| + n))
  {
    LastByteFits(bits, n);
    StreamingIsFold(mix, start, message, LastByte(bits, n), 8 * |message| + n);
  }

  method FinishBits(context: Context, ghost start: Hash, ghost message: seq<Byte>, bits: Byte, n: nat)
    requires context.Valid() && context.Live() && 0 < n < 8
    requires context.Taken() == TakeIn(context.mix, Midway(start, []), message) && context.Length() == 8 * |message|
    modifies context, context.block
    ensures context.Valid() && context.computed && context.corrupted == SUCCESS
    ensures LastByte(bits, n) < 256
    ensures context.hash == Fold(context.mix, start, Pad(message, LastByte(bits, n), 8 * |message| + n))
  {
    BitsAreFold(context.mix, start, message, bits, n, context.Taken());
    var status := context.FinalBits(bits, n);
  }

  method Reread(context: Context, size: nat) returns (digest: seq<Byte>)
    requires context.Valid() && context.computed && context.corrupted == SUCCESS
    modifies context, context.block
    ensures digest == Digest(old(context.hash), size)
    ensures size <= 32 ==> digest == Words(old(context.hash))[..size]
  {
    var status;
    status, digest := context.Result(size);
  }

  /** The same with one to seven bits more at the end. */
  method HashBits(
      mix: Compressor, start: Hash, pieces: seq<seq<Byte>>, bits: Byte, n: nat, size: nat)
    returns (digest: seq<Byte>)
    requires 8 * |Joined(pieces)| < LIMIT && 0 < n < 8
    ensures LastByte(bits, n) < 256
    ensures var hash := Fold(mix, start, Pad(Joined(pieces), LastByte(bits, n), 8 * |Joined(pieces)| + n));
            digest == Digest(hash, size) && (size <= 32 ==> digest == Words(hash)[..size])
  {
    var context := InputAll(mix, start, pieces);
    FinishBits(context, start, Joined(pieces), bits, n);
    digest := Reread(context, size);
  }
}
