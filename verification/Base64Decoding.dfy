/** What the Base64 decoder makes of any string that it accepts, also of one that no encoder produces:
    unpadded, padded early, with bits to spare or in both alphabets at once. */
module Base64Decoding {
  import opened Padding
  import opened Powers
  import opened Base64

  /** The characters of a group that the decoder looks at: all before its end or its first padding. */
  function LookedAt(s: string): nat
    requires 2 <= |s| <= 4
  {
    if |s| == 2 || IsPad(s[2]) then 2 else if |s| == 3 || IsPad(s[3]) then 3 else 4
  }

  /** One byte less than characters looked at, made of their bits, less than eight of which are left. */
  ghost predicate GroupCarries(s: string, bytes: seq<Byte>)
    requires 2 <= |s| <= 4
  {
    var bits := Sextets(s[..LookedAt(s)]);
    |bytes| == LookedAt(s) - 1 && Bits(bytes) <= bits && |bits| == SEXTET * LookedAt(s)
  }

  lemma {:induction false} SextetsOf(c: char, p: nat)
    requires PosOfChar(c).Some? && PosOfChar(c).value == p
    ensures Sextets([c]) == BigBits(p, SEXTET)
  {
    assert [c][1..] == "";
  }

  /** The decoder's arithmetic without shifts and masks. */
  lemma Parts(p: nat, q: nat, r: nat, u: nat)
    requires p < 64 && q < 64 && r < 64 && u < 64
    ensures q == 16 * (q / 16) + q % 16 && q / 16 < 4 && r == 4 * (r / 4) + r % 4 && r / 4 < 16
    ensures (p * 4 + q / 16) % 256 == 4 * p + q / 16
    ensures (q % 16 * 16 + r / 4) % 256 == 16 * (q % 16) + r / 4
    ensures (r % 4 * 64 + u) % 256 == 64 * (r % 4) + u
  {
  }

  lemma {:induction false} FirstParts(p: nat, q: nat, q2: nat, q4: nat, x: nat)
    requires p < 64 && q2 < 4 && q4 < 16 && q == 16 * q2 + q4 && x == 4 * p + q2
    ensures BigBits(x, BYTE_BITS) == BigBits(p, SEXTET) + BigBits(q2, PAIR)
    ensures BigBits(q, SEXTET) == BigBits(q2, PAIR) + BigBits(q4, QUAD)
  {
    Pairs(x, p, q2, SEXTET);
    Quads(q, q2, q4, PAIR);
  }

  lemma {:induction false} NextParts(q4: nat, r: nat, r4: nat, r2: nat, y: nat)
    requires q4 < 16 && r4 < 16 && r2 < 4 && r == 4 * r4 + r2 && y == 16 * q4 + r4
    ensures BigBits(y, BYTE_BITS) == BigBits(q4, QUAD) + BigBits(r4, QUAD)
    ensures BigBits(r, SEXTET) == BigBits(r4, QUAD) + BigBits(r2, PAIR)
  {
    Quads(y, q4, r4, QUAD);
    Pairs(r, r4, r2, QUAD);
  }

  lemma {:induction false} LastParts(r2: nat, u: nat, z: nat)
    requires r2 < 4 && u < 64 && z == 64 * r2 + u
    ensures BigBits(z, BYTE_BITS) == BigBits(r2, PAIR) + BigBits(u, SEXTET)
  {
    Sixes(z, r2, u, PAIR);
  }

  lemma {:induction false} TwoBytesBits(x: Byte, y: Byte)
    ensures Bits([x, y]) == BigBits(x, BYTE_BITS) + BigBits(y, BYTE_BITS)
  {
    BitsOne(x);
    BitsOne(y);
    assert [x, y] == [x] + [y];
    BitsAppend([x], [y]);
  }

  lemma {:induction false} ThreeBytesBits(x: Byte, y: Byte, z: Byte)
    ensures Bits([x, y, z]) == BigBits(x, BYTE_BITS) + BigBits(y, BYTE_BITS) + BigBits(z, BYTE_BITS)
  {
    BitsOne(z);
    TwoBytesBits(x, y);
    assert [x, y, z] == [x, y] + [z];
    BitsAppend([x, y], [z]);
  }

  lemma {:induction false} TwoSextets(c: char, d: char)
    ensures Sextets([c, d]) == Sextets([c]) + Sextets([d])
  {
    assert [c, d] == [c] + [d];
    SextetsAppend([c], [d]);
  }

  lemma {:induction false} ThreeSextets(c: char, d: char, e: char)
    ensures Sextets([c, d, e]) == Sextets([c]) + Sextets([d]) + Sextets([e])
  {
    TwoSextets(c, d);
    assert [c, d, e] == [c, d] + [e];
    SextetsAppend([c, d], [e]);
  }

  lemma Regroup(a: seq<bool>, x2: seq<bool>, y4: seq<bool>, z4: seq<bool>, z2: seq<bool>, d: seq<bool>)
    ensures a + (x2 + y4) == (a + x2) + y4
    ensures a + (x2 + y4) + (z4 + z2) == (a + x2) + (y4 + z4) + z2
    ensures a + (x2 + y4) + (z4 + z2) + d == (a + x2) + (y4 + z4) + (z2 + d) + []
  {
  }

  lemma CarriesPrefix(s: string, looked: string, bytes: seq<Byte>, carried: seq<bool>, spare: seq<bool>)
    requires 2 <= |s| <= 4 && looked == s[..LookedAt(s)] && |bytes| == |looked| - 1
    requires Bits(bytes) == carried && Sextets(looked) == carried + spare && |carried + spare| == SEXTET * |looked|
    ensures GroupCarries(s, bytes)
  {
  }

  predicate HasPosition(c: char, p: nat) {
    PosOfChar(c).Some? && PosOfChar(c).value == p
  }

  lemma {:induction false} OneByteDecoded(s: string, p: nat, q: nat, q2: nat, q4: nat, x: Byte)
    requires 2 <= |s| <= 4 && LookedAt(s) == 2 && HasPosition(s[0], p) && HasPosition(s[1], q)
    requires p < 64 && q2 < 4 && q4 < 16 && q == 16 * q2 + q4 && x == 4 * p + q2
    ensures GroupCarries(s, [x])
  {
    SextetsOf(s[0], p);
    SextetsOf(s[1], q);
    TwoSextets(s[0], s[1]);
    assert s[..2] == [s[0], s[1]];
    BitsOne(x);
    FirstParts(p, q, q2, q4, x);
    var p6, b2, b4 := BigBits(p, SEXTET), BigBits(q2, PAIR), BigBits(q4, QUAD);
    Regroup(p6, b2, b4, [], [], []);
    CarriesPrefix(s, [s[0], s[1]], [x], p6 + b2, b4);
  }

  lemma {:induction false} TwoBytesDecoded(
      s: string, p: nat, q: nat, r: nat, q2: nat, q4: nat, r4: nat, r2: nat, x: Byte, y: Byte)
    requires 3 <= |s| <= 4 && LookedAt(s) == 3
    requires HasPosition(s[0], p) && HasPosition(s[1], q) && HasPosition(s[2], r)
    requires p < 64 && q2 < 4 && q4 < 16 && r4 < 16 && r2 < 4 && q == 16 * q2 + q4 && r == 4 * r4 + r2
    requires x == 4 * p + q2 && y == 16 * q4 + r4
    ensures GroupCarries(s, [x, y])
  {
    SextetsOf(s[0], p);
    SextetsOf(s[1], q);
    SextetsOf(s[2], r);
    ThreeSextets(s[0], s[1], s[2]);
    assert s[..3] == [s[0], s[1], s[2]];
    TwoBytesBits(x, y);
    FirstParts(p, q, q2, q4, x);
    NextParts(q4, r, r4, r2, y);
    var p6, b2, b4 := BigBits(p, SEXTET), BigBits(q2, PAIR), BigBits(q4, QUAD);
    var c4, c2 := BigBits(r4, QUAD), BigBits(r2, PAIR);
    Regroup(p6, b2, b4, c4, c2, []);
    CarriesPrefix(s, [s[0], s[1], s[2]], [x, y], (p6 + b2) + (b4 + c4), c2);
  }

  lemma {:induction false} ThreeBytesDecoded(
      s: string, p: nat, q: nat, r: nat, u: nat, q2: nat, q4: nat, r4: nat, r2: nat, x: Byte, y: Byte, z: Byte)
    requires |s| == 4 && LookedAt(s) == 4
    requires HasPosition(s[0], p) && HasPosition(s[1], q) && HasPosition(s[2], r) && HasPosition(s[3], u)
    requires p < 64 && q2 < 4 && q4 < 16 && r4 < 16 && r2 < 4 && q == 16 * q2 + q4 && r == 4 * r4 + r2 && u < 64
    requires x == 4 * p + q2 && y == 16 * q4 + r4 && z == 64 * r2 + u
    ensures GroupCarries(s, [x, y, z])
  {
    SextetsOf(s[0], p);
    SextetsOf(s[1], q);
    SextetsOf(s[2], r);
    SextetsOf(s[3], u);
    SextetsOfFour(s);
    assert s[..4] == s;
    ThreeBytesBits(x, y, z);
    FirstParts(p, q, q2, q4, x);
    NextParts(q4, r, r4, r2, y);
    LastParts(r2, u, z);
    var p6, b2, b4 := BigBits(p, SEXTET), BigBits(q2, PAIR), BigBits(q4, QUAD);
    var c4, c2, d6 := BigBits(r4, QUAD), BigBits(r2, PAIR), BigBits(u, SEXTET);
    Regroup(p6, b2, b4, c4, c2, d6);
    CarriesPrefix(s, s, [x, y, z], (p6 + b2) + (b4 + c4) + (c2 + d6), []);
  }

  lemma {:induction false} GroupDecoded(s: string)
    requires 2 <= |s| <= 4 && DecodeGroup(s).Some?
    ensures GroupCarries(s, DecodeGroup(s).value)
  {
    var n, p, q := LookedAt(s), PosOfChar(s[0]).value, PosOfChar(s[1]).value;
    var r := if n > 2 then PosOfChar(s[2]).value else 0;
    var u := if n > 3 then PosOfChar(s[3]).value else 0;
    Parts(p, q, r, u);
    var x: Byte, y: Byte, z: Byte := 4 * p + q / 16, 16 * (q % 16) + r / 4, 64 * (r % 4) + u;
    assert DecodeGroup(s).value == [x, y, z][..n - 1];
    if n == 2 {
      OneByteDecoded(s, p, q, q / 16, q % 16, x);
    } else if n == 3 {
      TwoBytesDecoded(s, p, q, r, q / 16, q % 16, r / 4, r % 4, x, y);
    } else {
      ThreeBytesDecoded(s, p, q, r, u, q / 16, q % 16, r / 4, r % 4, x, y, z);
    }
  }

  /** Group by group, the bytes are made of the bits of the characters looked at. */
  ghost predicate Carries(s: string, bytes: seq<Byte>)
    requires |s| % 4 != 1
  {
    if s == "" then bytes == []
    else if |s| <= 4 then GroupCarries(s, bytes)
    else
      var n := LookedAt(s[..4]) - 1;
      n <= |bytes| && GroupCarries(s[..4], bytes[..n]) && Carries(s[4..], bytes[n..])
  }

  lemma {:induction false} DecodeSplits(s: string)
    requires |s| > 4 && Decode(s).Some?
    ensures DecodeGroup(s[..4]).Some? && Decode(s[4..]).Some?
    ensures Decode(s).value == DecodeGroup(s[..4]).value + Decode(s[4..]).value
  {
  }

  lemma {:induction false} CarriesMore(s: string, first: seq<Byte>, rest: seq<Byte>)
    requires |s| > 4 && |s| % 4 != 1 && GroupCarries(s[..4], first) && (|s| - 4) % 4 != 1 && Carries(s[4..], rest)
    ensures Carries(s, first + rest)
  {
    assert (first + rest)[..|first|] == first && (first + rest)[|first|..] == rest;
  }

  /** Whatever the decoder accepts, its bytes are the bits of the characters that it looks at, as far as
      they fill bytes. */
  lemma {:induction false} DecodingCarriesBits(s: string)
    requires Decode(s).Some?
    ensures |s| % 4 != 1 && Carries(s, Decode(s).value)
  {
    DecodeFailsIff(s);
    if 0 < |s| <= 4 {
      DecodeStep(s);
      GroupDecoded(s);
      LastGroup(s);
    } else if |s| > 4 {
      DecodeSplits(s);
      GroupDecoded(s[..4]);
      RestMod(|s|);
      DecodingCarriesBits(s[4..]);
      CarriesMore(s, DecodeGroup(s[..4]).value, Decode(s[4..]).value);
    }
  }

  lemma {:induction false} LastGroup(s: string)
    requires 0 < |s| <= 4 && Decode(s).Some?
    ensures DecodeGroup(s).Some? && Decode(s).value == DecodeGroup(s).value
  {
    assert s[..|s|] == s && s[|s|..] == "";
  }
}
