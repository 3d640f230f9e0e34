/** Base64 with either alphabet, and line breaks.  The encoder's position is a 32-bit number. */
module Base64 {
  import opened Options
  import opened Padding
  import opened Powers
  import opened Sequences

  const UPPER := "ABCDEFGHIJKLMNOPQRSTUVWXYZ"
  const LOWER := "abcdefghijklmnopqrstuvwxyz"
  const DIGITS := "0123456789"

  /** The alphabet, as the table that the code looks characters up in... */
  function Table(url: bool): string {
    UPPER + LOWER + DIGITS + if url then "-_" else "+/"
  }

  /** ...and by ranges. */
  function Char(i: nat, url: bool): char
    requires i < 64
  {
    if i < 26 then 'A' + i as char
    else if i < 52 then 'a' + (i - 26) as char
    else if i < 62 then '0' + (i - 52) as char
    else if i == 62 then if url then '-' else '+'
    else if url then '_' else '/'
  }

  lemma LettersAt(i: nat)
    requires i < 26
    ensures |UPPER| == |LOWER| == 26 && UPPER[i] == 'A' + i as char && LOWER[i] == 'a' + i as char
  {
  }

  lemma DigitsAt(i: nat)
    requires i < 10
    ensures |DIGITS| == 10 && DIGITS[i] == '0' + i as char
  {
  }

  lemma InFourParts(u: string, l: string, d: string, t: string, i: nat)
    requires |u| == |l| == 26 && |d| == 10 && |t| == 2 && i < 64
    ensures var a := u + l + d + t;
            && |a| == 64
            && a[i] == if i < 26 then u[i] else if i < 52 then l[i - 26] else if i < 62 then d[i - 52] else t[i - 62]
  {
  }

  lemma TableIsChar(i: nat, url: bool)
    requires i < 64
    ensures |Table(url)| == 64 && Table(url)[i] == Char(i, url)
  {
    LettersAt(if i < 26 then i else if i < 52 then i - 26 else 0);
    DigitsAt(if 52 <= i < 62 then i - 52 else 0);
    InFourParts(UPPER, LOWER, DIGITS, if url then "-_" else "+/", i);
  }

  function Trailing(url: bool): char {
    if url then '.' else '='
  }

  /** Both alphabets are understood at once. */
  function PosOfChar(c: char): (r: Option<nat>)
    ensures r.Some? ==> r.value < 64
  {
    if 'A' <= c <= 'Z' then Some(c as nat - 'A' as nat)
    else if 'a' <= c <= 'z' then Some(c as nat - 'a' as nat + ('Z' as nat - 'A' as nat) + 1)
    else if '0' <= c <= '9' then Some(c as nat - '0' as nat + ('Z' as nat - 'A' as nat) + ('z' as nat - 'a' as nat) + 2)
    else if c == '+' || c == '-' then Some(62)
    else if c == '/' || c == '_' then Some(63)
    else None
  }

  // ---------- Encoding ----------

  /** The one to three bytes that a group of four characters stands for. */
  function EncodeGroup(bytes: seq<Byte>, url: bool): (r: string)
    requires 1 <= |bytes| <= 3
    ensures |r| == 4
  {
    var t := Trailing(url);
    var x := bytes[0];
    if |bytes| == 1 then [Char(x / 4, url), Char(x % 4 * 16, url), t, t]
    else
      var y := bytes[1];
      if |bytes| == 2 then [Char(x / 4, url), Char(x % 4 * 16 + y / 16, url), Char(y % 16 * 4, url), t]
      else
        var z := bytes[2];
        [Char(x / 4, url), Char(x % 4 * 16 + y / 16, url), Char(y % 16 * 4 + z / 64, url), Char(z % 64, url)]
  }

  function Encode(bytes: seq<Byte>, url: bool): string {
    if |bytes| == 0 then ""
    else if |bytes| <= 3 then EncodeGroup(bytes, url)
    else EncodeGroup(bytes[..3], url) + Encode(bytes[3..], url)
  }

  const WORD := 0x1_0000_0000

  /** What is left to encode at a position. */
  function Left(bytes: seq<Byte>, pos: nat): seq<Byte> {
    if pos <= |bytes| then bytes[pos..] else []
  }

  function First<T>(s: seq<T>, n: nat): seq<T> {
    if |s| < n then s else s[..n]
  }

  lemma EncodeLeft(bytes: seq<Byte>, pos: nat, url: bool)
    requires pos < |bytes|
    ensures Encode(Left(bytes, pos), url) ==
              EncodeGroup(First(bytes[pos..], 3), url) + Encode(Left(bytes, pos + 3), url)
  {
    var left := bytes[pos..];
    if |left| <= 3 {
      assert First(left, 3) == left;
      assert Left(bytes, pos + 3) == [];
    } else {
      assert left[3..] == Left(bytes, pos + 3);
    }
  }

  /** One round of the encoder's loop. */
  method EncodeRound(bytes: seq<Byte>, pos: nat, url: bool) returns (r: string)
    requires pos < |bytes|
    ensures r == EncodeGroup(First(bytes[pos..], 3), url)
  {
    var t := Trailing(url);
    r := [Char(bytes[pos] / 4, url)];
    if pos + 1 < |bytes| {
      r := r + [Char(bytes[pos] % 4 * 16 + bytes[pos + 1] / 16, url)];
      if pos + 2 < |bytes| {
        r := r + [Char(bytes[pos + 1] % 16 * 4 + bytes[pos + 2] / 64, url)];
        r := r + [Char(bytes[pos + 2] % 64, url)];
      } else {
        r := r + [Char(bytes[pos + 1] % 16 * 4, url)];
        r := r + [t];
      }
    } else {
      r := r + [Char(bytes[pos] % 4 * 16, url)];
      r := r + [t];
      r := r + [t];
    }
  }

  lemma NoWrap(k: nat, length: nat)
    requires 3 * k < length < WORD
    ensures (3 * k + 3) % WORD == 3 * (k + 1) <= length + 2
  {
  }

  /** The encoder's loop, for every length that its 32-bit position can pass. */
  method EncodeBytes(bytes: seq<Byte>, url: bool) returns (r: string)
    requires |bytes| < WORD
    ensures r == Encode(bytes, url)
  {
    var pos := 0;
    r := "";
    ghost var k := 0;
    while pos < |bytes|
      invariant pos == 3 * k && pos <= |bytes| + 2
      invariant r + Encode(Left(bytes, pos), url) == Encode(bytes, url)
    {
      EncodeLeft(bytes, pos, url);
      var group := EncodeRound(bytes, pos, url);
      ghost var before := r;
      r := r + group;
      assert r + Encode(Left(bytes, pos + 3), url) == Encode(bytes, url) by {
        Associative(before, group, Encode(Left(bytes, pos + 3), url));
      }
      NoWrap(k, |bytes|);
      pos, k := (pos + 3) % WORD, k + 1;
    }
  }

  /** The position after k rounds.  It gets past the end of the input exactly for lengths below 2^32;
      for others the loop never ends. */
  function Position(k: nat): nat {
    3 * k % WORD
  }

  lemma EncoderEndsIff(length: nat)
    ensures (exists k :: Position(k) >= length) <==> length < WORD
  {
    assert Position(0x5555_5555) == WORD - 1;
  }

  // ---------- Decoding ----------

  predicate IsPad(c: char) {
    c == '=' || c == '.'
  }

  /** A group of up to four characters.  Of one that ends early, or is padded early, what follows is
      not looked at. */
  function DecodeGroup(s: string): (r: Option<seq<Byte>>)
    requires 1 <= |s| <= 4
  {
    if |s| == 1 then None
    else
      var p0, p1 := PosOfChar(s[0]), PosOfChar(s[1]);
      if p0.None? || p1.None? then None
      else
        var first: Byte := (p0.value * 4 + p1.value / 16) % 256;
        if |s| == 2 || IsPad(s[2]) then Some([first])
        else
          var p2 := PosOfChar(s[2]);
          if p2.None? then None
          else
            var second: Byte := (p1.value % 16 * 16 + p2.value / 4) % 256;
            if |s| == 3 || IsPad(s[3]) then Some([first, second])
            else
              var p3 := PosOfChar(s[3]);
              if p3.None? then None else Some([first, second, (p2.value % 4 * 64 + p3.value) % 256])
  }

  function Decode(s: string): Option<seq<Byte>> {
    if |s| == 0 then Some([])
    else
      var n := if |s| < 4 then |s| else 4;
      var group, rest := DecodeGroup(s[..n]), Decode(s[n..]);
      if group.Some? && rest.Some? then Some(group.value + rest.value) else None
  }

  function Before(bytes: seq<Byte>, rest: Option<seq<Byte>>): Option<seq<Byte>> {
    if rest.Some? then Some(bytes + rest.value) else None
  }

  lemma BeforeJoin(bytes: seq<Byte>, group: seq<Byte>, rest: Option<seq<Byte>>)
    ensures Before(bytes, Before(group, rest)) == Before(bytes + group, rest)
  {
    if rest.Some? {
      Associative(bytes, group, rest.value);
    }
  }

  lemma {:induction false} DecodeLeft(s: string, bytes: seq<Byte>)
    requires s != ""
    ensures var n := if |s| < 4 then |s| else 4;
            var group := DecodeGroup(s[..n]);
            Before(bytes, Decode(s)) == if group.None? then None else Before(bytes + group.value, Decode(s[n..]))
  {
    var n := if |s| < 4 then |s| else 4;
    var group := DecodeGroup(s[..n]);
    if group.Some? {
      assert Decode(s) == Before(group.value, Decode(s[n..]));
      BeforeJoin(bytes, group.value, Decode(s[n..]));
    }
  }

  /** The decoder's loop; None stands for its exception. */
  method DecodeString(s: string) returns (r: Option<seq<Byte>>)
    ensures r == Decode(s)
  {
    var pos, bytes := 0, [];
    assert s[0..] == s;
    assert Decode(s).Some? ==> [] + Decode(s).value == Decode(s).value;
    while pos < |s|
      invariant pos <= |s|
      invariant Decode(s) == Before(bytes, Decode(s[pos..]))
    {
      var n := if |s| - pos < 4 then |s| - pos else 4;
      DecodeLeft(s[pos..], bytes);
      assert s[pos..][..n] == s[pos..pos + n] && s[pos..][n..] == s[pos + n..];
      var group := DecodeGroup(s[pos..pos + n]);
      if group.None? {
        return None;
      }
      bytes := bytes + group.value;
      pos := pos + n;
    }
    assert bytes + [] == bytes;
    return Some(bytes);
  }

  // ---------- Decoding gives back what was encoded ----------

  lemma CharPosition(i: nat, url: bool)
    requires i < 64
    ensures PosOfChar(Char(i, url)) == Some(i) && !IsPad(Char(i, url)) && Char(i, url) != '\n'
  {
  }

  lemma PadIsNoPosition(url: bool)
    ensures PosOfChar(Trailing(url)) == None && IsPad(Trailing(url)) && Trailing(url) != '\n'
  {
  }

  /** Neighbouring bytes are put together again from the parts in two characters. */
  lemma PartsJoin(x: Byte, y: Byte)
    ensures x / 4 < 64 && x % 4 * 16 + y / 16 < 64 && y % 16 * 4 + 3 < 64
    ensures (x / 4 * 4 + (x % 4 * 16 + y / 16) / 16) % 256 == x
    ensures (x % 4 * 16 + y / 16) % 16 == y / 16
  {
  }

  lemma LowPartsJoin(y: Byte, z: Byte)
    ensures y % 16 * 4 + z / 64 < 64 && z % 64 < 64
    ensures (y / 16 * 16 + (y % 16 * 4 + z / 64) / 4) % 256 == y
    ensures ((y % 16 * 4 + z / 64) % 4 * 64 + z % 64) % 256 == z
  {
  }

  lemma OneByte(x: Byte, url: bool)
    ensures DecodeGroup(EncodeGroup([x], url)) == Some([x])
  {
    PartsJoin(x, 0);
    CharPosition(x / 4, url);
    CharPosition(x % 4 * 16, url);
  }

  lemma TwoBytes(x: Byte, y: Byte, url: bool)
    ensures DecodeGroup(EncodeGroup([x, y], url)) == Some([x, y])
  {
    PartsJoin(x, y);
    LowPartsJoin(y, 0);
    CharPosition(x / 4, url);
    CharPosition(x % 4 * 16 + y / 16, url);
    CharPosition(y % 16 * 4, url);
  }

  lemma FourKnown(s: string, a: nat, b: nat, c: nat, d: nat)
    requires |s| == 4 && PosOfChar(s[0]) == Some(a) && PosOfChar(s[1]) == Some(b)
    requires PosOfChar(s[2]) == Some(c) && !IsPad(s[2]) && PosOfChar(s[3]) == Some(d) && !IsPad(s[3])
    ensures DecodeGroup(s) == Some([(a * 4 + b / 16) % 256, (b % 16 * 16 + c / 4) % 256, (c % 4 * 64 + d) % 256])
  {
  }

  lemma ThreeBytes(x: Byte, y: Byte, z: Byte, url: bool)
    ensures DecodeGroup(EncodeGroup([x, y, z], url)) == Some([x, y, z])
  {
    PartsJoin(x, y);
    LowPartsJoin(y, z);
    var a, b, c, d := x / 4, x % 4 * 16 + y / 16, y % 16 * 4 + z / 64, z % 64;
    CharPosition(a, url);
    CharPosition(b, url);
    CharPosition(c, url);
    CharPosition(d, url);
    var s := EncodeGroup([x, y, z], url);
    assert s == [Char(a, url), Char(b, url), Char(c, url), Char(d, url)];
    FourKnown(s, a, b, c, d);
  }

  lemma GroupRoundTrip(bytes: seq<Byte>, url: bool)
    requires 1 <= |bytes| <= 3
    ensures DecodeGroup(EncodeGroup(bytes, url)) == Some(bytes)
  {
    if |bytes| == 1 {
      assert bytes == [bytes[0]];
      OneByte(bytes[0], url);
    } else if |bytes| == 2 {
      assert bytes == [bytes[0], bytes[1]];
      TwoBytes(bytes[0], bytes[1], url);
    } else {
      assert bytes == [bytes[0], bytes[1], bytes[2]];
      ThreeBytes(bytes[0], bytes[1], bytes[2], url);
    }
  }

  /** Decoding an encoding gives back the bytes, for both alphabets and every length. */
  lemma {:induction false} RoundTrip(bytes: seq<Byte>, url: bool)
    ensures Decode(Encode(bytes, url)) == Some(bytes)
  {
    if |bytes| > 0 {
      var n := if |bytes| < 3 then |bytes| else 3;
      var group, rest := EncodeGroup(bytes[..n], url), Encode(bytes[n..], url);
      GroupRoundTrip(bytes[..n], url);
      RoundTrip(bytes[n..], url);
      var s := Encode(bytes, url);
      assert bytes[..n] + bytes[n..] == bytes;
      assert s == group + rest;
      assert s[..4] == group && s[4..] == rest;
    }
  }

  /** A character has a position exactly if it is in one of the two alphabets, and it is that. */
  lemma PositionIff(c: char, i: nat)
    ensures PosOfChar(c) == Some(i) <==> i < 64 && (c == Table(false)[i] || c == Table(true)[i])
  {
    if i < 64 {
      TableIsChar(i, false);
      TableIsChar(i, true);
      CharPosition(i, false);
      CharPosition(i, true);
    }
    if PosOfChar(c) == Some(i) {
      PositionKnown(c);
    }
  }

  lemma PositionKnown(c: char)
    requires PosOfChar(c).Some?
    ensures c == Char(PosOfChar(c).value, false) || c == Char(PosOfChar(c).value, true)
  {
  }

  // ---------- The characters of an encoding ----------

  /** How many characters at the end are padding. */
  function PaddingLength(length: nat): nat {
    if length % 3 == 0 then 0 else 3 - length % 3
  }

  /** A character of the alphabet. */
  ghost predicate IsChar(c: char, url: bool) {
    exists k: nat :: k < 64 && Char(k, url) == c
  }

  lemma IsCharIff(c: char, url: bool)
    ensures IsChar(c, url) <==> c in Table(url)
  {
    TableIsChar(0, url);
    if IsChar(c, url) {
      var k: nat :| k < 64 && Char(k, url) == c;
      TableIsChar(k, url);
    }
    if c in Table(url) {
      var k: nat :| k < |Table(url)| && Table(url)[k] == c;
      TableIsChar(k, url);
    }
  }

  ghost predicate ShapeAt(s: string, i: nat, padding: nat, url: bool)
    requires i < |s|
  {
    if i < |s| - padding then IsChar(s[i], url) else s[i] == if url then '.' else '='
  }

  lemma GroupShape(bytes: seq<Byte>, url: bool, i: nat)
    requires 1 <= |bytes| <= 3 && i < 4
    ensures ShapeAt(EncodeGroup(bytes, url), i, 3 - |bytes|, url)
  {
    var a, b := bytes[0], if |bytes| > 1 then bytes[1] else 0;
    var c := if |bytes| > 2 then bytes[2] else 0;
    PartsJoin(a, b);
    LowPartsJoin(b, c);
    assert IsChar(Char(a / 4, url), url) && IsChar(Char(a % 4 * 16 + b / 16, url), url);
    assert IsChar(Char(b % 16 * 4 + c / 64, url), url) && IsChar(Char(c % 64, url), url);
  }

  lemma PaddingStep(n: nat)
    requires n > 0
    ensures n <= 3 ==> PaddingLength(n) == 3 - n
    ensures n > 3 ==> PaddingLength(n) == PaddingLength(n - 3)
    ensures PaddingLength(n) <= 2
  {
  }

  lemma {:induction false} ShapeHolds(bytes: seq<Byte>, url: bool, i: nat)
    requires i < |Encode(bytes, url)|
    ensures ShapeAt(Encode(bytes, url), i, PaddingLength(|bytes|), url)
  {
    PaddingStep(|bytes|);
    if |bytes| <= 3 {
      GroupShape(bytes, url, i);
    } else {
      var group, rest := EncodeGroup(bytes[..3], url), Encode(bytes[3..], url);
      assert Encode(bytes, url) == group + rest;
      EncodedLength(bytes[3..], url);
      if i < 4 {
        GroupShape(bytes[..3], url, i);
      } else {
        ShapeHolds(bytes[3..], url, i - 4);
      }
    }
  }

  /** An encoding is in the alphabet asked for, but for one padding sign, '.' for URLs and '=' otherwise,
      for each byte that is missing in the last group. */
  lemma EncodingShape(bytes: seq<Byte>, url: bool, i: nat)
    requires i < |Encode(bytes, url)|
    ensures var s := Encode(bytes, url);
            if i < |s| - PaddingLength(|bytes|) then s[i] in Table(url) else s[i] == if url then '.' else '='
  {
    ShapeHolds(bytes, url, i);
    IsCharIff(Encode(bytes, url)[i], url);
  }

  // ---------- The bits, as section 4 of RFC 4648 has them ----------

  const SEXTET := 6

  /** The six bits of each character that is not padding. */
  function Sextets(s: string): seq<bool> {
    if s == "" then []
    else
      var p := PosOfChar(s[0]);
      (if p.Some? then BigBits(p.value, SEXTET) else []) + Sextets(s[1..])
  }

  lemma {:induction false} SextetsAppend(a: string, b: string)
    ensures Sextets(a + b) == Sextets(a) + Sextets(b)
  {
    if a == "" {
      assert a + b == b;
    } else {
      assert (a + b)[1..] == a[1..] + b;
      SextetsAppend(a[1..], b);
      var p := PosOfChar(a[0]);
      Associative(if p.Some? then BigBits(p.value, SEXTET) else [], Sextets(a[1..]), Sextets(b));
    }
  }

  lemma {:induction false} SextetsOfFour(s: string)
    requires |s| == 4
    ensures Sextets(s) == Sextets([s[0]]) + Sextets([s[1]]) + Sextets([s[2]]) + Sextets([s[3]])
  {
    assert s == [s[0]] + [s[1]] + [s[2]] + [s[3]];
    SextetsAppend([s[0]] + [s[1]] + [s[2]], [s[3]]);
    SextetsAppend([s[0]] + [s[1]], [s[2]]);
    SextetsAppend([s[0]], [s[1]]);
  }

  lemma {:induction false} SextetOf(i: nat, url: bool)
    requires i < 64
    ensures Sextets([Char(i, url)]) == BigBits(i, SEXTET) && Sextets([Trailing(url)]) == []
  {
    CharPosition(i, url);
    PadIsNoPosition(url);
    assert [Char(i, url)][1..] == "" && [Trailing(url)][1..] == "";
  }

  /** A number of n + k bits is its upper n and its lower k. */
  lemma {:induction false} TwoParts(x: nat, upper: nat, lower: nat, n: nat, k: nat)
    requires lower < Pow2(k) && x == upper * Pow2(k) + lower
    ensures BigBits(x, n + k) == BigBits(upper, n) + BigBits(lower, k)
  {
    BitsSplit(upper, lower, n, k);
  }

  const PAIR := 2
  const QUAD := 4

  lemma {:induction false} PartSizes()
    ensures Pow2(PAIR) == 4 && Pow2(QUAD) == 16 && Pow2(SEXTET) == 64
  {
    assert Pow2(0) == 1 && Pow2(1) == 2 && Pow2(2) == 4 && Pow2(3) == 8 && Pow2(4) == 16 && Pow2(5) == 32;
  }

  lemma {:induction false} Pairs(x: nat, upper: nat, lower: nat, n: nat)
    requires lower < 4 && x == 4 * upper + lower
    ensures BigBits(x, n + PAIR) == BigBits(upper, n) + BigBits(lower, PAIR)
  {
    PartSizes();
    TwoParts(x, upper, lower, n, PAIR);
  }

  lemma {:induction false} Quads(x: nat, upper: nat, lower: nat, n: nat)
    requires lower < 16 && x == 16 * upper + lower
    ensures BigBits(x, n + QUAD) == BigBits(upper, n) + BigBits(lower, QUAD)
  {
    PartSizes();
    TwoParts(x, upper, lower, n, QUAD);
  }

  lemma {:induction false} Sixes(x: nat, upper: nat, lower: nat, n: nat)
    requires lower < 64 && x == 64 * upper + lower
    ensures BigBits(x, n + SEXTET) == BigBits(upper, n) + BigBits(lower, SEXTET)
  {
    PartSizes();
    TwoParts(x, upper, lower, n, SEXTET);
  }

  lemma {:induction false} FourSextets(a: nat, b: nat, c: nat, d: nat, url: bool)
    requires a < 64 && b < 64 && c < 64 && d < 64
    ensures Sextets([Char(a, url), Char(b, url), Char(c, url), Char(d, url)])
            == BigBits(a, SEXTET) + BigBits(b, SEXTET) + BigBits(c, SEXTET) + BigBits(d, SEXTET)
    ensures Sextets([Char(a, url), Char(b, url), Char(c, url), Trailing(url)])
            == BigBits(a, SEXTET) + BigBits(b, SEXTET) + BigBits(c, SEXTET)
    ensures Sextets([Char(a, url), Char(b, url), Trailing(url), Trailing(url)]) ==
              BigBits(a, SEXTET) + BigBits(b, SEXTET)
  {
    SextetsOfFour([Char(a, url), Char(b, url), Char(c, url), Char(d, url)]);
    SextetsOfFour([Char(a, url), Char(b, url), Char(c, url), Trailing(url)]);
    SextetsOfFour([Char(a, url), Char(b, url), Trailing(url), Trailing(url)]);
    SextetOf(a, url);
    SextetOf(b, url);
    SextetOf(c, url);
    SextetOf(d, url);
  }

  lemma Join(
      a: seq<bool>, b: seq<bool>, c: seq<bool>, d: seq<bool>, x2: seq<bool>, y4: seq<bool>, y4': seq<bool>,
      z2: seq<bool>)
    requires b == x2 + y4 && c == y4' + z2
    ensures a + b + c + d == (a + x2) + (y4 + y4') + (z2 + d)
  {
  }

  /** Three bytes in parts of 6 and 2, 4 and 4, 2 and 6 bits, regrouped by sixes. */
  lemma {:induction false} Regrouped(
      x: nat, y: nat, z: nat, a: nat, b: nat, c: nat, d: nat, x2: nat, y4: nat, y4': nat, z2: nat)
    requires x == 4 * a + x2 && y == 16 * y4 + y4' && z == 64 * z2 + d
    requires b == 16 * x2 + y4 && c == 4 * y4' + z2
    requires x2 < 4 && y4 < 16 && y4' < 16 && z2 < 4 && d < 64
    ensures BigBits(a, SEXTET) + BigBits(b, SEXTET) + BigBits(c, SEXTET) + BigBits(d, SEXTET)
            == BigBits(x, BYTE_BITS) + BigBits(y, BYTE_BITS) + BigBits(z, BYTE_BITS)
  {
    Pairs(x, a, x2, SEXTET);
    Quads(b, x2, y4, PAIR);
    Quads(y, y4, y4', QUAD);
    Pairs(c, y4', z2, QUAD);
    Sixes(z, z2, d, PAIR);
    Join(BigBits(a, SEXTET), BigBits(b, SEXTET), BigBits(c, SEXTET), BigBits(d, SEXTET),
         BigBits(x2, PAIR), BigBits(y4, QUAD), BigBits(y4', QUAD), BigBits(z2, PAIR));
  }

  lemma {:induction false} ThreeBytesBits(x: Byte, y: Byte, z: Byte, url: bool)
    ensures Sextets(EncodeGroup([x, y, z], url)) ==
              BigBits(x, BYTE_BITS) + BigBits(y, BYTE_BITS) + BigBits(z, BYTE_BITS)
  {
    FourSextets(x / 4, x % 4 * 16 + y / 16, y % 16 * 4 + z / 64, z % 64, url);
    Regrouped(x, y, z, x / 4, x % 4 * 16 + y / 16, y % 16 * 4 + z / 64, z % 64, x % 4, y / 16, y % 16, z / 64);
  }

  lemma {:induction false} RegroupedTwo(x: nat, y: nat, a: nat, b: nat, c: nat, x2: nat, y4: nat, y4': nat)
    requires x == 4 * a + x2 && y == 16 * y4 + y4' && b == 16 * x2 + y4 && c == 4 * y4'
    requires x2 < 4 && y4 < 16 && y4' < 16
    ensures BigBits(a, SEXTET) + BigBits(b, SEXTET) + BigBits(c, SEXTET)
            == BigBits(x, BYTE_BITS) + BigBits(y, BYTE_BITS) + Falses(2)
  {
    Pairs(x, a, x2, SEXTET);
    Quads(b, x2, y4, PAIR);
    Quads(y, y4, y4', QUAD);
    Pairs(c, y4', 0, QUAD);
    BitsOfZero(PAIR);
    Join(BigBits(a, SEXTET), BigBits(b, SEXTET), BigBits(c, SEXTET), [],
         BigBits(x2, PAIR), BigBits(y4, QUAD), BigBits(y4', QUAD), Falses(2));
    assert Falses(2) + [] == Falses(2);
  }

  lemma {:induction false} TwoBytesBits(x: Byte, y: Byte, url: bool)
    ensures Sextets(EncodeGroup([x, y], url)) == BigBits(x, BYTE_BITS) + BigBits(y, BYTE_BITS) + Falses(2)
  {
    FourSextets(x / 4, x % 4 * 16 + y / 16, y % 16 * 4, 0, url);
    RegroupedTwo(x, y, x / 4, x % 4 * 16 + y / 16, y % 16 * 4, x % 4, y / 16, y % 16);
  }

  lemma {:induction false} RegroupedOne(x: nat, a: nat, b: nat, x2: nat)
    requires x == 4 * a + x2 && b == 16 * x2 && x2 < 4
    ensures BigBits(a, SEXTET) + BigBits(b, SEXTET) == BigBits(x, BYTE_BITS) + Falses(4)
  {
    Pairs(x, a, x2, SEXTET);
    Quads(b, x2, 0, PAIR);
    BitsOfZero(QUAD);
  }

  lemma {:induction false} OneByteBits(x: Byte, url: bool)
    ensures Sextets(EncodeGroup([x], url)) == BigBits(x, BYTE_BITS) + Falses(4)
  {
    FourSextets(x / 4, x % 4 * 16, 0, 0, url);
    RegroupedOne(x, x / 4, x % 4 * 16, x % 4);
  }

  /** Zero bits that fill up the last character. */
  function FillBits(length: nat): nat {
    if length % 3 == 0 then 0 else if length % 3 == 1 then 4 else 2
  }

  lemma {:induction false} GroupBits(bytes: seq<Byte>, url: bool)
    requires 1 <= |bytes| <= 3
    ensures Sextets(EncodeGroup(bytes, url)) == Bits(bytes) + Falses(FillBits(|bytes|))
  {
    if |bytes| == 1 {
      assert bytes == [bytes[0]];
      OneByteBits(bytes[0], url);
      BitsOne(bytes[0]);
    } else if |bytes| == 2 {
      assert bytes == [bytes[0]] + [bytes[1]] == [bytes[0], bytes[1]];
      TwoBytesBits(bytes[0], bytes[1], url);
      BitsAppend([bytes[0]], [bytes[1]]);
      BitsOne(bytes[0]);
      BitsOne(bytes[1]);
    } else {
      assert bytes == [bytes[0]] + [bytes[1]] + [bytes[2]] == [bytes[0], bytes[1], bytes[2]];
      ThreeBytesBits(bytes[0], bytes[1], bytes[2], url);
      BitsAppend([bytes[0]] + [bytes[1]], [bytes[2]]);
      BitsAppend([bytes[0]], [bytes[1]]);
      BitsOne(bytes[0]);
      BitsOne(bytes[1]);
      BitsOne(bytes[2]);
    }
  }

  lemma FillStep(n: nat)
    requires n > 3
    ensures FillBits(n) == FillBits(n - 3) && (n + 2) / 3 * 4 == 4 + (n - 3 + 2) / 3 * 4
  {
  }

  /** Four characters for every three bytes begun. */
  lemma {:induction false} EncodedLength(bytes: seq<Byte>, url: bool)
    ensures |Encode(bytes, url)| == (|bytes| + 2) / 3 * 4
  {
    if |bytes| > 3 {
      EncodedLength(bytes[3..], url);
      FillStep(|bytes|);
    }
  }

  /** The characters of an encoding carry the bits of the bytes, six each, filled up with zeros. */
  lemma {:induction false} EncodingCarriesBits(bytes: seq<Byte>, url: bool)
    ensures Sextets(Encode(bytes, url)) == Bits(bytes) + Falses(FillBits(|bytes|))
  {
    if 0 < |bytes| <= 3 {
      GroupBits(bytes, url);
    } else if |bytes| > 3 {
      var first, rest := bytes[..3], bytes[3..];
      var group, after := EncodeGroup(first, url), Encode(rest, url);
      assert Encode(bytes, url) == group + after;
      SextetsAppend(group, after);
      GroupBits(first, url);
      EncodingCarriesBits(rest, url);
      FillStep(|bytes|);
      BitsInTwo(bytes, first, rest);
    }
  }

  lemma {:induction false} BitsInTwo(bytes: seq<Byte>, first: seq<Byte>, rest: seq<Byte>)
    requires bytes == first + rest && |first| == 3
    ensures Bits(first) + Falses(0) + (Bits(rest) + Falses(FillBits(|rest|))) == Bits(bytes) + Falses(FillBits(|rest|))
  {
    BitsAppend(first, rest);
    assert Bits(first) + Falses(0) == Bits(first);
    Associative(Bits(first), Bits(rest), Falses(FillBits(|rest|)));
  }

  // ---------- What the decoder accepts ----------

  /** Looked at and not understood: the first two characters of a group must be in an alphabet, and so
      must the third and fourth unless the group has ended or is padded before them. */
  predicate Offends(s: string, i: nat)
    requires i < |s|
  {
    var start := i - i % 4;
    && PosOfChar(s[i]) == None
    && (i % 4 == 2 ==> !IsPad(s[i]))
    && (i % 4 == 3 ==> !IsPad(s[i]) && !IsPad(s[start + 2]))
  }

  lemma GroupFails(s: string)
    requires 1 <= |s| <= 4
    ensures DecodeGroup(s) == None <==> |s| == 1 || exists i: nat :: i < |s| && Offends(s, i)
  {
    if |s| > 1 {
      assert |s| > 2 ==> (Offends(s, 2) <==> PosOfChar(s[2]) == None && !IsPad(s[2]));
      assert |s| > 3 ==> (Offends(s, 3) <==> PosOfChar(s[3]) == None && !IsPad(s[3]) && !IsPad(s[2]));
      assert Offends(s, 0) <==> PosOfChar(s[0]) == None;
      assert Offends(s, 1) <==> PosOfChar(s[1]) == None;
    }
  }

  lemma OffendsLater(s: string, i: nat)
    requires i + 4 < |s|
    ensures Offends(s, i + 4) <==> Offends(s[4..], i)
  {
    assert (i + 4) % 4 == i % 4;
  }

  lemma OffendsFirst(s: string, i: nat)
    requires i < 4 <= |s|
    ensures Offends(s, i) <==> Offends(s[..4], i)
  {
  }

  ghost predicate SomeOffends(s: string) {
    exists i: nat :: i < |s| && Offends(s, i)
  }

  lemma OffendsSplit(s: string)
    requires |s| > 4
    ensures SomeOffends(s) <==> SomeOffends(s[..4]) || SomeOffends(s[4..])
  {
    if SomeOffends(s) {
      var i: nat :| i < |s| && Offends(s, i);
      if i < 4 {
        OffendsFirst(s, i);
      } else {
        OffendsLater(s, i - 4);
        assert Offends(s[4..], i - 4);
      }
    }
    if SomeOffends(s[..4]) {
      var i: nat :| i < 4 && Offends(s[..4], i);
      OffendsFirst(s, i);
    }
    if SomeOffends(s[4..]) {
      var i: nat :| i < |s[4..]| && Offends(s[4..], i);
      OffendsLater(s, i);
      assert Offends(s, i + 4);
    }
  }

  lemma {:induction false} DecodeStep(s: string)
    requires s != ""
    ensures if |s| <= 4 then Decode(s) == None <==> DecodeGroup(s) == None
            else Decode(s) == None <==> DecodeGroup(s[..4]) == None || Decode(s[4..]) == None
  {
    if |s| <= 4 {
      assert s[..|s|] == s && s[|s|..] == "";
    }
  }

  lemma RestMod(n: nat)
    requires n > 4
    ensures (n - 4) % 4 == n % 4
  {
  }

  /** The decoder fails exactly when a single character is left for the last group, or it looks at a
      character that is in neither alphabet. */
  lemma {:induction false} DecodeFailsIff(s: string)
    ensures Decode(s) == None <==> |s| % 4 == 1 || SomeOffends(s)
  {
    if 0 < |s| <= 4 {
      DecodeStep(s);
      GroupFails(s);
    } else if |s| > 4 {
      DecodeStep(s);
      GroupFails(s[..4]);
      DecodeFailsIff(s[4..]);
      OffendsSplit(s);
      RestMod(|s|);
    }
  }

  // ---------- Line breaks ----------

  /** A break after every so many characters, and none at the end. */
  function Broken(s: string, distance: nat): string
    requires distance > 0
  {
    if |s| <= distance then s else s[..distance] + "\n" + Broken(s[distance..], distance)
  }

  /** Breaks are put in from the front, each moving the rest along. */
  method InsertLinebreaks(str: string, distance: nat) returns (r: string)
    requires distance > 0
    ensures r == Broken(str, distance)
  {
    r := str;
    if |str| == 0 {
      return;
    }
    var pos := distance;
    ghost var done, left := "", str;
    while pos < |r|
      invariant pos == |done| + distance && r == done + left
      invariant done + Broken(left, distance) == Broken(str, distance)
      decreases |left|
    {
      ghost var line, rest := left[..distance], left[distance..];
      Associative(done, line + "\n", Broken(rest, distance));
      assert r[..pos] == done + line && r[pos..] == rest;
      r := r[..pos] + "\n" + r[pos..];
      done, left := done + (line + "\n"), rest;
      pos := pos + distance + 1;
    }
  }

  function WithoutBreaks(s: string): string {
    if s == "" then "" else (if s[0] == '\n' then "" else [s[0]]) + WithoutBreaks(s[1..])
  }

  lemma {:induction false} WithoutAppend(a: string, b: string)
    ensures WithoutBreaks(a + b) == WithoutBreaks(a) + WithoutBreaks(b)
  {
    if a == "" {
      assert a + b == b;
    } else {
      assert (a + b)[1..] == a[1..] + b;
      WithoutAppend(a[1..], b);
      Associative(if a[0] == '\n' then "" else [a[0]], WithoutBreaks(a[1..]), WithoutBreaks(b));
    }
  }

  lemma {:induction false} WithoutNothing(s: string)
    requires '\n' !in s
    ensures WithoutBreaks(s) == s
  {
    if s != "" {
      WithoutNothing(s[1..]);
      assert s == [s[0]] + s[1..];
    }
  }

  lemma {:induction false} LineComesOut(line: string, after: string)
    requires WithoutBreaks(line) == line
    ensures WithoutBreaks(line + "\n" + after) == line + WithoutBreaks(after)
  {
    WithoutAppend(line + "\n", after);
    WithoutAppend(line, "\n");
    assert WithoutBreaks("\n") == "" + WithoutBreaks("\n"[1..]);
  }

  /** Removing the breaks gives the string back. */
  lemma {:induction false} BreaksComeOut(s: string, distance: nat)
    requires distance > 0 && '\n' !in s
    ensures WithoutBreaks(Broken(s, distance)) == s
  {
    if |s| <= distance {
      WithoutNothing(s);
    } else {
      var line, rest := s[..distance], s[distance..];
      assert line + rest == s;
      WithoutNothing(line);
      BreaksComeOut(rest, distance);
      LineComesOut(line, Broken(rest, distance));
    }
  }

  /** Every line but the last has exactly that length, and the last is not empty. */
  lemma {:induction false} LinesHaveLength(s: string, distance: nat)
    requires distance > 0 && '\n' !in s
    ensures var r := Broken(s, distance);
            && (forall i :: 0 <= i < |r| ==> (r[i] == '\n' <==> i % (distance + 1) == distance))
            && (s != "" ==> |r| > 0 && r[|r| - 1] != '\n')
  {
    var r := Broken(s, distance);
    if |s| <= distance {
      forall i | 0 <= i < |r| ensures r[i] == '\n' <==> i % (distance + 1) == distance {
        SmallMod(i, distance + 1);
      }
    } else {
      var line, rest := s[..distance], s[distance..];
      LinesHaveLength(rest, distance);
      var after := Broken(rest, distance);
      assert r == line + "\n" + after;
      forall i | 0 <= i < |r| ensures r[i] == '\n' <==> i % (distance + 1) == distance {
        if i <= distance {
          SmallMod(i, distance + 1);
        } else {
          ModShift(i - (distance + 1), 1, distance + 1);
          assert r[i] == after[i - (distance + 1)];
        }
      }
    }
  }

  lemma SmallMod(i: nat, n: nat)
    requires i < n
    ensures i % n == i
  {
  }

  /** Decoding with break removal: the empty string first, then the copy without breaks. */
  function DecodeText(s: string, removeLinebreaks: bool): Option<seq<Byte>> {
    if s == "" then Some([]) else Decode(if removeLinebreaks then WithoutBreaks(s) else s)
  }

  lemma {:induction false} NoBreaksInside(bytes: seq<Byte>, url: bool)
    ensures '\n' !in Encode(bytes, url)
  {
    if |bytes| > 0 {
      var n := if |bytes| < 3 then |bytes| else 3;
      assert bytes[..n] + bytes[n..] == bytes;
      GroupHasNoBreak(bytes[..n], url);
      NoBreaksInside(bytes[n..], url);
    }
  }

  lemma GroupHasNoBreak(bytes: seq<Byte>, url: bool)
    requires 1 <= |bytes| <= 3
    ensures '\n' !in EncodeGroup(bytes, url)
  {
    forall i: nat | i < 64 ensures Char(i, url) != '\n' {
      CharPosition(i, url);
    }
    PadIsNoPosition(url);
  }

  /** Through line breaks at any distance, decoding with break removal gives back the bytes. */
  lemma RoundTripThroughBreaks(bytes: seq<Byte>, url: bool, distance: nat)
    requires distance > 0
    ensures DecodeText(Broken(Encode(bytes, url), distance), true) == Some(bytes)
    ensures DecodeText(Encode(bytes, url), false) == Some(bytes)
  {
    NoBreaksInside(bytes, url);
    BreaksComeOut(Encode(bytes, url), distance);
    RoundTrip(bytes, url);
  }
}
