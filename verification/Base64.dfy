/** Base64 by tables: encode_into and decode_into, against RFC 4648, section 4. */
module Base64 {
  import opened Wrappers

  const PADDING: byte := 61

  datatype Error = SizeNotDivisible | TooMuchPadding | InvalidCharacter

  // ---- the alphabet ----------------------------------------------------------------------------

  /** The character of a 6-bit value: A-Z, a-z, 0-9, + and /. */
  function Alphabet(v: byte): byte
    requires v < 64
  {
    if v < 26 then v + 65 else if v < 52 then v + 71 else if v < 62 then v - 4 else if v == 62 then 43 else 47
  }

  predicate IsAlphabet(c: byte) {
    65 <= c <= 90 || 97 <= c <= 122 || 48 <= c <= 57 || c == 43 || c == 47
  }

  function Value(c: byte): (v: byte)
    requires IsAlphabet(c)
    ensures v < 64 && Alphabet(v) == c
  {
    if 65 <= c <= 90 then c - 65
    else if 97 <= c <= 122 then c - 71
    else if 48 <= c <= 57 then c + 4
    else if c == 43 then 62
    else 63
  }

  lemma ValueOfAlphabet(v: byte)
    requires v < 64
    ensures IsAlphabet(Alphabet(v)) && Value(Alphabet(v)) == v && Alphabet(v) != PADDING
  {
  }

  /** Table 1 of RFC 4648: A to Z, a to z, 0 to 9, + and /. */
  lemma AlphabetIs()
    ensures [Alphabet(0), Alphabet(1), Alphabet(2), Alphabet(3),
      Alphabet(4), Alphabet(5), Alphabet(6), Alphabet(7)] == [65, 66, 67, 68, 69, 70, 71, 72]
    ensures [Alphabet(8), Alphabet(9), Alphabet(10), Alphabet(11),
      Alphabet(12), Alphabet(13), Alphabet(14), Alphabet(15)] == [73, 74, 75, 76, 77, 78, 79, 80]
    ensures [Alphabet(16), Alphabet(17), Alphabet(18), Alphabet(19),
      Alphabet(20), Alphabet(21), Alphabet(22), Alphabet(23)] == [81, 82, 83, 84, 85, 86, 87, 88]
    ensures [Alphabet(24), Alphabet(25), Alphabet(26), Alphabet(27),
      Alphabet(28), Alphabet(29), Alphabet(30), Alphabet(31)] == [89, 90, 97, 98, 99, 100, 101, 102]
    ensures [Alphabet(32), Alphabet(33), Alphabet(34), Alphabet(35),
      Alphabet(36), Alphabet(37), Alphabet(38), Alphabet(39)] == [103, 104, 105, 106, 107, 108, 109, 110]
    ensures [Alphabet(40), Alphabet(41), Alphabet(42), Alphabet(43),
      Alphabet(44), Alphabet(45), Alphabet(46), Alphabet(47)] == [111, 112, 113, 114, 115, 116, 117, 118]
    ensures [Alphabet(48), Alphabet(49), Alphabet(50), Alphabet(51),
      Alphabet(52), Alphabet(53), Alphabet(54), Alphabet(55)] == [119, 120, 121, 122, 48, 49, 50, 51]
    ensures [Alphabet(56), Alphabet(57), Alphabet(58), Alphabet(59),
      Alphabet(60), Alphabet(61), Alphabet(62), Alphabet(63)] == [52, 53, 54, 55, 56, 57, 43, 47]
  {
  }

  // ---- section 4 -------------------------------------------------------------------------------

  /** The 24-bit group of three bytes. */
  function Group(a: byte, b: byte, c: byte): bv32 {
    (a as bv32 << 16) | (b as bv32 << 8) | (c as bv32)
  }

  /** Its four 6-bit values, from the left. */
  function Sextet0(q: bv32): (v: byte) ensures v < 64 { ((q >> 18) & 0x3F) as byte }
  function Sextet1(q: bv32): (v: byte) ensures v < 64 { ((q >> 12) & 0x3F) as byte }
  function Sextet2(q: bv32): (v: byte) ensures v < 64 { ((q >> 6) & 0x3F) as byte }
  function Sextet3(q: bv32): (v: byte) ensures v < 64 { (q & 0x3F) as byte }

  function EncodeGroup(a: byte, b: byte, c: byte): (r: seq<byte>)
    ensures |r| == 4
  {
    var q := Group(a, b, c);
    [Alphabet(Sextet0(q)), Alphabet(Sextet1(q)), Alphabet(Sextet2(q)), Alphabet(Sextet3(q))]
  }

  function Encode(x: seq<byte>): seq<byte> {
    if |x| == 0 then []
    else if |x| == 1 then EncodeGroup(x[0], 0, 0)[..2] + [PADDING, PADDING]
    else if |x| == 2 then EncodeGroup(x[0], x[1], 0)[..3] + [PADDING]
    else EncodeGroup(x[0], x[1], x[2]) + Encode(x[3..])
  }

  /** Padding characters at the end, at most two. */
  function Padding(s: seq<byte>): (n: nat)
    ensures n <= 2 && n <= |s|
  {
    if |s| < 2 || s[|s| - 1] != PADDING then 0 else if s[|s| - 2] != PADDING then 1 else 2
  }

  /** Groups of four, all in the alphabet but for the padding. */
  predicate IsText(s: seq<byte>) {
    |s| % 4 == 0 && forall k :: 0 <= k < |s| - Padding(s) ==> IsAlphabet(s[k])
  }

  function GroupOfValues(v0: byte, v1: byte, v2: byte, v3: byte): bv32 {
    (v0 as bv32 << 18) | (v1 as bv32 << 12) | (v2 as bv32 << 6) | (v3 as bv32)
  }

  function Byte0(q: bv32): byte { ((q >> 16) & 0xFF) as byte }
  function Byte1(q: bv32): byte { ((q >> 8) & 0xFF) as byte }
  function Byte2(q: bv32): byte { (q & 0xFF) as byte }

  /** The bytes of four characters; padding stands for zero bits. */
  function DecodeGroup(c0: byte, c1: byte, c2: byte, c3: byte): (r: seq<byte>)
    requires IsAlphabet(c0) && IsAlphabet(c1) && (c2 == PADDING || IsAlphabet(c2)) && (c3 == PADDING || IsAlphabet(c3))
    ensures |r| == 3
  {
    var v2 := if c2 == PADDING then 0 else Value(c2);
    var v3 := if c3 == PADDING then 0 else Value(c3);
    var q := GroupOfValues(Value(c0), Value(c1), v2, v3);
    [Byte0(q), Byte1(q), Byte2(q)]
  }

  function Decode(s: seq<byte>): seq<byte>
    requires IsText(s)
  {
    if |s| == 0 then []
    else if |s| == 4 then
      assert IsAlphabet(s[0]) && IsAlphabet(s[1]);
      DecodeGroup(s[0], s[1], s[2], s[3])[..3 - Padding(s)]
    else
      TextTail(s);
      DecodeGroup(s[0], s[1], s[2], s[3]) + Decode(s[4..])
  }

  lemma TextTail(s: seq<byte>)
    requires IsText(s) && |s| > 4
    ensures IsText(s[4..]) && Padding(s[4..]) == Padding(s)
    ensures IsAlphabet(s[0]) && IsAlphabet(s[1]) && IsAlphabet(s[2]) && IsAlphabet(s[3])
  {
    forall k | 0 <= k < |s| - 4 - Padding(s) ensures IsAlphabet(s[4..][k]) { assert s[4..][k] == s[k + 4]; }
  }

  /** The bits of the last character that carry no data are zero. */
  predicate IsCanonical(s: seq<byte>)
    requires IsText(s)
  {
    var n := |s|;
    if Padding(s) == 1 then assert IsAlphabet(s[n - 2]); Value(s[n - 2]) & 0x03 == 0
    else if Padding(s) == 2 then assert IsAlphabet(s[n - 3]); Value(s[n - 3]) & 0x0F == 0
    else true
  }

  // ---- round trips -----------------------------------------------------------------------------

  lemma GroupThereAndBack(a: byte, b: byte, c: byte)
    ensures var q := Group(a, b, c);
      var p := GroupOfValues(Sextet0(q), Sextet1(q), Sextet2(q), Sextet3(q));
      Byte0(p) == a && Byte1(p) == b && Byte2(p) == c
  {
  }

  lemma PaddedGroups(a: byte, b: byte)
    ensures Sextet2(Group(a, 0, 0)) == 0 && Sextet3(Group(a, 0, 0)) == 0 && Sextet3(Group(a, b, 0)) == 0
  {
  }

  lemma ValuesThereAndBack(v0: byte, v1: byte, v2: byte, v3: byte)
    requires v0 < 64 && v1 < 64 && v2 < 64 && v3 < 64
    ensures var p := GroupOfValues(v0, v1, v2, v3);
      var q := Group(Byte0(p), Byte1(p), Byte2(p));
      Sextet0(q) == v0 && Sextet1(q) == v1 && Sextet2(q) == v2 && Sextet3(q) == v3
  {
    hide GroupOfValues, Group, Byte0, Byte1, Byte2, Sextet0, Sextet1, Sextet2, Sextet3;
    SextetsOfValues(v0, v1, v2, v3);
    BytesOfGroup(GroupOfValues(v0, v1, v2, v3));
  }

  lemma SextetsOfValues(v0: byte, v1: byte, v2: byte, v3: byte)
    requires v0 < 64 && v1 < 64 && v2 < 64 && v3 < 64
    ensures var p := GroupOfValues(v0, v1, v2, v3);
      p < 0x100_0000 && Sextet0(p) == v0 && Sextet1(p) == v1 && Sextet2(p) == v2 && Sextet3(p) == v3
  {
  }

  lemma BytesOfGroup(p: bv32)
    requires p < 0x100_0000
    ensures Group(Byte0(p), Byte1(p), Byte2(p)) == p
  {
  }

  /** Dropping the last byte of a group clears the two bits that carry no data. */
  lemma TwoByteValues(v0: byte, v1: byte, v2: byte)
    requires v0 < 64 && v1 < 64 && v2 < 64
    ensures var p := GroupOfValues(v0, v1, v2, 0);
      var q := Group(Byte0(p), Byte1(p), 0);
      Sextet0(q) == v0 && Sextet1(q) == v1 && Sextet2(q) == v2 & 0x3C
  {
    hide GroupOfValues, Group, Byte0, Byte1, Byte2, Sextet0, Sextet1, Sextet2, Sextet3;
    SextetsOfValues(v0, v1, v2, 0);
    CutGroup(GroupOfValues(v0, v1, v2, 0));
    CutValues(v0, v1, v2);
    SextetsOfValues(v0, v1, v2 & 0x3C, 0);
  }

  /** Dropping the last two clears four. */
  lemma OneByteValues(v0: byte, v1: byte)
    requires v0 < 64 && v1 < 64
    ensures var p := GroupOfValues(v0, v1, 0, 0);
      var q := Group(Byte0(p), 0, 0);
      Sextet0(q) == v0 && Sextet1(q) == v1 & 0x30
  {
    hide GroupOfValues, Group, Byte0, Byte1, Byte2, Sextet0, Sextet1, Sextet2, Sextet3;
    SextetsOfValues(v0, v1, 0, 0);
    CutGroup(GroupOfValues(v0, v1, 0, 0));
    CutValues(v0, v1, 0);
    SextetsOfValues(v0, v1 & 0x30, 0, 0);
  }

  lemma CutGroup(p: bv32)
    requires p < 0x100_0000
    ensures Group(Byte0(p), Byte1(p), 0) == p & 0xFF_FF00 && Group(Byte0(p), 0, 0) == p & 0xFF_0000
  {
  }

  lemma CutValues(v0: byte, v1: byte, v2: byte)
    requires v0 < 64 && v1 < 64 && v2 < 64
    ensures v2 & 0x3C < 64 && GroupOfValues(v0, v1, v2, 0) & 0xFF_FF00 == GroupOfValues(v0, v1, v2 & 0x3C, 0)
    ensures v1 & 0x30 < 64 && GroupOfValues(v0, v1, v2, 0) & 0xFF_0000 == GroupOfValues(v0, v1 & 0x30, 0, 0)
  {
  }

  lemma ClearBits(v: byte)
    requires v < 64
    ensures v & 0x3C == v <==> v & 0x03 == 0
    ensures v & 0x30 == v <==> v & 0x0F == 0
    ensures v & 0x3C < 64 && v & 0x30 < 64
  {
  }

  lemma AlphabetInjective(v: byte, w: byte)
    requires v < 64 && w < 64
    ensures Alphabet(v) == Alphabet(w) <==> v == w
  {
  }

  /** Four characters in the alphabet, or with padding at the end, in front of a text. */
  lemma TextFromTail(g: seq<byte>, t: seq<byte>)
    requires |g| == 4 && IsAlphabet(g[0]) && IsAlphabet(g[1]) && IsAlphabet(g[2]) && IsAlphabet(g[3])
    requires IsText(t)
    ensures IsText(g + t) && Padding(g + t) == Padding(t)
    ensures Decode(g + t) == DecodeGroup(g[0], g[1], g[2], g[3]) + Decode(t)
    ensures IsCanonical(g + t) == IsCanonical(t)
  {
    var s := g + t;
    if t == [] {
      assert s == g;
      assert !IsAlphabet(PADDING);
    } else {
      assert s[|s| - 1] == t[|t| - 1] && s[|s| - 2] == t[|t| - 2] && s[|s| - 3] == t[|t| - 3];
      hide Value, DecodeGroup;
      assert forall k :: 4 <= k < |s| - Padding(s) ==> IsAlphabet(t[k - 4]) && s[k] == t[k - 4];
      assert s[4..] == t;
    }
  }

  lemma GroupIsAlphabet(a: byte, b: byte, c: byte)
    ensures var g := EncodeGroup(a, b, c);
      IsAlphabet(g[0]) && IsAlphabet(g[1]) && IsAlphabet(g[2]) && IsAlphabet(g[3]) &&
      DecodeGroup(g[0], g[1], g[2], g[3]) == [a, b, c]
  {
    hide Alphabet, IsAlphabet, Value, Group, GroupOfValues, Sextet0, Sextet1, Sextet2, Sextet3, Byte0, Byte1, Byte2;
    var q := Group(a, b, c);
    ValueOfAlphabet(Sextet0(q));
    ValueOfAlphabet(Sextet1(q));
    ValueOfAlphabet(Sextet2(q));
    ValueOfAlphabet(Sextet3(q));
    GroupThereAndBack(a, b, c);
  }

  lemma EncodeFirst(x: seq<byte>)
    requires |x| >= 3
    ensures Encode(x) == EncodeGroup(x[0], x[1], x[2]) + Encode(x[3..])
  {
  }

  lemma DecodeFirst(s: seq<byte>)
    requires IsText(s) && |s| > 4
    ensures IsText(s[4..]) && IsCanonical(s) == IsCanonical(s[4..])
    ensures IsAlphabet(s[0]) && IsAlphabet(s[1]) && IsAlphabet(s[2]) && IsAlphabet(s[3])
    ensures Decode(s) == DecodeGroup(s[0], s[1], s[2], s[3]) + Decode(s[4..])
  {
    hide IsAlphabet, IsText, DecodeGroup, Value, Padding;
    TextTail(s);
  }

  /** "f", "fo", "foo" and "foobar" and what they become (RFC 4648, section 10). */
  lemma TestVectors()
    ensures Encode([102]) == [90, 103, 61, 61] && Encode([102, 111]) == [90, 109, 56, 61]
    ensures Encode([102, 111, 111]) == [90, 109, 57, 118]
    ensures Encode([102, 111, 111, 98, 97, 114]) == [90, 109, 57, 118, 89, 109, 70, 121]
  {
    var foo: seq<byte>, foobar: seq<byte> := [102, 111, 111], [102, 111, 111, 98, 97, 114];
    assert foo[3..] == [] && foobar[3..] == [98, 97, 114];
    GroupVectors();
    hide EncodeGroup;
    assert Encode(foo) == [90, 109, 57, 118] && Encode(foobar) == [90, 109, 57, 118] + Encode(foobar[3..]);
    var bar: seq<byte> := [98, 97, 114];
    assert bar[3..] == [];
    assert Encode(bar) == [89, 109, 70, 121];
  }

  lemma GroupVectors()
    ensures EncodeGroup(102, 0, 0)[..2] == [90, 103]
    ensures EncodeGroup(102, 111, 0)[..3] == [90, 109, 56]
    ensures EncodeGroup(102, 111, 111) == [90, 109, 57, 118] && EncodeGroup(98, 97, 114) == [89, 109, 70, 121]
  {
  }

  lemma {:induction false} EncodeLength(x: seq<byte>)
    ensures |Encode(x)| == (|x| + 2) / 3 * 4
  {
    hide EncodeGroup;
    if |x| >= 3 {
      EncodeLength(x[3..]);
    }
  }

  /** Decoding inverts encoding, for all byte strings. */
  lemma {:induction false} DecodeEncode(x: seq<byte>)
    ensures var s := Encode(x);
      |s| == (|x| + 2) / 3 * 4 && IsText(s) && Decode(s) == x && IsCanonical(s)
  {
    EncodeLength(x);
    if |x| == 0 {
    } else if |x| <= 2 {
      DecodeEncodeShort(x);
    } else {
      DecodeEncode(x[3..]);
      DecodeEncodeGroup(x);
    }
  }

  lemma DecodeEncodeGroup(x: seq<byte>)
    requires |x| >= 3
    requires var t := Encode(x[3..]); IsText(t) && Decode(t) == x[3..] && IsCanonical(t)
    ensures var s := Encode(x);
      IsText(s) && Decode(s) == x && IsCanonical(s)
  {
    hide Alphabet, IsAlphabet, Value, EncodeGroup, DecodeGroup, IsText, Encode, Decode, IsCanonical, Padding;
    EncodeFirst(x);
    GroupIsAlphabet(x[0], x[1], x[2]);
    TextFromTail(EncodeGroup(x[0], x[1], x[2]), Encode(x[3..]));
    assert x == [x[0], x[1], x[2]] + x[3..];
  }

  lemma DecodeEncodeShort(x: seq<byte>)
    requires 1 <= |x| <= 2
    ensures var s := Encode(x);
      |s| == 4 && IsText(s) && Decode(s) == x && IsCanonical(s)
  {
    hide Alphabet, Value, Group, GroupOfValues, Sextet0, Sextet1, Sextet2, Sextet3, Byte0, Byte1, Byte2;
    var b := if |x| == 1 then 0 else x[1];
    var q := Group(x[0], b, 0);
    ValueOfAlphabet(Sextet0(q));
    ValueOfAlphabet(Sextet1(q));
    ValueOfAlphabet(Sextet2(q));
    GroupThereAndBack(x[0], b, 0);
    PaddedGroups(x[0], b);
    UnusedBits(x[0], b);
  }

  lemma UnusedBits(a: byte, b: byte)
    ensures Sextet2(Group(a, b, 0)) & 0x03 == 0 && Sextet1(Group(a, 0, 0)) & 0x0F == 0
  {
  }

  /** Encoding inverts decoding exactly on the texts whose unused bits are zero. */
  lemma {:induction false} EncodeDecode(s: seq<byte>)
    requires IsText(s)
    ensures Encode(Decode(s)) == s <==> IsCanonical(s)
  {
    if |s| == 0 {
    } else if |s| == 4 {
      EncodeDecodeLast(s);
    } else {
      TextTail(s);
      EncodeDecode(s[4..]);
      EncodeDecodeGroup(s);
    }
  }

  lemma EncodeDecodeGroup(s: seq<byte>)
    requires IsText(s) && |s| > 4 && IsText(s[4..])
    requires Encode(Decode(s[4..])) == s[4..] <==> IsCanonical(s[4..])
    ensures Encode(Decode(s)) == s <==> IsCanonical(s)
  {
    hide Alphabet, IsAlphabet, Value, EncodeGroup, DecodeGroup, IsText, Encode, Decode, IsCanonical, Padding;
    DecodeFirst(s);
    var g, rest := DecodeGroup(s[0], s[1], s[2], s[3]), Decode(s[4..]);
    GroupAgain(s[0], s[1], s[2], s[3]);
    assert (g + rest)[3..] == rest;
    EncodeFirst(g + rest);
    assert s[..4] == [s[0], s[1], s[2], s[3]];
    assert s == s[..4] + s[4..];
    assert (s[..4] + Encode(rest))[4..] == Encode(rest);
  }

  lemma GroupAgain(c0: byte, c1: byte, c2: byte, c3: byte)
    requires IsAlphabet(c0) && IsAlphabet(c1) && IsAlphabet(c2) && IsAlphabet(c3)
    ensures var g := DecodeGroup(c0, c1, c2, c3); EncodeGroup(g[0], g[1], g[2]) == [c0, c1, c2, c3]
  {
    assert c2 != PADDING && c3 != PADDING;
    hide Alphabet, IsAlphabet, Group, GroupOfValues, Sextet0, Sextet1, Sextet2, Sextet3, Byte0, Byte1, Byte2;
    ValuesThereAndBack(Value(c0), Value(c1), Value(c2), Value(c3));
  }

  lemma EncodeDecodeLast(s: seq<byte>)
    requires IsText(s) && |s| == 4
    ensures Encode(Decode(s)) == s <==> IsCanonical(s)
  {
    assert IsAlphabet(s[0]) && IsAlphabet(s[1]);
    if Padding(s) == 0 {
      assert IsAlphabet(s[2]) && IsAlphabet(s[3]);
      LastWhole(s);
    } else if Padding(s) == 1 {
      assert IsAlphabet(s[2]) && s[3] == PADDING;
      LastOfTwo(s);
    } else {
      assert s[2] == PADDING && s[3] == PADDING;
      LastOfOne(s);
    }
  }

  lemma LastWhole(s: seq<byte>)
    requires IsText(s) && |s| == 4 && Padding(s) == 0
    requires IsAlphabet(s[0]) && IsAlphabet(s[1]) && IsAlphabet(s[2]) && IsAlphabet(s[3])
    ensures Encode(Decode(s)) == s
  {
    hide Alphabet, IsAlphabet, EncodeGroup, DecodeGroup, IsText;
    GroupAgain(s[0], s[1], s[2], s[3]);
    var g := DecodeGroup(s[0], s[1], s[2], s[3]);
    assert Decode(s) == g[..3] == g;
    assert Encode(g) == EncodeGroup(g[0], g[1], g[2]) + Encode([]) by { assert g[3..] == []; }
  }

  lemma LastOfTwo(s: seq<byte>)
    requires IsText(s) && |s| == 4 && Padding(s) == 1 && s[3] == PADDING
    requires IsAlphabet(s[0]) && IsAlphabet(s[1]) && IsAlphabet(s[2])
    ensures Encode(Decode(s)) == s <==> Value(s[2]) & 0x03 == 0
  {
    hide Alphabet, IsAlphabet, EncodeGroup, DecodeGroup, IsText;
    TwoByteText(s[0], s[1], s[2]);
    var g := DecodeGroup(s[0], s[1], s[2], PADDING);
    assert Decode(s) == g[..2];
    assert Encode(g[..2]) == EncodeGroup(g[0], g[1], 0)[..3] + [PADDING];
  }

  lemma LastOfOne(s: seq<byte>)
    requires IsText(s) && |s| == 4 && Padding(s) == 2 && s[2] == PADDING && s[3] == PADDING
    requires IsAlphabet(s[0]) && IsAlphabet(s[1])
    ensures Encode(Decode(s)) == s <==> Value(s[1]) & 0x0F == 0
  {
    hide Alphabet, IsAlphabet, EncodeGroup, DecodeGroup, IsText;
    OneByteText(s[0], s[1]);
    var g := DecodeGroup(s[0], s[1], PADDING, PADDING);
    assert Decode(s) == g[..1];
    assert Encode(g[..1]) == EncodeGroup(g[0], 0, 0)[..2] + [PADDING, PADDING];
  }

  lemma TwoByteText(c0: byte, c1: byte, c2: byte)
    requires IsAlphabet(c0) && IsAlphabet(c1) && IsAlphabet(c2)
    ensures var g := DecodeGroup(c0, c1, c2, PADDING);
      EncodeGroup(g[0], g[1], 0)[..3] == [c0, c1, Alphabet(Value(c2) & 0x3C)] &&
      (Alphabet(Value(c2) & 0x3C) == c2 <==> Value(c2) & 0x03 == 0)
  {
    assert c2 != PADDING;
    hide Alphabet, IsAlphabet, Group, GroupOfValues, Sextet0, Sextet1, Sextet2, Sextet3, Byte0, Byte1, Byte2;
    TwoByteValues(Value(c0), Value(c1), Value(c2));
    ClearBits(Value(c2));
    AlphabetInjective(Value(c2), Value(c2) & 0x3C);
  }

  lemma OneByteText(c0: byte, c1: byte)
    requires IsAlphabet(c0) && IsAlphabet(c1)
    ensures var g := DecodeGroup(c0, c1, PADDING, PADDING);
      EncodeGroup(g[0], 0, 0)[..2] == [c0, Alphabet(Value(c1) & 0x30)] &&
      (Alphabet(Value(c1) & 0x30) == c1 <==> Value(c1) & 0x0F == 0)
  {
    hide Alphabet, IsAlphabet, Group, GroupOfValues, Sextet0, Sextet1, Sextet2, Sextet3, Byte0, Byte1, Byte2;
    OneByteValues(Value(c0), Value(c1));
    ClearBits(Value(c1));
    AlphabetInjective(Value(c1), Value(c1) & 0x30);
  }

  // ---- the tables ------------------------------------------------------------------------------

  /** encode_table_0 is indexed by a whole byte and drops its low bits, encode_table_1 its high bits. */
  function EncodeTable0(t: byte): byte { Alphabet(t >> 2) }

  function EncodeTable1(t: byte): byte { Alphabet(t & 0x3F) }

  lemma TablesEncode(t1: byte, t2: byte, t3: byte)
    ensures EncodeGroup(t1, t2, t3) == [EncodeTable0(t1), EncodeTable1(((t1 & 0x03) << 4) | ((t2 >> 4) & 0x0F)),
                                        EncodeTable1(((t2 & 0x0F) << 2) | ((t3 >> 6) & 0x03)), EncodeTable1(t3)]
  {
    hide Alphabet;
  }

  const BAD_CHAR: bv32 := 0x01FF_FFFF

  /** The four decoding tables, for a little-endian word: a character's bits at their place in the
      three low bytes, or the bad word, whose bit 24 no good word has. */
  function DecodeTable0(c: byte): bv32 { if IsAlphabet(c) then Word0(Value(c)) else BAD_CHAR }
  function DecodeTable1(c: byte): bv32 { if IsAlphabet(c) then Word1(Value(c)) else BAD_CHAR }
  function DecodeTable2(c: byte): bv32 { if IsAlphabet(c) then Word2(Value(c)) else BAD_CHAR }
  function DecodeTable3(c: byte): bv32 { if IsAlphabet(c) then Word3(Value(c)) else BAD_CHAR }

  function Word0(v: byte): bv32 { v as bv32 << 2 }
  function Word1(v: byte): bv32 { (v as bv32 >> 4) | ((v as bv32 & 0x0F) << 12) }
  function Word2(v: byte): bv32 { ((v as bv32 >> 2) << 8) | ((v as bv32 & 0x03) << 22) }
  function Word3(v: byte): bv32 { v as bv32 << 16 }

  /** The bytes of a word in memory order. */
  function WordByte0(w: bv32): byte { (w & 0xFF) as byte }
  function WordByte1(w: bv32): byte { ((w >> 8) & 0xFF) as byte }
  function WordByte2(w: bv32): byte { ((w >> 16) & 0xFF) as byte }

  function Or(a: bv32, b: bv32, c: bv32, d: bv32): bv32 { a | b | c | d }

  /** The words of four characters hold their bytes at the indices 0, 1, 2. */
  lemma WordsAreBits(v0: byte, v1: byte, v2: byte, v3: byte)
    requires v0 < 64 && v1 < 64 && v2 < 64 && v3 < 64
    ensures var w := Or(Word0(v0), Word1(v1), Word2(v2), Word3(v3));
      var q := GroupOfValues(v0, v1, v2, v3);
      w < BAD_CHAR && WordByte0(w) == Byte0(q) && WordByte1(w) == Byte1(q) && WordByte2(w) == Byte2(q)
  {
  }

  /** One bad word makes the OR bad. */
  lemma BadWordStays(a: bv32, b: bv32, c: bv32, d: bv32)
    requires a == BAD_CHAR || b == BAD_CHAR || c == BAD_CHAR || d == BAD_CHAR
    ensures Or(a, b, c, d) >= BAD_CHAR
  {
  }

  /** The OR of the words is bad exactly when a character is, else it holds the decoded bytes. */
  lemma WordsDecode(c0: byte, c1: byte, c2: byte, c3: byte)
    ensures var w := Or(DecodeTable0(c0), DecodeTable1(c1), DecodeTable2(c2), DecodeTable3(c3));
      if IsAlphabet(c0) && IsAlphabet(c1) && IsAlphabet(c2) && IsAlphabet(c3)
      then w < BAD_CHAR && [WordByte0(w), WordByte1(w), WordByte2(w)] == DecodeGroup(c0, c1, c2, c3)
      else w >= BAD_CHAR
  {
    assert !IsAlphabet(PADDING);
    hide IsAlphabet, Alphabet, Value, GroupOfValues, Byte0, Byte1, Byte2;
    hide WordByte0, WordByte1, WordByte2, Or, Word0, Word1, Word2, Word3;
    if IsAlphabet(c0) && IsAlphabet(c1) && IsAlphabet(c2) && IsAlphabet(c3) {
      WordsAreBits(Value(c0), Value(c1), Value(c2), Value(c3));
    } else {
      BadWordStays(DecodeTable0(c0), DecodeTable1(c1), DecodeTable2(c2), DecodeTable3(c3));
    }
  }

  lemma ThreeWordsDecode(c0: byte, c1: byte, c2: byte)
    ensures var w := Or(DecodeTable0(c0), DecodeTable1(c1), DecodeTable2(c2), 0);
      if IsAlphabet(c0) && IsAlphabet(c1) && IsAlphabet(c2)
      then w < BAD_CHAR && [WordByte0(w), WordByte1(w)] == DecodeGroup(c0, c1, c2, PADDING)[..2]
      else w >= BAD_CHAR
  {
    assert !IsAlphabet(PADDING) && Word3(0) == 0;
    hide IsAlphabet, Alphabet, Value, GroupOfValues, Byte0, Byte1, Byte2;
    hide WordByte0, WordByte1, WordByte2, Or, Word0, Word1, Word2, Word3;
    if IsAlphabet(c0) && IsAlphabet(c1) && IsAlphabet(c2) {
      WordsAreBits(Value(c0), Value(c1), Value(c2), 0);
    } else {
      BadWordStays(DecodeTable0(c0), DecodeTable1(c1), DecodeTable2(c2), 0);
    }
  }

  lemma TwoWordsDecode(c0: byte, c1: byte)
    ensures var w := Or(DecodeTable0(c0), DecodeTable1(c1), 0, 0);
      if IsAlphabet(c0) && IsAlphabet(c1)
      then w < BAD_CHAR && [WordByte0(w)] == DecodeGroup(c0, c1, PADDING, PADDING)[..1]
      else w >= BAD_CHAR
  {
    assert Word2(0) == 0 && Word3(0) == 0;
    hide IsAlphabet, Alphabet, Value, GroupOfValues, Byte0, Byte1, Byte2;
    hide WordByte0, WordByte1, WordByte2, Or, Word0, Word1, Word2, Word3;
    if IsAlphabet(c0) && IsAlphabet(c1) {
      WordsAreBits(Value(c0), Value(c1), 0, 0);
    } else {
      BadWordStays(DecodeTable0(c0), DecodeTable1(c1), 0, 0);
    }
  }

  // ---- the loops -------------------------------------------------------------------------------

  lemma EncodeNext(done: seq<byte>, text: seq<byte>, bytes: nat)
    requires bytes + 3 <= |text|
    ensures done + Encode(text[bytes..])
         == done + EncodeGroup(text[bytes], text[bytes + 1], text[bytes + 2]) + Encode(text[bytes + 3..])
  {
    assert text[bytes..][3..] == text[bytes + 3..];
  }

  predicate AllPadding(s: seq<byte>) {
    forall k :: 0 <= k < |s| ==> s[k] == PADDING
  }

  method EncodeInto(text: seq<byte>) returns (result: seq<byte>)
    ensures result == Encode(text)
  {
    hide EncodeGroup, EncodeTable0, EncodeTable1, Encode;
    var encodedSize := (|text| / 3 + if |text| % 3 > 0 then 1 else 0) * 4;
    var encoded := new byte[encodedSize](_ => PADDING);
    var bytes, current := 0, 0;
    var i := |text| / 3;
    while i > 0
      invariant bytes + 3 * i + |text| % 3 == |text| && i >= 0
      invariant current + 4 * i + (if |text| % 3 > 0 then 4 else 0) == encodedSize
      invariant AllPadding(encoded[current..])
      invariant Encode(text) == encoded[..current] + Encode(text[bytes..])
    {
      var t1, t2, t3 := text[bytes], text[bytes + 1], text[bytes + 2];
      EncodeNext(encoded[..current], text, bytes);
      ghost var padding := encoded[current..];
      WriteGroup(encoded, current, t1, t2, t3);
      assert encoded[current + 4..] == padding[4..] && AllPadding(padding[4..]);
      bytes, current, i := bytes + 3, current + 4, i - 1;
    }
    EncodeRest(encoded, current, text[bytes..]);
    return encoded[..];
  }

  method WriteGroup(encoded: array<byte>, current: nat, t1: byte, t2: byte, t3: byte)
    requires current + 4 <= encoded.Length
    modifies encoded
    ensures encoded[..current + 4] == old(encoded[..current]) + EncodeGroup(t1, t2, t3)
    ensures encoded[current + 4..] == old(encoded[current + 4..])
  {
    hide EncodeGroup, EncodeTable0, EncodeTable1;
    TablesEncode(t1, t2, t3);
    encoded[current] := EncodeTable0(t1);
    encoded[current + 1] := EncodeTable1(((t1 & 0x03) << 4) | ((t2 >> 4) & 0x0F));
    encoded[current + 2] := EncodeTable1(((t2 & 0x0F) << 2) | ((t3 >> 6) & 0x03));
    encoded[current + 3] := EncodeTable1(t3);
  }

  lemma EncodeNothing()
    ensures Encode([]) == []
  {
  }

  lemma TablesEncodeRest(t1: byte, t2: byte)
    ensures Encode([t1]) == [EncodeTable0(t1), EncodeTable1((t1 & 0x03) << 4), PADDING, PADDING]
    ensures Encode([t1, t2])
         == [EncodeTable0(t1), EncodeTable1(((t1 & 0x03) << 4) | ((t2 >> 4) & 0x0F)),
             EncodeTable1((t2 & 0x0F) << 2), PADDING]
  {
    hide EncodeGroup, EncodeTable0, EncodeTable1;
    assert ((t1 & 0x03) << 4) | ((0 as byte >> 4) & 0x0F) == (t1 & 0x03) << 4;
    assert ((t2 & 0x0F) << 2) | ((0 as byte >> 6) & 0x03) == (t2 & 0x0F) << 2;
    TablesEncode(t1, 0, 0);
    TablesEncode(t1, t2, 0);
  }

  /** The switch after the loop: the padding is there already. */
  method EncodeRest(encoded: array<byte>, current: nat, rest: seq<byte>)
    requires |rest| < 3 && encoded.Length == current + (if |rest| > 0 then 4 else 0)
    requires AllPadding(encoded[current..])
    modifies encoded
    ensures encoded[..] == old(encoded[..current]) + Encode(rest)
  {
    hide Encode, EncodeGroup, EncodeTable0, EncodeTable1;
    if |rest| == 1 {
      var t1 := rest[0];
      TablesEncodeRest(t1, 0);
      assert rest == [t1];
      encoded[current] := EncodeTable0(t1);
      encoded[current + 1] := EncodeTable1((t1 & 0x03) << 4);
      assert encoded[current..] == Encode(rest);
    } else if |rest| == 2 {
      var t1, t2 := rest[0], rest[1];
      TablesEncodeRest(t1, t2);
      assert rest == [t1, t2];
      encoded[current] := EncodeTable0(t1);
      encoded[current + 1] := EncodeTable1(((t1 & 0x03) << 4) | ((t2 >> 4) & 0x0F));
      encoded[current + 2] := EncodeTable1((t2 & 0x0F) << 2);
      assert encoded[current..] == Encode(rest);
    } else {
      EncodeNothing();
    }
  }

  // ---- decoding by the tables ------------------------------------------------------------------

  function IsMark(c: byte): nat { if c == PADDING then 1 else 0 }

  /** Padding characters among the last four. */
  function Marks(s: seq<byte>): nat
    requires |s| >= 4
  {
    IsMark(s[|s| - 1]) + IsMark(s[|s| - 2]) + IsMark(s[|s| - 3]) + IsMark(s[|s| - 4])
  }

  /** What a text decodes to, or which of the three errors it is. */
  function Decoding(s: seq<byte>): Result<seq<byte>, Error> {
    if |s| % 4 != 0 then Err(SizeNotDivisible)
    else if |s| > 0 && Marks(s) > 2 then Err(TooMuchPadding)
    else if !IsText(s) then Err(InvalidCharacter)
    else Ok(Decode(s))
  }

  /** Exactly the texts of whole groups over the alphabet, with = only as a suffix of at most two,
      are decoded. */
  lemma DecodedTexts(s: seq<byte>)
    ensures Decoding(s).Ok? <==>
            |s| % 4 == 0 && exists n :: 0 <= n <= 2 && IsPaddedText(s, n)
  {
    assert !IsAlphabet(PADDING);
    if Decoding(s).Ok? {
      assert IsPaddedText(s, Padding(s));
    }
    if n :| |s| % 4 == 0 && 0 <= n <= 2 && IsPaddedText(s, n) {
      if |s| > 0 {
        assert forall k :: 0 <= k < |s| - n ==> s[k] != PADDING;
        assert Padding(s) == n;
      }
    }
  }

  /** All characters but the last n are in the alphabet, and those are padding. */
  predicate IsPaddedText(s: seq<byte>, n: nat) {
    && n <= |s|
    && (forall k :: 0 <= k < |s| - n ==> IsAlphabet(s[k]))
    && (forall k :: |s| - n <= k < |s| ==> s[k] == PADDING)
  }

  /** A group before the last, or a last group without padding. */
  lemma DecodeNext(s: seq<byte>, groups: nat)
    requires |s| == 4 * groups >= 4 && (|s| == 4 ==> Marks(s) == 0)
    ensures var good := IsAlphabet(s[0]) && IsAlphabet(s[1]) && IsAlphabet(s[2]) && IsAlphabet(s[3]);
      if good then
        IsText(s) == IsText(s[4..]) &&
        (IsText(s) ==> Decode(s) == DecodeGroup(s[0], s[1], s[2], s[3]) + Decode(s[4..]))
      else !IsText(s)
  {
    assert !IsAlphabet(PADDING);
    hide IsAlphabet, DecodeGroup;
    if IsAlphabet(s[0]) && IsAlphabet(s[1]) && IsAlphabet(s[2]) && IsAlphabet(s[3]) {
      assert s == s[..4] + s[4..];
      if IsText(s[4..]) {
        TextFromTail(s[..4], s[4..]);
      }
      if IsText(s) {
        if |s| > 4 { TextTail(s); }
      }
    }
  }

  lemma MarksOfTail(s: seq<byte>)
    ensures |s| >= 8 ==> Marks(s[4..]) == Marks(s)
  {
  }

  /** A last group with padding. */
  lemma DecodeLast(s: seq<byte>)
    requires |s| == 4
    ensures Marks(s) == 1 ==>
              if IsAlphabet(s[0]) && IsAlphabet(s[1]) && IsAlphabet(s[2])
              then IsText(s) && Decode(s) == DecodeGroup(s[0], s[1], s[2], PADDING)[..2] else !IsText(s)
    ensures Marks(s) == 2 ==>
              if IsAlphabet(s[0]) && IsAlphabet(s[1])
              then IsText(s) && Decode(s) == DecodeGroup(s[0], s[1], PADDING, PADDING)[..1] else !IsText(s)
  {
    assert !IsAlphabet(PADDING);
    hide IsAlphabet, DecodeGroup;
  }

  method DecodeInto(text: seq<byte>) returns (result: Result<seq<byte>, Error>)
    ensures result == Decoding(text)
  {
    hide IsText, Decode, Marks, DecodeGroup, Or, DecodeTable0, DecodeTable1, DecodeTable2, DecodeTable3;
    hide WordByte0, WordByte1, WordByte2;
    if text == [] {
      NothingToDecode();
      return Ok([]);
    }
    if |text| % 4 != 0 {
      return Err(SizeNotDivisible);
    }
    var numPadding := Marks(text);
    if numPadding > 2 {
      return Err(TooMuchPadding);
    }
    var decodedSize := |text| * 3 / 4 - numPadding;
    var decoded := new byte[decodedSize](_ => 46);
    var i := |text| / 4 - if numPadding != 0 then 1 else 0;
    ThreeQuarters(|text|);
    var bytes, current, thrown := DecodeGroups(text, decoded, i, numPadding);
    if thrown.Some? {
      return Err(thrown.value);
    }
    result := DecodeRest(decoded, current, text[bytes..], numPadding);
  }

  lemma ThreeQuarters(n: nat)
    requires n % 4 == 0
    ensures n == 4 * (n / 4) && n * 3 / 4 == 3 * (n / 4)
  {
  }

  /** The loop over the groups before the padded one. */
  method DecodeGroups(text: seq<byte>, decoded: array<byte>, groups: nat, numPadding: nat)
      returns (bytes: nat, current: nat, thrown: Option<Error>)
    requires |text| >= 4 && Marks(text) == numPadding <= 2 && |text| == 4 * (groups + if numPadding != 0 then 1 else 0)
    requires 3 * groups <= decoded.Length
    modifies decoded
    ensures thrown.Some? ==> thrown.value == InvalidCharacter && !IsText(text)
    ensures thrown.None? ==> bytes == 4 * groups <= |text| && current == 3 * groups
    ensures thrown.None? && bytes < |text| ==> Marks(text[bytes..]) == numPadding
    ensures thrown.None? ==> IsText(text) == IsText(text[bytes..])
    ensures thrown.None? && IsText(text) ==> Decode(text) == decoded[..current] + Decode(text[bytes..])
  {
    hide IsText, Decode, Marks, DecodeGroup, Or, DecodeTable0, DecodeTable1, DecodeTable2, DecodeTable3;
    hide WordByte0, WordByte1, WordByte2;
    ghost var last := if numPadding != 0 then 1 else 0;
    bytes, current, thrown := 0, 0, None;
    var i := groups;
    while i > 0
      invariant 0 <= i <= groups && bytes == 4 * (groups - i) && current == 3 * (groups - i)
      invariant bytes < |text| ==> Marks(text[bytes..]) == numPadding
      invariant IsText(text) == IsText(text[bytes..])
      invariant IsText(text) ==> Decode(text) == decoded[..current] + Decode(text[bytes..])
    {
      ghost var rest := text[bytes..];
      DecodeNext(rest, i + last);
      MarksOfTail(rest);
      var t1, t2, t3, t4 := text[bytes], text[bytes + 1], text[bytes + 2], text[bytes + 3];
      WordsDecode(t1, t2, t3, t4);
      var temp := Or(DecodeTable0(t1), DecodeTable1(t2), DecodeTable2(t3), DecodeTable3(t4));
      if temp >= BAD_CHAR {
        return bytes, current, Some(InvalidCharacter);
      }
      WriteWord(decoded, current, temp);
      assert rest[4..] == text[bytes + 4..];
      bytes, current, i := bytes + 4, current + 3, i - 1;
    }
  }

  method WriteWord(decoded: array<byte>, current: nat, temp: bv32)
    requires current + 3 <= decoded.Length
    modifies decoded
    ensures decoded[..current + 3] == old(decoded[..current]) + [WordByte0(temp), WordByte1(temp), WordByte2(temp)]
  {
    hide WordByte0, WordByte1, WordByte2;
    decoded[current] := WordByte0(temp);
    decoded[current + 1] := WordByte1(temp);
    decoded[current + 2] := WordByte2(temp);
  }

  /** The switch after the loop. */
  method DecodeRest(decoded: array<byte>, current: nat, rest: seq<byte>, numPadding: nat)
      returns (result: Result<seq<byte>, Error>)
    requires numPadding <= 2 && |rest| == (if numPadding != 0 then 4 else 0)
    requires numPadding != 0 ==> Marks(rest) == numPadding
    requires decoded.Length == current + (if numPadding != 0 then 3 - numPadding else 0)
    modifies decoded
    ensures result == if IsText(rest) then Ok(old(decoded[..current]) + Decode(rest)) else Err(InvalidCharacter)
  {
    hide IsText, Marks, DecodeGroup;
    if numPadding == 0 {
      assert rest == [];
      NothingToDecode();
    } else if numPadding == 1 {
      var t1, t2, t3 := rest[0], rest[1], rest[2];
      DecodeLast(rest);
      ThreeWordsDecode(t1, t2, t3);
      var temp := Or(DecodeTable0(t1), DecodeTable1(t2), DecodeTable2(t3), 0);
      if temp >= BAD_CHAR {
        return Err(InvalidCharacter);
      }
      decoded[current] := WordByte0(temp);
      decoded[current + 1] := WordByte1(temp);
      assert decoded[current..] == Decode(rest);
    } else {
      var t1, t2 := rest[0], rest[1];
      DecodeLast(rest);
      TwoWordsDecode(t1, t2);
      var temp := Or(DecodeTable0(t1), DecodeTable1(t2), 0, 0);
      if temp >= BAD_CHAR {
        return Err(InvalidCharacter);
      }
      decoded[current] := WordByte0(temp);
      assert decoded[current..] == Decode(rest);
    }
    assert decoded[..] == decoded[..current] + decoded[current..];
    return Ok(decoded[..]);
  }

  lemma NothingToDecode()
    ensures IsText([]) && Decode([]) == []
  {
  }

  /** encode_into, then decode_into. */
  method ThereAndBack(data: seq<byte>) returns (result: Result<seq<byte>, Error>)
    ensures result == Ok(data)
  {
    var text := EncodeInto(data);
    result := DecodeInto(text);
    DecodeEncode(data);
    DecodedTexts(text);
  }
}
