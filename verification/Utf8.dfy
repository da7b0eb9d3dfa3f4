/** UTF-8 by RFC 3629, section 4, on strings whose characters stand for bytes. */
module Utf8 {
  import opened Wrappers

  predicate IsTail(c: char) {
    0x80 <= c as int <= 0xBF
  }

  /** UTF8-2, UTF8-3 and UTF8-4 by their first two bytes: how many bytes, 0 when they begin no character. */
  function Length(first: char, second: char): nat {
    var a, b := first as int, second as int;
    if 0xC2 <= a <= 0xDF && IsTail(second) then 2
    else if a == 0xE0 && 0xA0 <= b <= 0xBF then 3
    else if a == 0xED && 0x80 <= b <= 0x9F then 3
    else if (0xE1 <= a <= 0xEC || 0xEE <= a <= 0xEF) && IsTail(second) then 3
    else if a == 0xF0 && 0x90 <= b <= 0xBF then 4
    else if a == 0xF4 && 0x80 <= b <= 0x8F then 4
    else if 0xF1 <= a <= 0xF3 && IsTail(second) then 4
    else 0
  }

  /** Bytes of the character s begins with, 0 if it begins with none. */
  function HeadLength(s: string): nat {
    if s == "" then 0
    else if s[0] as int < 0x80 then 1
    else if |s| < 2 then 0
    else
      var n := Length(s[0], s[1]);
      if n == 0 || |s| < n || (n > 2 && !IsTail(s[2])) || (n > 3 && !IsTail(s[3])) then 0 else n
  }

  predicate IsWellFormed(s: string)
    decreases |s|
  {
    s == "" || (HeadLength(s) > 0 && HeadLength(s) <= |s| && IsWellFormed(s[HeadLength(s)..]))
  }

  /** The encoding of a code point, by the table of section 3. */
  function Encode(n: nat): string {
    if n < 0x80 then [Byte(n)]
    else if n < 0x800 then [Byte(0xC0 + n / 64), Byte(0x80 + n % 64)]
    else if n < 0x10000 then [Byte(0xE0 + n / 4096), Byte(0x80 + n / 64 % 64), Byte(0x80 + n % 64)]
    else [Byte(0xF0 + n / 262144), Byte(0x80 + n / 4096 % 64), Byte(0x80 + n / 64 % 64), Byte(0x80 + n % 64)]
  }

  predicate IsSurrogate(n: nat) {
    0xD800 <= n <= 0xDFFF
  }

  predicate IsScalar(n: nat) {
    n < 0x110000 && !IsSurrogate(n)
  }

  lemma EncodeIsWellFormed(n: nat, rest: string)
    requires IsScalar(n) && IsWellFormed(rest)
    ensures IsWellFormed(Encode(n) + rest)
  {
    var s := Encode(n) + rest;
    EncodedHead(n, rest);
    hide Encode, HeadLength;
    assert s[|Encode(n)|..] == rest;
  }

  lemma EncodedHead(n: nat, rest: string)
    requires IsScalar(n)
    ensures 0 < HeadLength(Encode(n) + rest) == |Encode(n)|
  {
    hide Encode, HeadLength, Length;
    EncodedIsHead(n);
    HeadStays(Encode(n), rest);
  }

  lemma HeadStays(s: string, rest: string)
    requires HeadLength(s) == |s| > 0
    ensures HeadLength(s + rest) == |s|
  {
    hide Length;
  }

  lemma EncodedIsHead(n: nat)
    requires IsScalar(n)
    ensures HeadLength(Encode(n)) == |Encode(n)| > 0
  {
    if 0x10000 <= n {
      FourBytes(n);
      hide Encode, Length;
    } else if 0x800 <= n {
      ThreeBytes(n);
      hide Encode, Length;
    }
  }

  lemma TailByte(m: nat)
    ensures IsTail(Byte(0x80 + m % 64))
  {
  }

  /** The bits of a code point in groups of six. */
  lemma SixBits(n: nat) returns (a: nat, b: nat, c: nat)
    ensures (a, b, c) == (n / 4096, n / 64 % 64, n % 64)
    ensures b < 64 && c < 64 && n == 4096 * a + 64 * b + c
  {
    a, b, c := n / 4096, n / 64 % 64, n % 64;
    assert n == 64 * (n / 64) + c && n / 64 == 64 * a + b;
  }

  lemma ThreeBytes(n: nat)
    requires 0x800 <= n < 0x10000 && IsScalar(n)
    ensures |Encode(n)| == 3 && Length(Encode(n)[0], Encode(n)[1]) == 3 && Encode(n)[0] as int >= 0x80
    ensures IsTail(Encode(n)[2])
  {
    TailByte(n);
    var a, b, c := SixBits(n);
    assert Encode(n)[0] == Byte(0xE0 + a) && Encode(n)[1] == Byte(0x80 + b);
    hide Encode;
  }

  lemma FourBytes(n: nat)
    requires 0x10000 <= n < 0x110000
    ensures |Encode(n)| == 4 && Length(Encode(n)[0], Encode(n)[1]) == 4 && Encode(n)[0] as int >= 0x80
    ensures IsTail(Encode(n)[2]) && IsTail(Encode(n)[3])
  {
    TailByte(n);
    TailByte(n / 64);
    var a, b := TwelveBits(n);
    assert Encode(n)[0] == Byte(0xF0 + a) && Encode(n)[1] == Byte(0x80 + b);
    hide Encode;
  }

  lemma TwelveBits(n: nat) returns (a: nat, b: nat)
    requires 0x10000 <= n < 0x110000
    ensures a == n / 262144 && b == n / 4096 % 64 && 16 <= 64 * a + b < 272
  {
    a, b := n / 4096 / 64, n / 4096 % 64;
  }

  // ---- well-formed is encoded ------------------------------------------------------------------

  /** Code points one after the other. */
  function EncodeAll(ns: seq<nat>): string {
    if ns == [] then "" else Encode(ns[0]) + EncodeAll(ns[1..])
  }

  lemma {:induction false} EncodedIsWellFormed(ns: seq<nat>)
    requires forall k :: 0 <= k < |ns| ==> IsScalar(ns[k])
    ensures IsWellFormed(EncodeAll(ns))
  {
    hide IsWellFormed, Encode;
    if ns == [] {
      NothingIsWellFormed();
    } else {
      EncodedIsWellFormed(ns[1..]);
      EncodeIsWellFormed(ns[0], EncodeAll(ns[1..]));
    }
  }

  lemma NothingIsWellFormed()
    ensures IsWellFormed("")
  {
  }

  function Tail(c: char): int { c as int - 0x80 }

  /** The code point that a character spells. */
  function CodePoint(s: string): int {
    var n := HeadLength(s);
    if n == 1 then s[0] as int
    else if n == 2 && |s| >= 2 then 64 * (s[0] as int - 0xC0) + Tail(s[1])
    else if n == 3 && |s| >= 3 then 4096 * (s[0] as int - 0xE0) + 64 * Tail(s[1]) + Tail(s[2])
    else if n == 4 && |s| >= 4 then
      262144 * (s[0] as int - 0xF0) + 4096 * Tail(s[1]) + 64 * Tail(s[2]) + Tail(s[3])
    else 0
  }

  lemma HeadIsEncoded(s: string)
    requires HeadLength(s) > 0
    ensures var n := CodePoint(s);
      n >= 0 && IsScalar(n) && HeadLength(s) <= |s| && Encode(n) == s[..HeadLength(s)]
  {
    var k := HeadLength(s);
    LengthIs(s);
    if k == 2 {
      TwoSpelled(s);
    } else if k == 3 {
      ThreeSpelled(s);
    } else if k == 4 {
      FourSpelled(s);
    }
    hide Length;
  }

  lemma LengthIs(s: string)
    ensures HeadLength(s) <= 4 && HeadLength(s) <= |s| && (HeadLength(s) > 1 ==> HeadLength(s) == Length(s[0], s[1]))
  {
  }

  lemma ByteBack(c: char)
    requires c as int < 256
    ensures Byte(c as int) == c
  {
  }

  lemma TwoSpelled(s: string)
    requires HeadLength(s) == 2
    ensures var n := CodePoint(s); 0x80 <= n < 0x800 && Encode(n) == s[..2]
  {
    Digits64(s[0] as int - 0xC0, Tail(s[1]));
    ByteBack(s[0]);
    ByteBack(s[1]);
  }

  lemma ThreeSpelled(s: string)
    requires HeadLength(s) == 3
    ensures var n := CodePoint(s); 0x800 <= n < 0x10000 && IsScalar(n) && Encode(n) == s[..3]
  {
    var a, b, c := s[0] as int - 0xE0, Tail(s[1]), Tail(s[2]);
    LengthBounds(s);
    Digits64(64 * a + b, c);
    Digits64(a, b);
    ByteBack(s[0]);
    ByteBack(s[1]);
    ByteBack(s[2]);
    hide HeadLength, Length, Byte;
    assert CodePoint(s) == 64 * (64 * a + b) + c;
    Quotients(64 * (64 * a + b) + c);
  }

  lemma FourSpelled(s: string)
    requires HeadLength(s) == 4
    ensures var n := CodePoint(s); 0x10000 <= n < 0x110000 && Encode(n) == s[..4]
  {
    var a, b, c, d := s[0] as int - 0xF0, Tail(s[1]), Tail(s[2]), Tail(s[3]);
    LengthBounds(s);
    Digits64(64 * (64 * a + b) + c, d);
    Digits64(64 * a + b, c);
    Digits64(a, b);
    ByteBack(s[0]);
    ByteBack(s[1]);
    ByteBack(s[2]);
    ByteBack(s[3]);
    hide HeadLength, Length, Byte;
    assert CodePoint(s) == 64 * (64 * (64 * a + b) + c) + d;
    Quotients(64 * (64 * (64 * a + b) + c) + d);
  }

  lemma Quotients(n: nat)
    ensures n / 4096 == n / 64 / 64 && n / 262144 == n / 64 / 64 / 64
  {
  }

  /** The first two bytes bound the code point. */
  lemma LengthBounds(s: string)
    requires HeadLength(s) >= 3
    ensures |s| >= HeadLength(s) && 0 <= Tail(s[1]) < 64 && 0 <= Tail(s[2]) < 64
    ensures HeadLength(s) == 3 ==>
      var m := 64 * (s[0] as int - 0xE0) + Tail(s[1]); 32 <= m < 1024 && !(864 <= m < 896) && s[0] as int >= 0xE0
    ensures HeadLength(s) == 4 ==>
      var m := 64 * (s[0] as int - 0xF0) + Tail(s[1]); 16 <= m < 272 && s[0] as int >= 0xF0 && 0 <= Tail(s[3]) < 64
    ensures s[0] as int < 256
  {
  }

  lemma Digits64(a: nat, b: nat)
    requires b < 64
    ensures (64 * a + b) / 64 == a && (64 * a + b) % 64 == b
  {
  }

  /** Well-formed strings are the encodings of code points that are no surrogates, one after the other. */
  lemma {:induction false} WellFormedIsEncoded(s: string) returns (ns: seq<nat>)
    requires IsWellFormed(s)
    ensures s == EncodeAll(ns) && forall k :: 0 <= k < |ns| ==> IsScalar(ns[k])
    decreases |s|
  {
    hide Encode, CodePoint, HeadLength, IsScalar;
    ns := [];
    if s != "" {
      HeadIsEncoded(s);
      var more := WellFormedIsEncoded(s[HeadLength(s)..]);
      ns := [CodePoint(s)] + more;
      assert s == s[..HeadLength(s)] + s[HeadLength(s)..];
    }
  }
}
