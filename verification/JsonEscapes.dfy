/** \u escapes, and the main results about printed values. */
module JsonEscapes {
  import opened Wrappers
  import opened JsonValue
  import opened JsonBuilderModel
  import opened JsonElements
  import opened JsonChunks
  import opened JsonPrinter
  import opened JsonRoundTrip
  import Utf8

  function Power2(k: nat): nat {
    if k == 0 then 1 else 2 * Power2(k - 1)
  }

  /** Or adds when the bits do not meet. */
  lemma {:induction false} OrAdds(q: nat, k: nat, b: nat)
    requires b < Power2(k)
    ensures Or(q * Power2(k), b) == q * Power2(k) + b
    decreases k
  {
    if k > 0 {
      var a := q * Power2(k);
      assert a == 2 * (q * Power2(k - 1));
      OrAdds(q, k - 1, b / 2);
    }
  }

  lemma Powers()
    ensures Power2(2) == 4 && Power2(4) == 16 && Power2(5) == 32 && Power2(6) == 64
  {
    assert Power2(3) == 8;
    assert Power2(4) == 16;
    assert Power2(5) == 32;
  }

  predicate AreHex(u: seq<nat>) {
    |u| == 4 && forall k :: 0 <= k < 4 ==> u[k] < 16
  }

  function CodePoint(u: seq<nat>): nat
    requires |u| == 4
  {
    4096 * u[0] + 256 * u[1] + 16 * u[2] + u[3]
  }

  lemma LastByte(c: nat, d: nat)
    requires c < 16 && d < 16
    ensures Or(Or(128, c * 64 % 256 / 4), d) == 128 + 16 * (c % 4) + d
  {
    Powers();
    hide Or, Power2;
    assert c * 64 % 256 / 4 == 16 * (c % 4);
    OrAdds(2, 6, 16 * (c % 4));
    OrAdds(8 + c % 4, 4, d);
  }

  lemma MiddleByte(b: nat, c: nat)
    requires b < 16 && c < 16
    ensures Or(4 * b, c / 4) == 4 * b + c / 4
    ensures Or(128, 4 * b + c / 4) == 128 + 4 * b + c / 4
    ensures b <= 7 ==> Or(192, 4 * b + c / 4) == 192 + 4 * b + c / 4
  {
    Powers();
    hide Or, Power2;
    OrAdds(b, 2, c / 4);
    OrAdds(2, 6, 4 * b + c / 4);
    if b <= 7 { OrAdds(6, 5, 4 * b + c / 4); }
  }

  lemma FirstByte(a: nat, c: nat)
    requires a < 16 && c < 16
    ensures Or(224, a) == 224 + a && Or(16 * c, a) == 16 * c + a
  {
    Powers();
    hide Or, Power2;
    OrAdds(14, 4, a);
    OrAdds(c, 4, a);
  }

  /** The parts of a code point. */
  lemma CodePointParts(u: seq<nat>)
    requires AreHex(u)
    ensures var n := CodePoint(u);
      && n % 64 == 16 * (u[2] % 4) + u[3] && n / 64 == 64 * u[0] + 4 * u[1] + u[2] / 4
      && n / 64 % 64 == 4 * u[1] + u[2] / 4 && n / 4096 == u[0]
  {
    var n, low, middle := CodePoint(u), 16 * (u[2] % 4) + u[3], 4 * u[1] + u[2] / 4;
    assert n == 64 * (64 * u[0] + middle) + low;
    Divided(64, 64 * u[0] + middle, low);
    Divided(64, u[0], middle);
    Divided(4096, u[0], 64 * middle + low);
  }

  lemma Divided(d: nat, high: nat, low: nat)
    requires low < d && (d == 64 || d == 4096)
    ensures (d * high + low) / d == high && (d * high + low) % d == low
  {
  }

  /** The pushed bytes are the UTF-8 encoding of the code point. */
  lemma EscapeIsUtf8(u: seq<nat>)
    requires AreHex(u)
    ensures EscapeBytes(u) == Utf8.Encode(CodePoint(u))
  {
    hide Or;
    LastByte(u[2], u[3]);
    MiddleByte(u[1], u[2]);
    FirstByte(u[0], u[2]);
    FirstByte(u[3], u[2]);
    CodePointParts(u);
  }

  // ---- texts of escapes ----------------------------------------------------------------------

  predicate IsHexDigit(c: char) {
    IsDigit(c) || 'a' <= c <= 'f' || 'A' <= c <= 'F'
  }

  predicate IsQuad(h: string) {
    |h| == 4 && forall k :: 0 <= k < 4 ==> IsHexDigit(h[k])
  }

  function DigitValue(c: char): nat
    requires IsHexDigit(c)
  {
    if IsDigit(c) then c as int - '0' as int
    else if 'a' <= c <= 'f' then c as int - 'a' as int + 10 else c as int - 'A' as int + 10
  }

  function QuadValues(h: string): seq<nat>
    requires IsQuad(h)
  {
    [DigitValue(h[0]), DigitValue(h[1]), DigitValue(h[2]), DigitValue(h[3])]
  }

  /** The escapes written one after the other, in either letter case. */
  function EscapesText(hs: seq<string>): string {
    if hs == [] then "" else "\\u" + hs[0] + EscapesText(hs[1..])
  }

  function EncodedText(hs: seq<string>): string
    requires forall k :: 0 <= k < |hs| ==> IsQuad(hs[k])
  {
    if hs == [] then "" else Utf8.Encode(CodePoint(QuadValues(hs[0]))) + EncodedText(hs[1..])
  }

  function Pending(buffer: string, u: seq<nat>): Builder {
    Str(Text(true, 0, false, Some(u), buffer), None)
  }

  lemma HexDigitFold(buffer: string, u: seq<nat>, c: char, rest: string)
    requires IsHexDigit(c) && |u| < 4
    ensures Fold(Pending(buffer, u), [c] + rest) == Fold(
      if |u| == 3 then Open(0, buffer + EscapeBytes(u + [DigitValue(c)])) else Pending(buffer, u + [DigitValue(c)]),
      rest)
  {
    hide Fold, EscapeBytes;
    var text := [c] + rest;
    StringAt(Text(true, 0, false, Some(u), buffer), None, text, 0);
    assert text[0..] == text && text[1..] == rest;
  }

  lemma BackslashU(buffer: string, rest: string)
    ensures Fold(Open(0, buffer), "\\u" + rest) == Fold(Pending(buffer, []), rest)
  {
    var text := "\\u" + rest;
    StringAt(Text(true, 0, false, None, buffer), None, text, 0);
    StringAt(Text(true, 0, true, None, buffer), None, text, 1);
    assert text[0..] == text && text[2..] == rest;
  }

  lemma QuadFold(buffer: string, h: string, rest: string)
    requires IsQuad(h)
    ensures Fold(Open(0, buffer), "\\u" + h + rest)
      == Fold(Open(0, buffer + Utf8.Encode(CodePoint(QuadValues(h)))), rest)
  {
    hide Consume, Fold, EscapeBytes;
    var u := QuadValues(h);
    BackslashU(buffer, h + rest);
    assert "\\u" + h + rest == "\\u" + (h + rest);
    assert h + rest == [h[0]] + ([h[1]] + ([h[2]] + ([h[3]] + rest)));
    HexDigitFold(buffer, [], h[0], [h[1]] + ([h[2]] + ([h[3]] + rest)));
    HexDigitFold(buffer, [u[0]], h[1], [h[2]] + ([h[3]] + rest));
    HexDigitFold(buffer, [u[0], u[1]], h[2], [h[3]] + rest);
    HexDigitFold(buffer, [u[0], u[1], u[2]], h[3], rest);
    assert [] + [u[0]] == [u[0]] && [u[0]] + [u[1]] == [u[0], u[1]] && [u[0], u[1]] + [u[2]] == [u[0], u[1], u[2]];
    assert [u[0], u[1], u[2]] + [u[3]] == u;
    EscapeIsUtf8(u);
  }

  lemma {:induction false} EscapesFold(buffer: string, hs: seq<string>, rest: string)
    requires forall k :: 0 <= k < |hs| ==> IsQuad(hs[k])
    ensures Fold(Open(0, buffer), EscapesText(hs) + rest) == Fold(Open(0, buffer + EncodedText(hs)), rest)
    decreases |hs|
  {
    hide Consume, Fold, Utf8.Encode;
    if hs == [] {
      assert EscapesText(hs) + rest == rest && buffer + EncodedText(hs) == buffer;
    } else {
      var head := Utf8.Encode(CodePoint(QuadValues(hs[0])));
      assert EscapesText(hs) + rest == "\\u" + hs[0] + (EscapesText(hs[1..]) + rest);
      assert buffer + EncodedText(hs) == (buffer + head) + EncodedText(hs[1..]);
      QuadFold(buffer, hs[0], EscapesText(hs[1..]) + rest);
      EscapesFold(buffer + head, hs[1..], rest);
    }
  }

  /** A string written in \u escapes, in chunks of any kind, is the UTF-8 of its code points. A surrogate is encoded
      on its own. */
  lemma {:induction false} EscapesAreUtf8(hs: seq<string>, chunks: seq<string>)
    requires forall k :: 0 <= k < |hs| ==> IsQuad(hs[k])
    requires Flatten(chunks) == "\"" + EscapesText(hs) + "\""
    ensures ParseAll(chunks) == Ok(JString(EncodedText(hs)))
  {
    hide Consume, Fold, StringByte, EscapesText, EncodedText;
    var text := Flatten(chunks);
    BlankAt(text, 0);
    StringAt(TEXT, None, text, 0);
    OpeningQuote();
    assert text[0..] == text && text[1..] == EscapesText(hs) + "\"";
    EscapesFold("", hs, "\"");
    StringBody(0, EncodedText(hs), "", "");
    assert Escape("") + "\"" + "" == "\"" && "" + EncodedText(hs) == EncodedText(hs);
    assert EncodedText(hs) + "" == EncodedText(hs);
    FoldKeeps(Blank, text);
    ChunkIndependence(Blank, chunks);
  }

  lemma QuadValuesAreHex(h: string)
    requires IsQuad(h)
    ensures AreHex(QuadValues(h)) && CodePoint(QuadValues(h)) < 0x10000
  {
  }

  /** Without surrogates the result is well-formed UTF-8. */
  lemma {:induction false} EncodedIsWellFormed(hs: seq<string>)
    requires forall k :: 0 <= k < |hs| ==> IsQuad(hs[k]) && !Utf8.IsSurrogate(CodePoint(QuadValues(hs[k])))
    ensures Utf8.IsWellFormed(EncodedText(hs))
    decreases |hs|
  {
    hide Utf8.HeadLength, Utf8.Encode, CodePoint, QuadValues, IsQuad, Utf8.IsSurrogate;
    if hs != [] {
      QuadValuesAreHex(hs[0]);
      EncodedIsWellFormed(hs[1..]);
      assert forall k :: 0 <= k < |hs[1..]| ==> hs[1..][k] == hs[k + 1];
      Utf8.EncodeIsWellFormed(CodePoint(QuadValues(hs[0])), EncodedText(hs[1..]));
    }
  }

  // ---- the main results ----------------------------------------------------------------------

  /** Printing and reading back, for every indentation and every way of cutting the text: the value comes back,
      unless some string in it does not scan, and then it is an error. */
  lemma {:induction false} RoundTrip(v: Json, spaces: nat, first: nat, chunks: seq<string>)
    requires Plain(v) && Flatten(chunks) == Dump(v, spaces, first)
    ensures ParseAll(chunks) == if Scans(v) then Ok(v) else Err(InvalidChar)
  {
    hide Consume, Fold, Dump, Plain, Scans, Scan;
    var text := Dump(v, spaces, first);
    assert text + "" == text;
    if IsScalar(v) {
      ScalarsScan(v);
      ScalarFold(v, spaces, first, "");
      FoldEnd(ScalarBuilder(v), "");
    } else {
      DumpGives(v, spaces, first, "");
    }
    ChunkIndependence(Blank, chunks);
  }

  lemma ScalarsScan(v: Json)
    requires IsScalar(v) && Plain(v)
    ensures Scans(v) && (v.JNumber? ==> INT64_MIN <= v.n <= INT64_MAX)
  {
  }

  // ---- which strings scan --------------------------------------------------------------------

  lemma {:induction false} WellFormedScans(s: string)
    requires Utf8.IsWellFormed(s)
    ensures Scan(0, s) == Some(0)
    decreases |s|
  {
    if s != "" {
      var n := Utf8.HeadLength(s);
      WellFormedScans(s[n..]);
      ScanHead(s);
    }
  }

  lemma HeadIsFramed(s: string)
    requires Utf8.HeadLength(s) > 1
    ensures var n := Utf8.HeadLength(s);
      && n <= |s| && NextWide(0, s[0]) == Some(n - 1) && |EscapeChar(s[0])| == 1
      && forall k :: 1 <= k < n ==> Utf8.IsTail(s[k])
  {
    hide Scan;
    var n := Utf8.HeadLength(s);
    assert n <= 4 && Utf8.IsTail(s[1]);
  }

  /** A well-formed character leaves no byte due. */
  lemma ScanHead(s: string)
    requires Utf8.HeadLength(s) > 0
    ensures Utf8.HeadLength(s) <= |s| && Scan(0, s) == Scan(0, s[Utf8.HeadLength(s)..])
  {
    var n := Utf8.HeadLength(s);
    if n > 1 {
      HeadIsFramed(s);
      ScanTail(n - 1, s[1..]);
      assert s[1..][n - 1..] == s[n..];
    }
  }

  lemma {:induction false} ScanTail(w: nat, s: string)
    requires w <= |s| && forall k :: 0 <= k < w ==> Utf8.IsTail(s[k])
    ensures Scan(w, s) == Scan(0, s[w..])
    decreases w
  {
    if w > 0 {
      assert NextWide(w, s[0]) == Some(w - 1);
      ScanTail(w - 1, s[1..]);
      assert s[1..][w - 1..] == s[w..];
    }
  }

  /** Every string and key is well-formed UTF-8. */
  predicate IsUtf8(v: Json) {
    match v
    case JString(s) => Utf8.IsWellFormed(s)
    case JArray(items) => forall k :: 0 <= k < |items| ==> IsUtf8(items[k])
    case JObject(entries) =>
      forall k :: 0 <= k < |entries| ==> Utf8.IsWellFormed(entries[k].key) && IsUtf8(entries[k].value)
    case _ => true
  }

  lemma {:induction false} Utf8Scans(v: Json)
    requires IsUtf8(v)
    ensures Scans(v)
  {
    match v
    case JString(s) => WellFormedScans(s);
    case JArray(items) =>
      forall k | 0 <= k < |items| ensures Scans(items[k]) { Utf8Scans(items[k]); }
    case JObject(entries) =>
      forall k | 0 <= k < |entries| ensures Scan(0, entries[k].key).Some? && Scans(entries[k].value) {
        WellFormedScans(entries[k].key);
        Utf8Scans(entries[k].value);
      }
    case _ =>
  }

  /** For UTF-8 data printing loses nothing. */
  lemma RoundTripUtf8(v: Json, spaces: nat, first: nat, chunks: seq<string>)
    requires Plain(v) && IsUtf8(v) && Flatten(chunks) == Dump(v, spaces, first)
    ensures ParseAll(chunks) == Ok(v)
  {
    Utf8Scans(v);
    RoundTrip(v, spaces, first, chunks);
  }

  /** The count is that of the leading one bits; a byte with none, or with one, counts as one. */
  lemma CountIsOfLeadingOnes(c: char, k: nat)
    requires 2 <= k <= 7 && c as int < 256
    ensures CountOfOctet(c) == k <==> 256 - Power2(8 - k) <= c as int < 256 - Power2(7 - k)
    ensures CountOfOctet(c) == 8 <==> c as int == 255
    ensures CountOfOctet(c) == 1 <==> c as int < 192
  {
    Powers();
    assert Power2(0) == 1 && Power2(1) == 2 && Power2(3) == 8;
  }

  /** The counter of _valid_utf_string over a string as it is. */
  function Counted(w: nat, s: string): Option<nat>
    decreases |s|
  {
    if s == "" then Some(w)
    else match NextWide(w, s[0])
         case None => None
         case Some(l) => Counted(l, s[1..])
  }

  predicate NothingToEscape(t: string) {
    forall k :: 0 <= k < |t| ==> |EscapeChar(t[k])| != 2
  }

  lemma {:induction false} CountedConcat(w: nat, s: string, t: string)
    ensures Counted(w, s + t) == match Counted(w, s) case None => None case Some(l) => Counted(l, t)
    decreases |s|
  {
    if s == "" {
      assert s + t == t;
    } else {
      assert (s + t)[1..] == s[1..] + t;
      if NextWide(w, s[0]).Some? { CountedConcat(NextWide(w, s[0]).value, s[1..], t); }
    }
  }

  lemma {:induction false} ScanConcat(w: nat, s: string, t: string)
    ensures Scan(w, s + t) == match Scan(w, s) case None => None case Some(l) => Scan(l, t)
    decreases |s|
  {
    hide EscapeChar;
    if s == "" {
      assert s + t == t;
    } else {
      assert (s + t)[1..] == s[1..] + t;
      if |EscapeChar(s[0])| == 2 {
        ScanConcat(Twice(w), s[1..], t);
      } else if NextWide(w, s[0]).Some? {
        ScanConcat(NextWide(w, s[0]).value, s[1..], t);
      }
    }
  }

  lemma {:induction false} SameCount(w: nat, t: string)
    requires NothingToEscape(t)
    ensures Counted(w, t) == Scan(w, t)
    decreases |t|
  {
    hide EscapeChar, NextWide;
    if t != "" && NextWide(w, t[0]).Some? { SameCount(NextWide(w, t[0]).value, t[1..]); }
  }

  /** Continuation bytes only. */
  function Tails(n: nat): (t: string)
    ensures |t| == n && NothingToEscape(t)
  {
    seq(n, _ => '\U{80}')
  }

  lemma {:induction false} TailsCount(w: nat, n: nat)
    ensures Counted(w, Tails(n)) == if n <= w then Some(w - n) else None
    decreases n
  {
    if n > 0 {
      assert Tails(n)[0] == '\U{80}' && Tails(n)[1..] == Tails(n - 1);
      if w > 0 { TailsCount(w - 1, n - 1); }
    }
  }

  /** The check of a string and the reader of its escaped text accept the same, whatever follows that needs no
      escape, exactly when their counters stand alike: an escaped character has made no difference. */
  lemma {:induction false} EscapingKeepsAcceptance(s: string)
    ensures Counted(0, s) == Scan(0, s) <==>
      forall t :: NothingToEscape(t) ==> (Counted(0, s + t).Some? <==> Scan(0, s + t).Some?)
  {
    hide Counted, Scan, NothingToEscape, Tails;
    var a, b := Counted(0, s), Scan(0, s);
    forall t ensures Counted(0, s + t) == match a case None => None case Some(l) => Counted(l, t) {
      CountedConcat(0, s, t);
    }
    forall t ensures Scan(0, s + t) == match b case None => None case Some(l) => Scan(l, t) {
      ScanConcat(0, s, t);
    }
    forall w, t | NothingToEscape(t) ensures Counted(w, t) == Scan(w, t) { SameCount(w, t); }
    if a != b {
      var n := if a.Some? && b.Some? then (if a.value < b.value then a.value else b.value) + 1 else 0;
      if a.Some? { TailsCount(a.value, n); }
      if b.Some? { TailsCount(b.value, n); }
      assert NothingToEscape(Tails(n)) && !(Counted(0, s + Tails(n)).Some? <==> Scan(0, s + Tails(n)).Some?);
    }
  }

  /** At an input: a byte sequence the check accepts that is printed and cannot be read. */
  lemma EscapingCanChangeAcceptance()
    ensures var s := ['\U{E2}', '"', '\U{80}']; Counted(0, s) == Some(0) && Scan(0, s).None?
  {
    var s := ['\U{E2}', '"', '\U{80}'];
    assert s[1..] == ['"', '\U{80}'] && s[1..][1..] == ['\U{80}'] && s[1..][1..][1..] == [];
    assert Counted(0, s) == Counted(2, s[1..]) == Counted(1, s[1..][1..]) == Counted(0, s[1..][1..][1..]);
    assert Scan(0, s) == Scan(2, s[1..]) == Scan(0, s[1..][1..]);
  }

  /** Truncation: no nonempty beginning of a printed string, array or object, short of the whole, is ever a value. */
  lemma {:induction false} TruncatedDump(v: Json, spaces: nat, first: nat, n: nat, chunks: seq<string>)
    requires Plain(v) && (v.JString? || v.JArray? || v.JObject?)
    requires 0 < n < |Dump(v, spaces, first)| && Flatten(chunks) == Dump(v, spaces, first)[..n]
    ensures ParseAll(chunks).Err?
    ensures Scans(v) ==> ParseAll(chunks) == Err(UnexpectedEnd)
  {
    hide Consume, Fold, Dump, Plain, Scans;
    var whole := Dump(v, spaces, first);
    assert whole + "" == whole;
    DumpGives(v, spaces, first, "");
    ContainerHead(v, spaces, first);
    var s := whole[..n];
    assert s + whole[n..] == whole;
    FoldConcat(Blank, s, whole[n..]);
    CutShortIsNoValue(s, chunks);
    if Scans(v) {
      TruncationIsNoValue(whole, n, chunks);
    }
  }

  lemma ContainerHead(v: Json, spaces: nat, first: nat)
    requires v.JString? || v.JArray? || v.JObject?
    ensures var s := Dump(v, spaces, first); s != "" && IsOpening(s[0])
  {
  }
}
