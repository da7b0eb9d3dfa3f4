/** The urlencoded form: encode_url and json2form against the decoding loop of form(). */
module FormCodec {
  import opened Wrappers

  type Text = seq<byte>

  const SPACE: byte := 32
  const PERCENT: byte := 37
  const AMPERSAND: byte := 38
  const PLUS: byte := 43
  const EQUALS: byte := 61
  const LETTER_F: byte := 70

  // ---- encoding --------------------------------------------------------------------------------

  predicate IsAscii(c: byte) { c < 128 }

  /** Letters and digits of the C locale, and the four marks. */
  predicate IsUnreserved(c: byte) {
    48 <= c <= 57 || 65 <= c <= 90 || 97 <= c <= 122 || c == 95 || c == 45 || c == 46 || c == 126
  }

  function HexDigit(n: byte): byte
    requires n < 16
  {
    if n < 10 then n + 48 else n + 55
  }

  /** A byte from 128 on is sign-extended before it is printed: eight digits. */
  function EncodeByte(c: byte): Text {
    var digits := [HexDigit(c >> 4), HexDigit(c & 0x0F)];
    if IsUnreserved(c) then [c]
    else if c == SPACE then [PLUS]
    else if IsAscii(c) then [PERCENT] + digits
    else [PERCENT, LETTER_F, LETTER_F, LETTER_F, LETTER_F, LETTER_F, LETTER_F] + digits
  }

  function EncodeUrl(t: Text): Text {
    if t == [] then [] else EncodeByte(t[0]) + EncodeUrl(t[1..])
  }

  datatype Pair = Pair(key: Text, value: Text)

  function EncodePair(p: Pair): Text { EncodeUrl(p.key) + [EQUALS] + EncodeUrl(p.value) }

  /** json2form, for an object of strings. */
  function Json2Form(pairs: seq<Pair>): Text
    requires pairs != []
  {
    EncodePair(pairs[0]) + if |pairs| == 1 then [] else [AMPERSAND] + Json2Form(pairs[1..])
  }

  // ---- decoding --------------------------------------------------------------------------------

  /** The value of a hexadecimal digit, in the arithmetic of a signed char: any byte has one. */
  function Upper(c: byte): byte { if 97 <= c <= 122 then c - 32 else c }

  function Hex2Dec(c: byte): byte {
    var u := Upper(c);
    if 65 <= u < 128 then u - 55 else u - 48
  }

  /** The decoding loop's state: what has been read of the pair, whether the value is being read,
      whether an escape is open and its digits so far, and the parameters. */
  datatype Decoder = Decoder(
    key: Text, value: Text, inValue: bool, usedExtra: bool, extra: Text, params: map<Text, Text>)

  const START := Decoder([], [], false, false, [], map[])

  function Add(d: Decoder, t: Text): Decoder {
    if d.inValue then d.(value := d.value + t) else d.(key := d.key + t)
  }

  /** map::insert keeps the value that is there. */
  function Insert(params: map<Text, Text>, key: Text, value: Text): map<Text, Text> {
    if key in params then params else params[key := value]
  }

  /** A whole escape: ASCII is decoded, anything else is kept as it was written. */
  function Escape(d: Decoder, a: byte, b: byte): Decoder {
    var c := (Hex2Dec(a) << 4) | Hex2Dec(b);
    Add(d, if IsAscii(c) then [c] else [PERCENT, a, b]).(usedExtra := false, extra := [])
  }

  function Step(d: Decoder, c: byte): Decoder {
    if d.usedExtra then
      if |d.extra| == 1 then Escape(d, d.extra[0], c) else d.(extra := d.extra + [c])
    else if c == PERCENT then d.(usedExtra := true)
    else if c == EQUALS then d.(inValue := true)
    else if c == AMPERSAND then Decoder([], [], false, false, d.extra, Insert(d.params, d.key, d.value))
    else if c == PLUS then Add(d, [SPACE])
    else Add(d, [c])
  }

  function Fold(d: Decoder, t: Text): Decoder {
    if t == [] then d else Step(Fold(d, t[..|t| - 1]), t[|t| - 1])
  }

  /** After the loop the last pair is inserted, unless it is empty. */
  function Finish(d: Decoder): map<Text, Text> {
    if d.value != [] || d.key != [] then Insert(d.params, d.key, d.value) else d.params
  }

  function Params(t: Text): map<Text, Text> { Finish(Fold(START, t)) }

  // ---- one text --------------------------------------------------------------------------------

  lemma {:induction false} FoldConcat(d: Decoder, a: Text, b: Text)
    ensures Fold(d, a + b) == Fold(Fold(d, a), b)
  {
    if b == [] {
      assert a + b == a;
    } else {
      assert (a + b)[..|a + b| - 1] == a + b[..|b| - 1];
      FoldConcat(d, a, b[..|b| - 1]);
    }
  }

  lemma FoldOne(d: Decoder, c: byte)
    ensures Fold(d, [c]) == Step(d, c)
  {
    assert [c][..0] == [];
  }

  lemma FoldThree(d: Decoder, a: byte, b: byte, c: byte)
    ensures Fold(d, [a, b, c]) == Step(Step(Step(d, a), b), c)
  {
    hide Step;
    FoldOne(d, a);
    FoldConcat(d, [a], [b]);
    FoldOne(Step(d, a), b);
    assert [a] + [b] == [a, b];
    FoldConcat(d, [a, b], [c]);
    FoldOne(Step(Step(d, a), b), c);
    assert [a, b] + [c] == [a, b, c];
  }

  /** What comes back for a byte: itself if it is ASCII, else the text of its escape. */
  function Shown(c: byte): Text { if IsAscii(c) then [c] else EncodeByte(c) }

  function ShownText(t: Text): Text {
    if t == [] then [] else Shown(t[0]) + ShownText(t[1..])
  }

  lemma DigitsBack(c: byte)
    ensures (Hex2Dec(HexDigit(c >> 4)) << 4) | Hex2Dec(HexDigit(c & 0x0F)) == c
    ensures !IsAscii((Hex2Dec(LETTER_F) << 4) | Hex2Dec(LETTER_F))
  {
  }

  lemma DigitIsPlain(n: byte)
    requires n < 16
    ensures var h := HexDigit(n); h != PERCENT && h != EQUALS && h != AMPERSAND && h != PLUS && IsAscii(h)
  {
  }

  lemma UnreservedIsPlain(c: byte)
    requires IsUnreserved(c)
    ensures c != PERCENT && c != EQUALS && c != AMPERSAND && c != PLUS && IsAscii(c)
  {
  }

  predicate Ready(d: Decoder) { !d.usedExtra && d.extra == [] }

  lemma {:induction false} AddMore(d: Decoder, a: Text, b: Text)
    ensures Add(Add(d, a), b) == Add(d, a + b) && Add(d, []) == d
  {
    assert d.key + a + b == d.key + (a + b) && d.value + a + b == d.value + (a + b);
    assert d.key + [] == d.key && d.value + [] == d.value;
  }

  lemma EscapeBack(d: Decoder, a: byte, b: byte)
    requires Ready(d)
    ensures Fold(d, [PERCENT, a, b]) == Escape(d, a, b) && Ready(Escape(d, a, b))
  {
    FoldThree(d, PERCENT, a, b);
  }

  lemma {:induction false} PlainBack(d: Decoder, t: Text)
    requires Ready(d)
    requires forall k :: 0 <= k < |t| ==> t[k] != PERCENT && t[k] != EQUALS && t[k] != AMPERSAND && t[k] != PLUS
    ensures Fold(d, t) == Add(d, t)
  {
    AddMore(d, [], []);
    if t != [] {
      var s := t[..|t| - 1];
      PlainBack(d, s);
      AddMore(d, s, [t[|t| - 1]]);
      assert s + [t[|t| - 1]] == t;
    }
  }

  lemma ByteBack(d: Decoder, c: byte)
    requires Ready(d)
    ensures Fold(d, EncodeByte(c)) == Add(d, Shown(c))
  {
    hide Fold, Escape;
    if IsUnreserved(c) {
      UnreservedIsPlain(c);
      PlainBack(d, [c]);
    } else if c == SPACE {
      FoldOne(d, PLUS);
    } else {
      EscapedBack(d, c);
    }
  }

  lemma EscapedBack(d: Decoder, c: byte)
    requires Ready(d) && !IsUnreserved(c) && c != SPACE
    ensures Fold(d, EncodeByte(c)) == Add(d, Shown(c))
  {
    hide Fold, Hex2Dec, HexDigit, IsUnreserved;
    var h, l := HexDigit(c >> 4), HexDigit(c & 0x0F);
    DigitsBack(c);
    if IsAscii(c) {
      EscapeBack(d, h, l);
      assert [PERCENT] + [h, l] == [PERCENT, h, l];
    } else {
      DigitIsPlain(c >> 4);
      DigitIsPlain(c & 0x0F);
      var head := [PERCENT, LETTER_F, LETTER_F];
      var tail := [LETTER_F, LETTER_F, LETTER_F, LETTER_F, h, l];
      assert EncodeByte(c) == head + tail;
      FoldConcat(d, head, tail);
      EscapeBack(d, LETTER_F, LETTER_F);
      PlainBack(Add(d, head), tail);
      AddMore(d, head, tail);
    }
  }

  /** Decoding an encoded text appends it as it is shown, wherever the decoder stands. */
  lemma {:induction false} TextBack(d: Decoder, t: Text)
    requires Ready(d)
    ensures Fold(d, EncodeUrl(t)) == Add(d, ShownText(t))
    decreases |t|
  {
    hide Step, EncodeByte, Shown;
    AddMore(d, [], []);
    if t != [] {
      FoldConcat(d, EncodeByte(t[0]), EncodeUrl(t[1..]));
      ByteBack(d, t[0]);
      TextBack(Add(d, Shown(t[0])), t[1..]);
      AddMore(d, Shown(t[0]), ShownText(t[1..]));
    }
  }

  predicate AllAscii(t: Text) { forall k :: 0 <= k < |t| ==> IsAscii(t[k]) }

  /** A text comes back exactly when it is ASCII; in any case what comes back is. */
  lemma {:induction false} ShownIsAscii(t: Text)
    ensures AllAscii(ShownText(t)) && (ShownText(t) == t <==> AllAscii(t))
  {
    if t != [] {
      ShownIsAscii(t[1..]);
      ShownByteIsAscii(t[0]);
      assert t == [t[0]] + t[1..];
      if AllAscii(t) {
        assert forall k :: 0 <= k < |t| - 1 ==> t[1..][k] == t[k + 1];
      }
    }
  }

  lemma ShownByteIsAscii(c: byte)
    ensures AllAscii(Shown(c))
  {
    DigitIsPlain(c >> 4);
    DigitIsPlain(c & 0x0F);
    hide HexDigit;
  }

  // ---- a whole form ----------------------------------------------------------------------------

  /** The pairs inserted in turn. */
  function InsertAll(params: map<Text, Text>, pairs: seq<Pair>): map<Text, Text>
    decreases |pairs|
  {
    if pairs == [] then params else InsertAll(Insert(params, pairs[0].key, pairs[0].value), pairs[1..])
  }

  /** The object a sequence of pairs stands for. */
  function MapOf(pairs: seq<Pair>): map<Text, Text> { InsertAll(map[], pairs) }

  function ShownPair(p: Pair): Pair { Pair(ShownText(p.key), ShownText(p.value)) }

  function ShownPairs(pairs: seq<Pair>): seq<Pair> {
    if pairs == [] then [] else [ShownPair(pairs[0])] + ShownPairs(pairs[1..])
  }

  function At(params: map<Text, Text>): Decoder { Decoder([], [], false, false, [], params) }

  function Holding(params: map<Text, Text>, p: Pair): Decoder { Decoder(p.key, p.value, true, false, [], params) }

  lemma PairBack(params: map<Text, Text>, p: Pair)
    ensures Fold(At(params), EncodePair(p)) == Holding(params, ShownPair(p))
  {
    hide Fold, EncodeUrl, ShownText;
    var d := At(params);
    var k, v := EncodeUrl(p.key), EncodeUrl(p.value);
    TextBack(d, p.key);
    FoldConcat(d, k, [EQUALS]);
    FoldOne(Add(d, ShownText(p.key)), EQUALS);
    FoldConcat(d, k + [EQUALS], v);
    TextBack(Fold(d, k + [EQUALS]), p.value);
  }

  /** All pairs but the last are inserted by the time the loop ends. */
  lemma {:induction false} FormBack(params: map<Text, Text>, pairs: seq<Pair>)
    requires pairs != []
    ensures var shown := ShownPairs(pairs);
      |shown| == |pairs| &&
      Fold(At(params), Json2Form(pairs)) == Holding(InsertAll(params, shown[..|shown| - 1]), shown[|shown| - 1])
    decreases |pairs|
  {
    hide Fold, EncodePair, ShownPair;
    PairBack(params, pairs[0]);
    if |pairs| == 1 {
      assert EncodePair(pairs[0]) + [] == EncodePair(pairs[0]);
    } else {
      var first := ShownPair(pairs[0]);
      var more := Insert(params, first.key, first.value);
      NextPair(params, pairs);
      FormBack(more, pairs[1..]);
      var shown, rest := ShownPairs(pairs), ShownPairs(pairs[1..]);
      assert shown[..|shown| - 1] == [first] + rest[..|rest| - 1];
      assert shown[..|shown| - 1][1..] == rest[..|rest| - 1];
    }
  }

  lemma Assoc(a: Text, b: Text, c: Text)
    ensures a + (b + c) == (a + b) + c
  {
  }

  lemma FormNext(pairs: seq<Pair>)
    requires |pairs| > 1
    ensures Json2Form(pairs) == EncodePair(pairs[0]) + ([AMPERSAND] + Json2Form(pairs[1..]))
  {
  }

  lemma PairEnds(params: map<Text, Text>, p: Pair)
    ensures Fold(Holding(params, p), [AMPERSAND]) == At(Insert(params, p.key, p.value))
  {
    FoldOne(Holding(params, p), AMPERSAND);
    hide Fold;
  }

  lemma NextPair(params: map<Text, Text>, pairs: seq<Pair>)
    requires |pairs| > 1
    ensures var first := ShownPair(pairs[0]);
      Fold(At(params), Json2Form(pairs)) == Fold(At(Insert(params, first.key, first.value)), Json2Form(pairs[1..]))
  {
    hide Fold, EncodePair, ShownPair, Json2Form, Holding, At, Insert;
    FormNext(pairs);
    PairBack(params, pairs[0]);
    var head, rest := EncodePair(pairs[0]), Json2Form(pairs[1..]);
    Assoc(head, [AMPERSAND], rest);
    FoldConcat(At(params), head, [AMPERSAND]);
    PairEnds(params, ShownPair(pairs[0]));
    FoldConcat(At(params), head + [AMPERSAND], rest);
  }

  /** What decoding a form gives, for any pairs: all of them, but for an empty last one. */
  lemma FormGives(pairs: seq<Pair>)
    requires pairs != []
    ensures var shown := ShownPairs(pairs);
      |shown| == |pairs| &&
      Params(Json2Form(pairs)) ==
        if shown[|shown| - 1] == Pair([], []) then InsertAll(map[], shown[..|shown| - 1]) else InsertAll(map[], shown)
  {
    hide Fold, Json2Form, ShownPairs;
    FormBack(map[], pairs);
    var shown := ShownPairs(pairs);
    InsertLast(map[], shown);
  }

  lemma {:induction false} InsertLast(params: map<Text, Text>, pairs: seq<Pair>)
    requires pairs != []
    ensures var n := |pairs| - 1;
      InsertAll(params, pairs) == Insert(InsertAll(params, pairs[..n]), pairs[n].key, pairs[n].value)
    decreases |pairs|
  {
    var more := Insert(params, pairs[0].key, pairs[0].value);
    if |pairs| == 1 {
      assert InsertAll(more, pairs[1..]) == more;
    } else {
      InsertLast(more, pairs[1..]);
      assert pairs[1..][..|pairs| - 2] == pairs[..|pairs| - 1][1..];
    }
  }

  // ---- the round trip --------------------------------------------------------------------------

  /** The order of the keys of an object. */
  predicate KeyLess(a: Text, b: Text) {
    if b == [] then false else if a == [] then true
    else a[0] < b[0] || (a[0] == b[0] && KeyLess(a[1..], b[1..]))
  }

  predicate IsObject(pairs: seq<Pair>) {
    forall i, j :: 0 <= i < j < |pairs| ==> KeyLess(pairs[i].key, pairs[j].key)
  }

  predicate AllAsciiPairs(pairs: seq<Pair>) {
    forall k :: 0 <= k < |pairs| ==> AllAscii(pairs[k].key) && AllAscii(pairs[k].value)
  }

  predicate AllAsciiMap(m: map<Text, Text>) {
    forall k :: k in m ==> AllAscii(k) && AllAscii(m[k])
  }

  lemma {:induction false} KeyIrreflexive(a: Text)
    ensures !KeyLess(a, a)
  {
    if a != [] { KeyIrreflexive(a[1..]); }
  }

  lemma {:induction false} ShownPairsAre(pairs: seq<Pair>)
    ensures var shown := ShownPairs(pairs);
      |shown| == |pairs| && AllAsciiPairs(shown) && (AllAsciiPairs(pairs) ==> shown == pairs)
  {
    hide ShownText;
    if pairs != [] {
      ShownIsAscii(pairs[0].key);
      ShownIsAscii(pairs[0].value);
      ShownPairsAre(pairs[1..]);
      assert pairs == [pairs[0]] + pairs[1..];
    }
  }

  lemma {:induction false} InsertAllAscii(params: map<Text, Text>, pairs: seq<Pair>)
    requires AllAsciiMap(params) && AllAsciiPairs(pairs)
    ensures AllAsciiMap(InsertAll(params, pairs))
    decreases |pairs|
  {
    hide AllAscii;
    if pairs != [] { InsertAllAscii(Insert(params, pairs[0].key, pairs[0].value), pairs[1..]); }
  }

  lemma {:induction false} InsertAllKeeps(params: map<Text, Text>, pairs: seq<Pair>, key: Text)
    requires key in params
    ensures key in InsertAll(params, pairs) && InsertAll(params, pairs)[key] == params[key]
    decreases |pairs|
  {
    if pairs != [] { InsertAllKeeps(Insert(params, pairs[0].key, pairs[0].value), pairs[1..], key); }
  }

  /** Of a key that comes more than once the first value is kept. */
  lemma {:induction false} FirstValueKept(params: map<Text, Text>, pairs: seq<Pair>, i: nat)
    requires i < |pairs| && pairs[i].key !in params && forall j :: 0 <= j < i ==> pairs[j].key != pairs[i].key
    ensures pairs[i].key in InsertAll(params, pairs) && InsertAll(params, pairs)[pairs[i].key] == pairs[i].value
    decreases |pairs|
  {
    var more := Insert(params, pairs[0].key, pairs[0].value);
    if i == 0 {
      InsertAllKeeps(more, pairs[1..], pairs[0].key);
    } else {
      FirstValueKept(more, pairs[1..], i - 1);
    }
  }

  /** And no other keys are there. */
  lemma {:induction false} OnlyInserted(params: map<Text, Text>, pairs: seq<Pair>, key: Text)
    requires key in InsertAll(params, pairs) && key !in params
    ensures exists i :: 0 <= i < |pairs| && pairs[i].key == key
    decreases |pairs|
  {
    if pairs[0].key != key {
      OnlyInserted(Insert(params, pairs[0].key, pairs[0].value), pairs[1..], key);
      var i :| 0 <= i < |pairs[1..]| && pairs[1..][i].key == key;
      assert pairs[i + 1].key == key;
    }
  }

  /** Decoding the form of a nonempty object of strings gives the object back exactly when it is all
      ASCII and not the object with the empty string at the empty key alone. */
  lemma RoundTrip(pairs: seq<Pair>)
    requires pairs != [] && IsObject(pairs)
    ensures Params(Json2Form(pairs)) == MapOf(pairs) <==> AllAsciiPairs(pairs) && pairs != [Pair([], [])]
  {
    hide Params, Json2Form, ShownPairs, InsertAll, AllAscii, KeyLess;
    FormGives(pairs);
    ShownPairsAre(pairs);
    ObjectHolds(pairs);
    var shown := ShownPairs(pairs);
    if AllAsciiPairs(pairs) {
      if pairs[|pairs| - 1] == Pair([], []) {
        EmptyKeyIsFirst(pairs);
        EmptyForm();
      }
    } else {
      InsertAllAscii(map[], shown);
      InsertAllAscii(map[], shown[..|shown| - 1]);
    }
  }

  lemma ObjectHolds(pairs: seq<Pair>)
    requires IsObject(pairs)
    ensures var m := MapOf(pairs);
      forall i :: 0 <= i < |pairs| ==> pairs[i].key in m && m[pairs[i].key] == pairs[i].value
  {
    hide KeyLess;
    forall i, j | 0 <= i < j < |pairs| ensures pairs[i].key != pairs[j].key { KeyIrreflexive(pairs[i].key); }
    forall i | 0 <= i < |pairs|
      ensures pairs[i].key in MapOf(pairs) && MapOf(pairs)[pairs[i].key] == pairs[i].value
    {
      FirstValueKept(map[], pairs, i);
    }
  }

  lemma EmptyKeyIsFirst(pairs: seq<Pair>)
    requires pairs != [] && IsObject(pairs) && pairs[|pairs| - 1].key == []
    ensures |pairs| == 1
  {
    assert |pairs| > 1 ==> KeyLess(pairs[0].key, pairs[|pairs| - 1].key);
  }

  lemma EmptyForm()
    ensures MapOf([Pair([], [])]) == map[[] := []] && InsertAll(map[], [Pair([], [])][..0]) == map[]
  {
    assert [Pair([], [])][1..] == [] && [Pair([], [])][..0] == [];
  }

  // ---- the loops -------------------------------------------------------------------------------

  method WriteByte(c: byte) returns (part: Text)
    ensures part == EncodeByte(c)
  {
    hide HexDigit;
    if IsUnreserved(c) {
      return [c];
    }
    if c == SPACE {
      return [PLUS];
    }
    var width: Text := if c < 128 then [] else [LETTER_F, LETTER_F, LETTER_F, LETTER_F, LETTER_F, LETTER_F];
    return [PERCENT] + width + [HexDigit(c >> 4), HexDigit(c & 0x0F)];
  }

  method WriteUrl(str: Text) returns (escaped: Text)
    ensures escaped == EncodeUrl(str)
  {
    hide EncodeByte;
    escaped := [];
    for i := 0 to |str|
      invariant escaped + EncodeUrl(str[i..]) == EncodeUrl(str)
    {
      UrlNext(escaped, str, i);
      var part := WriteByte(str[i]);
      escaped := escaped + part;
    }
  }

  lemma UrlNext(done: Text, str: Text, i: nat)
    requires i < |str|
    ensures done + EncodeUrl(str[i..]) == (done + EncodeByte(str[i])) + EncodeUrl(str[i + 1..])
  {
    assert str[i..][1..] == str[i + 1..];
    hide EncodeByte;
    Assoc(done, EncodeByte(str[i]), EncodeUrl(str[i + 1..]));
  }

  /** json2form enters its loop behind the first separator; the object must not be empty. */
  method WriteForm(pairs: seq<Pair>) returns (data: Text)
    requires pairs != []
    ensures data == Json2Form(pairs)
  {
    hide EncodeUrl;
    var k := WriteUrl(pairs[0].key);
    var v := WriteUrl(pairs[0].value);
    data := k + [EQUALS] + v;
    for i := 1 to |pairs|
      invariant data + FormTail(pairs[i..]) == Json2Form(pairs)
    {
      FormTailNext(data, pairs, i);
      k := WriteUrl(pairs[i].key);
      v := WriteUrl(pairs[i].value);
      data := data + ([AMPERSAND] + (k + [EQUALS] + v));
    }
  }

  function FormTail(pairs: seq<Pair>): Text { if pairs == [] then [] else [AMPERSAND] + Json2Form(pairs) }

  lemma FormTailNext(done: Text, pairs: seq<Pair>, i: nat)
    requires 1 <= i < |pairs|
    ensures done + FormTail(pairs[i..]) == (done + ([AMPERSAND] + EncodePair(pairs[i]))) + FormTail(pairs[i + 1..])
  {
    assert pairs[i..][1..] == pairs[i + 1..];
    hide EncodePair;
    Assoc([AMPERSAND], EncodePair(pairs[i]), FormTail(pairs[i + 1..]));
    Assoc(done, [AMPERSAND] + EncodePair(pairs[i]), FormTail(pairs[i + 1..]));
  }
}
