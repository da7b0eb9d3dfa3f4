/** What form() reads from any text: its parts between ampersands, spelled with plus signs and escapes. */
module FormReading {
  import opened Wrappers
  import opened FormCodec

  // ---- spelling --------------------------------------------------------------------------------

  /** A byte that stands for itself or, if it is a plus sign, for a space; or two digits behind a percent sign. */
  datatype Unit = Plain(c: byte) | Escaped(a: byte, b: byte)

  predicate IsUnit(u: Unit) { u.Plain? ==> u.c != PERCENT && u.c != EQUALS && u.c != AMPERSAND }

  predicate AreUnits(us: seq<Unit>) { forall k :: 0 <= k < |us| ==> IsUnit(us[k]) }

  function UnitText(u: Unit): Text { if u.Plain? then [u.c] else [PERCENT, u.a, u.b] }

  function TextOf(us: seq<Unit>): Text {
    if us == [] then [] else UnitText(us[0]) + TextOf(us[1..])
  }

  /** The byte that two digits spell. */
  function Spelled(a: byte, b: byte): byte { (Hex2Dec(a) << 4) | Hex2Dec(b) }

  function UnitMeaning(u: Unit): Text {
    match u
    case Plain(c) => [if c == 43 then 32 else c]
    case Escaped(a, b) => if Spelled(a, b) < 128 then [Spelled(a, b)] else [PERCENT, a, b]
  }

  function Meaning(us: seq<Unit>): Text {
    if us == [] then [] else UnitMeaning(us[0]) + Meaning(us[1..])
  }

  /** A piece between two ampersands: a key, and what follows at its signs of equality. */
  datatype Part = Part(key: seq<Unit>, values: seq<seq<Unit>>)

  predicate IsPart(p: Part) {
    AreUnits(p.key) && forall k :: 0 <= k < |p.values| ==> AreUnits(p.values[k])
  }

  predicate AreParts(parts: seq<Part>) { forall k :: 0 <= k < |parts| ==> IsPart(parts[k]) }

  function ValuesText(values: seq<seq<Unit>>): Text {
    if values == [] then [] else [EQUALS] + TextOf(values[0]) + ValuesText(values[1..])
  }

  function ValuesMeaning(values: seq<seq<Unit>>): Text {
    if values == [] then [] else Meaning(values[0]) + ValuesMeaning(values[1..])
  }

  function PartText(p: Part): Text { TextOf(p.key) + ValuesText(p.values) }

  function PairOf(p: Part): Pair { Pair(Meaning(p.key), ValuesMeaning(p.values)) }

  function PairsOf(parts: seq<Part>): (pairs: seq<Pair>)
    ensures |pairs| == |parts|
  {
    seq(|parts|, k requires 0 <= k < |parts| => PairOf(parts[k]))
  }

  function FormText(parts: seq<Part>): Text
    requires parts != []
  {
    PartText(parts[0]) + if |parts| == 1 then [] else [AMPERSAND] + FormText(parts[1..])
  }

  /** The parameters of some pairs: all of them, but for an empty last one. */
  function Given(pairs: seq<Pair>): map<Text, Text>
    requires pairs != []
  {
    InsertAll(map[], if pairs[|pairs| - 1] == Pair([], []) then pairs[..|pairs| - 1] else pairs)
  }

  // ---- reading it ------------------------------------------------------------------------------

  lemma ReadUnit(d: Decoder, u: Unit)
    requires Ready(d) && IsUnit(u)
    ensures Fold(d, UnitText(u)) == Add(d, UnitMeaning(u))
  {
    match u
    case Plain(c) => FoldOne(d, c);
    case Escaped(a, b) => EscapeBack(d, a, b);
  }

  lemma {:induction false} ReadUnits(d: Decoder, us: seq<Unit>)
    requires Ready(d) && AreUnits(us)
    ensures Fold(d, TextOf(us)) == Add(d, Meaning(us))
    decreases |us|
  {
    hide Fold, Add, UnitText, UnitMeaning, IsUnit;
    if us == [] {
      AddMore(d, [], []);
      FoldNone(d);
    } else {
      FoldConcat(d, UnitText(us[0]), TextOf(us[1..]));
      ReadUnit(d, us[0]);
      StaysReady(d, UnitMeaning(us[0]));
      ReadUnits(Add(d, UnitMeaning(us[0])), us[1..]);
      AddMore(d, UnitMeaning(us[0]), Meaning(us[1..]));
    }
  }

  lemma FoldNone(d: Decoder)
    ensures Fold(d, []) == d
  {
  }

  lemma StaysReady(d: Decoder, t: Text)
    requires Ready(d)
    ensures Ready(Add(d, t)) && Ready(d.(inValue := true))
    ensures d.inValue ==> Add(d, t).inValue && Add(d, t).(inValue := true) == Add(d, t)
  {
  }

  lemma {:induction false} ReadValues(d: Decoder, values: seq<seq<Unit>>)
    requires Ready(d) && forall k :: 0 <= k < |values| ==> AreUnits(values[k])
    ensures Fold(d, ValuesText(values))
      == if values == [] then d else Add(d.(inValue := true), ValuesMeaning(values))
    decreases |values|
  {
    hide Fold, Add, TextOf, Meaning, AreUnits;
    FoldNone(d);
    if values != [] {
      var v, more := values[0], values[1..];
      var e := d.(inValue := true);
      FoldConcat(d, [EQUALS] + TextOf(v), ValuesText(more));
      FoldConcat(d, [EQUALS], TextOf(v));
      FoldOne(d, EQUALS);
      StaysReady(d, []);
      ReadUnits(e, v);
      StaysReady(e, Meaning(v));
      ReadValues(Add(e, Meaning(v)), more);
      AddMore(e, Meaning(v), ValuesMeaning(more));
      assert Meaning(v) + [] == Meaning(v);
    }
  }

  /** The decoder at the end of a part. */
  function Behind(params: map<Text, Text>, p: Part): Decoder {
    Decoder(Meaning(p.key), ValuesMeaning(p.values), p.values != [], false, [], params)
  }

  lemma ReadPart(params: map<Text, Text>, p: Part)
    requires IsPart(p)
    ensures Fold(At(params), PartText(p)) == Behind(params, p)
  {
    hide Fold, TextOf, Meaning, ValuesText, AreUnits;
    FoldConcat(At(params), TextOf(p.key), ValuesText(p.values));
    ReadUnits(At(params), p.key);
    ReadValues(Add(At(params), Meaning(p.key)), p.values);
    assert [] + Meaning(p.key) == Meaning(p.key) && [] + ValuesMeaning(p.values) == ValuesMeaning(p.values);
  }

  lemma NextPart(params: map<Text, Text>, p: Part)
    ensures Fold(Behind(params, p), [AMPERSAND]) == At(Insert(params, PairOf(p).key, PairOf(p).value))
  {
    FoldOne(Behind(params, p), AMPERSAND);
    hide Fold;
  }

  lemma {:induction false} ReadForm(params: map<Text, Text>, parts: seq<Part>)
    requires parts != [] && AreParts(parts)
    ensures var n := |parts| - 1;
      Fold(At(params), FormText(parts)) == Behind(InsertAll(params, PairsOf(parts)[..n]), parts[n])
    decreases |parts|
  {
    hide Fold, PartText, IsPart, Behind, At, PairOf;
    var p, more, pairs := parts[0], parts[1..], PairsOf(parts);
    ReadPart(params, p);
    if |parts| == 1 {
      assert PartText(p) + [] == PartText(p) && pairs[..0] == [];
    } else {
      var next := Insert(params, pairs[0].key, pairs[0].value);
      FoldConcat(At(params), PartText(p), [AMPERSAND] + FormText(more));
      FoldConcat(Behind(params, p), [AMPERSAND], FormText(more));
      NextPart(params, p);
      ReadForm(next, more);
      assert pairs[..|pairs| - 1][1..] == PairsOf(more)[..|more| - 1];
      assert pairs[..|pairs| - 1][0] == pairs[0];
    }
  }

  /** Bytes at the end that began an escape. */
  predicate IsCutShort(rest: Text) { rest == [] || (|rest| <= 2 && rest[0] == PERCENT) }

  lemma {:induction false} FinishCutShort(d: Decoder, rest: Text)
    requires Ready(d) && IsCutShort(rest)
    ensures Finish(Fold(d, rest)) == Finish(d)
  {
    if |rest| == 1 {
      assert rest == [PERCENT];
      FoldOne(d, PERCENT);
    } else if |rest| == 2 {
      assert rest == [PERCENT] + [rest[1]];
      FoldConcat(d, [PERCENT], [rest[1]]);
      FoldOne(d, PERCENT);
      FoldOne(Step(d, PERCENT), rest[1]);
    }
  }

  /** Decoding gives the pairs of the parts, however they are spelled; an escape that is cut short is lost. */
  lemma ReadsParts(parts: seq<Part>, rest: Text)
    requires parts != [] && AreParts(parts) && IsCutShort(rest)
    ensures Params(FormText(parts) + rest) == Given(PairsOf(parts))
  {
    hide Fold, AreParts, IsCutShort, FormText;
    var n, pairs := |parts| - 1, PairsOf(parts);
    FoldConcat(START, FormText(parts), rest);
    ReadForm(map[], parts);
    FinishCutShort(Behind(InsertAll(map[], pairs[..n]), parts[n]), rest);
    InsertLast(map[], pairs);
  }

  // ---- every text ------------------------------------------------------------------------------

  function WithUnit(p: Part, u: Unit): Part {
    if p.values == [] then p.(key := p.key + [u])
    else
      var n := |p.values| - 1;
      p.(values := p.values[..n] + [p.values[n] + [u]])
  }

  lemma {:induction false} TextOfMore(us: seq<Unit>, u: Unit)
    ensures TextOf(us + [u]) == TextOf(us) + UnitText(u)
  {
    hide UnitText;
    if us == [] {
      assert [] + [u] == [u] && [u][1..] == [];
    } else {
      TextOfMore(us[1..], u);
      assert (us + [u])[1..] == us[1..] + [u];
      Assoc(UnitText(us[0]), TextOf(us[1..]), UnitText(u));
    }
  }

  lemma {:induction false} ValuesTextMore(values: seq<seq<Unit>>, us: seq<Unit>)
    ensures ValuesText(values + [us]) == ValuesText(values) + ([EQUALS] + TextOf(us))
  {
    hide TextOf;
    if values == [] {
      assert [] + [us] == [us] && [us][1..] == [] && [EQUALS] + TextOf(us) + [] == [EQUALS] + TextOf(us);
    } else {
      ValuesTextMore(values[1..], us);
      assert (values + [us])[1..] == values[1..] + [us];
      Assoc([EQUALS] + TextOf(values[0]), ValuesText(values[1..]), [EQUALS] + TextOf(us));
    }
  }

  lemma WithUnitText(p: Part, u: Unit)
    requires IsPart(p) && IsUnit(u)
    ensures IsPart(WithUnit(p, u)) && PartText(WithUnit(p, u)) == PartText(p) + UnitText(u)
  {
    hide TextOf, ValuesText, UnitText, IsUnit;
    if p.values == [] {
      TextOfMore(p.key, u);
      NoValues();
    } else {
      var n := |p.values| - 1;
      var us, head := p.values[n], p.values[..n];
      TextOfMore(us, u);
      ValuesTextMore(head, us);
      ValuesTextMore(head, us + [u]);
      assert head + [us] == p.values;
      Assoc([EQUALS], TextOf(us), UnitText(u));
      Assoc(ValuesText(head), [EQUALS] + TextOf(us), UnitText(u));
      Assoc(TextOf(p.key), ValuesText(p.values), UnitText(u));
    }
  }

  lemma NoValues()
    ensures ValuesText([]) == [] && forall t: Text :: t + [] == t
  {
  }

  lemma {:induction false} LastPartText(parts: seq<Part>, p: Part)
    ensures FormText(parts + [p]) == (if parts == [] then [] else FormText(parts) + [AMPERSAND]) + PartText(p)
    decreases |parts|
  {
    hide PartText;
    if parts == [] {
      assert [] + [p] == [p] && PartText(p) + [] == PartText(p) && [] + PartText(p) == PartText(p);
    } else {
      var more := parts[1..];
      assert (parts + [p])[1..] == more + [p];
      LastPartText(more, p);
      if more == [] {
        assert PartText(parts[0]) + [] == PartText(parts[0]) && [] + PartText(p) == PartText(p);
        Assoc(PartText(parts[0]), [AMPERSAND], PartText(p));
      } else {
        Assoc([AMPERSAND], FormText(more) + [AMPERSAND], PartText(p));
        Assoc([AMPERSAND], FormText(more), [AMPERSAND]);
        Assoc(PartText(parts[0]), [AMPERSAND] + FormText(more), [AMPERSAND]);
        Assoc(PartText(parts[0]), [AMPERSAND] + FormText(more) + [AMPERSAND], PartText(p));
      }
    }
  }

  lemma {:induction false} ReplaceLast(parts: seq<Part>, q: Part, t: Text)
    requires parts != [] && AreParts(parts) && IsPart(q) && PartText(q) == PartText(parts[|parts| - 1]) + t
    ensures var more := parts[..|parts| - 1] + [q]; AreParts(more) && FormText(more) == FormText(parts) + t
  {
    hide PartText, IsPart, FormText;
    var head, p := parts[..|parts| - 1], parts[|parts| - 1];
    assert parts == head + [p];
    LastPartText(head, p);
    LastPartText(head, q);
    Assoc(if head == [] then [] else FormText(head) + [AMPERSAND], PartText(p), t);
  }

  lemma {:induction false} AppendUnit(parts: seq<Part>, u: Unit) returns (more: seq<Part>)
    requires parts != [] && AreParts(parts) && IsUnit(u)
    ensures more != [] && AreParts(more) && FormText(more) == FormText(parts) + UnitText(u)
  {
    hide PartText, IsPart, FormText, IsUnit, WithUnit, UnitText;
    var p := parts[|parts| - 1];
    WithUnitText(p, u);
    ReplaceLast(parts, WithUnit(p, u), UnitText(u));
    more := parts[..|parts| - 1] + [WithUnit(p, u)];
  }

  lemma {:induction false} AppendValue(parts: seq<Part>) returns (more: seq<Part>)
    requires parts != [] && AreParts(parts)
    ensures more != [] && AreParts(more) && FormText(more) == FormText(parts) + [EQUALS]
  {
    var p := parts[|parts| - 1];
    var q := p.(values := p.values + [[]]);
    ValuesTextMore(p.values, []);
    assert [EQUALS] + TextOf([]) == [EQUALS];
    Assoc(TextOf(p.key), ValuesText(p.values), [EQUALS]);
    assert IsPart(q);
    hide IsPart, FormText, AreUnits;
    ReplaceLast(parts, q, [EQUALS]);
    more := parts[..|parts| - 1] + [q];
  }

  lemma {:induction false} AppendPart(parts: seq<Part>) returns (more: seq<Part>)
    requires parts != [] && AreParts(parts)
    ensures more != [] && AreParts(more) && FormText(more) == FormText(parts) + [AMPERSAND]
  {
    more := parts + [Part([], [])];
    LastPartText(parts, Part([], []));
    assert PartText(Part([], [])) == [];
    hide FormText;
    NoValues();
  }

  /** Every text is spelled by some parts, up to an escape that is cut short. */
  lemma {:induction false} Parts(t: Text) returns (parts: seq<Part>, rest: Text)
    ensures parts != [] && AreParts(parts) && IsCutShort(rest) && t == FormText(parts) + rest
    decreases |t|
  {
    hide FormText, AreParts;
    if t == [] {
      parts, rest := [Part([], [])], [];
      NothingSpelled();
    } else {
      var s, c := t[..|t| - 1], t[|t| - 1];
      parts, rest := Parts(s);
      assert t == s + [c];
      Assoc(FormText(parts), rest, [c]);
      ghost var was, r := FormText(parts), rest;
      if rest == [] {
        if c == PERCENT {
          rest := [c];
        } else if c == EQUALS {
          parts := AppendValue(parts);
        } else if c == AMPERSAND {
          parts := AppendPart(parts);
        } else {
          parts := AppendUnit(parts, Plain(c));
        }
      } else if |rest| == 1 {
        rest := rest + [c];
      } else {
        assert rest + [c] == UnitText(Escaped(rest[1], c));
        parts := AppendUnit(parts, Escaped(rest[1], c));
        rest := [];
      }
      assert t == was + (r + [c]);
      assert r == [] ==> r + [c] == [c];
      assert rest == [] ==> FormText(parts) + rest == FormText(parts);
    }
  }

  lemma NothingSpelled()
    ensures FormText([Part([], [])]) == [] && AreParts([Part([], [])])
  {
  }

  /** Decoding any text: the pairs of its parts, the first value of each key, an empty last pair left out. */
  lemma Decodes(t: Text) returns (parts: seq<Part>, rest: Text)
    ensures parts != [] && AreParts(parts) && IsCutShort(rest) && t == FormText(parts) + rest
    ensures Params(t) == Given(PairsOf(parts))
  {
    hide FormText, AreParts, Params, Given, IsCutShort;
    parts, rest := Parts(t);
    ReadsParts(parts, rest);
  }

  lemma {:induction false} GivenFirst(pairs: seq<Pair>, i: nat)
    requires i < |pairs| && (forall j :: 0 <= j < i ==> pairs[j].key != pairs[i].key)
    requires i == |pairs| - 1 ==> pairs[i] != Pair([], [])
    ensures pairs[i].key in Given(pairs) && Given(pairs)[pairs[i].key] == pairs[i].value
  {
    var some := if pairs[|pairs| - 1] == Pair([], []) then pairs[..|pairs| - 1] else pairs;
    assert i < |some| && forall j :: 0 <= j <= i ==> some[j] == pairs[j];
    FirstValueKept(map[], some, i);
  }

  lemma {:induction false} GivenOnly(pairs: seq<Pair>, key: Text)
    requires pairs != [] && key in Given(pairs)
    ensures exists i :: 0 <= i < |pairs| && pairs[i].key == key
  {
    var some := if pairs[|pairs| - 1] == Pair([], []) then pairs[..|pairs| - 1] else pairs;
    OnlyInserted(map[], some, key);
    var i :| 0 <= i < |some| && some[i].key == key;
    assert pairs[i].key == key;
  }

  /** A form with a repeated key gives the key's first value, and no keys but its own. */
  lemma {:induction false} RepeatedKeys(pairs: seq<Pair>, i: nat)
    requires i < |pairs| && AllAsciiPairs(pairs)
    requires forall j :: 0 <= j < i ==> pairs[j].key != pairs[i].key
    requires i == |pairs| - 1 ==> pairs[i] != Pair([], [])
    ensures var m := Params(Json2Form(pairs));
      pairs[i].key in m && m[pairs[i].key] == pairs[i].value
      && forall key :: key in m ==> exists j :: 0 <= j < |pairs| && pairs[j].key == key
  {
    hide Params, Json2Form, ShownPairs, AllAscii, InsertAll;
    FormGives(pairs);
    ShownPairsAre(pairs);
    assert Params(Json2Form(pairs)) == Given(pairs);
    GivenFirst(pairs, i);
    forall key | key in Given(pairs) ensures exists j :: 0 <= j < |pairs| && pairs[j].key == key {
      GivenOnly(pairs, key);
    }
  }

  // ---- digits ----------------------------------------------------------------------------------

  /** The digits 0 to 9 and A to F. */
  const DIGITS: seq<byte> := [48, 49, 50, 51, 52, 53, 54, 55, 56, 57, 65, 66, 67, 68, 69, 70]
  const LOWER_DIGITS: seq<byte> := [48, 49, 50, 51, 52, 53, 54, 55, 56, 57, 97, 98, 99, 100, 101, 102]

  /** Letters, digits, and the signs - . _ and ~ (RFC 3986, section 2.3). */
  predicate IsMarkOrLetter(c: byte) {
    c in {45, 46, 95, 126, 48, 49, 50, 51, 52, 53, 54, 55, 56, 57,
      65, 66, 67, 68, 69, 70, 71, 72, 73, 74, 75, 76, 77, 78, 79, 80, 81, 82, 83, 84, 85, 86, 87, 88, 89, 90,
      97, 98, 99, 100, 101, 102, 103, 104, 105, 106, 107, 108, 109, 110, 111, 112, 113, 114, 115, 116, 117, 118, 119,
      120, 121, 122}
  }

  lemma UnreservedAre(c: byte)
    ensures IsUnreserved(c) <==> IsMarkOrLetter(c)
  {
  }

  lemma DigitIs(i: nat)
    requires i < 16
    ensures HexDigit(i as byte) == DIGITS[i] && Hex2Dec(DIGITS[i]) == Hex2Dec(LOWER_DIGITS[i]) == i as byte < 16
  {
  }

  lemma Nibbles(x: byte, y: byte)
    requires x < 16 && y < 16
    ensures (x << 4) | y == 16 * x + y
  {
  }

  /** Two digits, of either case, spell sixteen times the one plus the other. */
  lemma TwoDigits(i: nat, j: nat, a: byte, b: byte)
    requires i < 16 && j < 16 && a in [DIGITS[i], LOWER_DIGITS[i]] && b in [DIGITS[j], LOWER_DIGITS[j]]
    ensures Spelled(a, b) == 16 * (i as byte) + (j as byte)
  {
    hide Hex2Dec, DIGITS, LOWER_DIGITS;
    DigitIs(i);
    DigitIs(j);
    Nibbles(i as byte, j as byte);
  }

  lemma Halves(x: byte, y: byte)
    requires x < 16 && y < 16
    ensures (16 * x + y) >> 4 == x && (16 * x + y) & 0x0F == y && (16 * x + y < 128 <==> x < 8)
  {
  }

  /** A byte that does not stand for itself is written with its two digits, behind six more if it is not ASCII. */
  lemma EncodedAs(i: nat, j: nat, c: byte)
    requires i < 16 && j < 16 && c == 16 * (i as byte) + (j as byte)
    ensures EncodeByte(c) == if IsMarkOrLetter(c) then [c] else if c == 32 then [43]
      else (if i as byte < 8 then [37] else [37, 70, 70, 70, 70, 70, 70]) + [DIGITS[i], DIGITS[j]]
  {
    UnreservedAre(c);
    hide HexDigit, IsUnreserved, IsMarkOrLetter, DIGITS;
    DigitIs(i);
    DigitIs(j);
    Halves(i as byte, j as byte);
  }
}
