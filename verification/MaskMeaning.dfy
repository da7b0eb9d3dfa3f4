/** The mask language, its plain reading, and the proof that compiling keeps it. */
module MaskMeaning {
  import opened Wrappers
  import opened JsonValue
  import opened JsonMask
  import M = JsonBuilderModel
  import P = JsonPrinter
  import N = JsonNumbers
  import R = JsonRoundTrip
  import C = MaskCursor
  import Chunks = JsonChunks

  // ---- the language ----------------------------------------------------------------------------

  datatype Op = AtLeast | Above | AtMost | Below | Exactly

  datatype Bound = Bound(op: Op, n: int)

  /** One alternative of a union: a type, with a value and bounds in brackets. */
  datatype Alternative = Alternative(kind: Kind, value: Option<Json>, bounds: seq<Bound>)

  datatype Mask =
    | Literal(text: string)
    | Union(alternatives: seq<Alternative>)
    | Positional(masks: seq<Mask>)
    | Fields(fields: seq<Field>)

  datatype Field = Field(key: string, mask: Mask)

  // ---- as it is written ------------------------------------------------------------------------

  function OpText(op: Op): string {
    match op case AtLeast => ">=" case Above => ">" case AtMost => "<=" case Below => "<" case Exactly => "="
  }

  function BoundText(b: Bound): string { OpText(b.op) + P.ShowInt(b.n) }

  /** Bounds separated by a space, up to the closing bracket. */
  function BoundsText(bounds: seq<Bound>): string
    requires bounds != []
  {
    BoundText(bounds[0]) + if |bounds| == 1 then ")" else " " + BoundsText(bounds[1..])
  }

  function KindText(k: Kind): string {
    match k
    case TString => "string" case TNumber => "number" case TDecimal => "decimal" case TBigint => "bigint"
    case TBool => "bool" case TNull => "null" case TNumeric => "numeric" case TAny => "any" case TArray => "array"
  }

  /** Only texts and numbers are written. */
  function ValueText(v: Json): string {
    match v case JString(s) => P.Quote(s) case JNumber(n) => P.ShowInt(n) case _ => ""
  }

  /** What is in brackets, up to the closing one. */
  function InsideText(a: Alternative): string
    requires a.value.Some? || a.bounds != []
  {
    if a.value.None? then BoundsText(a.bounds)
    else if a.bounds == [] then ValueText(a.value.value) + ")"
    else ValueText(a.value.value) + " " + BoundsText(a.bounds)
  }

  function AlternativeText(a: Alternative): string {
    KindText(a.kind) + if a.value.None? && a.bounds == [] then "" else "(" + InsideText(a)
  }

  function UnionText(alternatives: seq<Alternative>): string
    requires alternatives != []
  {
    AlternativeText(alternatives[0]) + if |alternatives| == 1 then "" else "|" + UnionText(alternatives[1..])
  }

  /** The mask as the JSON value a program writes. */
  function Written(mask: Mask): Json
    decreases mask
  {
    match mask
    case Literal(text) => JString(text)
    case Union(alternatives) => JString(if alternatives == [] then "{}" else "{" + UnionText(alternatives) + "}")
    case Positional(masks) => JArray(WrittenAll(masks))
    case Fields(fields) => JObject(WrittenFields(fields))
  }

  function WrittenAll(masks: seq<Mask>): seq<Json>
    decreases masks
  {
    if masks == [] then [] else [Written(masks[0])] + WrittenAll(masks[1..])
  }

  function WrittenFields(fields: seq<Field>): seq<Entry>
    decreases fields
  {
    if fields == [] then [] else [Entry(fields[0].key, Written(fields[0].mask))] + WrittenFields(fields[1..])
  }

  // ---- as it is read ---------------------------------------------------------------------------

  predicate Satisfies(size: int, b: Bound) {
    match b.op
    case AtLeast => size >= b.n
    case Above => size > b.n
    case AtMost => size <= b.n
    case Below => size < b.n
    case Exactly => size == b.n
  }

  predicate SatisfiesAll(size: int, bounds: seq<Bound>) {
    forall k :: 0 <= k < |bounds| ==> Satisfies(size, bounds[k])
  }

  predicate IsOfKind(v: Json, k: Kind) {
    match k
    case TString => v.JString?
    case TNumber => v.JNumber?
    case TDecimal => v.JDecimal?
    case TBigint => false
    case TBool => v.JBool?
    case TNull => v.JNull?
    case TNumeric => v.JNumber? || v.JDecimal?
    case TAny => true
    case TArray => v.JArray?
  }

  predicate MeetsAlternative(v: Json, a: Alternative) {
    && IsOfKind(v, a.kind) && (a.value.Some? ==> v == a.value.value)
    && (v.JString? ==> SatisfiesAll(|v.s|, a.bounds))
  }

  /** What a mask asks of a value; an object has exactly the keys of the mask. */
  predicate Meets(v: Json, mask: Mask)
    decreases mask
  {
    match mask
    case Literal(text) => v == JString(text)
    case Union(alternatives) => exists k :: 0 <= k < |alternatives| && MeetsAlternative(v, alternatives[k])
    case Positional(masks) =>
      v.JArray? && |v.items| == |masks| && forall k :: 0 <= k < |masks| ==> Meets(v.items[k], masks[k])
    case Fields(fields) =>
      v.JObject? && Known(fields, v.entries) && forall f :: 0 <= f < |fields| ==> FieldHeld(v.entries, fields[f])
  }

  /** No entry has a key the mask has not. */
  predicate Known(fields: seq<Field>, entries: seq<Entry>) {
    forall k :: 0 <= k < |entries| ==> HasField(fields, entries[k].key)
  }

  predicate HasField(fields: seq<Field>, key: string) { exists f :: 0 <= f < |fields| && fields[f].key == key }

  /** An entry has the field's key and meets its mask. */
  predicate FieldHeld(entries: seq<Entry>, f: Field)
    decreases f, 1
  {
    exists k :: 0 <= k < |entries| && entries[k].key == f.key && Meets(entries[k].value, f.mask)
  }

  // ---- bounds ----------------------------------------------------------------------------------

  predicate HasLower(b: Bound) { b.op == AtLeast || b.op == Above || b.op == Exactly }
  predicate HasUpper(b: Bound) { b.op == AtMost || b.op == Below || b.op == Exactly }

  /** At most one lower and one upper bound, and numbers that can be added to. */
  predicate OneOfEach(bounds: seq<Bound>) {
    && (forall i, j :: 0 <= i < j < |bounds| ==>
          !(HasLower(bounds[i]) && HasLower(bounds[j])) && !(HasUpper(bounds[i]) && HasUpper(bounds[j])))
    && forall i :: 0 <= i < |bounds| ==> INT64_MIN < bounds[i].n < INT64_MAX
  }

  function CompareOf(op: Op): Compare {
    match op
    case AtLeast => EqualOrGreater case Above => Greater
    case AtMost => EqualOrLess case Below => Less
    case Exactly => Equal
  }

  /** A row with a bound put in. */
  function Bounded(r: Row, b: Bound): Row {
    match b.op
    case AtLeast => r.(minMean := Some(b.n - 1))
    case Above => r.(minMean := Some(b.n))
    case AtMost => r.(maxMean := Some(b.n + 1))
    case Below => r.(maxMean := Some(b.n))
    case Exactly => r.(maxMean := Some(b.n + 1), minMean := Some(b.n - 1))
  }

  function BoundedAll(r: Row, bounds: seq<Bound>): Row
    decreases |bounds|
  {
    if bounds == [] then r else BoundedAll(Bounded(r, bounds[0]), bounds[1..])
  }

  /** A type with its value, before its bounds are put in. */
  function Base(a: Alternative): Row { Typed(a.kind).(value := a.value) }

  function RowOf(a: Alternative): Row { BoundedAll(Base(a), a.bounds) }

  /** The bounds still fit into a row. */
  predicate Fits(r: Row, bounds: seq<Bound>) {
    && OneOfEach(bounds)
    && (r.minMean.Some? ==> forall i :: 0 <= i < |bounds| ==> !HasLower(bounds[i]))
    && (r.maxMean.Some? ==> forall i :: 0 <= i < |bounds| ==> !HasUpper(bounds[i]))
  }

  lemma FitsOn(r: Row, bounds: seq<Bound>)
    requires bounds != [] && Fits(r, bounds)
    ensures Fits(Bounded(r, bounds[0]), bounds[1..])
  {
  }

  /** The size a row admits, with its bounds read as plain numbers. */
  predicate PlainlyAdmitted(size: nat, r: Row) {
    (r.minMean.Some? ==> size > r.minMean.value) && (r.maxMean.Some? ==> size < r.maxMean.value)
  }

  lemma {:induction false} BoundsAsWritten(size: nat, r: Row, bounds: seq<Bound>)
    requires Fits(r, bounds)
    ensures PlainlyAdmitted(size, BoundedAll(r, bounds)) <==> PlainlyAdmitted(size, r) && SatisfiesAll(size, bounds)
    ensures BoundedAll(r, bounds).kind == r.kind && BoundedAll(r, bounds).value == r.value
    ensures BoundedAll(r, bounds).items == r.items
    decreases |bounds|
  {
    if bounds != [] {
      FitsOn(r, bounds);
      BoundsAsWritten(size, Bounded(r, bounds[0]), bounds[1..]);
      assert forall k :: 1 <= k < |bounds| ==> bounds[k] == bounds[1..][k - 1];
      assert SatisfiesAll(size, bounds) <==> Satisfies(size, bounds[0]) && SatisfiesAll(size, bounds[1..]);
    }
  }

  predicate InRange(r: Row) {
    && (r.minMean.Some? ==> INT64_MIN <= r.minMean.value < INT64_MAX)
    && (r.maxMean.Some? ==> INT64_MIN <= r.maxMean.value <= INT64_MAX)
  }

  /** A lower bound below zero admits no size, and an upper bound below zero every size, because sizes
      are unsigned: the row is exact when neither happens, or when nothing is to be admitted anyway. */
  predicate IsExact(r: Row) {
    if r.minMean.Some? && r.minMean.value < 0 then r.maxMean.Some? && r.maxMean.value <= 0
    else !(r.maxMean.Some? && r.maxMean.value < 0)
  }

  /** Exactly then the comparison with the sizes a container can have is the plain one. */
  lemma ExactBounds(r: Row)
    requires InRange(r)
    ensures IsExact(r) <==>
            forall size: nat :: size <= INT64_MAX ==> (SizeAdmitted(size, r) <==> PlainlyAdmitted(size, r))
  {
    if !IsExact(r) {
      var size := if r.minMean.Some? && r.minMean.value >= 0 then r.minMean.value + 1 else 0;
      assert size <= INT64_MAX && SizeAdmitted(size, r) != PlainlyAdmitted(size, r);
    }
  }

  // ---- compiling: one text after the other -----------------------------------------------------

  lemma {:induction false} ScanConcat(s: Scan, a: string, b: string)
    ensures ScanText(s, a + b) == match ScanText(s, a) case Err(e) => Err(e) case Ok(t) => ScanText(t, b)
    decreases |a|
  {
    hide ScanByte;
    if a == "" {
      assert a + b == b;
    } else {
      assert (a + b)[1..] == a[1..] + b;
      match ScanByte(s, a[0])
      case Err(_) =>
      case Ok(t) => ScanConcat(t, a[1..], b);
    }
  }

  lemma ScanOne(s: Scan, c: char)
    ensures ScanText(s, [c]) == ScanByte(s, c)
  {
    assert [c][1..] == "";
  }

  /** Before the type of an alternative, with the rows so far. */
  function AtType(rows: Option<Rows>, name: string, k: Kind): Scan {
    Scan(rows, Some(name), k, false, false, false, false, NoCompare, None)
  }

  /** In brackets, between two bounds or in one. */
  function InBracket(rows: Rows, k: Kind, within: bool, compare: Compare, builder: Option<M.Builder>): Scan {
    Scan(Some(rows), None, k, true, false, false, within, compare, builder)
  }

  /** After an alternative. */
  function Past(rows: Rows, k: Kind): Scan {
    Scan(Some(rows), None, k, false, false, false, false, NoCompare, None)
  }

  predicate AllAlpha(s: string) { forall i :: 0 <= i < |s| ==> IsAlpha(s[i]) }

  lemma {:induction false} NameScan(rows: Option<Rows>, done: string, name: string, k: Kind)
    requires AllAlpha(name)
    ensures ScanText(AtType(rows, done, k), name) == Ok(AtType(rows, done + name, k))
    decreases |name|
  {
    if name == "" {
      assert done + name == done;
    } else {
      NameScan(rows, done + [name[0]], name[1..], k);
      assert done + [name[0]] + name[1..] == done + name;
    }
  }

  predicate IsNamed(k: Kind) { k != TArray }

  lemma NameIs(k: Kind)
    requires IsNamed(k)
    ensures AllAlpha(KindText(k)) && KindNamed(KindText(k)) == Some(k)
  {
  }

  /** The characters of a comparison. */
  lemma OpScan(rows: Rows, k: Kind, op: Op)
    ensures ScanText(InBracket(rows, k, false, NoCompare, None), OpText(op))
      == Ok(InBracket(rows, k, true, CompareOf(op), None))
  {
    var s := InBracket(rows, k, false, NoCompare, None);
    var text := OpText(op);
    ScanOne(s, text[0]);
    if |text| == 2 {
      ScanConcat(s, [text[0]], [text[1]]);
      ScanOne(InBracket(rows, k, true, if op == AtLeast then Greater else JsonMask.Less, None), text[1]);
      assert text == [text[0]] + [text[1]];
    } else {
      assert text == [text[0]];
    }
  }

  /** Characters that go to the nested builder. */
  predicate IsNumberText(s: string) {
    forall i :: 0 <= i < |s| ==> IsDigit(s[i]) || s[i] == '-'
  }

  lemma {:induction false} NumberScan(rows: Rows, k: Kind, compare: Compare, within: bool, builder: Option<M.Builder>,
      text: string, b: M.Builder)
    requires IsNumberText(text) && text != "" && M.Fold(builder.GetOr(M.Blank), text) == M.Running(b)
    ensures ScanText(InBracket(rows, k, within, compare, builder), text)
      == Ok(InBracket(rows, k, false, compare, Some(b)))
    decreases |text|
  {
    hide M.Consume;
    var c := text[0];
    GivenOne(builder, text);
    var d := M.Consume(builder.GetOr(M.Blank), c).b;
    var s, t := InBracket(rows, k, within, compare, builder), InBracket(rows, k, false, compare, Some(d));
    assert ScanByte(s, c) == Ok(t);
    if |text| == 1 {
      assert text[1..] == "" && b == d;
    } else {
      NumberScan(rows, k, compare, false, Some(d), text[1..], b);
    }
  }

  lemma GivenOne(builder: Option<M.Builder>, text: string)
    requires text != "" && M.Fold(builder.GetOr(M.Blank), text).Running?
    ensures M.Consume(builder.GetOr(M.Blank), text[0]).More?
    ensures Given(builder, text[0]) == Ok(M.Consume(builder.GetOr(M.Blank), text[0]).b)
    ensures M.Fold(builder.GetOr(M.Blank), text) == M.Fold(M.Consume(builder.GetOr(M.Blank), text[0]).b, text[1..])
  {
    hide M.Consume;
    var b := builder.GetOr(M.Blank);
    var one := [text[0]];
    assert one[0] == text[0] && one[1..] == "";
    assert M.Consume(b, text[0]).More?;
    var d := M.Consume(b, text[0]).b;
    assert M.Fold(d, "") == M.Running(d);
    assert M.Fold(b, one) == M.Fold(d, one[1..]);
  }

  lemma CurrentOfWith(rows: Rows, r: Row, q: Row)
    requires Current(rows).Some?
    ensures Current(WithCurrent(rows, r)) == Some(r) && WithCurrent(WithCurrent(rows, r), q) == WithCurrent(rows, q)
  {
  }

  lemma BoundInserted(rows: Rows, r: Row, b: Bound)
    requires Current(rows) == Some(r) && Fits(r, [b])
    ensures InsertBound(rows, CompareOf(b.op), b.n) == Ok(WithCurrent(rows, Bounded(r, b)))
  {
    assert [b][0] == b;
    hide WithCurrent, Current;
    if b.op == Exactly {
      CurrentOfWith(rows, r.(maxMean := Some(b.n + 1)), Bounded(r, b));
    }
  }

  lemma FirstFits(r: Row, bounds: seq<Bound>)
    requires bounds != [] && Fits(r, bounds)
    ensures Fits(r, [bounds[0]])
  {
  }

  /** A bound, with the number left in the nested builder. */
  lemma BoundScan(rows: Rows, k: Kind, b: Bound)
    requires INT64_MIN < b.n < INT64_MAX
    ensures ScanText(InBracket(rows, k, false, NoCompare, None), BoundText(b))
         == Ok(InBracket(rows, k, false, CompareOf(b.op), Some(R.ScalarBuilder(JNumber(b.n)))))
  {
    hide ScanText, M.Fold, OpText, P.ShowInt, R.ScalarBuilder;
    NumberText(b.n);
    OpScan(rows, k, b.op);
    ScanConcat(InBracket(rows, k, false, NoCompare, None), OpText(b.op), P.ShowInt(b.n));
    NumberScan(rows, k, CompareOf(b.op), true, None, P.ShowInt(b.n), R.ScalarBuilder(JNumber(b.n)));
  }

  lemma NumberText(n: int)
    requires INT64_MIN < n < INT64_MAX
    ensures P.ShowInt(n) != "" && IsNumberText(P.ShowInt(n))
    ensures M.Fold(M.Blank, P.ShowInt(n)) == M.Running(R.ScalarBuilder(JNumber(n)))
    ensures M.Get(R.ScalarBuilder(JNumber(n))) == Ok(JNumber(n))
  {
    N.ShowNatDigits(if n < 0 then -n else n);
    R.ScalarFold(JNumber(n), 0, 0, "");
    assert P.Dump(JNumber(n), 0, 0) + "" == P.ShowInt(n);
    hide P.ShowNat;
  }

  /** The kinds a bound is modelled for. */
  predicate MayHaveBounds(k: Kind) { k == TString || k == TNumber || k == TNull || k == TNumeric || k == TAny }

  /** The character after a bound puts it in. */
  lemma BoundTaken(rows: Rows, r: Row, k: Kind, b: Bound)
    requires Current(rows) == Some(r) && Fits(r, [b]) && MayHaveBounds(k)
    ensures var s := InBracket(rows, k, false, CompareOf(b.op), Some(R.ScalarBuilder(JNumber(b.n))));
      var more := WithCurrent(rows, Bounded(r, b));
      ScanText(s, ")") == Ok(Past(more, k)) && ScanText(s, " ") == Ok(InBracket(more, k, false, NoCompare, None))
  {
    assert [b][0] == b;
    NumberText(b.n);
    BoundInserted(rows, r, b);
    hide M.Get, R.ScalarBuilder, InsertBound, WithCurrent, Current;
    var s := InBracket(rows, k, false, CompareOf(b.op), Some(R.ScalarBuilder(JNumber(b.n))));
    ScanOne(s, ')');
    ScanOne(s, ' ');
  }

  /** All bounds of an alternative, up to the closing bracket. */
  lemma {:induction false} BoundsScan(rows: Rows, r: Row, k: Kind, bounds: seq<Bound>)
    requires bounds != [] && Current(rows) == Some(r) && Fits(r, bounds) && MayHaveBounds(k)
    ensures ScanText(InBracket(rows, k, false, NoCompare, None), BoundsText(bounds))
         == Ok(Past(WithCurrent(rows, BoundedAll(r, bounds)), k))
    decreases |bounds|
  {
    hide ScanText, BoundText, Fits, Bounded, R.ScalarBuilder, WithCurrent, Current, Past, InBracket;
    var b := bounds[0];
    var start := InBracket(rows, k, false, NoCompare, None);
    FirstFits(r, bounds);
    assert INT64_MIN < b.n < INT64_MAX by { InRangeOf(r, bounds); }
    BoundScan(rows, k, b);
    BoundTaken(rows, r, k, b);
    if |bounds| == 1 {
      ScanConcat(start, BoundText(b), ")");
      assert BoundedAll(r, bounds) == Bounded(r, b);
    } else {
      var more := WithCurrent(rows, Bounded(r, b));
      FitsOn(r, bounds);
      CurrentOfWith(rows, Bounded(r, b), BoundedAll(r, bounds));
      BoundsScan(more, Bounded(r, b), k, bounds[1..]);
      ScanConcat(start, BoundText(b), " " + BoundsText(bounds[1..]));
      ScanConcat(InBracket(rows, k, false, CompareOf(b.op), Some(R.ScalarBuilder(JNumber(b.n)))), " ",
        BoundsText(bounds[1..]));
    }
  }

  lemma InRangeOf(r: Row, bounds: seq<Bound>)
    requires bounds != [] && Fits(r, bounds)
    ensures INT64_MIN < bounds[0].n < INT64_MAX
  {
  }

  // ---- compiling: values -----------------------------------------------------------------------

  lemma NumberValueScan(rows: Rows, r: Row, n: int)
    requires Current(rows) == Some(r) && r.value.None? && INT64_MIN < n < INT64_MAX
    ensures ValueScanned(rows, r, TNumber, JNumber(n))
  {
    hide ScanText, M.Fold, M.Get, P.ShowInt, R.ScalarBuilder, WithCurrent, Current;
    var b, start := R.ScalarBuilder(JNumber(n)), InBracket(rows, TNumber, false, NoCompare, None);
    NumberText(n);
    NumberScan(rows, TNumber, NoCompare, false, None, P.ShowInt(n), b);
    ScanConcat(start, P.ShowInt(n), ")");
    ScanConcat(start, P.ShowInt(n), " ");
    ScanOne(InBracket(rows, TNumber, false, NoCompare, Some(b)), ')');
    ScanOne(InBracket(rows, TNumber, false, NoCompare, Some(b)), ' ');
  }

  /** A value in brackets is put into the row, whether the bracket closes after it or bounds follow. */
  predicate ValueScanned(rows: Rows, r: Row, k: Kind, v: Json) {
    var start, more := InBracket(rows, k, false, NoCompare, None), WithCurrent(rows, r.(value := Some(v)));
    && ScanText(start, ValueText(v) + ")") == Ok(Past(more, k))
    && ScanText(start, ValueText(v) + " ") == Ok(InBracket(more, k, false, NoCompare, None))
  }

  /** Inside quotes in brackets. */
  function InQuotes(rows: Rows, b: M.Builder): Scan {
    Scan(Some(rows), None, TString, true, false, true, false, NoCompare, Some(b))
  }

  /** One character for the nested builder. */
  lemma GivenByte(b: M.Builder, text: string, d: M.Builder)
    requires text != "" && !M.Ready(b) && M.Fold(b, text) == M.Finished(d, "") && M.Ready(d)
    ensures if |text| == 1 then Given(Some(b), text[0]) == Ok(d)
      else
        var out := M.Consume(b, text[0]);
        && out.More? && !M.Ready(out.b) && Given(Some(b), text[0]) == Ok(out.b)
        && M.Fold(out.b, text[1..]) == M.Finished(d, "")
  {
    hide M.Consume;
    Chunks.ConsumeKeeps(b, text[0]);
    var one := [text[0]];
    assert one[0] == text[0] && one[1..] == "";
    if |text| == 1 { assert text == one; }
    var out := M.Consume(b, text[0]);
    if out.More? { assert M.Fold(out.b, "") == M.Running(out.b); }
  }

  lemma {:induction false} QuotedScan(rows: Rows, r: Row, b: M.Builder, text: string, d: M.Builder)
    requires Current(rows) == Some(r) && r.value.None?
    requires text != "" && text[|text| - 1] == '"' && !M.Ready(b)
    requires M.Fold(b, text) == M.Finished(d, "") && M.Ready(d)
    ensures ScanText(InQuotes(rows, b), text)
         == Ok(InBracket(WithCurrent(rows, r.(value := Some(M.Value(d)))), TString, false, NoCompare, None))
    decreases |text|
  {
    hide M.Consume, M.Fold, M.Ready, M.Value, Given, WithCurrent, Current;
    GivenByte(b, text, d);
    if |text| == 1 {
      ScanOne(InQuotes(rows, b), text[0]);
      assert text == [text[0]];
    } else {
      QuotedScan(rows, r, M.Consume(b, text[0]).b, text[1..], d);
    }
  }

  lemma TextValueScan(rows: Rows, r: Row, s: string)
    requires Current(rows) == Some(r) && r.value.None? && R.Scan(0, s).Some?
    ensures ValueScanned(rows, r, TString, JString(s))
  {
    var text, start := P.Quote(s), InBracket(rows, TString, false, NoCompare, None);
    R.StringGives(s, "");
    assert text + "" == text && text[0] == '"' && |text| >= 2;
    var fed := M.Fold(M.Blank, text);
    var b := QuoteOpens();
    hide M.Consume, M.Value, M.Ready, Given, R.Scan, P.Escape, WithCurrent, Current;
    assert M.Fold(b, text[1..]) == fed;
    QuotedScan(rows, r, b, text[1..], fed.b);
    var more := WithCurrent(rows, r.(value := Some(JString(s))));
    hide ScanText;
    ScanConcat(start, ['"'], text[1..]);
    ScanOne(start, '"');
    assert text == ['"'] + text[1..];
    ScanConcat(start, text, ")");
    ScanConcat(start, text, " ");
    ScanOne(InBracket(more, TString, false, NoCompare, None), ')');
    ScanOne(InBracket(more, TString, false, NoCompare, None), ' ');
  }

  lemma QuoteOpens() returns (b: M.Builder)
    ensures M.Consume(M.Blank, '"') == M.More(b) && !M.Ready(b) && Given(None, '"') == Ok(b)
  {
    b := M.Consume(M.Blank, '"').b;
    var one := ['"'];
    assert one[0] == '"' && one[1..] == "";
    assert M.Fold(b, "") == M.Running(b);
  }

  /** What is in brackets after a type. */
  lemma InsideScan(rows: Rows, a: Alternative)
    requires Current(rows) == Some(Typed(a.kind)) && Compiles(a) && (a.value.Some? || a.bounds != [])
    ensures ScanText(InBracket(rows, a.kind, false, NoCompare, None), InsideText(a))
      == Ok(Past(WithCurrent(rows, RowOf(a)), a.kind))
  {
    hide ScanText, BoundsText, ValueText, Past, InBracket, OneOfEach, R.Scan;
    var k := a.kind;
    if a.value.Some? {
      var more := WithCurrent(rows, Base(a));
      if k == TString {
        TextValueScan(rows, Typed(k), a.value.value.s);
      } else {
        NumberValueScan(rows, Typed(k), a.value.value.n);
      }
      CurrentOfWith(rows, Base(a), RowOf(a));
      if a.bounds != [] {
        ScanConcat(InBracket(rows, k, false, NoCompare, None), ValueText(a.value.value) + " ", BoundsText(a.bounds));
        BoundsScan(more, Base(a), k, a.bounds);
      }
    } else {
      BoundsScan(rows, Base(a), k, a.bounds);
    }
  }

  // ---- compiling: alternatives -----------------------------------------------------------------

  /** A value of the type, which the nested builder reads: a text for a string, an integer for a number. */
  predicate HasValue(k: Kind, v: Json) {
    (k == TString && v.JString? && R.Scan(0, v.s).Some?) || (k == TNumber && v.JNumber? && INT64_MIN < v.n < INT64_MAX)
  }

  /** The compiler takes an alternative: its type has a name, its value is of the type, its bounds fit. */
  predicate Compiles(a: Alternative) {
    && IsNamed(a.kind) && OneOfEach(a.bounds) && (a.bounds != [] ==> MayHaveBounds(a.kind))
    && (a.value.Some? ==> HasValue(a.kind, a.value.value))
  }

  function RowsFor(alternatives: seq<Alternative>): seq<Row> {
    if alternatives == [] then [] else [RowOf(alternatives[0])] + RowsFor(alternatives[1..])
  }

  predicate Growing(rows: Option<Rows>) { rows.None? || rows.value.Many? }

  function Added(rows: Option<Rows>, a: Alternative): Rows { WithCurrent(AddType(rows, a.kind), RowOf(a)) }

  function AsMany(rows: Rows): Rows { match rows case One(r) => Many([r]) case Many(_) => rows }

  /** The rows of the alternatives that follow. */
  function AddedAll(rows: Option<Rows>, alternatives: seq<Alternative>): Rows
    requires alternatives != []
    decreases |alternatives|
  {
    var more := Added(rows, alternatives[0]);
    if |alternatives| == 1 then more else AddedAll(Some(AsMany(more)), alternatives[1..])
  }

  /** At the end of an alternative, whether or not its type has been looked up. */
  predicate EndsWith(t: Scan, rows: Rows, k: Kind) {
    && ScanEnd(t) == Ok(rows)
    && ScanByte(t, '|') == Ok(AtType(Some(AsMany(rows)), "", k))
  }

  lemma AddedCurrent(rows: Option<Rows>, k: Kind)
    requires Growing(rows)
    ensures Current(AddType(rows, k)) == Some(Typed(k)) && WithCurrent(AddType(rows, k), Typed(k)) == AddType(rows, k)
  {
  }

  lemma OpenBracket(rows: Option<Rows>, k0: Kind, k: Kind)
    requires Growing(rows) && IsNamed(k)
    ensures ScanText(AtType(rows, KindText(k), k0), "(") == Ok(InBracket(AddType(rows, k), k, false, NoCompare, None))
    ensures EndsWith(AtType(rows, KindText(k), k0), AddType(rows, k), k)
  {
    NameIs(k);
    hide KindText, KindNamed;
    ScanOne(AtType(rows, KindText(k), k0), '(');
  }

  lemma PastEnds(rows: Rows, k: Kind)
    ensures EndsWith(Past(rows, k), rows, k)
  {
  }

  lemma AlternativeScan(rows: Option<Rows>, k0: Kind, a: Alternative) returns (t: Scan)
    requires Growing(rows) && Compiles(a)
    ensures ScanText(AtType(rows, "", k0), AlternativeText(a)) == Ok(t) && EndsWith(t, Added(rows, a), a.kind)
  {
    hide ScanText, EndsWith, KindText, WithCurrent, Current, AddType, Past, AtType, InBracket, InsideText;
    var k := a.kind;
    NameIs(k);
    NameScan(rows, "", KindText(k), k0);
    assert "" + KindText(k) == KindText(k);
    OpenBracket(rows, k0, k);
    AddedCurrent(rows, k);
    if a.value.None? && a.bounds == [] {
      t := AtType(rows, KindText(k), k0);
      assert AlternativeText(a) == KindText(k);
    } else {
      t := Past(Added(rows, a), k);
      PastEnds(Added(rows, a), k);
      InsideScan(AddType(rows, k), a);
      ScanConcat(AtType(rows, "", k0), KindText(k), "(" + InsideText(a));
      ScanConcat(AtType(rows, KindText(k), k0), "(", InsideText(a));
    }
  }

  lemma {:induction false} UnionScan(rows: Option<Rows>, k0: Kind, alternatives: seq<Alternative>) returns (t: Scan)
    requires Growing(rows) && alternatives != [] && forall i :: 0 <= i < |alternatives| ==> Compiles(alternatives[i])
    ensures ScanText(AtType(rows, "", k0), UnionText(alternatives)) == Ok(t)
    ensures ScanEnd(t) == Ok(AddedAll(rows, alternatives))
    decreases |alternatives|
  {
    hide ScanText, ScanEnd, ScanByte, Compiles, AlternativeText, Added, AtType;
    var a := alternatives[0];
    t := AlternativeScan(rows, k0, a);
    if |alternatives| == 1 {
      assert UnionText(alternatives) == AlternativeText(a);
    } else {
      var here := t;
      var next := Some(AsMany(Added(rows, a)));
      t := UnionScan(next, a.kind, alternatives[1..]);
      var start := AtType(rows, "", k0);
      ScanConcat(start, AlternativeText(a), "|" + UnionText(alternatives[1..]));
      ScanConcat(here, "|", UnionText(alternatives[1..]));
      ScanOne(here, '|');
    }
  }

  lemma {:induction false} AddedAreRows(rows: seq<Row>, alternatives: seq<Alternative>)
    requires alternatives != []
    ensures AddedAll(Some(Many(rows)), alternatives) == Many(rows + RowsFor(alternatives))
    decreases |alternatives|
  {
    hide RowOf, Added, RowsFor;
    var r := RowOf(alternatives[0]);
    AddedOne(rows, alternatives[0]);
    RowsForMore(rows, alternatives);
    if |alternatives| > 1 { AddedAreRows(rows + [r], alternatives[1..]); }
  }

  lemma RowsForMore(rows: seq<Row>, alternatives: seq<Alternative>)
    requires alternatives != []
    ensures rows + RowsFor(alternatives) == rows + [RowOf(alternatives[0])] + RowsFor(alternatives[1..])
    ensures |alternatives| == 1 ==> rows + RowsFor(alternatives) == rows + [RowOf(alternatives[0])]
  {
    var r, rest := RowOf(alternatives[0]), RowsFor(alternatives[1..]);
    assert RowsFor(alternatives) == [r] + rest;
    assert |alternatives| == 1 ==> rest == [];
    hide RowOf, RowsFor;
    Regroup(rows, r, rest);
  }

  lemma Regroup(rows: seq<Row>, r: Row, rest: seq<Row>)
    ensures rows + ([r] + rest) == rows + [r] + rest && [r] + [] == [r]
  {
  }

  lemma AddedOne(rows: seq<Row>, a: Alternative)
    ensures Added(Some(Many(rows)), a) == Many(rows + [RowOf(a)])
  {
    var more := rows + [Typed(a.kind)];
    assert more[..|more| - 1] == rows;
    hide RowOf;
  }

  function UnionRows(alternatives: seq<Alternative>): Rows
    requires alternatives != []
  {
    if |alternatives| == 1 then One(RowOf(alternatives[0])) else Many(RowsFor(alternatives))
  }

  /** A union compiles to the rows of its alternatives. */
  lemma UnionCompiles(alternatives: seq<Alternative>)
    requires alternatives != [] && forall i :: 0 <= i < |alternatives| ==> Compiles(alternatives[i])
    ensures CompileText("{" + UnionText(alternatives) + "}") == Ok(Leaf(UnionRows(alternatives)))
  {
    hide ScanText, ScanEnd, Compiles, UnionText, RowOf, RowsFor;
    var text := UnionText(alternatives);
    var t := UnionScan(None, TString, alternatives);
    UnionIsText(alternatives);
    var braced := "{" + text + "}";
    assert braced[1..|braced| - 1] == text;
    UnionRowsAre(alternatives);
  }

  lemma UnionRowsAre(alternatives: seq<Alternative>)
    requires alternatives != []
    ensures AddedAll(None, alternatives) == UnionRows(alternatives)
  {
    hide RowOf;
    if |alternatives| > 1 { AddedAreRows([RowOf(alternatives[0])], alternatives[1..]); }
  }

  lemma UnionIsText(alternatives: seq<Alternative>)
    requires alternatives != []
    ensures UnionText(alternatives) != ""
  {
  }

  // ---- what does not compile -------------------------------------------------------------------

  predicate InBounds(bounds: seq<Bound>) { forall i :: 0 <= i < |bounds| ==> INT64_MIN < bounds[i].n < INT64_MAX }

  /** A second lower bound, or a second upper one, throws at the character after it. */
  lemma BoundRefused(rows: Rows, r: Row, k: Kind, b: Bound)
    requires Current(rows) == Some(r) && !Fits(r, [b]) && MayHaveBounds(k) && INT64_MIN < b.n < INT64_MAX
    ensures var s := InBracket(rows, k, false, CompareOf(b.op), Some(R.ScalarBuilder(JNumber(b.n))));
      ScanText(s, ")") == Err(Throws) && ScanText(s, " ") == Err(Throws)
  {
    assert [b][0] == b && OneOfEach([b]);
    NumberText(b.n);
    SecondThrows(rows, r, b);
    hide M.Get, R.ScalarBuilder, InsertBound, WithCurrent, Current;
    var s := InBracket(rows, k, false, CompareOf(b.op), Some(R.ScalarBuilder(JNumber(b.n))));
    ScanOne(s, ')');
    ScanOne(s, ' ');
  }

  lemma SecondThrows(rows: Rows, r: Row, b: Bound)
    requires Current(rows) == Some(r)
    requires (r.minMean.Some? && HasLower(b)) || (r.maxMean.Some? && HasUpper(b))
    ensures InsertBound(rows, CompareOf(b.op), b.n) == Err(Throws)
  {
    if b.op == Exactly && r.maxMean.None? {
      CurrentOfWith(rows, r.(maxMean := Some(b.n + 1)), r);
    }
  }

  lemma FitsFirst(r: Row, bounds: seq<Bound>)
    requires bounds != [] && Fits(r, [bounds[0]]) && InBounds(bounds)
    ensures Fits(r, bounds) <==> Fits(Bounded(r, bounds[0]), bounds[1..])
  {
    assert [bounds[0]][0] == bounds[0];
    assert forall i :: 1 <= i < |bounds| ==> bounds[i] == bounds[1..][i - 1];
  }

  lemma {:induction false} BoundsThrow(rows: Rows, r: Row, k: Kind, bounds: seq<Bound>)
    requires bounds != [] && Current(rows) == Some(r) && !Fits(r, bounds) && MayHaveBounds(k) && InBounds(bounds)
    ensures ScanText(InBracket(rows, k, false, NoCompare, None), BoundsText(bounds)) == Err(Throws)
    decreases |bounds|
  {
    hide ScanText, BoundText, Fits, Bounded, R.ScalarBuilder, WithCurrent, Current, Past, InBracket;
    var b, start := bounds[0], InBracket(rows, k, false, NoCompare, None);
    var here := InBracket(rows, k, false, CompareOf(b.op), Some(R.ScalarBuilder(JNumber(b.n))));
    BoundScan(rows, k, b);
    ScanConcat(start, BoundText(b), if |bounds| == 1 then ")" else " " + BoundsText(bounds[1..]));
    ScanConcat(here, " ", if |bounds| == 1 then "" else BoundsText(bounds[1..]));
    if Fits(r, [b]) {
      FitsFirst(r, bounds);
      BoundTaken(rows, r, k, b);
      if |bounds| == 1 { NothingFits(Bounded(r, b), bounds[1..]); }
      CurrentOfWith(rows, Bounded(r, b), Bounded(r, b));
      if |bounds| > 1 { BoundsThrow(WithCurrent(rows, Bounded(r, b)), Bounded(r, b), k, bounds[1..]); }
    } else {
      BoundRefused(rows, r, k, b);
    }
  }

  lemma NothingFits(r: Row, bounds: seq<Bound>)
    requires bounds == []
    ensures Fits(r, bounds)
  {
  }

  /** One type with bounds compiles exactly when no two of them are on the same side; otherwise compiling throws. */
  lemma BoundsCompileExactly(k: Kind, bounds: seq<Bound>)
    requires bounds != [] && IsNamed(k) && MayHaveBounds(k) && InBounds(bounds)
    ensures var a := Alternative(k, None, bounds);
      CompileText("{" + AlternativeText(a) + "}") == if OneOfEach(bounds) then Ok(Leaf(One(RowOf(a)))) else Err(Throws)
  {
    var a := Alternative(k, None, bounds);
    if OneOfEach(bounds) {
      UnionCompiles([a]);
      assert UnionText([a]) == AlternativeText(a) + "" == AlternativeText(a);
    } else {
      assert !Fits(Typed(k), bounds);
      AddedCurrent(None, k);
      hide ScanText, BoundsText, InBracket, AtType, Current, AddType, Fits, KindText;
      var text, inside := AlternativeText(a), BoundsText(bounds);
      NameIs(k);
      NameScan(None, "", KindText(k), TString);
      assert "" + KindText(k) == KindText(k);
      OpenBracket(None, TString, k);
      BoundsThrow(AddType(None, k), Typed(k), k, bounds);
      ScanConcat(AtType(None, "", TString), KindText(k), "(" + inside);
      ScanConcat(AtType(None, KindText(k), TString), "(", inside);
      ThrowsInBraces(text);
    }
  }

  lemma ThrowsInBraces(text: string)
    requires text != "" && ScanText(AtType(None, "", TString), text) == Err(Throws)
    ensures CompileText("{" + text + "}") == Err(Throws)
  {
    hide ScanText;
    var braced := "{" + text + "}";
    assert braced[1..|braced| - 1] == text;
  }

  /** Letters that name no type do not compile. */
  lemma UnknownTypesThrow(name: string)
    requires name != "" && AllAlpha(name)
    requires name !in ["string", "number", "decimal", "bigint", "bool", "null", "numeric", "any", "none"]
    ensures CompileText("{" + name + "}") == Err(Throws)
  {
    NameScan(None, "", name, TString);
    assert "" + name == name;
    hide ScanText;
    var braced := "{" + name + "}";
    assert braced[1..|braced| - 1] == name;
  }

  /** Other comparisons: an equals sign in front of another is passed over, and the rest throw. */
  lemma OtherOps(rows: Rows, k: Kind, c: char, d: char)
    requires IsComparison(c) && IsComparison(d)
    ensures c in "=<>" && d in "=<>"
    ensures var s := InBracket(rows, k, false, NoCompare, None);
      ScanText(s, [c, d]) ==
        if d == '=' then
          if c == '=' then Err(Throws)
          else Ok(InBracket(rows, k, true, CompareOf(if c == '>' then AtLeast else AtMost), None))
        else if c == '=' then Ok(InBracket(rows, k, true, CompareOf(if d == '>' then Above else Below), None))
        else Err(Throws)
  {
    var s := InBracket(rows, k, false, NoCompare, None);
    ScanOne(s, c);
    ScanConcat(s, [c], [d]);
    ScanOne(InBracket(rows, k, true, if c == '=' then Equal else if c == '>' then Greater else JsonMask.Less, None), d);
    assert [c] + [d] == [c, d];
  }

  lemma TypeScan(k: Kind)
    requires IsNamed(k)
    ensures ScanText(AtType(None, "", TString), KindText(k) + "(")
      == Ok(InBracket(One(Typed(k)), k, false, NoCompare, None))
  {
    hide ScanText, KindText, EndsWith;
    NameIs(k);
    NameScan(None, "", KindText(k), TString);
    assert "" + KindText(k) == KindText(k);
    OpenBracket(None, TString, k);
    ScanConcat(AtType(None, "", TString), KindText(k), "(");
  }

  /** A bracket that is not closed is passed over when nothing is in it; a number in it throws. */
  lemma UnclosedBrackets(k: Kind, n: int)
    requires IsNamed(k) && INT64_MIN < n < INT64_MAX
    ensures CompileText("{" + (KindText(k) + "(") + "}") == Ok(Leaf(One(Typed(k))))
    ensures CompileText("{" + (KindText(k) + "(" + P.ShowInt(n)) + "}") == Err(Throws)
  {
    hide ScanText, KindText, P.ShowInt, R.ScalarBuilder, M.Fold, M.Get;
    var open := InBracket(One(Typed(k)), k, false, NoCompare, None);
    var b := R.ScalarBuilder(JNumber(n));
    TypeScan(k);
    CompilesInBraces(KindText(k) + "(", open, One(Typed(k)));
    NumberText(n);
    NumberScan(One(Typed(k)), k, NoCompare, false, None, P.ShowInt(n), b);
    ScanConcat(AtType(None, "", TString), KindText(k) + "(", P.ShowInt(n));
    EndsInBraces(KindText(k) + "(" + P.ShowInt(n), InBracket(One(Typed(k)), k, false, NoCompare, Some(b)));
  }

  lemma EndsInBraces(text: string, t: Scan)
    requires text != "" && ScanText(AtType(None, "", TString), text) == Ok(t) && ScanEnd(t) == Err(Throws)
    ensures CompileText("{" + text + "}") == Err(Throws)
  {
    hide ScanText, ScanEnd;
    var braced := "{" + text + "}";
    assert braced[1..|braced| - 1] == text;
  }

  /** And so does a comparison. */
  lemma UnclosedComparison(k: Kind, op: Op)
    requires IsNamed(k)
    ensures CompileText("{" + (KindText(k) + "(" + OpText(op)) + "}") == Err(Throws)
  {
    hide ScanText, KindText, OpText;
    TypeScan(k);
    OpScan(One(Typed(k)), k, op);
    ScanConcat(AtType(None, "", TString), KindText(k) + "(", OpText(op));
    EndsInBraces(KindText(k) + "(" + OpText(op), InBracket(One(Typed(k)), k, true, CompareOf(op), None));
  }

  /** A mask that is no text, array or object throws, and so does an array that begins with one. */
  lemma OtherMasksThrow(mask: Json, items: seq<Json>)
    requires mask.JNull? || mask.JBool? || mask.JNumber? || mask.JDecimal?
    ensures Compile(mask) == Err(Throws) && Compile(JArray([mask] + items)) == Err(Throws)
  {
    assert CompileItems([mask] + items) == Err(Throws);
  }

  /** Two values in brackets throw. */
  lemma TwoValuesThrow(n: int, m: int)
    requires INT64_MIN < n < INT64_MAX && INT64_MIN < m < INT64_MAX
    ensures CompileText("{" + (KindText(TNumber) + "(" + (P.ShowInt(n) + " " + (P.ShowInt(m) + ")"))) + "}")
      == Err(Throws)
  {
    hide ScanText, KindText, P.ShowInt, R.ScalarBuilder, M.Fold, M.Get;
    var rows, more := One(Typed(TNumber)), One(Typed(TNumber).(value := Some(JNumber(n))));
    var open, next := InBracket(rows, TNumber, false, NoCompare, None),
      InBracket(more, TNumber, false, NoCompare, None);
    var b := R.ScalarBuilder(JNumber(m));
    var tail := P.ShowInt(m) + ")";
    TypeScan(TNumber);
    NumberValueScan(rows, Typed(TNumber), n);
    NumberText(m);
    NumberScan(more, TNumber, NoCompare, false, None, P.ShowInt(m), b);
    ScanConcat(next, P.ShowInt(m), ")");
    ScanOne(InBracket(more, TNumber, false, NoCompare, Some(b)), ')');
    ScanConcat(open, P.ShowInt(n) + " ", tail);
    ScanConcat(AtType(None, "", TString), KindText(TNumber) + "(", P.ShowInt(n) + " " + tail);
    ThrowsInBraces(KindText(TNumber) + "(" + (P.ShowInt(n) + " " + tail));
  }

  /** A row with a value is met by that value alone; one whose value is of another type throws. */
  lemma RowWithValue(v: Json, k: Kind, w: Json)
    requires k in [TString, TNumber, TBool]
    ensures ValidRow(v, Typed(k).(value := Some(w)))
      == if !IsOfKind(v, k) then Invalid else if !IsOfKind(w, k) then Thrown else Holds(v == w)
  {
  }

  /** A type in front of square brackets is an array of it, against which only an empty array is valid: the items are
      not looked at, the validator throws. */
  lemma SquareBrackets(k: Kind, v: Json)
    requires IsNamed(k)
    ensures var r := Row(TArray, None, None, None, Some(One(Typed(k))));
      && CompileText("{" + (KindText(k) + "[]") + "}") == Ok(Leaf(One(r)))
      && ValidRow(v, r) == if !v.JArray? then Invalid else if v.items == [] then Valid else Thrown
  {
    hide ScanText, ScanEnd, KindText, KindNamed;
    NameIs(k);
    NameScan(None, "", KindText(k), TString);
    assert "" + KindText(k) == KindText(k);
    SquareScan(k);
    ScanConcat(AtType(None, "", TString), KindText(k), "[]");
    ScanConcat(AtType(None, KindText(k), TString), "[", "]");
    assert "[" + "]" == "[]";
    var rows := One(Row(TArray, None, None, None, Some(One(Typed(k)))));
    PastEnds(rows, TArray);
    CompilesInBraces(KindText(k) + "[]", Past(rows, TArray), rows);
  }

  /** No other brackets may follow them. */
  lemma BracketsBehindSquare(k: Kind, c: char, rest: string)
    requires IsNamed(k) && (c == '(' || c == '[')
    ensures CompileText("{" + (KindText(k) + ("[]" + ([c] + rest))) + "}") == Err(Throws)
  {
    hide ScanText, ScanEnd, KindText, KindNamed;
    NameIs(k);
    NameScan(None, "", KindText(k), TString);
    assert "" + KindText(k) == KindText(k);
    SquareScan(k);
    var past := Past(One(Row(TArray, None, None, None, Some(One(Typed(k))))), TArray);
    ScanConcat(AtType(None, "", TString), KindText(k), "[]" + ([c] + rest));
    assert "[]" + ([c] + rest) == "[" + ("]" + ([c] + rest));
    ScanConcat(AtType(None, KindText(k), TString), "[", "]" + ([c] + rest));
    ScanConcat(InBracket(One(Typed(k)), k, false, NoCompare, None).(bracket := false, square := true), "]", [c] + rest);
    ScanOne(past, c);
    ScanConcat(past, [c], rest);
    ThrowsInBraces(KindText(k) + ("[]" + ([c] + rest)));
  }

  lemma CompilesInBraces(text: string, t: Scan, rows: Rows)
    requires text != "" && ScanText(AtType(None, "", TString), text) == Ok(t) && ScanEnd(t) == Ok(rows)
    ensures CompileText("{" + text + "}") == Ok(Leaf(rows))
  {
    hide ScanText, ScanEnd;
    var braced := "{" + text + "}";
    assert braced[1..|braced| - 1] == text;
  }

  lemma SquareScan(k: Kind)
    requires IsNamed(k)
    ensures var inside := InBracket(One(Typed(k)), k, false, NoCompare, None).(bracket := false, square := true);
      && ScanText(AtType(None, KindText(k), TString), "[") == Ok(inside)
      && ScanText(inside, "]") == Ok(Past(One(Row(TArray, None, None, None, Some(One(Typed(k))))), TArray))
  {
    NameIs(k);
    hide KindText, KindNamed;
    ScanOne(AtType(None, KindText(k), TString), '[');
    ScanOne(InBracket(One(Typed(k)), k, false, NoCompare, None).(bracket := false, square := true), ']');
  }

  /** Braces with nothing between them are a text. */
  lemma EmptyBraces(v: Json)
    ensures CompileText("{}") == Ok(Leaf(One(Typed(TString).(value := Some(JString("{}"))))))
    ensures ValidRow(v, Typed(TString).(value := Some(JString("{}")))) == Holds(v == JString("{}"))
  {
  }

  // ---- the meaning of alternatives -------------------------------------------------------------

  /** Bounds on strings only, and there exact. */
  predicate IsPlain(a: Alternative) { (a.bounds != [] ==> a.kind == TString) && IsExact(RowOf(a)) }

  predicate HasSize(v: Json) { v.JString? ==> |v.s| <= INT64_MAX }

  lemma RowInRange(r: Row, bounds: seq<Bound>)
    requires Fits(r, bounds) && InRange(r)
    ensures InRange(BoundedAll(r, bounds))
    decreases |bounds|
  {
    if bounds != [] {
      FitsOn(r, bounds);
      RowInRange(Bounded(r, bounds[0]), bounds[1..]);
    }
  }

  lemma AlternativeMeans(v: Json, a: Alternative)
    requires Compiles(a) && IsPlain(a) && HasSize(v)
    ensures ValidRow(v, RowOf(a)) == Holds(MeetsAlternative(v, a))
  {
    var size := if v.JString? then |v.s| else 0;
    BoundsAsWritten(size, Base(a), a.bounds);
    RowInRange(Base(a), a.bounds);
    ExactBounds(RowOf(a));
    hide BoundedAll, SizeAdmitted, PlainlyAdmitted, IsExact;
    assert PlainlyAdmitted(size, Base(a)) by { NoBounds(size, a); }
    if v.JString? && a.kind == TString {
      assert SizeAdmitted(size, RowOf(a)) <==> PlainlyAdmitted(size, RowOf(a));
    }
  }

  lemma NoBounds(size: nat, a: Alternative)
    ensures PlainlyAdmitted(size, Base(a))
  {
  }

  lemma {:induction false} UnionMeans(v: Json, alternatives: seq<Alternative>)
    requires HasSize(v) && forall i :: 0 <= i < |alternatives| ==> Compiles(alternatives[i]) && IsPlain(alternatives[i])
    ensures ValidRows(v, RowsFor(alternatives))
         == Holds(exists k :: 0 <= k < |alternatives| && MeetsAlternative(v, alternatives[k]))
    decreases |alternatives|
  {
    hide Compiles, IsPlain, MeetsAlternative, ValidRow, RowOf;
    if alternatives != [] {
      AlternativeMeans(v, alternatives[0]);
      var rest := alternatives[1..];
      UnionMeans(v, rest);
      assert RowsFor(alternatives)[1..] == RowsFor(rest);
      assert forall k :: 0 <= k < |rest| ==> rest[k] == alternatives[k + 1];
      assert forall k :: 1 <= k < |alternatives| ==> alternatives[k] == rest[k - 1];
    }
  }

  // ---- whole masks -----------------------------------------------------------------------------

  /** A literal that is not in braces, unions whose alternatives compile to exact rows, and fields under
      different keys. */
  predicate IsMask(mask: Mask)
    decreases mask
  {
    match mask
    case Literal(text) => !IsBraced(text)
    case Union(alternatives) =>
      && alternatives != []
      && forall i :: 0 <= i < |alternatives| ==> Compiles(alternatives[i]) && IsPlain(alternatives[i])
    case Positional(masks) => forall i :: 0 <= i < |masks| ==> IsMask(masks[i])
    case Fields(fields) =>
      && (forall i, j :: 0 <= i < j < |fields| ==> fields[i].key != fields[j].key)
      && forall i :: 0 <= i < |fields| ==> IsMask(fields[i].mask)
  }

  predicate DistinctKeys(entries: seq<Entry>) {
    forall i, j :: 0 <= i < j < |entries| ==> entries[i].key != entries[j].key
  }

  /** A value as it can be stored: an object has a key once, a string a size. */
  predicate IsStored(v: Json)
    decreases v
  {
    match v
    case JString(s) => |s| <= INT64_MAX
    case JArray(items) => forall i :: 0 <= i < |items| ==> IsStored(items[i])
    case JObject(entries) => DistinctKeys(entries) && forall i :: 0 <= i < |entries| ==> IsStored(entries[i].value)
    case _ => true
  }

  function TreeOf(mask: Mask): Tree
    requires IsMask(mask)
    decreases mask
  {
    match mask
    case Literal(text) => Leaf(One(Typed(TString).(value := Some(JString(text)))))
    case Union(alternatives) => Leaf(UnionRows(alternatives))
    case Positional(masks) => ArrayOf(TreesOf(masks))
    case Fields(fields) => ObjectOf(BranchesOf(fields))
  }

  function TreesOf(masks: seq<Mask>): (trees: seq<Tree>)
    requires forall i :: 0 <= i < |masks| ==> IsMask(masks[i])
    ensures |trees| == |masks|
    decreases masks
  {
    if masks == [] then [] else [TreeOf(masks[0])] + TreesOf(masks[1..])
  }

  function BranchesOf(fields: seq<Field>): (branches: seq<Branch>)
    requires forall i :: 0 <= i < |fields| ==> IsMask(fields[i].mask)
    ensures |branches| == |fields|
    decreases fields
  {
    if fields == [] then [] else [Branch(fields[0].key, TreeOf(fields[0].mask))] + BranchesOf(fields[1..])
  }

  /** Every mask compiles. */
  lemma {:induction false} MaskCompiles(mask: Mask)
    requires IsMask(mask)
    ensures Compile(Written(mask)) == Ok(TreeOf(mask))
    decreases mask
  {
    hide CompileText, UnionText, UnionRows, Compiles, IsPlain;
    match mask
    case Literal(text) => LiteralCompiles(text);
    case Union(alternatives) => UnionCompiles(alternatives);
    case Positional(masks) => MasksCompile(masks);
    case Fields(fields) => FieldsCompile(fields);
  }

  lemma LiteralCompiles(text: string)
    requires !IsBraced(text)
    ensures CompileText(text) == Ok(Leaf(One(Typed(TString).(value := Some(JString(text))))))
  {
  }

  lemma {:induction false} MasksCompile(masks: seq<Mask>)
    requires forall i :: 0 <= i < |masks| ==> IsMask(masks[i])
    ensures CompileItems(WrittenAll(masks)) == Ok(TreesOf(masks))
    decreases masks
  {
    hide Compile, Written, IsMask, TreeOf;
    if masks != [] {
      MaskCompiles(masks[0]);
      MasksCompile(masks[1..]);
    }
  }

  lemma {:induction false} FieldsCompile(fields: seq<Field>)
    requires forall i :: 0 <= i < |fields| ==> IsMask(fields[i].mask)
    ensures CompileEntries(WrittenFields(fields)) == Ok(BranchesOf(fields))
    decreases fields
  {
    hide Compile, Written, IsMask, TreeOf;
    if fields != [] {
      MaskCompiles(fields[0].mask);
      FieldsCompile(fields[1..]);
    }
  }

  /** Validating a value against the compiled mask never throws, and holds exactly when the value meets
      the mask. */
  lemma {:induction false} TreeMeans(mask: Mask, v: Json)
    requires IsMask(mask) && IsStored(v)
    ensures ValidTree(v, TreeOf(mask)) == Holds(Meets(v, mask))
    decreases mask
  {
    hide Compiles, IsPlain, MeetsAlternative, ValidRow, RowOf;
    match mask
    case Literal(text) => LiteralMeans(text, v);
    case Union(alternatives) =>
      UnionMeans(v, alternatives);
      if |alternatives| == 1 { AlternativeMeans(v, alternatives[0]); }
    case Positional(masks) =>
      if v.JArray? && |v.items| == |masks| { ItemsMean(masks, v.items); }
    case Fields(fields) =>
      if v.JObject? { ObjectMeans(fields, v.entries); }
  }

  lemma LiteralMeans(text: string, v: Json)
    ensures ValidTree(v, Leaf(One(Typed(TString).(value := Some(JString(text)))))) == Holds(v == JString(text))
  {
  }

  lemma {:induction false} ItemsMean(masks: seq<Mask>, items: seq<Json>)
    requires |items| == |masks|
    requires forall i :: 0 <= i < |masks| ==> IsMask(masks[i])
    requires forall i :: 0 <= i < |items| ==> IsStored(items[i])
    ensures ValidItems(items, TreesOf(masks)) == Holds(forall k :: 0 <= k < |masks| ==> Meets(items[k], masks[k]))
    decreases masks
  {
    hide IsMask, IsStored, Meets, TreeOf, ValidTree;
    if masks != [] {
      TreeMeans(masks[0], items[0]);
      ItemsMean(masks[1..], items[1..]);
      assert TreesOf(masks)[0] == TreeOf(masks[0]) && TreesOf(masks)[1..] == TreesOf(masks[1..]);
      assert forall k :: 0 <= k < |masks| - 1 ==> masks[1..][k] == masks[k + 1] && items[1..][k] == items[k + 1];
      assert forall k :: 1 <= k < |masks| ==> masks[1..][k - 1] == masks[k] && items[1..][k - 1] == items[k];
    }
  }

  /** The value of a field of the mask meets its mask. */
  predicate FieldMet(entries: seq<Entry>, f: Field)
    decreases f, 1
  {
    var v := Lookup(entries, f.key);
    v.Some? && Meets(v.value, f.mask)
  }

  lemma {:induction false} BranchesMean(fields: seq<Field>, entries: seq<Entry>)
    requires forall i :: 0 <= i < |fields| ==> IsMask(fields[i].mask)
    requires forall i :: 0 <= i < |entries| ==> IsStored(entries[i].value)
    ensures ValidBranches(entries, BranchesOf(fields))
      == Holds(forall f :: 0 <= f < |fields| ==> FieldMet(entries, fields[f]))
    decreases fields, 0
  {
    hide IsMask, IsStored, Meets, TreeOf, ValidTree, Lookup;
    if fields != [] {
      var first := fields[0];
      LookupFinds(entries, first.key);
      var v := Lookup(entries, first.key);
      if v.Some? {
        TreeMeans(first.mask, v.value);
      }
      BranchesMean(fields[1..], entries);
      assert BranchesOf(fields)[0] == Branch(first.key, TreeOf(first.mask));
      assert BranchesOf(fields)[1..] == BranchesOf(fields[1..]);
      assert forall k :: 0 <= k < |fields| - 1 ==> fields[1..][k] == fields[k + 1];
      assert forall k :: 1 <= k < |fields| ==> fields[1..][k - 1] == fields[k];
    }
  }

  lemma {:induction false} LookupFinds(entries: seq<Entry>, key: string)
    ensures var v := Lookup(entries, key);
      if v.Some? then exists k :: 0 <= k < |entries| && entries[k] == Entry(key, v.value)
      else forall k :: 0 <= k < |entries| ==> entries[k].key != key
  {
    if entries != [] {
      LookupFinds(entries[1..], key);
      assert forall k :: 0 <= k < |entries| - 1 ==> entries[1..][k] == entries[k + 1];
      assert forall k :: 1 <= k < |entries| ==> entries[1..][k - 1] == entries[k];
      if entries[0].key == key { assert entries[0] == Entry(key, entries[0].value); }
    }
  }

  function EntryKeys(entries: seq<Entry>): set<string> { set k | 0 <= k < |entries| :: entries[k].key }
  function FieldKeys(fields: seq<Field>): set<string> { set k | 0 <= k < |fields| :: fields[k].key }

  lemma {:induction false} EntryKeysCount(entries: seq<Entry>)
    requires DistinctKeys(entries)
    ensures |EntryKeys(entries)| == |entries|
  {
    if entries != [] {
      var n := |entries| - 1;
      EntryKeysCount(entries[..n]);
      assert EntryKeys(entries) == EntryKeys(entries[..n]) + {entries[n].key};
    }
  }

  lemma {:induction false} FieldKeysCount(fields: seq<Field>)
    requires forall i, j :: 0 <= i < j < |fields| ==> fields[i].key != fields[j].key
    ensures |FieldKeys(fields)| == |fields|
  {
    if fields != [] {
      var n := |fields| - 1;
      FieldKeysCount(fields[..n]);
      assert FieldKeys(fields) == FieldKeys(fields[..n]) + {fields[n].key};
    }
  }

  lemma SubsetCount(a: set<string>, b: set<string>)
    requires a <= b
    ensures |a| <= |b| && (|b| <= |a| ==> a == b)
  {
    assert b == a + (b - a);
  }

  lemma FieldMetAt(entries: seq<Entry>, f: Field)
    requires DistinctKeys(entries)
    ensures FieldMet(entries, f) <==> FieldHeld(entries, f)
  {
    hide Meets, Lookup;
    LookupFinds(entries, f.key);
    var v := Lookup(entries, f.key);
    if v.Some? {
      var k :| 0 <= k < |entries| && entries[k] == Entry(f.key, v.value);
      assert forall j :: 0 <= j < |entries| && entries[j].key == f.key ==> j == k;
    }
  }

  lemma KnownKeys(fields: seq<Field>, entries: seq<Entry>)
    ensures Known(fields, entries) <==> EntryKeys(entries) <= FieldKeys(fields)
  {
    if EntryKeys(entries) <= FieldKeys(fields) {
      forall k | 0 <= k < |entries| ensures HasField(fields, entries[k].key) {
        assert entries[k].key in EntryKeys(entries);
      }
    }
    if Known(fields, entries) {
      forall s | s in EntryKeys(entries) ensures s in FieldKeys(fields) {
        var k :| 0 <= k < |entries| && entries[k].key == s;
        var f :| 0 <= f < |fields| && fields[f].key == entries[k].key;
      }
    }
  }

  predicate AllMet(entries: seq<Entry>, fields: seq<Field>) {
    forall f :: 0 <= f < |fields| ==> FieldMet(entries, fields[f])
  }

  lemma MetKeys(fields: seq<Field>, entries: seq<Entry>)
    requires AllMet(entries, fields)
    ensures FieldKeys(fields) <= EntryKeys(entries)
  {
    hide Meets, Lookup;
    forall f | 0 <= f < |fields| ensures fields[f].key in EntryKeys(entries) {
      LookupFinds(entries, fields[f].key);
      assert FieldMet(entries, fields[f]);
    }
  }

  /** If every field is met, then no entry has another key exactly when there are not more entries than
      fields. */
  lemma KeysCompared(fields: seq<Field>, entries: seq<Entry>)
    requires forall i, j :: 0 <= i < j < |fields| ==> fields[i].key != fields[j].key
    requires DistinctKeys(entries) && AllMet(entries, fields)
    ensures |entries| <= |fields| <==> Known(fields, entries)
  {
    hide FieldMet, Known, FieldKeys, EntryKeys, AllMet;
    EntryKeysCount(entries);
    FieldKeysCount(fields);
    MetKeys(fields, entries);
    KnownKeys(fields, entries);
    var a, b := FieldKeys(fields), EntryKeys(entries);
    SubsetCount(a, b);
    assert b <= a ==> a == b;
  }

  lemma MeetsFields(fields: seq<Field>, entries: seq<Entry>)
    requires DistinctKeys(entries)
    ensures Meets(JObject(entries), Fields(fields)) <==> Known(fields, entries) && AllMet(entries, fields)
  {
    forall f | 0 <= f < |fields| ensures FieldMet(entries, fields[f]) <==> FieldHeld(entries, fields[f]) {
      FieldMetAt(entries, fields[f]);
    }
  }

  /** The size test and the test of the mask's fields together compare the sets of keys. */
  lemma {:induction false} ObjectMeans(fields: seq<Field>, entries: seq<Entry>)
    requires forall i, j :: 0 <= i < j < |fields| ==> fields[i].key != fields[j].key
    requires forall i :: 0 <= i < |fields| ==> IsMask(fields[i].mask)
    requires DistinctKeys(entries) && forall i :: 0 <= i < |entries| ==> IsStored(entries[i].value)
    ensures (if |entries| > |fields| then Invalid else ValidBranches(entries, BranchesOf(fields)))
         == Holds(Meets(JObject(entries), Fields(fields)))
    decreases fields, 1
  {
    BranchesMean(fields, entries);
    MeetsFields(fields, entries);
    hide FieldMet, ValidBranches, Known, IsMask, IsStored, Meets;
    if AllMet(entries, fields) { KeysCompared(fields, entries); }
  }

  /** A mask as it is written compiles, and validating any stored value against it says exactly whether
      the value meets the mask. */
  lemma CompilingKeepsMeaning(mask: Mask, v: Json)
    requires IsMask(mask) && IsStored(v)
    ensures Compile(Written(mask)).Ok?
    ensures ValidTree(v, Compile(Written(mask)).value) == Holds(Meets(v, mask))
  {
    hide Compile, ValidTree, Written, Meets, IsMask;
    MaskCompiles(mask);
    TreeMeans(mask, v);
  }

  // ---- where the plain reading is not kept -----------------------------------------------------

  /** The plain reading with bounds on numbers. */
  predicate AsWritten(v: Json, a: Alternative) {
    MeetsAlternative(v, a) && (v.JNumber? ==> SatisfiesAll(v.n, a.bounds))
  }

  /** Bounds on a number are compiled, but the validator does not look at them. */
  lemma NumberBoundsAreIgnored(bounds: seq<Bound>, n: int)
    requires bounds != [] && OneOfEach(bounds)
    ensures CompileText("{" + UnionText([Alternative(TNumber, None, bounds)]) + "}").Ok?
    ensures ValidTree(JNumber(n), CompileText("{" + UnionText([Alternative(TNumber, None, bounds)]) + "}").value)
      == Valid
  {
    hide ScanText, CompileText, UnionText, OneOfEach;
    var a := Alternative(TNumber, None, bounds);
    UnionCompiles([a]);
    BoundsAsWritten(0, Typed(TNumber), bounds);
  }

  /** So its verdict on a number is as written exactly when the number satisfies the bounds, and on all numbers exactly
      when there are none. */
  lemma NumberBoundsExactly(bounds: seq<Bound>)
    requires OneOfEach(bounds)
    ensures var a := Alternative(TNumber, None, bounds);
      forall n :: ValidRow(JNumber(n), RowOf(a)) == Holds(AsWritten(JNumber(n), a)) <==> SatisfiesAll(n, bounds)
    ensures var a := Alternative(TNumber, None, bounds);
      (forall n :: INT64_MIN <= n <= INT64_MAX ==> ValidRow(JNumber(n), RowOf(a)) == Holds(AsWritten(JNumber(n), a)))
      <==> bounds == []
  {
    var a := Alternative(TNumber, None, bounds);
    BoundsAsWritten(0, Base(a), bounds);
    hide BoundedAll, OneOfEach, SatisfiesAll;
    forall n
      ensures ValidRow(JNumber(n), RowOf(a)) == Valid
      ensures AsWritten(JNumber(n), a) <==> SatisfiesAll(n, bounds)
    {
      assert MeetsAlternative(JNumber(n), a);
    }
    if bounds == [] {
      forall n ensures SatisfiesAll(n, bounds) { NoneToSatisfy(n); }
    } else {
      var n := Unsatisfying(bounds);
      assert ValidRow(JNumber(n), RowOf(a)) != Holds(AsWritten(JNumber(n), a));
    }
  }

  lemma NoneToSatisfy(n: int)
    ensures SatisfiesAll(n, [])
  {
  }

  /** Some number does not satisfy the first bound. */
  lemma Unsatisfying(bounds: seq<Bound>) returns (n: int)
    requires bounds != [] && OneOfEach(bounds)
    ensures INT64_MIN <= n <= INT64_MAX && !SatisfiesAll(n, bounds)
  {
    var b := bounds[0];
    n := if b.op == AtLeast then b.n - 1 else if b.op == Above || b.op == Below then b.n else b.n + 1;
    assert !Satisfies(n, bounds[0]);
  }

  /** In terms of the bounds as they are written: a string mask is read as it is written, for every size
      of a string, exactly when its row is exact. */
  lemma BoundsKept(bounds: seq<Bound>)
    requires OneOfEach(bounds)
    ensures IsExact(RowOf(Alternative(TString, None, bounds))) <==>
            forall size: nat :: size <= INT64_MAX ==>
              (SizeAdmitted(size, RowOf(Alternative(TString, None, bounds))) <==> SatisfiesAll(size, bounds))
  {
    var r := RowOf(Alternative(TString, None, bounds));
    RowInRange(Typed(TString), bounds);
    ExactBounds(r);
    hide SizeAdmitted, PlainlyAdmitted, IsExact, BoundedAll;
    forall size: nat ensures PlainlyAdmitted(size, r) <==> SatisfiesAll(size, bounds) {
      BoundsAsWritten(size, Typed(TString), bounds);
      NoBounds(size, Alternative(TString, None, bounds));
    }
  }

  /** For one string alternative, whatever it has in brackets: its verdict on every string is the plain one exactly
      when its row is exact, or, if it has a value, when its bounds are read as written for the size of the value. */
  lemma AlternativeKept(a: Alternative)
    requires Compiles(a) && a.kind == TString && (a.value.Some? ==> |a.value.value.s| <= INT64_MAX)
    ensures (if a.value.None? then IsExact(RowOf(a))
             else (SizeAdmitted(|a.value.value.s|, RowOf(a)) <==> SatisfiesAll(|a.value.value.s|, a.bounds)))
      <==> forall s: string :: |s| <= INT64_MAX ==>
        ValidRow(JString(s), RowOf(a)) == Holds(MeetsAlternative(JString(s), a))
  {
    var r := RowOf(a);
    BoundsAsWritten(0, Base(a), a.bounds);
    hide BoundedAll, RowOf, SatisfiesAll, SizeAdmitted, IsExact, OneOfEach;
    forall s: string
      ensures ValidRow(JString(s), r) == Holds(SizeAdmitted(|s|, r) && (a.value.Some? ==> s == a.value.value.s))
      ensures MeetsAlternative(JString(s), a) <==>
        SatisfiesAll(|s|, a.bounds) && (a.value.Some? ==> s == a.value.value.s)
    {
    }
    if a.value.None? {
      BoundsKept(a.bounds);
      assert a == Alternative(TString, None, a.bounds);
      if forall s: string :: |s| <= INT64_MAX ==> ValidRow(JString(s), r) == Holds(MeetsAlternative(JString(s), a)) {
        forall size: nat | size <= INT64_MAX ensures SizeAdmitted(size, r) <==> SatisfiesAll(size, a.bounds) {
          var s: string := seq(size, _ => 'a');
          assert ValidRow(JString(s), r) == Holds(MeetsAlternative(JString(s), a));
        }
      }
    } else {
      var s := a.value.value.s;
      assert ValidRow(JString(s), r) == Holds(SizeAdmitted(|s|, r));
    }
  }

  // ---- while it is streamed --------------------------------------------------------------------

  lemma {:induction false} RowsAre(alternatives: seq<Alternative>)
    ensures |RowsFor(alternatives)| == |alternatives|
    ensures forall k :: 0 <= k < |alternatives| ==> RowsFor(alternatives)[k] == RowOf(alternatives[k])
  {
    hide RowOf;
    if alternatives != [] { RowsAre(alternatives[1..]); }
  }

  /** An upper bound below zero is read as a large size. */
  predicate UpperNotNegative(r: Row) { r.maxMean.Some? ==> r.maxMean.value >= 0 }

  /** While streaming a lower bound is read as it is written, also below zero. */
  lemma StreamedBounds(size: nat, r: Row)
    requires InRange(r) && size <= INT64_MAX
    ensures UpperNotNegative(r) ==>
      (C.MaxAdmits(size, r.maxMean) && C.MinAdmits(size, r.minMean) <==> PlainlyAdmitted(size, r))
  {
  }

  lemma StreamedAlternative(s: string, a: Alternative)
    requires Compiles(a) && (a.bounds != [] ==> a.kind == TString) && |s| <= INT64_MAX
    requires UpperNotNegative(RowOf(a))
    ensures C.Admits(s, RowOf(a)) <==> MeetsAlternative(JString(s), a)
  {
    BoundsAsWritten(|s|, Base(a), a.bounds);
    RowInRange(Base(a), a.bounds);
    StreamedBounds(|s|, RowOf(a));
    NoBounds(|s|, a);
    hide BoundedAll, PlainlyAdmitted, C.MaxAdmits, C.MinAdmits, SatisfiesAll;
  }

  /** A string streamed under a union is accepted exactly when it meets the union, if no upper bound is
      below zero. */
  lemma StreamingKeepsMeaning(s: string, alternatives: seq<Alternative>)
    requires alternatives != [] && |s| <= INT64_MAX
    requires forall i :: 0 <= i < |alternatives| ==>
      && Compiles(alternatives[i]) && (alternatives[i].bounds != [] ==> alternatives[i].kind == TString)
      && UpperNotNegative(RowOf(alternatives[i]))
    ensures C.SomeAdmits(s, C.RowList(UnionRows(alternatives)), 0) <==> Meets(JString(s), Union(alternatives))
  {
    hide Compiles, UpperNotNegative, MeetsAlternative, C.Admits, RowOf;
    RowsAre(alternatives);
    var rows := C.RowList(UnionRows(alternatives));
    assert rows == RowsFor(alternatives);
    forall k | 0 <= k < |alternatives|
      ensures C.Admits(s, rows[k]) <==> MeetsAlternative(JString(s), alternatives[k])
    {
      StreamedAlternative(s, alternatives[k]);
    }
  }

  /** For one string alternative that is so exactly when its upper bound is not below zero, or when it has a value that
      the lower bound keeps out. */
  lemma StreamingExact(a: Alternative)
    requires Compiles(a) && a.kind == TString && (a.value.Some? ==> |a.value.value.s| <= INT64_MAX)
    ensures UpperNotNegative(RowOf(a)) || (a.value.Some? && !C.MinAdmits(|a.value.value.s|, RowOf(a).minMean)) <==>
      forall s: string :: |s| <= INT64_MAX ==> (C.Admits(s, RowOf(a)) <==> MeetsAlternative(JString(s), a))
  {
    hide BoundedAll, OneOfEach, SatisfiesAll, PlainlyAdmitted, C.Admits, MeetsAlternative, R.Scan;
    if UpperNotNegative(RowOf(a)) {
      forall s: string | |s| <= INT64_MAX ensures C.Admits(s, RowOf(a)) <==> MeetsAlternative(JString(s), a) {
        StreamedAlternative(s, a);
      }
    } else if a.value.Some? && !C.MinAdmits(|a.value.value.s|, RowOf(a).minMean) {
      forall s: string ensures !C.Admits(s, RowOf(a)) && !MeetsAlternative(JString(s), a) {
        NoneAdmitted(s, a);
      }
    } else {
      var s := Admitted(a);
      assert C.Admits(s, RowOf(a)) && !MeetsAlternative(JString(s), a);
    }
  }

  lemma NoneAdmitted(s: string, a: Alternative)
    requires Compiles(a) && a.kind == TString && !UpperNotNegative(RowOf(a))
    requires a.value.Some? && !C.MinAdmits(|a.value.value.s|, RowOf(a).minMean)
    ensures !C.Admits(s, RowOf(a)) && !MeetsAlternative(JString(s), a)
  {
    BoundsAsWritten(|s|, Base(a), a.bounds);
    hide BoundedAll, SatisfiesAll;
  }

  /** Under an upper bound below zero some string is admitted, though none is meant to be. */
  lemma Admitted(a: Alternative) returns (s: string)
    requires Compiles(a) && a.kind == TString && !UpperNotNegative(RowOf(a))
    requires a.value.Some? ==> |a.value.value.s| <= INT64_MAX && C.MinAdmits(|a.value.value.s|, RowOf(a).minMean)
    ensures |s| <= INT64_MAX && C.Admits(s, RowOf(a)) && !MeetsAlternative(JString(s), a)
  {
    var r := RowOf(a);
    RowInRange(Base(a), a.bounds);
    var size := if r.minMean.Some? && r.minMean.value >= 0 then r.minMean.value + 1 else 0;
    s := if a.value.Some? then a.value.value.s else seq(size, _ => 'a');
    BoundsAsWritten(|s|, Base(a), a.bounds);
    hide BoundedAll, SatisfiesAll;
  }

  /** A mask of one alternative. */
  lemma OneAlternative(a: Alternative, s: string)
    requires Compiles(a)
    ensures Compile(Written(Union([a]))) == Ok(Leaf(One(RowOf(a))))
    ensures Meets(JString(s), Union([a])) <==> MeetsAlternative(JString(s), a)
    ensures C.SomeAdmits(s, C.RowList(One(RowOf(a))), 0) <==> C.Admits(s, RowOf(a))
  {
    hide CompileText, UnionText, RowOf, C.Admits, MeetsAlternative, Compiles;
    UnionCompiles([a]);
    assert [a][0] == a && [RowOf(a)][0] == RowOf(a);
  }

  /** `{string(>=0)}` is met by every string, and a string that is streamed passes; a finished value never does. */
  lemma AtLeastZeroAdmitsNothing(s: string)
    requires |s| <= INT64_MAX
    ensures var mask := Union([Alternative(TString, None, [Bound(AtLeast, 0)])]);
      && Meets(JString(s), mask) && Compile(Written(mask)).Ok?
      && ValidTree(JString(s), Compile(Written(mask)).value) == Invalid
      && C.SomeAdmits(s, C.RowList(Compile(Written(mask)).value.rows), 0)
  {
    var a := Alternative(TString, None, [Bound(AtLeast, 0)]);
    assert a.bounds[1..] == [] && RowOf(a) == Typed(TString).(minMean := Some(-1));
    OneAlternative(a, s);
    hide Compile, Written, Meets, RowOf, C.SomeAdmits;
  }

  /** `{string(<-1)}` is met by no string, and lets every string pass. */
  lemma BelowZeroAdmitsAll(s: string)
    requires |s| <= INT64_MAX
    ensures var mask := Union([Alternative(TString, None, [Bound(Below, -1)])]);
      && !Meets(JString(s), mask) && Compile(Written(mask)).Ok?
      && ValidTree(JString(s), Compile(Written(mask)).value) == Valid
      && C.SomeAdmits(s, C.RowList(Compile(Written(mask)).value.rows), 0)
  {
    var a := Alternative(TString, None, [Bound(Below, -1)]);
    assert a.bounds[1..] == [] && RowOf(a) == Typed(TString).(maxMean := Some(-1));
    assert !Satisfies(|s|, a.bounds[0]);
    OneAlternative(a, s);
    hide Compile, Written, Meets, RowOf, C.SomeAdmits;
  }
}
