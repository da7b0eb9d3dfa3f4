/** What the builder reads from any JSON document, however it is laid out and spelled: a tree of texts, and what it
    means. */
module JsonDocuments {
  import opened Wrappers
  import opened JsonValue
  import opened JsonBuilderModel
  import opened JsonChunks
  import opened JsonElements
  import opened JsonEscapes
  import opened JsonNumbers
  import opened JsonRoundTrip
  import P = JsonPrinter
  import Utf8

  // ---- documents -------------------------------------------------------------------------------

  /** A piece of a string: a character of UTF-8, a letter behind a backslash, or four digits behind \u. */
  datatype Unit = Bytes(s: string) | Letter(c: char) | Code(h: string)

  /** A document in a container, with the spaces around it. */
  datatype Elem = Elem(before: string, doc: Doc, after: string)

  datatype Pair = Pair(key: Elem, value: Elem)

  /** `gap` is what stands in an empty container; in an array it may also stand behind a last comma. */
  datatype Doc =
    | Word(w: string)
    | Number(s: string)
    | Quoted(units: seq<Unit>)
    | List(items: seq<Elem>, comma: bool, gap: string)
    | Object(pairs: seq<Pair>, gap: string)

  function UnitText(u: Unit): string {
    match u
    case Bytes(s) => s
    case Letter(c) => ['\\', c]
    case Code(h) => "\\u" + h
  }

  function UnitsText(us: seq<Unit>, rest: string): string {
    if us == [] then rest else UnitText(us[0]) + UnitsText(us[1..], rest)
  }

  /** The text of a document in front of a rest. */
  function DocText(d: Doc, rest: string): string
    decreases d, 1
  {
    match d
    case Word(w) => w + rest
    case Number(s) => s + rest
    case Quoted(us) => "\"" + UnitsText(us, "\"" + rest)
    case List(_, _, _) => "[" + ItemsText(d, 0, rest)
    case Object(_, _) => "{" + PairsText(d, 0, rest)
  }

  function ListEnd(d: Doc, rest: string): string
    requires d.List?
  {
    (if d.items == [] then d.gap else if d.comma then "," + d.gap else "") + ("]" + rest)
  }

  /** From the n-th item on. */
  function ItemsText(d: Doc, n: nat, rest: string): string
    requires d.List? && n <= |d.items|
    decreases d, 0, |d.items| - n
  {
    if n == |d.items| then ListEnd(d, rest)
    else
      var behind := if n + 1 < |d.items| then "," + ItemsText(d, n + 1, rest) else ListEnd(d, rest);
      d.items[n].before + DocText(d.items[n].doc, d.items[n].after + behind)
  }

  function ObjectEnd(d: Doc, rest: string): string
    requires d.Object?
  {
    (if d.pairs == [] then d.gap else "") + ("}" + rest)
  }

  function PairsText(d: Doc, n: nat, rest: string): string
    requires d.Object? && n <= |d.pairs|
    decreases d, 0, |d.pairs| - n
  {
    if n == |d.pairs| then ObjectEnd(d, rest)
    else
      var key, value := d.pairs[n].key, d.pairs[n].value;
      var behind := if n + 1 < |d.pairs| then "," + PairsText(d, n + 1, rest) else ObjectEnd(d, rest);
      key.before + DocText(key.doc, key.after + (":" + (value.before + DocText(value.doc, value.after + behind))))
  }

  /** Backspace, tab, line feed, form feed and carriage return. */
  predicate IsForbidden(c: char) { c as int in [8, 9, 10, 12, 13] }

  predicate IsLetter(c: char) { c in ['"', '\\', '/', 'b', 'f', 'n', 'r', 't'] }

  /** Characters that a string holds as they are. */
  predicate IsPlain(s: string) {
    Utf8.HeadLength(s) == |s| > 0
    && s[0] != '"' && s[0] != '\\' && !IsForbidden(s[0])
  }

  predicate IsUnit(u: Unit) {
    match u
    case Bytes(s) => IsPlain(s)
    case Letter(c) => IsLetter(c)
    case Code(h) => IsQuad(h)
  }

  predicate IsScalarDoc(d: Doc) { d.Word? || d.Number? }

  predicate IsSpaced(e: Elem) { AllSpace(e.before) && AllSpace(e.after) }

  /** A number or a word in front of a colon ends at a space. */
  predicate IsKeyEnd(e: Elem) { IsScalarDoc(e.doc) ==> e.after != "" }

  predicate IsDoc(d: Doc) {
    match d
    case Word(w) => w == "true" || w == "false" || w == "null"
    case Number(s) => IsNumberText(s) && s != "-"
    case Quoted(us) => forall k :: 0 <= k < |us| ==> IsUnit(us[k])
    case List(items, _, gap) =>
      AllSpace(gap) && forall k :: 0 <= k < |items| ==> IsSpaced(items[k]) && IsDoc(items[k].doc)
    case Object(pairs, gap) =>
      && AllSpace(gap)
      && forall k :: 0 <= k < |pairs| ==>
        && IsSpaced(pairs[k].key) && IsDoc(pairs[k].key.doc) && IsKeyEnd(pairs[k].key)
        && IsSpaced(pairs[k].value) && IsDoc(pairs[k].value.doc)
  }

  // ---- meaning ---------------------------------------------------------------------------------

  /** What a letter behind a backslash stands for (RFC 8259, section 7). */
  function LetterMeaning(c: char): char {
    if c == 'b' then '\U{08}' else if c == 't' then '\U{09}' else if c == 'n' then '\U{0A}'
    else if c == 'f' then '\U{0C}' else if c == 'r' then '\U{0D}' else c
  }

  function UnitMeaning(u: Unit): string
    requires IsUnit(u)
  {
    match u
    case Bytes(s) => s
    case Letter(c) => [LetterMeaning(c)]
    case Code(h) => Utf8.Encode(CodePoint(QuadValues(h)))
  }

  function UnitsMeaning(us: seq<Unit>): string
    requires forall k :: 0 <= k < |us| ==> IsUnit(us[k])
  {
    if us == [] then "" else UnitMeaning(us[0]) + UnitsMeaning(us[1..])
  }

  /** The value of a document, or the first error in it: a key that is no string, or one that comes again. */
  function Meaning(d: Doc): Result<Json, Error>
    requires IsDoc(d)
    decreases d, 1
  {
    match d
    case Word(w) => Ok(if w == "true" then JBool(true) else if w == "false" then JBool(false) else JNull)
    case Number(s) => Ok(NumberOf(s))
    case Quoted(us) => Ok(JString(UnitsMeaning(us)))
    case List(items, _, _) => ItemsMeaning(d, 0, [])
    case Object(pairs, _) => PairsMeaning(d, 0, [])
  }

  function ItemsMeaning(d: Doc, n: nat, done: seq<Json>): Result<Json, Error>
    requires IsDoc(d) && d.List? && n <= |d.items|
    decreases d, 0, |d.items| - n
  {
    if n == |d.items| then Ok(JArray(done))
    else match Meaning(d.items[n].doc)
         case Err(e) => Err(e)
         case Ok(v) => ItemsMeaning(d, n + 1, done + [v])
  }

  function PairsMeaning(d: Doc, n: nat, done: seq<Entry>): Result<Json, Error>
    requires IsDoc(d) && d.Object? && n <= |d.pairs|
    decreases d, 0, |d.pairs| - n
  {
    if n == |d.pairs| then Ok(JObject(done))
    else match Meaning(d.pairs[n].key.doc)
         case Err(e) => Err(e)
         case Ok(k) =>
           if !k.JString? then Err(UnsupportedType)
           else match Meaning(d.pairs[n].value.doc)
                case Err(e) => Err(e)
                case Ok(v) =>
                  if HasKey(done, k.s) then Err(DuplicateKey) else PairsMeaning(d, n + 1, Insert(done, k.s, v))
  }

  /** The printer escapes the five control characters, quotes, backslashes and slashes, each by its letter. */
  lemma EscapesByLetter(c: char)
    ensures var e := P.EscapeChar(c);
      if IsForbidden(c) || c == '"' || c == '\\' || c == '/' then
        |e| == 2 && e[0] == '\\' && IsLetter(e[1]) && LetterMeaning(e[1]) == c
      else e == [c]
  {
  }

  // ---- strings ---------------------------------------------------------------------------------

  lemma PlainFold(w: nat, buffer: string, c: char, rest: string)
    requires !IsControl(c) && c != '"' && c != '\\' && NextWide(w, c).Some?
    ensures Fold(Open(w, buffer), [c] + rest) == Fold(Open(NextWide(w, c).value, buffer + [c]), rest)
  {
    var text := [c] + rest;
    StringAt(Text(true, w, false, None, buffer), None, text, 0);
    assert text[0..] == text && text[1..] == rest;
  }

  lemma {:induction false} TailsFold(w: nat, buffer: string, t: string, rest: string)
    requires |t| == w && forall k :: 0 <= k < w ==> Utf8.IsTail(t[k])
    ensures Fold(Open(w, buffer), t + rest) == Fold(Open(0, buffer + t), rest)
    decreases w
  {
    hide Fold, Open;
    if t == "" {
      assert t + rest == rest && buffer + t == buffer;
    } else {
      assert NextWide(w, t[0]) == Some(w - 1);
      PlainFold(w, buffer, t[0], t[1..] + rest);
      TailsFold(w - 1, buffer + [t[0]], t[1..], rest);
      assert [t[0]] + (t[1..] + rest) == t + rest && buffer + [t[0]] + t[1..] == buffer + t;
    }
  }

  lemma {:induction false} BytesFold(buffer: string, s: string, rest: string)
    requires IsPlain(s)
    ensures Fold(Open(0, buffer), s + rest) == Fold(Open(0, buffer + s), rest)
  {
    hide Fold, Open, CountOfOctet;
    var w := |s| - 1;
    NotControl(s[0]);
    HeadCounts(s);
    PlainFold(0, buffer, s[0], s[1..] + rest);
    TailsFold(w, buffer + [s[0]], s[1..], rest);
    assert [s[0]] + (s[1..] + rest) == s + rest && buffer + [s[0]] + s[1..] == buffer + s;
  }

  lemma NotControl(c: char)
    ensures IsControl(c) <==> IsForbidden(c)
  {
  }

  lemma HeadCounts(s: string)
    requires Utf8.HeadLength(s) == |s| > 0
    ensures NextWide(0, s[0]) == Some(|s| - 1) && forall k :: 1 <= k < |s| ==> Utf8.IsTail(s[k])
  {
    if |s| > 1 { HeadIsFramed(s); }
  }

  lemma LetterFold(buffer: string, c: char, rest: string)
    requires IsUnit(Letter(c))
    ensures Fold(Open(0, buffer), ['\\', c] + rest) == Fold(Open(0, buffer + [LetterMeaning(c)]), rest)
  {
    var text := ['\\', c] + rest;
    assert Unescape(c) == Some(LetterMeaning(c)) && c != 'u';
    StringAt(Text(true, 0, false, None, buffer), None, text, 0);
    StringAt(Text(true, 0, true, None, buffer), None, text, 1);
    assert text[0..] == text && text[2..] == rest;
  }

  lemma UnitFold(buffer: string, u: Unit, rest: string)
    requires IsUnit(u)
    ensures Fold(Open(0, buffer), UnitText(u) + rest) == Fold(Open(0, buffer + UnitMeaning(u)), rest)
  {
    hide Fold, Open, IsPlain, Utf8.Encode, CodePoint, QuadValues, IsQuad;
    match u
    case Bytes(s) => BytesFold(buffer, s, rest);
    case Letter(c) => LetterFold(buffer, c, rest);
    case Code(h) => QuadFold(buffer, h, rest);
  }

  lemma {:induction false} UnitsFold(buffer: string, us: seq<Unit>, rest: string)
    requires forall k :: 0 <= k < |us| ==> IsUnit(us[k])
    ensures Fold(Open(0, buffer), UnitsText(us, rest)) == Fold(Open(0, buffer + UnitsMeaning(us)), rest)
    decreases |us|
  {
    hide Fold, Open, IsUnit, UnitText, UnitMeaning;
    if us == [] {
      assert buffer + "" == buffer;
    } else {
      var t := UnitMeaning(us[0]);
      UnitFold(buffer, us[0], UnitsText(us[1..], rest));
      UnitsFold(buffer + t, us[1..], rest);
      Assoc(buffer, t, UnitsMeaning(us[1..]));
    }
  }

  /** What a document in front of a rest must give: its value, with the rest left over, or its error. */
  predicate Reads(fed: Fed, r: Result<Json, Error>, rest: string) {
    match r
    case Err(e) => fed == Failed(e)
    case Ok(v) => fed.Finished? && fed.rest == rest && Value(fed.b) == v && Ready(fed.b)
  }

  lemma QuotedReads(us: seq<Unit>, rest: string)
    requires IsDoc(Quoted(us))
    ensures Reads(Fold(Blank, DocText(Quoted(us), rest)), Ok(JString(UnitsMeaning(us))), rest)
  {
    hide Fold, Consume, StringByte, IsUnit, UnitsMeaning;
    var text := DocText(Quoted(us), rest);
    var tail := UnitsText(us, "\"" + rest);
    BlankAt(text, 0);
    StringAt(TEXT, None, text, 0);
    assert text[0..] == text && text[1..] == tail;
    OpeningQuote();
    UnitsFold("", us, "\"" + rest);
    assert "" + UnitsMeaning(us) == UnitsMeaning(us);
    StringBody(0, UnitsMeaning(us), "", rest);
    assert "" + "\"" + rest == "\"" + rest && UnitsMeaning(us) + "" == UnitsMeaning(us);
    FoldKeeps(Blank, text);
  }

  // ---- elements and brackets -------------------------------------------------------------------

  function AfterDoc(b: Builder, r: Result<Json, Error>, rest: string): Fed
    requires IsContainer(b)
  {
    match r
    case Err(e) => Failed(e)
    case Ok(v) => AfterElement(Absorb(b, v), rest)
  }

  /** A document in a container, behind its spaces. */
  lemma ElementReads(b: Builder, before: string, s: string, r: Result<Json, Error>, rest: string)
    requires IsContainer(b) && b.frame.item.None? && b.frame.isOpen && !b.frame.delimiter && AllSpace(before)
    requires s != "" && !IsTerminator(s[0]) && Reads(Fold(Blank, s), r, rest)
    ensures Fold(b, before + s) == AfterDoc(b, r, rest)
  {
    hide Consume, Fold;
    SpacesFold(b, before, s);
    ContainerAt(b, s, 0);
    assert s[0..] == s;
    FoldElement(WithItem(b, Blank), s);
    if r.Ok? { assert Absorb(WithItem(b, Blank), r.value) == Absorb(b, r.value); }
  }

  /** A sign of its own to a container, behind spaces. */
  lemma SignReads(b: Builder, spaces: string, c: char, rest: string)
    requires IsContainer(b) && b.frame.item.None? && AllSpace(spaces) && IsOwn(b, c)
    ensures Fold(b, spaces + ([c] + rest)) == AfterContainer(ContainerByte(b, c), rest)
  {
    hide Consume, Fold, ContainerByte;
    var text := [c] + rest;
    SpacesFold(b, spaces, text);
    ContainerAt(b, text, 0);
    assert text[0..] == text && text[1..] == rest;
  }

  lemma OpeningReads(c: char, rest: string)
    requires c == '[' || c == '{'
    ensures Fold(Blank, [c] + rest)
      == Fold(if c == '[' then InArray(false, []) else InObject(false, [], true, ""), rest)
  {
    hide Fold;
    var text := [c] + rest;
    FoldAt(Blank, text, 0);
    assert text[0..] == text && text[1..] == rest;
  }

  lemma DocHead(d: Doc, rest: string)
    requires IsDoc(d)
    ensures DocText(d, rest) != "" && !IsTerminator(DocText(d, rest)[0])
  {
    if d.Number? { assert Continues(d.s[..0], d.s[0]); }
  }

  lemma SpacesFollow(spaces: string, rest: string)
    requires AllSpace(spaces) && (spaces == "" ==> FollowsValue(rest))
    ensures FollowsValue(spaces + rest)
  {
  }

  // ---- the tree --------------------------------------------------------------------------------

  /** Any document gives what it means, whatever comes behind it. */
  lemma {:induction false} DocReads(d: Doc, rest: string)
    requires IsDoc(d) && (IsScalarDoc(d) ==> FollowsValue(rest))
    ensures Reads(Fold(Blank, DocText(d, rest)), Meaning(d), rest)
    decreases d, 2
  {
    hide Fold, Consume, ItemsText, PairsText, ItemsMeaning, PairsMeaning, IsNumberText, NumberOf;
    match d
    case Word(w) => WordReads(w, rest);
    case Number(s) => NumberFold(s, NumberOf(s), rest);
    case Quoted(us) => QuotedReads(us, rest);
    case List(items, _, _) =>
      OpeningReads('[', ItemsText(d, 0, rest));
      if items == [] { EmptyReads(d, rest); } else { ItemsRead(d, 0, [], rest); }
    case Object(pairs, _) =>
      OpeningReads('{', PairsText(d, 0, rest));
      if pairs == [] { EmptyReads(d, rest); } else { PairsRead(d, 0, [], "", rest); }
  }

  lemma EmptyReads(d: Doc, rest: string)
    requires IsDoc(d) && ((d.List? && d.items == []) || (d.Object? && d.pairs == []))
    ensures d.List? ==> Reads(Fold(InArray(false, []), ItemsText(d, 0, rest)), Meaning(d), rest)
    ensures d.Object? ==> Reads(Fold(InObject(false, [], true, ""), PairsText(d, 0, rest)), Meaning(d), rest)
  {
    hide Fold, Consume, ListEnd, ObjectEnd;
    if d.List? { ListEndReads(d, [], rest); } else { ObjectEndReads(d, [], "", rest); }
  }

  lemma WordReads(w: string, rest: string)
    requires IsDoc(Word(w)) && FollowsValue(rest)
    ensures Reads(Fold(Blank, w + rest), Meaning(Word(w)), rest)
  {
    hide Fold, Consume;
    LiteralFold(w, rest);
    WordAt(w, None, rest, 0);
    assert rest[0..] == rest;
  }

  /** The end of an array: behind an item, or with nothing in it. */
  lemma ListEndReads(d: Doc, done: seq<Json>, rest: string)
    requires IsDoc(d) && d.List? && |done| == |d.items|
    ensures Reads(Fold(InArray(done != [], done), ListEnd(d, rest)), Ok(JArray(done)), rest)
    ensures d.items != [] ==> FollowsValue(ListEnd(d, rest))
  {
    hide Fold, Consume;
    var b := InArray(done != [], done);
    if d.items != [] && d.comma {
      Assoc(",", d.gap, "]" + rest);
      SignReads(b, "", ',', d.gap + ("]" + rest));
      assert "" + ("," + (d.gap + ("]" + rest))) == ListEnd(d, rest);
      SignReads(InArray(false, done), d.gap, ']', rest);
    } else {
      SignReads(b, if d.items == [] then d.gap else "", ']', rest);
    }
  }

  lemma Assoc(a: string, b: string, c: string)
    ensures a + b + c == a + (b + c)
  {
  }

  lemma {:induction false} ItemsRead(d: Doc, n: nat, done: seq<Json>, rest: string)
    requires IsDoc(d) && d.List? && n == |done| < |d.items|
    ensures Reads(Fold(InArray(false, done), ItemsText(d, n, rest)), ItemsMeaning(d, n, done), rest)
    decreases d, 1, |d.items| - n
  {
    var item := d.items[n];
    var last := n + 1 == |d.items|;
    var behind := if last then ListEnd(d, rest) else "," + ItemsText(d, n + 1, rest);
    assert IsSpaced(item) && IsDoc(item.doc);
    hide Fold, Consume, ListEnd, DocText, Meaning;
    if last { if |done| + 1 == |d.items| { EndFollows(d, rest); } }
    SpacesFollow(item.after, behind);
    DocReads(item.doc, item.after + behind);
    DocHead(item.doc, item.after + behind);
    ElementReads(InArray(false, done), item.before, DocText(item.doc, item.after + behind), Meaning(item.doc),
      item.after + behind);
    if Meaning(item.doc).Ok? {
      var more := done + [Meaning(item.doc).value];
      SpacesFold(InArray(true, more), item.after, behind);
      if last {
        ListEndReads(d, more, rest);
      } else {
        SignReads(InArray(true, more), "", ',', ItemsText(d, n + 1, rest));
        assert "" + ("," + ItemsText(d, n + 1, rest)) == behind;
        ItemsRead(d, n + 1, more, rest);
      }
    }
  }

  lemma EndFollows(d: Doc, rest: string)
    requires IsDoc(d) && d.List? && d.items != []
    ensures FollowsValue(ListEnd(d, rest))
  {
  }

  lemma ObjectEndReads(d: Doc, done: seq<Entry>, key: string, rest: string)
    requires IsDoc(d) && d.Object? && (done == [] <==> d.pairs == [])
    ensures Reads(Fold(InObject(done != [], done, done == [], key), ObjectEnd(d, rest)), Ok(JObject(done)), rest)
    ensures d.pairs != [] ==> FollowsValue(ObjectEnd(d, rest))
  {
    hide Fold, Consume;
    SignReads(InObject(done != [], done, done == [], key), if d.pairs == [] then d.gap else "", '}', rest);
  }

  lemma ObjectEndFollows(d: Doc, rest: string)
    requires IsDoc(d) && d.Object? && d.pairs != []
    ensures FollowsValue(ObjectEnd(d, rest))
  {
  }

  lemma {:induction false} PairsRead(d: Doc, n: nat, done: seq<Entry>, oldKey: string, rest: string)
    requires IsDoc(d) && d.Object? && n < |d.pairs| && (n == 0 ==> done == [])
    ensures Reads(Fold(InObject(false, done, true, oldKey), PairsText(d, n, rest)), PairsMeaning(d, n, done), rest)
    decreases d, 1, 2 * (|d.pairs| - n) + 1
  {
    var key, value := d.pairs[n].key, d.pairs[n].value;
    var tail := ValueText(d, n, rest);
    var behind := key.after + (":" + tail);
    assert IsSpaced(key) && IsDoc(key.doc) && IsKeyEnd(key);
    PairsTextIs(d, n, rest);
    hide Fold, Consume, DocText, Meaning, PairsText, ValueText;
    if key.after != "" { SpacesFollow(key.after, ":" + tail); }
    DocReads(key.doc, behind);
    DocHead(key.doc, behind);
    var b := InObject(false, done, true, oldKey);
    ElementReads(b, key.before, DocText(key.doc, behind), Meaning(key.doc), behind);
    if Meaning(key.doc).Ok? && Meaning(key.doc).value.JString? {
      var k := Meaning(key.doc).value.s;
      ColonReads(done, k, key.after, tail);
      ValueReads(d, n, done, k, rest);
    }
  }

  /** From the n-th value on. */
  function ValueText(d: Doc, n: nat, rest: string): string
    requires d.Object? && n < |d.pairs|
  {
    var value := d.pairs[n].value;
    value.before + DocText(value.doc, value.after + BehindValue(d, n, rest))
  }

  function BehindValue(d: Doc, n: nat, rest: string): string
    requires d.Object? && n < |d.pairs|
  {
    if n + 1 < |d.pairs| then "," + PairsText(d, n + 1, rest) else ObjectEnd(d, rest)
  }

  lemma PairsTextIs(d: Doc, n: nat, rest: string)
    requires d.Object? && n < |d.pairs|
    ensures var key := d.pairs[n].key;
      PairsText(d, n, rest) == key.before + DocText(key.doc, key.after + (":" + ValueText(d, n, rest)))
  {
    hide DocText;
  }

  /** The colon behind a key, and the spaces in front of it. */
  lemma ColonReads(done: seq<Entry>, k: string, spaces: string, tail: string)
    requires AllSpace(spaces)
    ensures Fold(InObject(true, done, true, k), spaces + (":" + tail)) == Fold(InObject(false, done, false, k), tail)
  {
    hide Fold, Consume;
    SignReads(InObject(true, done, true, k), spaces, ':', tail);
  }

  function ValueMeaning(d: Doc, n: nat, done: seq<Entry>, k: string): Result<Json, Error>
    requires IsDoc(d) && d.Object? && n < |d.pairs|
  {
    match Meaning(d.pairs[n].value.doc)
    case Err(e) => Err(e)
    case Ok(v) => if HasKey(done, k) then Err(DuplicateKey) else PairsMeaning(d, n + 1, Insert(done, k, v))
  }

  lemma {:induction false} ValueReads(d: Doc, n: nat, done: seq<Entry>, k: string, rest: string)
    requires IsDoc(d) && d.Object? && n < |d.pairs|
    ensures Reads(Fold(InObject(false, done, false, k), ValueText(d, n, rest)), ValueMeaning(d, n, done, k), rest)
    decreases d, 1, 2 * (|d.pairs| - n)
  {
    var value := d.pairs[n].value;
    var behind := BehindValue(d, n, rest);
    assert IsSpaced(value) && IsDoc(value.doc);
    hide Fold, Consume, DocText, Meaning, ObjectEnd, PairsText, HasKey, Insert;
    if n + 1 == |d.pairs| { ObjectEndFollows(d, rest); }
    SpacesFollow(value.after, behind);
    DocReads(value.doc, value.after + behind);
    DocHead(value.doc, value.after + behind);
    ElementReads(InObject(false, done, false, k), value.before, DocText(value.doc, value.after + behind),
      Meaning(value.doc), value.after + behind);
    if Meaning(value.doc).Ok? && !HasKey(done, k) {
      var more := Insert(done, k, Meaning(value.doc).value);
      InsertAdds(done, k, Meaning(value.doc).value);
      SpacesFold(InObject(true, more, false, k), value.after, behind);
      if n + 1 == |d.pairs| {
        ObjectEndReads(d, more, k, rest);
      } else {
        SignReads(InObject(true, more, false, k), "", ',', PairsText(d, n + 1, rest));
        assert "" + ("," + PairsText(d, n + 1, rest)) == behind;
        PairsRead(d, n + 1, more, k, rest);
      }
    }
  }

  lemma InsertAdds(es: seq<Entry>, k: string, v: Json)
    ensures Insert(es, k, v) != []
  {
  }

  // ---- whole texts -----------------------------------------------------------------------------

  lemma {:induction false} BlankSpaces(spaces: string, s: string)
    requires AllSpace(spaces)
    ensures Fold(Blank, spaces + s) == Fold(Blank, s)
    decreases |spaces|
  {
    hide Fold;
    if spaces == "" {
      assert spaces + s == s;
    } else {
      var text := spaces + s;
      BlankAt(text, 0);
      assert text[0..] == text && text[1..] == spaces[1..] + s;
      BlankSpaces(spaces[1..], s);
    }
  }

  lemma ScalarEnds(d: Doc)
    requires IsDoc(d) && IsScalarDoc(d)
    ensures var fed := Fold(Blank, DocText(d, "")); fed.Running? && Get(fed.b) == Meaning(d)
  {
    hide Fold, Consume, IsNumberText, HasMark, HasDigit, AwaitsSign, ReadInt;
    match d
    case Word(w) =>
      LiteralFold(w, "");
      FoldEnd(Lit(w, None), "");
    case Number(s) =>
      assert s + "" == s;
      NumberRuns(s);
      NumberOfState(s);
  }

  /** The parser is right: a text that is a document, with any spaces around it, in any chunks the last of which the
      document reaches, is read as the value of the document, or gives its error. */
  lemma {:induction false} DocumentsParse(d: Doc, before: string, after: string, chunks: seq<string>)
    requires IsDoc(d) && AllSpace(before) && AllSpace(after)
    requires Flatten(chunks) == before + DocText(d, after) && EndsInTime(Blank, chunks)
    ensures ParseAll(chunks) == Meaning(d)
  {
    hide Fold, Consume, DocText, Meaning, IsDoc, Flatten, EndsInTime;
    var text := DocText(d, after);
    BlankSpaces(before, text);
    ChunkIndependence(Blank, chunks);
    if IsScalarDoc(d) && after == "" {
      ScalarEnds(d);
    } else {
      DocReads(d, after);
    }
  }

  /** A text of spaces alone, or of nothing, is null. */
  lemma {:induction false} SpacesAreNull(chunks: seq<string>)
    requires AllSpace(Flatten(chunks))
    ensures ParseAll(chunks) == Ok(JNull)
  {
    hide Fold, Consume, Flatten;
    var text := Flatten(chunks);
    assert text + "" == text;
    BlankSpaces(text, "");
    FoldEnd(Blank, "");
    ChunkIndependence(Blank, chunks);
  }

  // ---- what objects mean -----------------------------------------------------------------------

  function Entries(keys: seq<string>, values: seq<Json>, n: nat): seq<Entry>
    requires n <= |keys| == |values|
  {
    seq(n, k requires 0 <= k < n => Entry(keys[k], values[k]))
  }

  predicate AllDifferent(keys: seq<string>) {
    forall i, j :: 0 <= i < j < |keys| ==> keys[i] != keys[j]
  }

  predicate PairsMean(d: Doc, keys: seq<string>, values: seq<Json>)
    requires IsDoc(d) && d.Object? && |keys| == |values| == |d.pairs|
  {
    forall k :: 0 <= k < |keys| ==>
      Meaning(d.pairs[k].key.doc) == Ok(JString(keys[k])) && Meaning(d.pairs[k].value.doc) == Ok(values[k])
  }

  /** An object with different keys has them all, in the order of the keys, with their values; a key that comes again is
      an error. */
  lemma {:induction false} ObjectMeans(d: Doc, keys: seq<string>, values: seq<Json>)
    requires IsDoc(d) && d.Object? && |keys| == |values| == |d.pairs| && PairsMean(d, keys, values)
    ensures AllDifferent(keys) ==>
      && Meaning(d).Ok? && Meaning(d).value.JObject? && Sorted(Meaning(d).value.entries)
      && multiset(Meaning(d).value.entries) == multiset(Entries(keys, values, |keys|))
    ensures !AllDifferent(keys) ==> Meaning(d) == Err(DuplicateKey)
  {
    hide PairsMean, PairsMeaning, AllDifferent;
    assert Entries(keys, values, 0) == [];
    NothingDiffers(keys);
    PairsBecome(d, 0, [], keys, values);
  }

  lemma NothingDiffers(keys: seq<string>)
    ensures AllDifferent(keys[..0]) && keys[..|keys|] == keys
  {
  }

  /** With the first n pairs read. */
  lemma {:induction false} PairsBecome(d: Doc, n: nat, done: seq<Entry>, keys: seq<string>, values: seq<Json>)
    requires IsDoc(d) && d.Object? && |keys| == |values| == |d.pairs| && n <= |keys| && PairsMean(d, keys, values)
    requires Sorted(done) && multiset(done) == multiset(Entries(keys, values, n)) && AllDifferent(keys[..n])
    ensures var r := PairsMeaning(d, n, done);
      if AllDifferent(keys) then
        && r.Ok? && r.value.JObject? && Sorted(r.value.entries)
        && multiset(r.value.entries) == multiset(Entries(keys, values, |keys|))
      else r == Err(DuplicateKey)
    decreases |keys| - n
  {
    hide Sorted, Entries, AllDifferent, Meaning;
    if n == |keys| {
      assert keys[..n] == keys;
    } else {
      assert PairsMean(d, keys, values);
      SameKeys(done, keys, values, n, keys[n]);
      OneMoreKey(keys, n);
      if !HasKey(done, keys[n]) {
        InsertSorted(done, keys[n], values[n]);
        MoreEntries(keys, values, n);
        PairsBecome(d, n + 1, Insert(done, keys[n], values[n]), keys, values);
      }
    }
  }

  lemma MoreEntries(keys: seq<string>, values: seq<Json>, n: nat)
    requires n < |keys| == |values|
    ensures multiset(Entries(keys, values, n + 1))
      == multiset(Entries(keys, values, n)) + multiset{Entry(keys[n], values[n])}
  {
    assert Entries(keys, values, n + 1) == Entries(keys, values, n) + [Entry(keys[n], values[n])];
  }

  lemma SameKeys(done: seq<Entry>, keys: seq<string>, values: seq<Json>, n: nat, key: string)
    requires n <= |keys| == |values| && multiset(done) == multiset(Entries(keys, values, n))
    ensures HasKey(done, key) <==> key in keys[..n]
  {
    var es := Entries(keys, values, n);
    if HasKey(done, key) {
      var i :| 0 <= i < |done| && done[i].key == key;
      assert done[i] in multiset(done) && done[i] in multiset(es) && done[i] in es;
    }
    if key in keys[..n] {
      var j :| 0 <= j < n && keys[j] == key;
      assert es[j] in multiset(es) && es[j] in multiset(done) && es[j] in done;
    }
  }

  lemma OneMoreKey(keys: seq<string>, n: nat)
    requires n < |keys| && AllDifferent(keys[..n])
    ensures AllDifferent(keys[..n + 1]) <==> keys[n] !in keys[..n]
    ensures keys[n] in keys[..n] ==> !AllDifferent(keys)
  {
  }

  // ---- what is refused -------------------------------------------------------------------------

  /** Behind an item, a key or a value only spaces, the right sign and the bracket are taken. A bracket behind a key or
      a comma ends an object only when nothing is in it; behind a colon it ends the object and the key is lost. */
  lemma WrongSigns(items: seq<Json>, es: seq<Entry>, key: string, c: char, rest: string)
    requires !IsSpace(c)
    ensures c != ',' && c != ']' ==> Fold(InArray(true, items), [c] + rest) == Failed(InvalidChar)
    ensures c != ':' && c != '}' ==> Fold(InObject(true, es, true, key), [c] + rest) == Failed(InvalidChar)
    ensures c != ',' && c != '}' ==> Fold(InObject(true, es, false, key), [c] + rest) == Failed(InvalidChar)
    ensures es != [] ==> Fold(InObject(true, es, true, key), "}" + rest) == Failed(UnexpectedEnd)
    ensures es != [] ==> Fold(InObject(false, es, true, key), "}" + rest) == Failed(UnexpectedEnd)
    ensures Reads(Fold(InObject(true, [], true, key), "}" + rest), Ok(JObject([])), rest)
    ensures Reads(Fold(InObject(false, es, false, key), "}" + rest), Ok(JObject(es)), rest)
  {
    SignsAt(InArray(true, items), c, rest);
    SignsAt(InObject(true, es, true, key), c, rest);
    SignsAt(InObject(true, es, false, key), c, rest);
    SignsAt(InObject(true, es, true, key), '}', rest);
    SignsAt(InObject(false, es, true, key), '}', rest);
    SignsAt(InObject(true, [], true, key), '}', rest);
    SignsAt(InObject(false, es, false, key), '}', rest);
    hide Fold, Consume;
  }

  lemma SignsAt(b: Builder, c: char, rest: string)
    requires IsContainer(b) && b.frame.item.None? && IsOwn(b, c)
    ensures Fold(b, [c] + rest) == AfterContainer(ContainerByte(b, c), rest)
  {
    hide Fold, Consume, ContainerByte;
    SignReads(b, "", c, rest);
    assert "" + ([c] + rest) == [c] + rest;
  }

  predicate IsEnd(c: char) { c in [' ', '\t', '\n', '\r', ',', ']', '}'] }

  /** What begins a string, an array, an object or a number. */
  predicate IsBeginning(c: char) { c in ['{', '[', '"', '-', '+'] || '0' <= c <= '9' }

  function OfWord(w: string): Result<Json, Error> {
    if w == "true" then Ok(JBool(true)) else if w == "false" then Ok(JBool(false))
    else if w == "null" then Ok(JNull) else Err(InvalidString)
  }

  /** A word, that is anything that begins like no other value, up to one of seven characters: only three are values. */
  lemma {:induction false} OtherWords(w: string, c: char, rest: string)
    requires IsEnd(c) && forall k :: 0 <= k < |w| ==> !IsEnd(w[k])
    requires if w == "" then !IsSpace(c) else !IsBeginning(w[0])
    ensures Reads(Fold(Blank, w + ([c] + rest)), OfWord(w), [c] + rest)
  {
    hide Fold, Consume, IsEnd, IsBeginning, IsTerminator;
    var text, tail := w + ([c] + rest), [c] + rest;
    EndsAre(c);
    forall k | 0 <= k < |w| ensures !IsTerminator(w[k]) { EndsAre(w[k]); }
    if w != "" { EndsAre(w[0]); }
    WordBegins(text);
    assert "" + w == w;
    WordFold("", w, tail);
    WordAt(w, None, tail, 0);
    assert tail[0..] == tail;
  }

  lemma WordBegins(text: string)
    requires text != "" && !IsBeginning(text[0]) && !IsSpace(text[0])
    ensures Fold(Blank, text) == Fold(Lit("", None), text)
  {
    hide Fold, Consume;
    BlankAt(text, 0);
    NumberAt(DIGITS, None, text, 0);
    assert text[0..] == text;
  }

  lemma EndsAre(c: char)
    ensures (IsEnd(c) <==> IsTerminator(c)) && (IsEnd(c) ==> !IsBeginning(c)) && (IsSpace(c) ==> IsEnd(c))
  {
  }

  /** In a string, five control characters, a backslash before any but nine letters, and a continuation byte out of
      place are errors. */
  lemma WrongCharacters(buffer: string, c: char, rest: string)
    ensures IsForbidden(c) || Utf8.IsTail(c) ==> Fold(Open(0, buffer), [c] + rest) == Failed(InvalidChar)
    ensures c as int < 128 && !IsLetter(c) && c != 'u' ==>
      Fold(Open(0, buffer), ['\\', c] + rest) == Failed(BadEscapedChar)
  {
    hide Fold, Consume, StringByte;
    NotControl(c);
    OneCharacter(buffer, c, rest);
    if c as int < 128 && !IsLetter(c) && c != 'u' { EscapedCharacter(buffer, c, rest); }
  }

  lemma OneCharacter(buffer: string, c: char, rest: string)
    ensures IsControl(c) || Utf8.IsTail(c) ==> Fold(Open(0, buffer), [c] + rest) == Failed(InvalidChar)
  {
    hide Fold, Consume;
    var text := [c] + rest;
    StringAt(Text(true, 0, false, None, buffer), None, text, 0);
    assert text[0..] == text;
  }

  lemma EscapedCharacter(buffer: string, c: char, rest: string)
    requires c as int < 128 && !IsLetter(c) && c != 'u'
    ensures Fold(Open(0, buffer), ['\\', c] + rest) == Failed(BadEscapedChar)
  {
    hide Fold, Consume, CountOfOctet;
    var text := ['\\', c] + rest;
    NoLetter(c);
    StringAt(Text(true, 0, false, None, buffer), None, text, 0);
    StringAt(Text(true, 0, true, None, buffer), None, text, 1);
    assert text[0..] == text;
  }

  lemma NoLetter(c: char)
    ensures Unescape(c).Some? <==> IsLetter(c)
  {
  }
}
