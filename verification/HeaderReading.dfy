/** What parse_header_value reads: texts spelled out with quotes, backslashes and spaces, cut at their signs. */
module HeaderReading {
  import opened HeaderValue

  // ---- spelling --------------------------------------------------------------------------------

  /** A character between quotes, as it is or behind a backslash. */
  datatype Inner = Bare(c: char) | Marked(c: char)

  /** A piece of a text: a character, one behind a backslash, a space that does not count, or a quoted stretch. */
  datatype Unit = Plain(c: char) | Escaped(c: char) | Blank | Quoted(inner: seq<Inner>)

  function InnerText(q: seq<Inner>): string {
    if q == [] then "" else (if q[0].Bare? then [q[0].c] else ['\\', q[0].c]) + InnerText(q[1..])
  }

  function UnitText(u: Unit): string {
    match u
    case Plain(c) => [c]
    case Escaped(c) => ['\\', c]
    case Blank => " "
    case Quoted(q) => "\"" + InnerText(q) + "\""
  }

  function Text(us: seq<Unit>): string {
    if us == [] then "" else UnitText(us[0]) + Text(us[1..])
  }

  /** What does not stand for itself needs a backslash or quotes. */
  predicate IsUnit(u: Unit) {
    match u
    case Plain(c) => c !in "\\\"=;, "
    case Quoted(q) => forall k :: 0 <= k < |q| ==> q[k].Bare? ==> q[k].c !in "\\\""
    case _ => true
  }

  predicate AreUnits(us: seq<Unit>) { forall k :: 0 <= k < |us| ==> IsUnit(us[k]) }

  function InnerMeaning(q: seq<Inner>): string { seq(|q|, k requires 0 <= k < |q| => q[k].c) }

  function UnitMeaning(u: Unit): string {
    match u
    case Plain(c) => [c]
    case Escaped(c) => [c]
    case Blank => ""
    case Quoted(q) => InnerMeaning(q)
  }

  function Meaning(us: seq<Unit>): string {
    if us == [] then "" else UnitMeaning(us[0]) + Meaning(us[1..])
  }

  /** A piece between two delimiters: a name, and what follows at its signs of equality; `mark` is the delimiter
      in front of it. */
  datatype Part = Part(mark: char, name: seq<Unit>, values: seq<seq<Unit>>)

  predicate IsPart(p: Part) {
    && (p.mark == ';' || p.mark == ',') && AreUnits(p.name)
    && forall k :: 0 <= k < |p.values| ==> AreUnits(p.values[k])
  }

  predicate AreParts(parts: seq<Part>) { forall k :: 0 <= k < |parts| ==> IsPart(parts[k]) }

  function ValuesText(values: seq<seq<Unit>>): string {
    if values == [] then "" else "=" + Text(values[0]) + ValuesText(values[1..])
  }

  function ValuesMeaning(values: seq<seq<Unit>>): string {
    if values == [] then "" else Meaning(values[0]) + ValuesMeaning(values[1..])
  }

  function PartText(p: Part): string { Text(p.name) + ValuesText(p.values) }

  /** Parts behind others. */
  function MoreText(parts: seq<Part>): string {
    if parts == [] then "" else [parts[0].mark] + PartText(parts[0]) + MoreText(parts[1..])
  }

  function PartsText(parts: seq<Part>): string
    requires parts != []
  {
    PartText(parts[0]) + MoreText(parts[1..])
  }

  /** A part without a sign of equality is a new item, any other a parameter of the last item. */
  function Store(log: seq<Listed>, p: Part): seq<Listed> {
    if p.values == [] then log + [Listed(Meaning(p.name), [])]
    else
      var some := if log == [] then [Listed("", [])] else log;
      var last := some[|some| - 1];
      some[..|some| - 1] + [Listed(last.value, last.params + [Pair(Meaning(p.name), ValuesMeaning(p.values))])]
  }

  function StoreAll(log: seq<Listed>, parts: seq<Part>): seq<Listed>
    decreases |parts|
  {
    if parts == [] then log else StoreAll(Store(log, parts[0]), parts[1..])
  }

  // ---- reading it ------------------------------------------------------------------------------

  function AddAll(r: Reader, t: string): Reader {
    if r.isKey then r.(key := r.key + t) else r.(value := r.value + t)
  }

  lemma AddMore(r: Reader, a: string, b: string)
    ensures AddAll(AddAll(r, a), b) == AddAll(r, a + b) && AddAll(r, "") == r
  {
    assert r.key + a + b == r.key + (a + b) && r.value + a + b == r.value + (a + b);
    assert r.key + "" == r.key && r.value + "" == r.value;
  }

  lemma Assoc(a: string, b: string, c: string)
    ensures a + b + c == a + (b + c)
  {
  }

  lemma ReadOne(r: Reader, c: char, rest: string)
    ensures Read(r, [c] + rest) == Read(ReadByte(r, c), rest)
  {
    assert ([c] + rest)[1..] == rest;
  }

  lemma ReadTwo(r: Reader, c: char, rest: string)
    requires !r.escaped
    ensures Read(r, ['\\', c] + rest) == Read(AddAll(r, [c]), rest)
  {
    hide Read;
    assert ['\\', c] + rest == ['\\'] + ([c] + rest);
    ReadOne(r, '\\', [c] + rest);
    ReadOne(ReadByte(r, '\\'), c, rest);
  }

  lemma {:induction false} ReadInner(r: Reader, q: seq<Inner>, rest: string)
    requires r.quoted && !r.escaped && IsUnit(Quoted(q))
    ensures Read(r, InnerText(q) + rest) == Read(AddAll(r, InnerMeaning(q)), rest)
    decreases |q|
  {
    AddMore(r, "", "");
    if q == [] {
      assert InnerText(q) + rest == rest;
    } else {
      var c, more := q[0].c, q[1..];
      var head := if q[0].Bare? then [c] else ['\\', c];
      Assoc(head, InnerText(more), rest);
      if q[0].Bare? { ReadOne(r, c, InnerText(more) + rest); } else { ReadTwo(r, c, InnerText(more) + rest); }
      hide Read;
      ReadInner(AddAll(r, [c]), more, rest);
      AddMore(r, [c], InnerMeaning(more));
      assert [c] + InnerMeaning(more) == InnerMeaning(q);
    }
  }

  predicate IsOpen(r: Reader) { !r.quoted && !r.escaped }

  lemma {:induction false} ReadUnit(r: Reader, u: Unit, rest: string)
    requires IsOpen(r) && IsUnit(u)
    ensures Read(r, UnitText(u) + rest) == Read(AddAll(r, UnitMeaning(u)), rest)
  {
    match u
    case Plain(c) => ReadOne(r, c, rest);
    case Escaped(c) => ReadTwo(r, c, rest);
    case Blank => ReadOne(r, ' ', rest); AddMore(r, "", "");
    case Quoted(q) => ReadQuoted(r, q, rest);
  }

  lemma {:induction false} ReadQuoted(r: Reader, q: seq<Inner>, rest: string)
    requires IsOpen(r) && IsUnit(Quoted(q))
    ensures Read(r, "\"" + InnerText(q) + "\"" + rest) == Read(AddAll(r, InnerMeaning(q)), rest)
  {
    hide Read, InnerText, InnerMeaning, IsUnit;
    var inside := r.(quoted := true);
    Assoc("\"" + InnerText(q), "\"", rest);
    Assoc("\"", InnerText(q), "\"" + rest);
    ReadOne(r, '"', InnerText(q) + ("\"" + rest));
    ReadInner(inside, q, "\"" + rest);
    ReadOne(AddAll(inside, InnerMeaning(q)), '"', rest);
  }

  lemma {:induction false} ReadUnits(r: Reader, us: seq<Unit>, rest: string)
    requires IsOpen(r) && AreUnits(us)
    ensures Read(r, Text(us) + rest) == Read(AddAll(r, Meaning(us)), rest)
    decreases |us|
  {
    hide Read, UnitText, UnitMeaning, IsUnit;
    AddMore(r, "", "");
    if us == [] {
      assert "" + rest == rest;
    } else {
      Assoc(UnitText(us[0]), Text(us[1..]), rest);
      ReadUnit(r, us[0], Text(us[1..]) + rest);
      ReadUnits(AddAll(r, UnitMeaning(us[0])), us[1..], rest);
      AddMore(r, UnitMeaning(us[0]), Meaning(us[1..]));
    }
  }

  lemma {:induction false} ReadValues(r: Reader, values: seq<seq<Unit>>, rest: string)
    requires IsOpen(r) && forall k :: 0 <= k < |values| ==> AreUnits(values[k])
    ensures Read(r, ValuesText(values) + rest)
      == Read(if values == [] then r else AddAll(r.(isKey := false), ValuesMeaning(values)), rest)
    decreases |values|
  {
    hide Read, Text, Meaning, AreUnits;
    if values == [] {
      assert "" + rest == rest;
    } else {
      var v, more := values[0], values[1..];
      var s := r.(isKey := false);
      Assoc("=" + Text(v), ValuesText(more), rest);
      Assoc("=", Text(v), ValuesText(more) + rest);
      ReadOne(r, '=', Text(v) + (ValuesText(more) + rest));
      ReadUnits(s, v, ValuesText(more) + rest);
      ReadValues(AddAll(s, Meaning(v)), more, rest);
      AddMore(s, Meaning(v), ValuesMeaning(more));
      AddMore(s, Meaning(v), "");
      assert Meaning(v) + "" == Meaning(v);
    }
  }

  /** The reader when a part has been read. */
  function Behind(data: seq<Item>, p: Part): Reader {
    Pending(data, p.values == [], Meaning(p.name), ValuesMeaning(p.values))
  }

  lemma {:induction false} ReadPart(data: seq<Item>, p: Part, rest: string)
    requires IsPart(p)
    ensures Read(Pending(data, true, "", ""), PartText(p) + rest) == Read(Behind(data, p), rest)
  {
    hide Read, Text, Meaning, ValuesText, AreUnits;
    var r := Pending(data, true, "", "");
    Assoc(Text(p.name), ValuesText(p.values), rest);
    ReadUnits(r, p.name, ValuesText(p.values) + rest);
    ReadValues(AddAll(r, Meaning(p.name)), p.values, rest);
    assert "" + Meaning(p.name) == Meaning(p.name) && "" + ValuesMeaning(p.values) == ValuesMeaning(p.values);
  }

  lemma StoresBehind(data: seq<Item>, log: seq<Listed>, p: Part)
    requires StoredAll(log) == data
    ensures StoredAll(Store(log, p)) == Flush(Behind(data, p)).data
  {
    hide StoredAll, Meaning, ValuesMeaning, Flush;
    LogFlushIsFlush(Behind(data, p), log);
  }

  /** The reader in front of the last part's end. */
  lemma {:induction false} ReadParts(log: seq<Listed>, data: seq<Item>, parts: seq<Part>, rest: string)
    requires parts != [] && AreParts(parts) && StoredAll(log) == data
    ensures var n := |parts| - 1;
      Read(Pending(data, true, "", ""), PartsText(parts) + rest)
        == Read(Behind(StoredAll(StoreAll(log, parts[..n])), parts[n]), rest)
    decreases |parts|
  {
    hide Read, PartText, IsPart, Store, Behind, StoredAll;
    var p, more := parts[0], parts[1..];
    Assoc(PartText(p), MoreText(more), rest);
    ReadPart(data, p, MoreText(more) + rest);
    if more == [] {
      assert parts[..0] == [] && "" + rest == rest;
    } else {
      var tail := PartsText(more);
      assert MoreText(more) == [more[0].mark] + tail by {
        Assoc([more[0].mark], PartText(more[0]), MoreText(more[1..]));
      }
      Assoc([more[0].mark], tail, rest);
      NextPart(data, p, more[0], tail + rest);
      StoresBehind(data, log, p);
      ReadParts(Store(log, p), Flush(Behind(data, p)).data, more, rest);
      assert parts[..|parts| - 1][1..] == more[..|more| - 1];
    }
  }

  lemma NextPart(data: seq<Item>, p: Part, next: Part, rest: string)
    requires IsPart(next)
    ensures Read(Behind(data, p), [next.mark] + rest)
      == Read(Pending(Flush(Behind(data, p)).data, true, "", ""), rest)
  {
    hide Read, Flush, Meaning, ValuesMeaning;
    ReadDelimiter(Behind(data, p), next.mark, rest);
  }

  /** Any spelling of any parts is read as what they mean. */
  lemma {:induction false} ParsesParts(parts: seq<Part>)
    requires parts != [] && AreParts(parts)
    ensures Parse(PartsText(parts)) == StoredAll(StoreAll([], parts))
  {
    hide Store, PartsText, AreParts, Behind;
    var n := |parts| - 1;
    var log := StoreAll([], parts[..n]);
    assert PartsText(parts) + "" == PartsText(parts);
    ReadParts([], [], parts, "");
    StoresBehind(StoredAll(log), log, parts[n]);
    StoreLast([], parts);
    FinishesBehind(StoredAll(log), parts[n]);
  }

  lemma FinishesBehind(data: seq<Item>, p: Part)
    ensures Finish(Read(Behind(data, p), "")) == Flush(Behind(data, p)).data
  {
  }

  lemma {:induction false} StoreLast(log: seq<Listed>, parts: seq<Part>)
    requires parts != []
    ensures StoreAll(log, parts) == Store(StoreAll(log, parts[..|parts| - 1]), parts[|parts| - 1])
    decreases |parts|
  {
    hide Store;
    if |parts| == 1 {
      assert StoreAll(Store(log, parts[0]), parts[1..]) == Store(log, parts[0]);
    } else {
      StoreLast(Store(log, parts[0]), parts[1..]);
      assert parts[..|parts| - 1][1..] == parts[1..][..|parts| - 2];
    }
  }

  /** A backslash at the very end loses the part that it stands in. */
  lemma {:induction false} BackslashAtTheEnd(parts: seq<Part>)
    requires parts != [] && AreParts(parts)
    ensures Parse(PartsText(parts) + "\\") == StoredAll(StoreAll([], parts[..|parts| - 1]))
  {
    hide Store, PartsText, AreParts, Meaning, ValuesMeaning;
    var n := |parts| - 1;
    ReadParts([], [], parts, "\\");
    var r := Behind(StoredAll(StoreAll([], parts[..n])), parts[n]);
    ReadOne(r, '\\', "");
    assert ['\\'] + "" == "\\";
  }

  /** Quotes that are not closed end with the text. */
  lemma {:induction false} UnclosedQuotes(parts: seq<Part>, q: seq<Inner>)
    requires parts != [] && AreParts(parts) && IsUnit(Quoted(q))
    ensures Parse(PartsText(parts) + ("\"" + InnerText(q))) == Parse(PartsText(parts) + UnitText(Quoted(q)))
  {
    hide Store, PartsText, AreParts, Meaning, ValuesMeaning, InnerText, InnerMeaning, IsUnit;
    var n := |parts| - 1;
    var r := Behind(StoredAll(StoreAll([], parts[..n])), parts[n]);
    var open, t := r.(quoted := true), InnerMeaning(q);
    ReadParts([], [], parts, "\"" + InnerText(q));
    ReadParts([], [], parts, UnitText(Quoted(q)));
    ReadOne(r, '"', InnerText(q));
    assert InnerText(q) + "" == InnerText(q) && UnitText(Quoted(q)) + "" == UnitText(Quoted(q));
    ReadInner(open, q, "");
    ReadUnit(r, Quoted(q), "");
  }

  // ---- quoted parameters -----------------------------------------------------------------------

  /** A backslash in front of each quote and each backslash. */
  function Backslashed(t: string): string {
    if t == "" then ""
    else (if t[0] == '"' || t[0] == '\\' then ['\\', t[0]] else [t[0]]) + Backslashed(t[1..])
  }

  function Quote(t: string): string { "\"" + Backslashed(t) + "\"" }

  function InnerOf(t: string): seq<Inner> {
    seq(|t|, k requires 0 <= k < |t| => if t[k] == '"' || t[k] == '\\' then Marked(t[k]) else Bare(t[k]))
  }

  lemma {:induction false} InnerOfText(t: string)
    ensures InnerText(InnerOf(t)) == Backslashed(t) && InnerMeaning(InnerOf(t)) == t
  {
    if t != "" {
      InnerOfText(t[1..]);
      assert InnerOf(t)[1..] == InnerOf(t[1..]);
    }
  }

  lemma QuoteIsUnit(t: string)
    ensures AreUnits([Quoted(InnerOf(t))]) && Text([Quoted(InnerOf(t))]) == Quote(t)
    ensures Meaning([Quoted(InnerOf(t))]) == t
  {
    InnerOfText(t);
    var u := Quoted(InnerOf(t));
    hide InnerText, InnerMeaning;
    assert [u][1..] == [] && UnitText(u) + "" == Quote(t);
  }

  function PlainUnits(t: string): seq<Unit> { seq(|t|, k requires 0 <= k < |t| => Plain(t[k])) }

  lemma {:induction false} PlainUnitsText(t: string)
    requires IsClean(t)
    ensures AreUnits(PlainUnits(t)) && Text(PlainUnits(t)) == t && Meaning(PlainUnits(t)) == t
  {
    if t != "" {
      PlainUnitsText(t[1..]);
      assert PlainUnits(t)[1..] == PlainUnits(t[1..]);
      assert [t[0]] + t[1..] == t;
    }
  }

  function ParamPart(p: Pair): Part { Part(';', PlainUnits(p.key), [[Quoted(InnerOf(p.value))]]) }

  function ParamParts(params: seq<Pair>): seq<Part> {
    if params == [] then [] else [ParamPart(params[0])] + ParamParts(params[1..])
  }

  function ItemPart(value: string): Part { Part(',', PlainUnits(value), []) }

  function PartsOf(item: Listed): seq<Part> { [ItemPart(item.value)] + ParamParts(item.params) }

  function ListParts(items: seq<Listed>): seq<Part> {
    if items == [] then [] else PartsOf(items[0]) + ListParts(items[1..])
  }

  /** A list as stringify_header_value writes it, but with quoted values of parameters, and each parameter behind a
      semicolon. */
  function ParamsQuoted(params: seq<Pair>): string {
    if params == [] then "" else ";" + params[0].key + "=" + Quote(params[0].value) + ParamsQuoted(params[1..])
  }

  function ItemsQuoted(items: seq<Listed>): string {
    if items == [] then "" else "," + (items[0].value + ParamsQuoted(items[0].params)) + ItemsQuoted(items[1..])
  }

  function ListQuoted(items: seq<Listed>): string
    requires items != []
  {
    items[0].value + ParamsQuoted(items[0].params) + ItemsQuoted(items[1..])
  }

  predicate CleanKeys(params: seq<Pair>) { forall k :: 0 <= k < |params| ==> IsClean(params[k].key) }

  predicate CleanNames(items: seq<Listed>) {
    forall k :: 0 <= k < |items| ==> IsClean(items[k].value) && CleanKeys(items[k].params)
  }

  lemma {:induction false} MoreTextConcat(a: seq<Part>, b: seq<Part>)
    ensures MoreText(a + b) == MoreText(a) + MoreText(b)
  {
    hide PartText;
    if a == [] {
      assert a + b == b;
    } else {
      assert (a + b)[1..] == a[1..] + b;
      MoreTextConcat(a[1..], b);
      Assoc([a[0].mark] + PartText(a[0]), MoreText(a[1..]), MoreText(b));
    }
  }

  lemma {:induction false} StoreConcat(log: seq<Listed>, a: seq<Part>, b: seq<Part>)
    ensures StoreAll(log, a + b) == StoreAll(StoreAll(log, a), b)
    decreases |a|
  {
    hide Store;
    if a == [] {
      assert a + b == b;
    } else {
      assert (a + b)[1..] == a[1..] + b;
      StoreConcat(Store(log, a[0]), a[1..], b);
    }
  }

  lemma ParamPartIs(p: Pair)
    requires IsClean(p.key)
    ensures IsPart(ParamPart(p)) && PartText(ParamPart(p)) == p.key + "=" + Quote(p.value)
    ensures Meaning(ParamPart(p).name) == p.key && ValuesMeaning(ParamPart(p).values) == p.value
  {
    PlainUnitsText(p.key);
    QuoteIsUnit(p.value);
    var v := [Quoted(InnerOf(p.value))];
    hide Text, Meaning, Quote, IsUnit;
    assert [v][1..] == [];
    assert "=" + Text(v) + "" == "=" + Text(v) && Meaning(v) + "" == Meaning(v);
    assert ValuesText([v]) == "=" + Text(v) + ValuesText([]) && ValuesMeaning([v]) == Meaning(v) + ValuesMeaning([]);
    Assoc(p.key, "=", Text(v));
  }

  lemma ItemPartIs(value: string)
    requires IsClean(value)
    ensures IsPart(ItemPart(value)) && PartText(ItemPart(value)) == value && Meaning(ItemPart(value).name) == value
  {
    PlainUnitsText(value);
    hide Text, Meaning, IsUnit;
    assert Text(PlainUnits(value)) + "" == value;
  }

  lemma {:induction false} ParamPartsText(params: seq<Pair>)
    requires CleanKeys(params)
    ensures AreParts(ParamParts(params)) && MoreText(ParamParts(params)) == ParamsQuoted(params)
  {
    if params != [] {
      var p, more := params[0], params[1..];
      ParamPartIs(p);
      MarkOf(p);
      hide IsPart, PartText, Quote, Meaning, ValuesMeaning, ParamPart, IsClean;
      assert CleanKeys(more);
      ParamPartsText(more);
      MoreOne(ParamPart(p));
      MoreTextConcat([ParamPart(p)], ParamParts(more));
      Assoc(";", p.key + "=", Quote(p.value));
      Assoc(";", p.key, "=");
    }
  }

  lemma MoreOne(p: Part)
    ensures MoreText([p]) == [p.mark] + PartText(p)
  {
    hide PartText;
    assert [p][1..] == [] && [p.mark] + PartText(p) + "" == [p.mark] + PartText(p);
  }

  lemma {:induction false} ParamPartsStored(value: string, done: seq<Pair>, params: seq<Pair>, log: seq<Listed>)
    requires CleanKeys(params)
    ensures StoreAll(log + [Listed(value, done)], ParamParts(params)) == log + [Listed(value, done + params)]
    decreases |params|
  {
    hide IsClean, Store, ParamPart;
    if params == [] {
      assert done + [] == done;
    } else {
      var p, more := params[0], params[1..];
      assert CleanKeys(more);
      ParamPartsStored(value, done + [p], more, log);
      StoresParam(log, Listed(value, done), p);
      assert done + [p] + more == done + params;
      assert ParamParts(params)[1..] == ParamParts(more);
    }
  }

  lemma MarkOf(p: Pair)
    ensures ParamPart(p).mark == ';' && ParamPart(p).values != []
  {
  }

  lemma StoresParam(log: seq<Listed>, last: Listed, p: Pair)
    requires IsClean(p.key)
    ensures Store(log + [last], ParamPart(p)) == log + [Listed(last.value, last.params + [p])]
  {
    ParamPartIs(p);
    MarkOf(p);
    hide Meaning, ValuesMeaning, ParamPart, PartText, IsPart;
    assert (log + [last])[..|log|] == log;
  }

  lemma {:induction false} PartsOfText(item: Listed)
    requires IsClean(item.value) && CleanKeys(item.params)
    ensures AreParts(PartsOf(item)) && MoreText(PartsOf(item)) == "," + (item.value + ParamsQuoted(item.params))
  {
    var part, params := ItemPart(item.value), ParamParts(item.params);
    ItemPartIs(item.value);
    NoValues(item.value);
    hide IsPart, PartText, Meaning, ItemPart, Store, IsClean, MoreText;
    ParamPartsText(item.params);
    MoreOne(part);
    MoreTextConcat([part], params);
    Assoc(",", item.value, ParamsQuoted(item.params));
  }

  lemma {:induction false} PartsOfStored(item: Listed, log: seq<Listed>)
    requires IsClean(item.value) && CleanKeys(item.params)
    ensures StoreAll(log, PartsOf(item)) == log + [item]
  {
    var part, params := ItemPart(item.value), ParamParts(item.params);
    ItemPartIs(item.value);
    NoValues(item.value);
    assert Store(log, part) == log + [Listed(item.value, [])];
    hide Meaning, ItemPart, Store, IsClean, ParamParts;
    ParamPartsStored(item.value, [], item.params, log);
    assert [] + item.params == item.params;
    assert ([part] + params)[1..] == params;
  }

  lemma {:induction false} ListPartsText(items: seq<Listed>)
    requires CleanNames(items)
    ensures AreParts(ListParts(items)) && MoreText(ListParts(items)) == ItemsQuoted(items)
  {
    hide PartsOf, IsPart, MoreText, IsClean, CleanKeys;
    if items == [] {
      NoMore();
    } else {
      PartsOfText(items[0]);
      ListPartsText(items[1..]);
      MoreTextConcat(PartsOf(items[0]), ListParts(items[1..]));
    }
  }

  lemma NoMore()
    ensures MoreText([]) == ""
  {
  }

  lemma {:induction false} ListPartsStored(items: seq<Listed>, log: seq<Listed>)
    requires CleanNames(items)
    ensures StoreAll(log, ListParts(items)) == log + items
    decreases |items|
  {
    hide PartsOf, IsClean, CleanKeys, Store;
    if items == [] {
      assert log + [] == log;
    } else {
      PartsOfStored(items[0], log);
      ListPartsStored(items[1..], log + [items[0]]);
      StoreConcat(log, PartsOf(items[0]), ListParts(items[1..]));
      assert log + [items[0]] + items[1..] == log + items;
    }
  }

  /** Every list comes back when the values of its parameters are quoted, whatever characters they hold. */
  lemma {:induction false} QuotedListsComeBack(items: seq<Listed>)
    requires items != [] && CleanNames(items)
    ensures Parse(ListQuoted(items)) == StoredAll(items)
  {
    ListPartsText(items);
    ListPartsStored(items, []);
    assert [] + items == items;
    var parts := ListParts(items);
    assert parts[0].mark == ',';
    hide AreParts, PartText, StoreAll, Parse, StoredAll, ListParts;
    ParsesParts(parts);
    Assoc(",", PartText(parts[0]), MoreText(parts[1..]));
    Assoc(",", items[0].value + ParamsQuoted(items[0].params), ItemsQuoted(items[1..]));
    assert "," + PartsText(parts) == "," + ListQuoted(items);
    assert ("," + PartsText(parts))[1..] == PartsText(parts) && ("," + ListQuoted(items))[1..] == ListQuoted(items);
  }

  /** As in the header of a part of a multipart form: any text comes back from between its quotes. */
  lemma {:induction false} QuotedComesBack(value: string, key: string, t: string)
    requires IsClean(value) && IsClean(key)
    ensures Parse(value + "; " + key + "=" + Quote(t)) == [Item(value, map[key := t])]
  {
    var p := Part(';', [Blank] + PlainUnits(key), [[Quoted(InnerOf(t))]]);
    var parts := [ItemPart(value), p];
    ItemPartIs(value);
    BlankPart(key, t);
    QuotedText(value, key, t);
    hide IsPart, Meaning, ValuesMeaning, Quote, IsClean, PartsText, ItemPart;
    ParsesParts(parts);
    assert ItemPart(value).values == [] by { NoValues(value); }
    assert parts[1..] == [p] && [p][1..] == [];
    StoresTwo(value, key, t, ItemPart(value), p);
  }

  lemma NoValues(value: string)
    ensures ItemPart(value).values == [] && ItemPart(value).mark == ','
  {
  }

  lemma StoresTwo(value: string, key: string, t: string, a: Part, b: Part)
    requires a.values == [] && Meaning(a.name) == value
    requires b.values != [] && Meaning(b.name) == key && ValuesMeaning(b.values) == t
    ensures StoredAll(StoreAll([], [a, b])) == [Item(value, map[key := t])]
  {
    hide Meaning, ValuesMeaning;
    assert [a, b][1..] == [b] && [b][1..] == [];
    var one, two := [Listed(value, [])], [Listed(value, [Pair(key, t)])];
    assert [] + one == one && [] + two == two && [] + two[0].params == two[0].params && one[..0] == [];
    assert Store([], a) == one && Store(one, b) == two;
    assert StoreAll(one, [b]) == two;
    assert two[1..] == [] && two[0].params[1..] == [];
    assert InsertAll(map[], two[0].params) == map[key := t];
  }

  lemma BlankPart(key: string, t: string)
    requires IsClean(key)
    ensures var p := Part(';', [Blank] + PlainUnits(key), [[Quoted(InnerOf(t))]]);
      IsPart(p) && PartText(p) == " " + key + "=" + Quote(t) && Meaning(p.name) == key && ValuesMeaning(p.values) == t
  {
    ParamPartIs(Pair(key, t));
    PlainUnitsText(key);
    var us := [Blank] + PlainUnits(key);
    assert us[1..] == PlainUnits(key) && us[0] == Blank;
    assert Text(us) == " " + key && Meaning(us) == "" + key && "" + key == key;
    var values := ParamPart(Pair(key, t)).values;
    hide Quote, Text, Meaning, ValuesText, ValuesMeaning;
    Assoc(key, ValuesText(values), "");
    Assoc(" ", key, ValuesText(values));
    Assoc(" ", key + "=", Quote(t));
    Assoc(" ", key, "=");
    assert AreUnits(us) by { BlankAnd(PlainUnits(key)); }
  }

  lemma BlankAnd(us: seq<Unit>)
    requires AreUnits(us)
    ensures AreUnits([Blank] + us)
  {
  }

  lemma QuotedText(value: string, key: string, t: string)
    requires IsClean(value) && IsClean(key)
    ensures PartsText([ItemPart(value), Part(';', [Blank] + PlainUnits(key), [[Quoted(InnerOf(t))]])])
      == value + "; " + key + "=" + Quote(t)
  {
    var p := Part(';', [Blank] + PlainUnits(key), [[Quoted(InnerOf(t))]]);
    ItemPartIs(value);
    BlankPart(key, t);
    NoValues(value);
    hide PartText, Quote, ItemPart, MoreText;
    MoreOne(p);
    assert [ItemPart(value), p][1..] == [p];
    JoinedText(value, key, Quote(t));
  }

  lemma JoinedText(value: string, key: string, q: string)
    ensures value + (";" + (" " + key + "=" + q)) == value + "; " + key + "=" + q
  {
    var x := key + ("=" + q);
    calc {
      " " + key + "=" + q;
      { Assoc(" " + key, "=", q); Assoc(" ", key, "=" + q); }
      " " + x;
    }
    assert ";" + (" " + x) == "; " + x;
    calc {
      value + "; " + key + "=" + q;
      { Assoc(value + "; " + key, "=", q); Assoc(value + "; ", key, "=" + q); Assoc(value, "; ", x); }
      value + ("; " + x);
    }
  }
}
