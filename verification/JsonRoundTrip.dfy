/** What the builder makes of what the printer printed. */
module JsonRoundTrip {
  import opened Wrappers
  import opened JsonValue
  import opened JsonBuilderModel
  import opened JsonChunks
  import opened JsonElements
  import opened JsonNumbers
  import opened JsonPrinter

  // ---- strings -----------------------------------------------------------------------------

  function Twice(w: nat): nat {
    if w < 2 then 0 else w - 2
  }

  /** The continuation bytes due after the escaped form of s; None when some byte of it is out of place. */
  function Scan(w: nat, s: string): Option<nat>
    decreases |s|
  {
    if s == "" then Some(w)
    else if |EscapeChar(s[0])| == 2 then Scan(Twice(w), s[1..])
    else match NextWide(w, s[0])
         case None => None
         case Some(l) => Scan(l, s[1..])
  }

  /** An open string with nothing pending. */
  function Open(w: nat, buffer: string): Builder {
    Str(Text(true, w, false, None, buffer), None)
  }

  lemma EscapedPair(w: nat, buffer: string, c: char, rest: string)
    requires |EscapeChar(c)| == 2
    ensures Fold(Open(w, buffer), EscapeChar(c) + rest) == Fold(Open(Twice(w), buffer + [c]), rest)
  {
    var text := EscapeChar(c) + rest;
    var t := Text(true, w, false, None, buffer);
    var left := if w == 0 then 0 else w - 1;
    StringAt(t, None, text, 0);
    assert text[0..] == text && text[1..][1..] == rest && text[2..] == rest;
    assert StringByte(t, '\\') == Goes(Text(true, left, true, None, buffer));
    StringAt(Text(true, left, true, None, buffer), None, text, 1);
    assert Unescape(text[1]) == Some(c);
    assert StringByte(Text(true, left, true, None, buffer), text[1])
      == Goes(Text(true, Twice(w), false, None, buffer + [c]));
  }

  lemma PlainChar(w: nat, buffer: string, c: char, rest: string)
    requires |EscapeChar(c)| != 2
    ensures Fold(Open(w, buffer), EscapeChar(c) + rest) ==
      match NextWide(w, c) case None => Failed(InvalidChar) case Some(l) => Fold(Open(l, buffer + [c]), rest)
  {
    var text := EscapeChar(c) + rest;
    StringAt(Text(true, w, false, None, buffer), None, text, 0);
    assert text[0..] == text && text[1..] == rest;
  }

  /** Reading an escaped string to its closing quote gives the string back, or fails exactly when it does not scan. */
  lemma {:induction false} StringBody(w: nat, buffer: string, s: string, rest: string)
    ensures var fed := Fold(Open(w, buffer), Escape(s) + "\"" + rest);
      if Scan(w, s).Some? then fed.Finished? && fed.rest == rest && Value(fed.b) == JString(buffer + s)
      else fed == Failed(InvalidChar)
    decreases |s|
  {
    hide StringByte, Consume;
    var tail := "\"" + rest;
    if s == "" {
      assert Escape(s) + "\"" + rest == tail;
      StringAt(Text(true, w, false, None, buffer), None, tail, 0);
      assert tail[0..] == tail && tail[1..] == rest && buffer + s == buffer;
      ClosingQuote(w, buffer);
    } else {
      var more := Escape(s[1..]) + "\"" + rest;
      assert Escape(s) + "\"" + rest == EscapeChar(s[0]) + more;
      assert buffer + s == (buffer + [s[0]]) + s[1..];
      if |EscapeChar(s[0])| == 2 {
        EscapedPair(w, buffer, s[0], more);
        StringBody(Twice(w), buffer + [s[0]], s[1..], rest);
      } else {
        PlainChar(w, buffer, s[0], more);
        if NextWide(w, s[0]).Some? {
          StringBody(NextWide(w, s[0]).value, buffer + [s[0]], s[1..], rest);
        }
      }
    }
  }

  lemma ClosingQuote(w: nat, buffer: string)
    ensures StringByte(Text(true, w, false, None, buffer), '"')
      == Ends(Text(false, if w == 0 then 0 else w - 1, false, None, buffer))
  {
  }

  /** What a printed value followed by `rest` must give: the value, with `rest` left over, or an error if it does
      not scan. */
  predicate Gives(fed: Fed, good: bool, v: Json, rest: string) {
    if good then fed.Finished? && fed.rest == rest && Value(fed.b) == v && Ready(fed.b) else fed == Failed(InvalidChar)
  }

  lemma StringGives(s: string, rest: string)
    ensures Gives(Fold(Blank, Quote(s) + rest), Scan(0, s).Some?, JString(s), rest)
  {
    hide StringByte, Consume, Fold;
    var text := Quote(s) + rest;
    BlankAt(text, 0);
    StringAt(TEXT, None, text, 0);
    assert text[0..] == text && text[1..] == Escape(s) + "\"" + rest;
    OpeningQuote();
    StringBody(0, "", s, rest);
    FoldKeeps(Blank, text);
  }

  lemma OpeningQuote()
    ensures StringByte(TEXT, '"') == Goes(Text(true, 0, false, None, ""))
  {
  }

  predicate FollowsValue(s: string) {
    s != "" && IsTerminator(s[0])
  }

  // ---- numbers and literals ----------------------------------------------------------------

  lemma {:induction false} WordFold(word: string, more: string, rest: string)
    requires forall k :: 0 <= k < |more| ==> !IsTerminator(more[k])
    ensures Fold(Lit(word, None), more + rest) == Fold(Lit(word + more, None), rest)
    decreases |more|
  {
    hide Consume, Fold, WordValue;
    if more == "" {
      assert more + rest == rest && word + more == word;
    } else {
      var text := more + rest;
      WordAt(word, None, text, 0);
      assert text[0..] == text && text[1..] == more[1..] + rest;
      assert word + more == (word + [more[0]]) + more[1..];
      WordFold(word + [more[0]], more[1..], rest);
    }
  }

  lemma LiteralFold(word: string, rest: string)
    requires word == "true" || word == "false" || word == "null"
    ensures Fold(Blank, word + rest) == Fold(Lit(word, None), rest)
  {
    hide Consume, Fold, WordValue;
    var text := word + rest;
    BlankAt(text, 0);
    NumberAt(DIGITS, None, text, 0);
    assert text[0..] == text && "" + word == word;
    WordFold("", word, rest);
  }

  /** Values whose end is only known from the byte after it. */
  predicate IsScalar(v: Json) {
    v.JNull? || v.JBool? || v.JNumber? || v.JDecimal?
  }

  function ScalarBuilder(v: Json): Builder
    requires IsScalar(v)
  {
    if v.JNumber? || v.JDecimal? then NumberState(Dump(v, 0, 0)) else Lit(Dump(v, 0, 0), None)
  }

  /** What the printer prints faithfully: 64-bit integers, decimals whose text is one, objects in key order. */
  ghost predicate Plain(v: Json) {
    match v
    case JNumber(n) => INT64_MIN <= n <= INT64_MAX
    case JDecimal(text) => IsDecimalText(text)
    case JArray(items) => forall k :: 0 <= k < |items| ==> Plain(items[k])
    case JObject(entries) => Sorted(entries) && forall k :: 0 <= k < |entries| ==> Plain(entries[k].value)
    case _ => true
  }

  /** A printed number or literal leaves the builder waiting; a terminator closes it, and so does get(). */
  lemma ScalarFold(v: Json, spaces: nat, first: nat, rest: string)
    requires IsScalar(v) && Plain(v)
    ensures Fold(Blank, Dump(v, spaces, first) + rest) == Fold(ScalarBuilder(v), rest)
    ensures Get(ScalarBuilder(v)) == Ok(v)
    ensures FollowsValue(rest) ==> Gives(Fold(ScalarBuilder(v), rest), true, v, rest)
  {
    hide Consume, Fold, NumberState, HasMark, IsNumberText;
    if v.JNumber? || v.JDecimal? {
      NumberDumped(v);
      NumberFold(Dump(v, 0, 0), v, rest);
    } else {
      LiteralFold(Dump(v, spaces, first), rest);
      if rest != "" {
        WordAt(Dump(v, spaces, first), None, rest, 0);
        assert rest[0..] == rest;
      }
    }
  }

  lemma NumberDumped(v: Json)
    requires Plain(v) && (v.JNumber? || v.JDecimal?)
    ensures var s := Dump(v, 0, 0); IsNumberText(s) && s != "-" && NumberOf(s) == v
  {
    if v.JNumber? {
      ShowIntIsNumber(v.n);
      ReadShowInt(v.n);
    }
  }

  lemma NumberFold(s: string, v: Json, rest: string)
    requires IsNumberText(s) && s != "-" && NumberOf(s) == v
    ensures Fold(Blank, s + rest) == Fold(NumberState(s), rest) && Get(NumberState(s)) == Ok(v)
    ensures FollowsValue(rest) ==> Gives(Fold(NumberState(s), rest), true, v, rest)
  {
    NumberOfState(s);
    NumberRuns(s);
    hide IsNumberText, HasMark, HasDigit, AwaitsSign, NumberOf, Consume, Continues;
    FoldConcat(Blank, s, rest);
    if FollowsValue(rest) {
      assert rest == [rest[0]] + rest[1..];
      TerminatorEnds(s, rest[0]);
      NumberExactly(s, rest[0], rest[1..]);
    }
  }

  lemma TerminatorEnds(s: string, c: char)
    requires IsNumberText(s) && IsTerminator(c)
    ensures !Continues(s, c)
  {
  }

  // ---- values ------------------------------------------------------------------------------

  /** Every string and key in the value scans. */
  predicate Scans(v: Json) {
    match v
    case JString(s) => Scan(0, s).Some?
    case JArray(items) => forall k :: 0 <= k < |items| ==> Scans(items[k])
    case JObject(entries) => forall k :: 0 <= k < |entries| ==> Scan(0, entries[k].key).Some? && Scans(entries[k].value)
    case _ => true
  }

  lemma {:induction false} SpacesFold(b: Builder, spaces: string, rest: string)
    requires IsContainer(b) && b.frame.item.None? && AllSpace(spaces)
    ensures Fold(b, spaces + rest) == Fold(b, rest)
    decreases |spaces|
  {
    hide Consume, Fold;
    if spaces == "" {
      assert spaces + rest == rest;
    } else {
      var text := spaces + rest;
      ContainerAt(b, text, 0);
      assert text[0..] == text && text[1..] == spaces[1..] + rest;
      SpacesFold(b, spaces[1..], rest);
    }
  }

  lemma {:induction false} PadIsSpace(n: nat)
    ensures AllSpace(Pad(n))
  {
    if n > 0 { PadIsSpace(n - 1); }
  }

  lemma DumpHead(v: Json, spaces: nat, first: nat)
    requires Plain(v)
    ensures var s := Dump(v, spaces, first); s != "" && !IsTerminator(s[0])
  {
    if v.JNumber? { ShowNatDigits(if v.n < 0 then -v.n else v.n); }
    if v.JDecimal? { assert Continues(v.text[..0], v.text[0]); }
  }

  /** An array or object between its brackets. */
  function InArray(delimiter: bool, items: seq<Json>): Builder {
    Arr(Frame(true, delimiter, None), false, items)
  }

  function InObject(delimiter: bool, entries: seq<Entry>, isKey: bool, key: string): Builder {
    Obj(Frame(true, delimiter, None), false, entries, isKey, key)
  }

  /** A printed element is taken by the container. */
  lemma ElementGives(b: Builder, good: bool, v: Json, s: string, rest: string)
    requires IsContainer(b) && b.frame.item.None? && b.frame.isOpen && !b.frame.delimiter
    requires s != "" && !IsTerminator(s[0]) && Gives(Fold(Blank, s + rest), good, v, rest)
    ensures Fold(b, s + rest) == if good then AfterElement(Absorb(b, v), rest) else Failed(InvalidChar)
  {
    hide Consume, Fold;
    var text := s + rest;
    ContainerAt(b, text, 0);
    assert text[0..] == text;
    FoldElement(WithItem(b, Blank), text);
    assert Absorb(WithItem(b, Blank), v) == Absorb(b, v);
  }

  function AfterComma(b: Builder): Builder
    requires IsContainer(b)
  {
    var d := WithFrame(b, b.frame.(delimiter := false));
    if d.Obj? then d.(isKey := true) else d
  }

  /** A comma, and the spaces after it. */
  lemma CommaFold(b: Builder, spaces: nat, total: nat, rest: string)
    requires IsContainer(b) && b.frame.item.None? && b.frame.delimiter && (b.Obj? ==> !b.isKey)
    ensures Fold(b, "," + (Separator(spaces) + (Pad(total) + rest))) == Fold(AfterComma(b), rest)
  {
    hide Consume, Fold;
    var text := "," + (Separator(spaces) + (Pad(total) + rest));
    ContainerAt(b, text, 0);
    assert text[0..] == text && text[1..] == Separator(spaces) + (Pad(total) + rest);
    PadIsSpace(total);
    SpacesFold(AfterComma(b), Separator(spaces), Pad(total) + rest);
    SpacesFold(AfterComma(b), Pad(total), rest);
  }

  /** The opening bracket, and the spaces after it. */
  lemma OpeningFold(bracket: char, spaces: nat, rest: string)
    requires bracket == '[' || bracket == '{'
    ensures Fold(Blank, [bracket] + (NewLine(spaces) + rest))
         == Fold(if bracket == '[' then InArray(false, []) else InObject(false, [], true, ""), rest)
  {
    hide Fold;
    var text := [bracket] + (NewLine(spaces) + rest);
    FoldAt(Blank, text, 0);
    assert text[0..] == text && text[1..] == NewLine(spaces) + rest;
    SpacesFold(if bracket == '[' then InArray(false, []) else InObject(false, [], true, ""), NewLine(spaces), rest);
  }

  lemma PadFold(b: Builder, total: nat, rest: string)
    requires IsContainer(b) && b.frame.item.None?
    ensures Fold(b, Pad(total) + rest) == Fold(b, rest)
  {
    PadIsSpace(total);
    SpacesFold(b, Pad(total), rest);
  }

  /** The closing bracket, and the spaces before it. */
  lemma ClosingFold(b: Builder, v: Json, spaces: nat, first: nat, rest: string)
    requires IsContainer(b) && b.frame.item.None? && b.frame.isOpen && !Ready(b) && Value(b) == v
    requires b.Obj? && b.isKey ==> b.entries == []
    ensures Gives(Fold(b, ClosingText(v, spaces, first, rest)), true, v, rest)
  {
    hide Consume, Fold;
    var close := (if v.JArray? then "]" else "}") + rest;
    PadFold(b, first, close);
    SpacesFold(b, NewLine(spaces), Pad(first) + close);
    ContainerAt(b, close, 0);
    assert close[0..] == close && close[1..] == rest;
  }

  // ---- the tree ------------------------------------------------------------------------------

  /** The printer's main property: a printed value is read as that value, or is an error exactly when some string in it
      does not scan, whatever comes after it. */
  lemma {:induction false} DumpGives(v: Json, spaces: nat, first: nat, rest: string)
    requires Plain(v) && (IsScalar(v) ==> FollowsValue(rest))
    ensures Gives(Fold(Blank, Dump(v, spaces, first) + rest), Scans(v), v, rest)
    decreases v, 2
  {
    hide Consume, Fold;
    match v
    case JString(s) => StringGives(s, rest);
    case JArray(items) => ArrayGives(v, spaces, first, rest);
    case JObject(entries) => ObjectGives(v, spaces, first, rest);
    case _ => ScalarFold(v, spaces, first, rest);
  }

  lemma ClosingHead(v: Json, spaces: nat, first: nat, rest: string)
    requires v.JArray? || v.JObject?
    ensures FollowsValue(ClosingText(v, spaces, first, rest))
  {
    PadIsSpace(first);
  }

  /** After an item: the array closes, or a comma leads to the next item. */
  lemma AfterItem(v: Json, n: nat, spaces: nat, first: nat, rest: string)
    requires v.JArray? && n <= |v.items|
    ensures FollowsValue(ItemsText(v, n, spaces, first, rest))
    ensures n == |v.items| ==>
      Gives(Fold(InArray(true, v.items[..n]), ItemsText(v, n, spaces, first, rest)), true, v, rest)
    ensures n < |v.items| ==> (Fold(InArray(true, v.items[..n]), ItemsText(v, n, spaces, first, rest))
      == Fold(InArray(false, v.items[..n]),
          Dump(v.items[n], spaces, first + spaces) + ItemsText(v, n + 1, spaces, first, rest)))
  {
    hide Consume, Fold, Gives, Dump, Pad, ClosingText;
    if n == |v.items| {
      assert v.items[..n] == v.items && ItemsText(v, n, spaces, first, rest) == ClosingText(v, spaces, first, rest);
      ClosingHead(v, spaces, first, rest);
      ClosingFold(InArray(true, v.items), v, spaces, first, rest);
    } else {
      NextItemText(v, n, spaces, first, rest);
      CommaFold(InArray(true, v.items[..n]), spaces, first + spaces,
        Dump(v.items[n], spaces, first + spaces) + ItemsText(v, n + 1, spaces, first, rest));
    }
  }

  lemma ItemAbsorbed(items: seq<Json>, n: nat)
    requires n < |items|
    ensures Absorb(InArray(false, items[..n]), items[n]) == Ok(InArray(true, items[..n + 1]))
  {
    assert items[..n] + [items[n]] == items[..n + 1];
  }

  /** From the n-th item on. */
  lemma {:induction false} ItemGives(v: Json, n: nat, spaces: nat, first: nat, rest: string)
    requires Plain(v) && v.JArray? && n < |v.items| && forall k :: 0 <= k < n ==> Scans(v.items[k])
    ensures Gives(Fold(InArray(false, v.items[..n]),
        Dump(v.items[n], spaces, first + spaces) + ItemsText(v, n + 1, spaces, first, rest)), Scans(v), v, rest)
    decreases v, 1, |v.items| - n
  {
    hide Consume, Fold, ItemsText, Dump, Absorb;
    var tail := ItemsText(v, n + 1, spaces, first, rest);
    var good := Scans(v.items[n]);
    ItemAbsorbed(v.items, n);
    AfterItem(v, n + 1, spaces, first, rest);
    DumpGives(v.items[n], spaces, first + spaces, tail);
    DumpHead(v.items[n], spaces, first + spaces);
    ElementGives(InArray(false, v.items[..n]), good, v.items[n], Dump(v.items[n], spaces, first + spaces), tail);
    if good && n + 1 < |v.items| {
      ItemGives(v, n + 1, spaces, first, rest);
    }
  }

  lemma {:induction false} ArrayGives(v: Json, spaces: nat, first: nat, rest: string)
    requires Plain(v) && v.JArray?
    ensures Gives(Fold(Blank, Dump(v, spaces, first) + rest), Scans(v), v, rest)
    decreases v, 1, |v.items| + 1
  {
    hide Consume, Fold, Gives, Plain, Dump, ItemsText, ClosingText, Pad;
    ArrayText(v, spaces, first, rest);
    if v.items == [] {
      OpeningFold('[', spaces, ClosingText(v, spaces, first, rest));
      ClosingFold(InArray(false, []), v, spaces, first, rest);
    } else {
      var more := Dump(v.items[0], spaces, first + spaces) + ItemsText(v, 1, spaces, first, rest);
      OpeningFold('[', spaces, Pad(first + spaces) + more);
      PadFold(InArray(false, []), first + spaces, more);
      assert v.items[..0] == [];
      ItemGives(v, 0, spaces, first, rest);
    }
  }

  /** A key, its colon and the space after it. */
  lemma KeyFold(entries: seq<Entry>, oldKey: string, key: string, rest: string)
    ensures Fold(InObject(false, entries, true, oldKey), Quote(key) + (": " + rest))
      == if Scan(0, key).Some? then Fold(InObject(false, entries, false, key), rest) else Failed(InvalidChar)
  {
    hide Consume, Fold, Escape, Scan;
    var colon := ": " + rest;
    var b := InObject(false, entries, true, oldKey);
    StringGives(key, colon);
    ElementGives(b, Scan(0, key).Some?, JString(key), Quote(key), colon);
    if Scan(0, key).Some? {
      ContainerAt(InObject(true, entries, true, key), colon, 0);
      assert colon[0..] == colon && colon[1..] == " " + rest;
      SpacesFold(InObject(false, entries, false, key), " ", rest);
    }
  }

  lemma AfterEntry(v: Json, n: nat, spaces: nat, first: nat, key: string, rest: string)
    requires v.JObject? && n <= |v.entries|
    ensures FollowsValue(EntriesText(v, n, spaces, first, rest))
    ensures n == |v.entries| ==>
      Gives(Fold(InObject(true, v.entries[..n], false, key), EntriesText(v, n, spaces, first, rest)), true, v, rest)
    ensures n < |v.entries| ==>
      (Fold(InObject(true, v.entries[..n], false, key), EntriesText(v, n, spaces, first, rest))
      == Fold(InObject(false, v.entries[..n], true, key), EntryText(v, n, spaces, first, rest)))
  {
    hide Consume, Fold, Gives, Dump, Pad, ClosingText, EntryText, Escape;
    if n == |v.entries| {
      assert v.entries[..n] == v.entries;
      assert EntriesText(v, n, spaces, first, rest) == ClosingText(v, spaces, first, rest);
      ClosingHead(v, spaces, first, rest);
      ClosingFold(InObject(true, v.entries, false, key), v, spaces, first, rest);
    } else {
      NextEntryText(v, n, spaces, first, rest);
      CommaFold(InObject(true, v.entries[..n], false, key), spaces, first + spaces,
        EntryText(v, n, spaces, first, rest));
    }
  }

  /** The next entry in key order goes last. */
  lemma EntryAbsorbed(entries: seq<Entry>, n: nat)
    requires Sorted(entries) && n < |entries|
    ensures Absorb(InObject(false, entries[..n], false, entries[n].key), entries[n].value)
      == Ok(InObject(true, entries[..n + 1], false, entries[n].key))
  {
    InsertLast(entries[..n], entries[n].key, entries[n].value);
    assert entries[..n] + [entries[n]] == entries[..n + 1];
  }

  /** From the n-th entry on. */
  lemma {:induction false} EntryGives(v: Json, n: nat, spaces: nat, first: nat, oldKey: string, rest: string)
    requires Plain(v) && v.JObject? && n < |v.entries|
    requires forall k :: 0 <= k < n ==> Scan(0, v.entries[k].key).Some? && Scans(v.entries[k].value)
    ensures Gives(Fold(InObject(false, v.entries[..n], true, oldKey), EntryText(v, n, spaces, first, rest)),
      Scans(v), v, rest)
    decreases v, 1, |v.entries| - n
  {
    hide Consume, Fold, EntriesText, Dump, Escape, Scan, Absorb;
    var key, value := v.entries[n].key, v.entries[n].value;
    var tail := EntriesText(v, n + 1, spaces, first, rest);
    KeyFold(v.entries[..n], oldKey, key, Dump(value, spaces, first + spaces) + tail);
    AfterEntry(v, n + 1, spaces, first, key, rest);
    if Scan(0, key).Some? {
      DumpGives(value, spaces, first + spaces, tail);
      DumpHead(value, spaces, first + spaces);
      ElementGives(InObject(false, v.entries[..n], false, key), Scans(value), value,
        Dump(value, spaces, first + spaces), tail);
      EntryAbsorbed(v.entries, n);
      if Scans(value) && n + 1 < |v.entries| {
        EntryGives(v, n + 1, spaces, first, key, rest);
      }
    }
  }

  lemma {:induction false} ObjectGives(v: Json, spaces: nat, first: nat, rest: string)
    requires Plain(v) && v.JObject?
    ensures Gives(Fold(Blank, Dump(v, spaces, first) + rest), Scans(v), v, rest)
    decreases v, 1, |v.entries| + 1
  {
    hide Consume, Fold, Gives, Plain, Dump, EntriesText, EntryText, ClosingText, Pad;
    ObjectText(v, spaces, first, rest);
    if v.entries == [] {
      OpeningFold('{', spaces, ClosingText(v, spaces, first, rest));
      ClosingFold(InObject(false, [], true, ""), v, spaces, first, rest);
    } else {
      OpeningFold('{', spaces, Pad(first + spaces) + EntryText(v, 0, spaces, first, rest));
      PadFold(InObject(false, [], true, ""), first + spaces, EntryText(v, 0, spaces, first, rest));
      assert v.entries[..0] == [];
      EntryGives(v, 0, spaces, first, "", rest);
    }
  }
}
