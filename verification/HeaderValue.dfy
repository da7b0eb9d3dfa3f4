/** Header values with parameters: parse_header_value against stringify_header_value. */
module HeaderValue {

  datatype Item = Item(value: string, params: map<string, string>)

  /** An item with its parameters in the order they are written, which is that of the map's keys. */
  datatype Pair = Pair(key: string, value: string)

  datatype Listed = Listed(value: string, params: seq<Pair>)

  // ---- writing ---------------------------------------------------------------------------------

  function PairText(p: Pair): string { p.key + ("=" + p.value) }

  /** Parameters, each after a semicolon, and what comes after them. */
  function ParamsText(params: seq<Pair>, rest: string): string {
    if params == [] then rest else ";" + (PairText(params[0]) + ParamsText(params[1..], rest))
  }

  /** An item; without a value its first parameter has no semicolon. */
  function ItemText(item: Listed, rest: string): string {
    if item.value != "" || item.params == [] then item.value + ParamsText(item.params, rest)
    else PairText(item.params[0]) + ParamsText(item.params[1..], rest)
  }

  /** The writer follows an empty value with the first parameter without looking whether there is one,
      so an item must have one of the two. */
  predicate IsWritable(item: Listed) { item.value != "" || item.params != [] }

  function Stringify(items: seq<Listed>): string {
    if items == [] then ""
    else ItemText(items[0], if |items| == 1 then "" else "," + Stringify(items[1..]))
  }

  // ---- reading ---------------------------------------------------------------------------------

  /** The loop between two characters; escaped after a backslash. */
  datatype Reader = Reader(data: seq<Item>, quoted: bool, escaped: bool, isKey: bool, key: string, value: string)

  const START := Reader([], false, false, true, "", "")

  /** map::insert keeps what is there. */
  function Insert(params: map<string, string>, p: Pair): map<string, string> {
    if p.key in params then params else params[p.key := p.value]
  }

  function WithParam(data: seq<Item>, p: Pair): seq<Item> {
    var some := if data == [] then [Item("", map[])] else data;
    var last := some[|some| - 1];
    some[..|some| - 1] + [last.(params := Insert(last.params, p))]
  }

  /** At a delimiter, or at the end. */
  function Flush(r: Reader): Reader {
    var data := if r.isKey then r.data + [Item(r.key, map[])] else WithParam(r.data, Pair(r.key, r.value));
    Reader(data, r.quoted, false, true, "", "")
  }

  function Add(r: Reader, c: char): Reader {
    if r.isKey then r.(escaped := false, key := r.key + [c]) else r.(escaped := false, value := r.value + [c])
  }

  function ReadByte(r: Reader, c: char): Reader {
    if r.escaped then Add(r, c)
    else if c == '\\' then r.(escaped := true)
    else if c == '"' then r.(quoted := !r.quoted)
    else if r.quoted then Add(r, c)
    else if c == '=' then r.(isKey := false)
    else if c == ';' || c == ',' then Flush(r)
    else if c == ' ' then r
    else Add(r, c)
  }

  function Read(r: Reader, text: string): Reader
    decreases |text|
  {
    if text == "" then r else Read(ReadByte(r, text[0]), text[1..])
  }

  /** A backslash at the very end breaks the loop before the last piece is stored. */
  function Finish(r: Reader): seq<Item> { if r.escaped then r.data else Flush(r).data }

  function Parse(text: string): seq<Item> { Finish(Read(START, text)) }

  // ---- the loop --------------------------------------------------------------------------------

  method ParseHeaderValue(text: string) returns (data: seq<Item>)
    ensures data == Parse(text)
  {
    data := [];
    var quoted, isKey, key, value, i := false, true, "", "", 0;
    assert text[0..] == text;
    while true
      invariant i <= |text|
      invariant Finish(Read(Reader(data, quoted, false, isKey, key, value), text[i..])) == Parse(text)
      decreases |text| - i
    {

      ghost var rest := text[i..];
      if i == |text| {
        assert rest == "";
        return Flush(Reader(data, quoted, false, isKey, key, value)).data;
      }
      assert rest[0] == text[i] && rest[1..] == text[i + 1..];
      var c := text[i];
      if c == '\\' {
        i := i + 1;
        if i == |text| {
          assert rest[1..] == "";
          return;
        }
        c := text[i];
        assert text[i..][0] == c && text[i..][1..] == text[i + 1..];
      } else if c == '"' {
        quoted := !quoted;
        i := i + 1;
        continue;
      } else if !quoted && c == '=' {
        isKey := false;
        i := i + 1;
        continue;
      } else if !quoted && (c == ';' || c == ',') {
        data := Flush(Reader(data, quoted, false, isKey, key, value)).data;
        isKey, key, value := true, "", "";
        i := i + 1;
        continue;
      } else if !quoted && c == ' ' {
        i := i + 1;
        continue;
      }
      if isKey {
        key := key + [c];
      } else {
        value := value + [c];
      }
      i := i + 1;
    }
  }

  /** The parameters that are left, the first with or without its semicolon. */
  function ParamsLeft(params: seq<Pair>, skip: bool, rest: string): string {
    if skip && params != [] then PairText(params[0]) + ParamsText(params[1..], rest) else ParamsText(params, rest)
  }

  method WriteParams(done: string, item: Listed, ghost rest: string) returns (result: string)
    requires IsWritable(item)
    ensures result + rest == done + ItemText(item, rest)
  {
    result := done + item.value;
    var skip := item.value == "";
    var params := item.params;
    assert params[0..] == params;
    assert result + ParamsLeft(params[0..], skip, rest) == done + ItemText(item, rest);
    for k := 0 to |params|
      invariant result + ParamsLeft(params[k..], skip, rest) == done + ItemText(item, rest)
      invariant k == 0 || !skip
    {
      ghost var left := params[k..];
      assert left[0] == params[k] && left[1..] == params[k + 1..];
      var sep := if skip then "" else ";";
      var pair := params[k].key + ("=" + params[k].value);
      Assoc3(result, sep, pair, ParamsText(params[k + 1..], rest));
      result := result + (sep + pair);
      skip := false;
    }
    assert params[|params|..] == [];
  }

  lemma Assoc3(a: string, b: string, c: string, d: string)
    ensures (a + (b + c)) + d == a + (b + (c + d)) && "" + (c + d) == c + d
  {
  }

  method StringifyHeaderValue(items: seq<Listed>) returns (result: string)
    requires forall k :: 0 <= k < |items| ==> IsWritable(items[k])
    ensures result == Stringify(items)
  {
    ItemsAll(items);
    hide ItemText, ItemsLeft, IsWritable, Stringify;
    result := "";
    for v := 0 to |items|
      invariant result + ItemsLeft(items[v..], v > 0) == Stringify(items)
    {
      ItemsNext(result, items, v);
      ghost var rest := ItemsLeft(items[v + 1..], true);
      if v > 0 {
        result := result + ",";
      }
      result := WriteParams(result, items[v], rest);
    }
  }

  lemma ItemsAll(items: seq<Listed>)
    ensures "" + ItemsLeft(items[0..], false) == Stringify(items) && ItemsLeft(items[|items|..], |items| > 0) == ""
  {
    assert items[0..] == items && items[|items|..] == [];
    hide ItemText;
  }

  lemma ItemsNext(done: string, items: seq<Listed>, v: nat)
    requires v < |items|
    ensures done + ItemsLeft(items[v..], v > 0)
         == (if v > 0 then done + "," else done) + ItemText(items[v], ItemsLeft(items[v + 1..], true))
  {
    var left := items[v..];
    assert left[0] == items[v] && left[1..] == items[v + 1..];
    assert |left| == 1 <==> items[v + 1..] == [];
    hide ItemText;
    assert Stringify(left) == ItemText(items[v], ItemsLeft(items[v + 1..], true));
    Assoc3(done, ",", "", Stringify(left));
  }

  function ItemsLeft(items: seq<Listed>, comma: bool): string {
    if items == [] then "" else (if comma then "," else "") + Stringify(items)
  }

  // ---- what comes back -------------------------------------------------------------------------

  predicate IsClean(t: string) {
    forall k :: 0 <= k < |t| ==> t[k] != '\\' && t[k] != '"' && t[k] != '=' && t[k] != ';' && t[k] != ',' && t[k] != ' '
  }

  predicate AllClean(items: seq<Listed>) {
    forall k :: 0 <= k < |items| ==> IsClean(items[k].value) && CleanPairs(items[k].params)
  }

  predicate CleanPairs(params: seq<Pair>) {
    forall k :: 0 <= k < |params| ==> IsClean(params[k].key) && IsClean(params[k].value)
  }

  function Pending(data: seq<Item>, isKey: bool, key: string, value: string): Reader {
    Reader(data, false, false, isKey, key, value)
  }

  /** What the reader ends with after a text. */
  function Outcome(r: Reader, text: string): seq<Item> { Finish(Read(r, text)) }

  lemma {:induction false} ReadClean(data: seq<Item>, isKey: bool, key: string, value: string, t: string, rest: string)
    requires IsClean(t)
    ensures Read(Pending(data, isKey, key, value), t + rest)
         == Read(if isKey then Pending(data, true, key + t, value) else Pending(data, false, key, value + t), rest)
    decreases |t|
  {
    if t == "" {
      assert t + rest == rest && key + t == key && value + t == value;
    } else {
      assert (t + rest)[1..] == t[1..] + rest;
      if isKey {
        ReadClean(data, isKey, key + [t[0]], value, t[1..], rest);
        assert key + [t[0]] + t[1..] == key + t;
      } else {
        ReadClean(data, isKey, key, value + [t[0]], t[1..], rest);
        assert value + [t[0]] + t[1..] == value + t;
      }
    }
  }

  lemma ReadPair(data: seq<Item>, p: Pair, rest: string)
    requires IsClean(p.key) && IsClean(p.value)
    ensures Read(Pending(data, true, "", ""), PairText(p) + rest) == Read(Pending(data, false, p.key, p.value), rest)
  {
    hide IsClean;
    var tail := p.value + rest;
    assert PairText(p) + rest == p.key + ("=" + tail);
    ReadClean(data, true, "", "", p.key, "=" + tail);
    assert "" + p.key == p.key && "" + p.value == p.value;
    assert ("=" + tail)[1..] == tail;
    ReadClean(data, false, p.key, "", p.value, rest);
  }

  /** After a delimiter the piece before it is stored. */
  lemma ReadDelimiter(r: Reader, c: char, rest: string)
    requires !r.quoted && !r.escaped && (c == ';' || c == ',')
    ensures Read(r, [c] + rest) == Read(Pending(Flush(r).data, true, "", ""), rest)
  {
    assert ([c] + rest)[1..] == rest;
  }

  function WithParams(data: seq<Item>, params: seq<Pair>): seq<Item>
    decreases |params|
  {
    if params == [] then data else WithParams(WithParam(data, params[0]), params[1..])
  }

  lemma {:induction false} ReadParams(r: Reader, params: seq<Pair>, rest: string) returns (q: Reader)
    requires !r.quoted && !r.escaped && CleanPairs(params)
    ensures !q.quoted && !q.escaped && Read(r, ParamsText(params, rest)) == Read(q, rest)
    ensures Flush(q).data == WithParams(Flush(r).data, params)
    decreases |params|
  {
    hide Read, IsClean;
    if params == [] {
      q := r;
    } else {
      var p := params[0];
      var tail := ParamsText(params[1..], rest);
      ReadDelimiter(r, ';', PairText(p) + tail);
      ReadPair(Flush(r).data, p, tail);
      q := ReadParams(Pending(Flush(r).data, false, p.key, p.value), params[1..], rest);
    }
  }

  /** The items after one more is read: without a value but with parameters, they go to the last one. */
  function Added(data: seq<Item>, item: Listed): seq<Item> {
    if item.value != "" || item.params == [] then WithParams(data + [Item(item.value, map[])], item.params)
    else WithParams(data, item.params)
  }

  lemma ReadItem(data: seq<Item>, item: Listed, rest: string) returns (q: Reader)
    requires IsClean(item.value) && CleanPairs(item.params)
    ensures !q.quoted && !q.escaped && Flush(q).data == Added(data, item)
    ensures Read(Pending(data, true, "", ""), ItemText(item, rest)) == Read(q, rest)
  {
    hide Read, IsClean;
    if item.value != "" || item.params == [] {
      var tail := ParamsText(item.params, rest);
      ReadClean(data, true, "", "", item.value, tail);
      assert "" + item.value == item.value;
      q := ReadParams(Pending(data, true, item.value, ""), item.params, rest);
    } else {
      var p := item.params[0];
      ReadPair(data, p, ParamsText(item.params[1..], rest));
      q := ReadParams(Pending(data, false, p.key, p.value), item.params[1..], rest);
    }
  }

  function AddedAll(data: seq<Item>, items: seq<Listed>): seq<Item>
    decreases |items|
  {
    if items == [] then data else AddedAll(Added(data, items[0]), items[1..])
  }

  lemma {:induction false} ReadItems(data: seq<Item>, items: seq<Listed>)
    requires items != [] && AllClean(items)
    ensures Outcome(Pending(data, true, "", ""), Stringify(items)) == AddedAll(data, items)
    decreases |items|
  {
    hide IsClean, CleanPairs, ItemText, Added;
    var rest := if |items| == 1 then "" else "," + Stringify(items[1..]);
    var q := ReadItem(data, items[0], rest);
    if |items| == 1 {
      assert AddedAll(Added(data, items[0]), items[1..]) == Added(data, items[0]);
      assert Read(q, "") == q;
    } else {
      ReadDelimiter(q, ',', Stringify(items[1..]));
      ReadItems(Added(data, items[0]), items[1..]);
    }
  }

  // ---- the round trip --------------------------------------------------------------------------

  function InsertAll(params: map<string, string>, pairs: seq<Pair>): map<string, string>
    decreases |pairs|
  {
    if pairs == [] then params else InsertAll(Insert(params, pairs[0]), pairs[1..])
  }

  function Stored(item: Listed): Item { Item(item.value, InsertAll(map[], item.params)) }

  /** The items a listing stands for. */
  function StoredAll(items: seq<Listed>): seq<Item> {
    if items == [] then [] else [Stored(items[0])] + StoredAll(items[1..])
  }

  lemma {:induction false} ParamsOfLast(data: seq<Item>, last: Item, params: seq<Pair>)
    ensures WithParams(data + [last], params) == data + [last.(params := InsertAll(last.params, params))]
    decreases |params|
  {
    if params != [] {
      var some := data + [last];
      assert some[..|some| - 1] == data;
      ParamsOfLast(data, last.(params := Insert(last.params, params[0])), params[1..]);
    }
  }

  /** The item does not come back where it stands: it has parameters but no value to hold them. */
  predicate Homeless(item: Listed) { item.value == "" && item.params != [] }

  lemma AddedIs(data: seq<Item>, item: Listed)
    ensures data == [] || !Homeless(item) ==> Added(data, item) == data + [Stored(item)]
    ensures data != [] && Homeless(item) ==> |Added(data, item)| == |data|
  {
    hide InsertAll;
    if !Homeless(item) {
      ParamsOfLast(data, Item(item.value, map[]), item.params);
    } else if data == [] {
      var p := item.params[0];
      assert WithParam([], p) == [] + [Item("", Insert(map[], p))];
      ParamsOfLast([], Item("", Insert(map[], p)), item.params[1..]);
      InsertFirst(item.params);
    } else {
      var n := |data| - 1;
      ParamsOfLast(data[..n], data[n], item.params);
      assert data[..n] + [data[n]] == data;
    }
  }

  lemma InsertFirst(params: seq<Pair>)
    requires params != []
    ensures InsertAll(map[], params) == InsertAll(Insert(map[], params[0]), params[1..])
  {
  }

  lemma {:induction false} AddedAllIs(data: seq<Item>, items: seq<Listed>)
    requires data != []
    ensures |AddedAll(data, items)| <= |data| + |items| && AddedAll(data, items) != []
    ensures (forall k :: 0 <= k < |items| ==> !Homeless(items[k])) ==> AddedAll(data, items) == data + StoredAll(items)
    ensures (exists k :: 0 <= k < |items| && Homeless(items[k])) ==> |AddedAll(data, items)| < |data| + |items|
    decreases |items|
  {
    hide Added, Stored, Homeless;
    if items != [] {
      AddedIs(data, items[0]);
      var more := Added(data, items[0]);
      AddedAllIs(more, items[1..]);
      assert forall k :: 1 <= k < |items| ==> items[k] == items[1..][k - 1];
      assert !Homeless(items[0]) ==> more + StoredAll(items[1..]) == data + StoredAll(items);
    }
  }

  lemma {:induction false} StoredCount(items: seq<Listed>)
    ensures |StoredAll(items)| == |items|
  {
    if items != [] { StoredCount(items[1..]); }
  }

  // ---- why nothing else comes back ---------------------------------------------------------------

  /** What a parameter takes in the text: its key, its value and two signs. */
  function PairsWeight(params: seq<Pair>): nat {
    if params == [] then 0 else |params[0].key| + |params[0].value| + 2 + PairsWeight(params[1..])
  }

  function ItemWeight(item: Listed): nat { |item.value| + 1 + PairsWeight(item.params) }

  function Weight(items: seq<Listed>): nat {
    if items == [] then 0 else ItemWeight(items[0]) + Weight(items[1..])
  }

  function HomelessCount(items: seq<Listed>): nat {
    if items == [] then 0 else (if Homeless(items[0]) then 1 else 0) + HomelessCount(items[1..])
  }

  lemma {:induction false} ParamsLength(params: seq<Pair>, rest: string)
    ensures |ParamsText(params, rest)| == PairsWeight(params) + |rest|
  {
    if params != [] { ParamsLength(params[1..], rest); }
  }

  lemma ItemLength(item: Listed, rest: string)
    requires IsWritable(item)
    ensures |ItemText(item, rest)| == ItemWeight(item) - (if Homeless(item) then 2 else 1) + |rest|
  {
    if item.value != "" || item.params == [] {
      ParamsLength(item.params, rest);
    } else {
      ParamsLength(item.params[1..], rest);
    }
  }

  lemma {:induction false} WrittenLength(items: seq<Listed>)
    requires items != [] && forall k :: 0 <= k < |items| ==> IsWritable(items[k])
    ensures |Stringify(items)| == Weight(items) - 1 - HomelessCount(items)
  {
    hide ItemText, ItemWeight, Homeless, IsWritable;
    ItemLength(items[0], if |items| == 1 then "" else "," + Stringify(items[1..]));
    if |items| > 1 { WrittenLength(items[1..]); }
  }

  /** What the reader has stored, with the parameters in the order they came. */
  function LogFlush(r: Reader, log: seq<Listed>): seq<Listed> {
    if r.isKey then log + [Listed(r.key, [])]
    else
      var some := if log == [] then [Listed("", [])] else log;
      var last := some[|some| - 1];
      some[..|some| - 1] + [last.(params := last.params + [Pair(r.key, r.value)])]
  }

  predicate Flushes(r: Reader, c: char) { !r.escaped && !r.quoted && (c == ';' || c == ',') }

  function LogNext(r: Reader, log: seq<Listed>, c: char): seq<Listed> {
    if Flushes(r, c) then LogFlush(r, log) else log
  }

  function LogAfter(r: Reader, log: seq<Listed>, text: string): seq<Listed>
    decreases |text|
  {
    if text == "" then (if r.escaped then log else LogFlush(r, log))
    else LogAfter(ReadByte(r, text[0]), LogNext(r, log, text[0]), text[1..])
  }

  lemma {:induction false} InsertMore(params: map<string, string>, pairs: seq<Pair>, p: Pair)
    ensures InsertAll(params, pairs + [p]) == Insert(InsertAll(params, pairs), p)
    decreases |pairs|
  {
    if pairs == [] {
      assert [] + [p] == [p] && [p][1..] == [];
    } else {
      assert (pairs + [p])[0] == pairs[0] && (pairs + [p])[1..] == pairs[1..] + [p];
      InsertMore(Insert(params, pairs[0]), pairs[1..], p);
    }
  }

  lemma {:induction false} StoredMore(items: seq<Listed>, item: Listed)
    ensures StoredAll(items + [item]) == StoredAll(items) + [Stored(item)]
  {
    hide Stored;
    if items == [] {
      assert [] + [item] == [item] && [item][1..] == [];
    } else {
      assert (items + [item])[0] == items[0] && (items + [item])[1..] == items[1..] + [item];
      StoredMore(items[1..], item);
    }
  }

  lemma StoredWithPair(item: Listed, p: Pair)
    ensures Stored(item.(params := item.params + [p])) == Stored(item).(params := Insert(Stored(item).params, p))
  {
    InsertMore(map[], item.params, p);
  }

  lemma {:induction false} LogFlushIsFlush(r: Reader, log: seq<Listed>)
    requires StoredAll(log) == r.data
    ensures StoredAll(LogFlush(r, log)) == Flush(r).data
  {
    if r.isKey {
      StoredMore(log, Listed(r.key, []));
    } else {
      hide Stored;
      var some := if log == [] then [Listed("", [])] else log;
      var n, last, p := |some| - 1, some[|some| - 1], Pair(r.key, r.value);
      assert some == some[..n] + [last];
      StoredMore(some[..n], last);
      StoredMore(some[..n], last.(params := last.params + [p]));
      StoredWithPair(last, p);
      EmptyStored();
      StoredCount(some[..n]);
    }
  }

  lemma EmptyStored()
    ensures StoredAll([]) == [] && Stored(Listed("", [])) == Item("", map[])
  {
  }

  lemma {:induction false} LogIsRead(r: Reader, log: seq<Listed>, text: string)
    requires StoredAll(log) == r.data
    ensures StoredAll(LogAfter(r, log, text)) == Finish(Read(r, text))
    decreases |text|
  {
    hide LogFlush, Flush, StoredAll;
    LogFlushIsFlush(r, log);
    if text != "" {
      NextStored(r, log, text[0]);
      LogIsRead(ReadByte(r, text[0]), LogNext(r, log, text[0]), text[1..]);
    }
  }

  lemma {:induction false} NextStored(r: Reader, log: seq<Listed>, c: char)
    requires StoredAll(log) == r.data
    ensures StoredAll(LogNext(r, log, c)) == ReadByte(r, c).data
  {
    hide LogFlush, StoredAll;
    LogFlushIsFlush(r, log);
  }

  /** An item that began without a value has needed no sign of its own. */
  function Saved(log: seq<Listed>): nat { if log != [] && Homeless(log[0]) then 1 else 0 }

  /** What has been read so far, as it would weigh in a text. */
  function Potential(r: Reader, log: seq<Listed>): int {
    Weight(log) - Saved(log) + |r.key| + |r.value| + if r.isKey then 0 else 1
  }

  lemma {:induction false} WeightMore(items: seq<Listed>, item: Listed)
    ensures Weight(items + [item]) == Weight(items) + ItemWeight(item)
  {
    hide ItemWeight;
    if items == [] {
      assert [] + [item] == [item] && [item][1..] == [];
    } else {
      assert (items + [item])[0] == items[0] && (items + [item])[1..] == items[1..] + [item];
      WeightMore(items[1..], item);
    }
  }

  lemma {:induction false} PairsWeightMore(params: seq<Pair>, p: Pair)
    ensures PairsWeight(params + [p]) == PairsWeight(params) + |p.key| + |p.value| + 2
  {
    if params == [] {
      assert [] + [p] == [p] && [p][1..] == [];
    } else {
      assert (params + [p])[0] == params[0] && (params + [p])[1..] == params[1..] + [p];
      PairsWeightMore(params[1..], p);
    }
  }

  /** A delimiter adds no more than itself. */
  lemma {:induction false} FlushWeighs(r: Reader, log: seq<Listed>)
    ensures Weight(LogFlush(r, log)) - Saved(LogFlush(r, log)) <= Potential(r, log) + 1
  {
    if r.isKey {
      WeightMore(log, Listed(r.key, []));
      hide Weight;
    } else {
      var some := if log == [] then [Listed("", [])] else log;
      var n, last, p := |some| - 1, some[|some| - 1], Pair(r.key, r.value);
      assert some == some[..n] + [last];
      WeightMore(some[..n], last);
      WeightMore(some[..n], last.(params := last.params + [p]));
      PairsWeightMore(last.params, p);
      assert Weight([]) == 0 && PairsWeight([]) == 0 && (log == [] ==> some[..n] == []);
      hide Weight, PairsWeight;
      assert Saved(log) <= Saved(LogFlush(r, log));
    }
  }

  /** No character adds more than itself; a backslash, a quote or a space outside of quotes adds nothing. */
  lemma {:induction false} ByteWeighs(r: Reader, log: seq<Listed>, c: char)
    ensures Potential(ReadByte(r, c), LogNext(r, log, c)) <= Potential(r, log) + 1
    ensures !r.escaped && !r.quoted && (c == '\\' || c == '"' || c == ' ') ==>
      Potential(ReadByte(r, c), LogNext(r, log, c)) == Potential(r, log)
  {
    hide LogFlush, Weight, Saved;
    FlushWeighs(r, log);
  }

  lemma {:induction false} LogWeighs(r: Reader, log: seq<Listed>, text: string)
    ensures Weight(LogAfter(r, log, text)) - Saved(LogAfter(r, log, text)) <= Potential(r, log) + |text| + 1
    decreases |text|
  {
    hide LogFlush, Weight, Saved, ReadByte, LogNext;
    if text == "" {
      FlushWeighs(r, log);
    } else {
      ByteWeighs(r, log, text[0]);
      LogWeighs(ReadByte(r, text[0]), LogNext(r, log, text[0]), text[1..]);
    }
  }

  predicate IsSpecial(c: char) { c == '\\' || c == '"' || c == ' ' }

  predicate CleanReader(r: Reader, log: seq<Listed>) {
    !r.quoted && !r.escaped && IsClean(r.key) && IsClean(r.value) && AllClean(log)
  }

  lemma {:induction false} FlushClean(r: Reader, log: seq<Listed>)
    requires CleanReader(r, log)
    ensures AllClean(LogFlush(r, log))
  {
    hide IsClean;
    assert IsClean("") by { NothingIsClean(); }
  }

  lemma NothingIsClean()
    ensures IsClean("")
  {
  }

  lemma {:induction false} ByteClean(r: Reader, log: seq<Listed>, c: char)
    requires CleanReader(r, log) && !IsSpecial(c)
    ensures CleanReader(ReadByte(r, c), LogNext(r, log, c))
  {
    hide LogFlush, AllClean;
    FlushClean(r, log);
  }

  /** All that is read is without special characters, or a character has been lost. */
  lemma {:induction false} LogClean(r: Reader, log: seq<Listed>, text: string)
    requires CleanReader(r, log)
    ensures AllClean(LogAfter(r, log, text))
         || Weight(LogAfter(r, log, text)) - Saved(LogAfter(r, log, text)) <= Potential(r, log) + |text|
    decreases |text|
  {
    hide LogFlush, Weight, Saved, ReadByte, LogNext, AllClean, IsClean, Potential;
    if text == "" {
      FlushClean(r, log);
    } else {
      var c := text[0];
      ByteWeighs(r, log, c);
      if IsSpecial(c) {
        LogWeighs(ReadByte(r, c), LogNext(r, log, c), text[1..]);
      } else {
        ByteClean(r, log, c);
        LogClean(ReadByte(r, c), LogNext(r, log, c), text[1..]);
      }
    }
  }

  // ---- different keys ----------------------------------------------------------------------------

  /** The keys of a map come once. */
  predicate Distinct(params: seq<Pair>) {
    forall i, j :: 0 <= i < j < |params| ==> params[i].key != params[j].key
  }

  lemma {:induction false} Kept(params: map<string, string>, pairs: seq<Pair>, key: string)
    requires key in params
    ensures key in InsertAll(params, pairs) && InsertAll(params, pairs)[key] == params[key]
    decreases |pairs|
  {
    if pairs != [] { Kept(Insert(params, pairs[0]), pairs[1..], key); }
  }

  lemma {:induction false} Found(params: map<string, string>, pairs: seq<Pair>, key: string)
    requires key !in params && key in InsertAll(params, pairs)
    ensures Pair(key, InsertAll(params, pairs)[key]) in pairs
    decreases |pairs|
  {
    var more := Insert(params, pairs[0]);
    if pairs[0].key == key {
      Kept(more, pairs[1..], key);
      assert pairs[0] == Pair(key, more[key]);
    } else {
      Found(more, pairs[1..], key);
    }
  }

  /** Of a key that comes more than once the first value is stored. */
  lemma {:induction false} FirstStored(params: map<string, string>, pairs: seq<Pair>, i: nat)
    requires i < |pairs| && pairs[i].key !in params && forall j :: 0 <= j < i ==> pairs[j].key != pairs[i].key
    ensures pairs[i].key in InsertAll(params, pairs) && InsertAll(params, pairs)[pairs[i].key] == pairs[i].value
    decreases |pairs|
  {
    var more := Insert(params, pairs[0]);
    if i == 0 {
      Kept(more, pairs[1..], pairs[0].key);
    } else {
      FirstStored(more, pairs[1..], i - 1);
    }
  }

  lemma {:induction false} WithoutOne(q: seq<Pair>, j: nat)
    requires j < |q|
    ensures PairsWeight(q) == PairsWeight(q[..j] + q[j + 1..]) + |q[j].key| + |q[j].value| + 2
    decreases |q|
  {
    var less := q[..j] + q[j + 1..];
    if j == 0 {
      assert less == q[1..];
    } else {
      assert less[0] == q[0] && less[1..] == q[1..][..j - 1] + q[1..][j..];
      WithoutOne(q[1..], j - 1);
    }
  }

  /** Different pairs that are all there weigh no more. */
  lemma {:induction false} Within(p: seq<Pair>, q: seq<Pair>)
    requires Distinct(p) && forall x :: x in p ==> x in q
    ensures PairsWeight(p) <= PairsWeight(q)
    decreases |p|
  {
    if p != [] {
      assert p[0] in q;
      var j :| 0 <= j < |q| && q[j] == p[0];
      var less := q[..j] + q[j + 1..];
      forall x | x in p[1..] ensures x in less {
        assert x in p && x != p[0];
        var i :| 0 <= i < |q| && q[i] == x;
        assert less[if i < j then i else i - 1] == x;
      }
      WithoutOne(q, j);
      Within(p[1..], less);
    }
  }

  lemma {:induction false} SamePairs(p: seq<Pair>, q: seq<Pair>)
    requires Distinct(p) && InsertAll(map[], p) == InsertAll(map[], q)
    ensures PairsWeight(p) <= PairsWeight(q) && forall x :: x in p ==> x in q
    ensures p == [] <==> q == []
  {
    forall x | x in p ensures x in q {
      var i :| 0 <= i < |p| && p[i] == x;
      FirstStored(map[], p, i);
      Found(map[], q, x.key);
    }
    Within(p, q);
    if q != [] { Kept(Insert(map[], q[0]), q[1..], q[0].key); }
  }

  lemma {:induction false} SameItem(item: Listed, other: Listed)
    requires Distinct(item.params) && Stored(item) == Stored(other)
    ensures ItemWeight(item) <= ItemWeight(other) && (Homeless(item) <==> Homeless(other))
    ensures IsClean(other.value) && CleanPairs(other.params) ==> IsClean(item.value) && CleanPairs(item.params)
  {
    hide InsertAll, PairsWeight, IsClean;
    SamePairs(item.params, other.params);
    if CleanPairs(other.params) {
      forall k | 0 <= k < |item.params| ensures IsClean(item.params[k].key) && IsClean(item.params[k].value) {
        assert item.params[k] in other.params;
      }
    }
  }

  lemma {:induction false} SameItems(items: seq<Listed>, log: seq<Listed>)
    requires StoredAll(items) == StoredAll(log) && forall k :: 0 <= k < |items| ==> Distinct(items[k].params)
    ensures Weight(items) <= Weight(log) && (AllClean(log) ==> AllClean(items)) && Saved(log) <= HomelessCount(items)
    decreases |items|
  {
    hide Stored, ItemWeight, IsClean, CleanPairs, Homeless, Distinct;
    StoredCount(items);
    StoredCount(log);
    if items != [] {
      assert StoredAll(items)[0] == Stored(items[0]) && StoredAll(items)[1..] == StoredAll(items[1..]);
      assert StoredAll(log)[0] == Stored(log[0]) && StoredAll(log)[1..] == StoredAll(log[1..]);
      SameItem(items[0], log[0]);
      SameItems(items[1..], log[1..]);
      if AllClean(log) {
        assert AllClean(log[1..]);
        assert forall k :: 1 <= k < |items| ==> items[k] == items[1..][k - 1];
      }
    }
  }

  /** A list that comes back has no special character: every one that is read as itself has cost one that is lost. */
  lemma {:induction false} OnlyClean(items: seq<Listed>)
    requires items != [] && forall k :: 0 <= k < |items| ==> IsWritable(items[k]) && Distinct(items[k].params)
    requires Parse(Stringify(items)) == StoredAll(items)
    ensures AllClean(items)
  {
    var text := Stringify(items);
    var log := LogAfter(START, [], text);
    assert Weight([]) == 0 && CleanReader(START, []);
    hide IsWritable, Distinct, Stringify, LogAfter, Weight, AllClean, HomelessCount;
    LogIsRead(START, [], text);
    LogClean(START, [], text);
    SameItems(items, log);
    WrittenLength(items);
  }

  /** Parsing what is written gives the items back exactly when no text in them has a special character, there are
      any, and none after the first has an empty value. */
  lemma {:induction false} RoundTrip(items: seq<Listed>)
    requires forall k :: 0 <= k < |items| ==> IsWritable(items[k]) && Distinct(items[k].params)
    ensures Parse(Stringify(items)) == StoredAll(items)
        <==> AllClean(items) && items != [] && forall k :: 1 <= k < |items| ==> items[k].value != ""
  {
    hide Parse, Stringify, StoredAll, AllClean;
    if items == [] {
      NothingWritten();
    } else if AllClean(items) {
      CleanRoundTrip(items);
    } else if Parse(Stringify(items)) == StoredAll(items) {
      OnlyClean(items);
    }
  }

  lemma {:induction false} HomelessLater(items: seq<Listed>)
    requires items != [] && forall k :: 0 <= k < |items| ==> IsWritable(items[k])
    ensures (forall k :: 0 <= k < |items[1..]| ==> !Homeless(items[1..][k]))
        <==> forall k :: 1 <= k < |items| ==> items[k].value != ""
  {
    assert forall k :: 1 <= k < |items| ==> items[k] == items[1..][k - 1];
  }

  lemma {:induction false} CleanRoundTrip(items: seq<Listed>)
    requires items != [] && AllClean(items) && forall k :: 0 <= k < |items| ==> IsWritable(items[k])
    ensures Parse(Stringify(items)) == StoredAll(items)
        <==> forall k :: 1 <= k < |items| ==> items[k].value != ""
  {
    hide AllClean, Stringify, Stored, Homeless, Added, IsWritable;
    StoredCount(items);
    ReadItems([], items);
    AddedIs([], items[0]);
    AddedAllIs([Stored(items[0])], items[1..]);
    HomelessLater(items);
    assert [] + [Stored(items[0])] == [Stored(items[0])];
  }

  lemma NothingWritten()
    ensures Parse(Stringify([])) == [Item("", map[])] && StoredAll([]) == []
  {
  }
}
