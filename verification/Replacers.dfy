/** The scan for {{key}} in a file, and the Content-Length computed from it. */
module Replacers {

  type Values = map<string, string>

  /** A found key, with the positions of its first and its last brace. */
  datatype Item = Item(key: string, first: nat, second: nat)

  // ---- what is found ---------------------------------------------------------------------------

  /** A closed {{key}}, if the key is one to be replaced. */
  function Emit(values: Values, key: string, first: nat, second: nat): seq<Item> {
    if key != "" && key in values then [Item(key, first, second)] else []
  }

  /** From a position outside of any braces: the next {{ opens. */
  function Outside(text: string, values: Values, j: nat): seq<Item>
    requires j <= |text|
    decreases |text| - j, 1
  {
    if j == |text| then []
    else if text[j] == '{' && j + 1 < |text| && text[j + 1] == '{' then Inside(text, values, j, j + 2)
    else Outside(text, values, j + 1)
  }

  /** From a position after {{ at first: the next } closes if another follows it. */
  function Inside(text: string, values: Values, first: nat, j: nat): seq<Item>
    requires first + 2 <= j <= |text|
    decreases |text| - j, 0
  {
    if j == |text| then []
    else if text[j] != '}' then Inside(text, values, first, j + 1)
    else if j + 1 == |text| then []
    else if text[j + 1] == '}' then Emit(values, text[first + 2..j], first, j + 1) + Outside(text, values, j + 2)
    else Broken(text, values, text[first + 2..j] + "}" + [text[j + 1]], first, j + 2)
  }

  /** After a lone } inside braces the flag stays up: every further character is taken with a } before it, and the
      next } closes. */
  function Broken(text: string, values: Values, key: string, first: nat, j: nat): seq<Item>
    requires j <= |text|
    decreases |text| - j, 2
  {
    if j == |text| then []
    else if text[j] == '}' then Emit(values, key, first, j) + Outside(text, values, j + 1)
    else Broken(text, values, key + "}" + [text[j]], first, j + 1)
  }

  function Items(text: string, values: Values): seq<Item> { Outside(text, values, 0) }

  // ---- each slice, and their order -------------------------------------------------------------

  /** A } before every character. */
  function Braced(s: string): string {
    if s == "" then "" else "}" + [s[0]] + Braced(s[1..])
  }

  /** What the scan makes of the characters between {{ and the } that closes. */
  function KeyOf(inside: string): string {
    if inside == "" then "" else if inside[0] == '}' then Braced(inside[1..]) else [inside[0]] + KeyOf(inside[1..])
  }

  lemma {:induction false} KeyOfClosed(key: string)
    requires '}' !in key
    ensures KeyOf(key + "}") == key
  {
    if key == "" {
      assert "" + "}" == "}" && "}"[1..] == "";
    } else {
      KeyOfClosed(key[1..]);
      assert (key + "}")[1..] == key[1..] + "}";
    }
  }

  lemma {:induction false} KeyOfMore(inside: string, c: char)
    requires '}' in inside
    ensures KeyOf(inside + [c]) == KeyOf(inside) + "}" + [c]
  {
    assert (inside + [c])[1..] == inside[1..] + [c];
    if inside[0] == '}' { BracedMore(inside[1..], c); } else { KeyOfMore(inside[1..], c); }
  }

  lemma {:induction false} BracedMore(s: string, c: char)
    ensures Braced(s + [c]) == Braced(s) + "}" + [c]
  {
    if s == "" {
      assert "" + [c] == [c] && [c][1..] == "";
      assert Braced("") == "";
    } else {
      assert (s + [c])[1..] == s[1..] + [c];
      BracedMore(s[1..], c);
    }
  }

  /** An item's slice, inside the text, at or after a position: it is the known key that stands between its braces. */
  predicate IsSlot(text: string, values: Values, item: Item, from: nat) {
    && from <= item.first && item.first + 3 <= item.second < |text| && item.key in values
    && text[item.first] == '{' && text[item.first + 1] == '{' && text[item.second] == '}'
    && '}' in text[item.first + 2..item.second] && item.key == KeyOf(text[item.first + 2..item.second])
  }

  /** A slot is {{key}} exactly when its key has no }. */
  lemma SlotSpells(text: string, values: Values, item: Item, from: nat)
    requires IsSlot(text, values, item, from)
    ensures text[item.first..item.second + 1] == "{{" + item.key + "}}" <==> '}' !in item.key
  {
    hide KeyOf;
    var inside := text[item.first + 2..item.second];
    InsideOf(text, item.first, item.second, item.key);
    if '}' !in item.key { KeyWithoutBrace(inside); } else { KeyGrows(item.key); }
  }

  /** A slice in braces by what is inside it. */
  lemma InsideOf(text: string, first: nat, second: nat, key: string)
    requires first + 2 <= second < |text| && text[first] == '{' && text[first + 1] == '{' && text[second] == '}'
    ensures text[first..second + 1] == "{{" + key + "}}" <==> text[first + 2..second] == key + "}"
  {
    var inside := text[first + 2..second];
    assert text[first..second + 1] == "{{" + inside + "}";
    assert ("{{" + inside + "}")[2..|inside| + 2] == inside;
    assert ("{{" + key + "}}")[2..|key| + 3] == key + "}";
    assert "{{" + (key + "}") + "}" == "{{" + key + "}}";
  }

  lemma {:induction false} BracedLength(s: string)
    ensures |Braced(s)| == 2 * |s|
  {
    if s != "" { BracedLength(s[1..]); }
  }

  /** A key with a } is not what the scan reads when it stands between the braces itself. */
  lemma {:induction false} KeyGrows(key: string)
    requires '}' in key
    ensures |KeyOf(key + "}")| > |key|
  {
    assert (key + "}")[1..] == key[1..] + "}";
    if key[0] == '}' { BracedLength(key[1..] + "}"); } else { KeyGrows(key[1..]); }
  }

  lemma BracedHead(s: string)
    ensures s != "" ==> '}' in Braced(s)
  {
    if s != "" { assert Braced(s)[0] == '}'; }
  }

  lemma {:induction false} KeyWithoutBrace(inside: string)
    requires '}' in inside && '}' !in KeyOf(inside)
    ensures inside == KeyOf(inside) + "}"
  {
    if inside[0] == '}' {
      BracedHead(inside[1..]);
    } else {
      assert KeyOf(inside) == [inside[0]] + KeyOf(inside[1..]);
      assert forall c :: c in KeyOf(inside[1..]) ==> c in KeyOf(inside);
      KeyWithoutBrace(inside[1..]);
    }
  }

  /** And {{key}} is a slot. */
  lemma SlotOf(text: string, values: Values, key: string, q: nat)
    requires q + |key| + 4 <= |text| && text[q..q + |key| + 4] == "{{" + key + "}}"
    requires key != "" && key in values && '}' !in key
    ensures IsSlot(text, values, Item(key, q, q + |key| + 3), q)
  {
    var slot := text[q..q + |key| + 4];
    assert slot[0] == text[q] && slot[1] == text[q + 1] && slot[|key| + 3] == text[q + |key| + 3];
    assert slot[2..|key| + 3] == key + "}" && (key + "}")[|key|] == '}';
    Slice(text, q, q + |key| + 4, 2, |key| + 3);
    KeyOfClosed(key);
    hide KeyOf;
  }

  /** Slots one after the other. */
  predicate Slots(text: string, values: Values, items: seq<Item>, from: nat) {
    items == [] || (IsSlot(text, values, items[0], from) && Slots(text, values, items[1..], items[0].second + 1))
  }

  lemma {:induction false} SlotsLater(text: string, values: Values, items: seq<Item>, from: nat, later: nat)
    requires from <= later && Slots(text, values, items, later)
    ensures Slots(text, values, items, from)
  {
  }

  lemma {:induction false} OutsideSlots(text: string, values: Values, j: nat)
    requires j <= |text|
    ensures Slots(text, values, Outside(text, values, j), j)
    decreases |text| - j, 1
  {
    if j == |text| {
    } else if text[j] == '{' && j + 1 < |text| && text[j + 1] == '{' {
      InsideSlots(text, values, j, j + 2);
    } else {
      OutsideSlots(text, values, j + 1);
      SlotsLater(text, values, Outside(text, values, j + 1), j, j + 1);
    }
  }

  /** The item of a closed {{key}}, if there is one, in front of later slots. */
  lemma EmitSlots(text: string, values: Values, key: string, first: nat, second: nat, rest: seq<Item>)
    requires first + 3 <= second < |text| && text[first] == '{' && text[first + 1] == '{' && text[second] == '}'
    requires '}' in text[first + 2..second] && key == KeyOf(text[first + 2..second])
    requires Slots(text, values, rest, second + 1)
    ensures Slots(text, values, Emit(values, key, first, second) + rest, first)
  {
    hide KeyOf;
    if key != "" && key in values {
      assert ([Item(key, first, second)] + rest)[1..] == rest;
      assert IsSlot(text, values, Item(key, first, second), first);
      hide IsSlot;
    } else {
      assert Emit(values, key, first, second) + rest == rest;
      SlotsLater(text, values, rest, first, second + 1);
    }
  }

  lemma ClosedKey(text: string, first: nat, j: nat)
    requires first + 2 <= j < |text| && '}' !in text[first + 2..j] && text[j] == '}'
    ensures '}' in text[first + 2..j + 1] && KeyOf(text[first + 2..j + 1]) == text[first + 2..j]
  {
    var key := text[first + 2..j];
    assert text[first + 2..j + 1] == key + "}" && (key + "}")[|key|] == '}';
    KeyOfClosed(key);
  }

  lemma BrokenKey(text: string, first: nat, j: nat)
    requires first + 2 <= j && j + 1 < |text| && '}' !in text[first + 2..j] && text[j] == '}'
    ensures '}' in text[first + 2..j + 2] && KeyOf(text[first + 2..j + 2]) == text[first + 2..j] + "}" + [text[j + 1]]
  {
    var inside := text[first + 2..j + 1];
    ClosedKey(text, first, j);
    KeyOfMore(inside, text[j + 1]);
    assert text[first + 2..j + 2] == inside + [text[j + 1]];
    assert text[first + 2..j + 2][j - first - 2] == '}';
  }

  lemma {:induction false} InsideSlots(text: string, values: Values, first: nat, j: nat)
    requires first + 2 <= j <= |text| && text[first] == '{' && text[first + 1] == '{'
    requires '}' !in text[first + 2..j]
    ensures Slots(text, values, Inside(text, values, first, j), first)
    decreases |text| - j, 0
  {
    hide Slots, KeyOf, Emit;
    if j == |text| || (text[j] == '}' && j + 1 == |text|) {
      NoSlots(text, values, first);
    } else if text[j] != '}' {
      assert text[first + 2..j + 1] == text[first + 2..j] + [text[j]];
      InsideSlots(text, values, first, j + 1);
    } else if text[j + 1] == '}' {
      OutsideSlots(text, values, j + 2);
      ClosedKey(text, first, j);
      EmitSlots(text, values, text[first + 2..j], first, j + 1, Outside(text, values, j + 2));
    } else {
      BrokenKey(text, first, j);
      BrokenSlots(text, values, text[first + 2..j] + "}" + [text[j + 1]], first, j + 2);
    }
  }

  lemma NoSlots(text: string, values: Values, from: nat)
    ensures Slots(text, values, [], from)
  {
  }

  lemma {:induction false} BrokenSlots(text: string, values: Values, key: string, first: nat, j: nat)
    requires first + 4 <= j <= |text| && text[first] == '{' && text[first + 1] == '{'
    requires '}' in text[first + 2..j] && key == KeyOf(text[first + 2..j])
    ensures Slots(text, values, Broken(text, values, key, first, j), first)
    decreases |text| - j, 2
  {
    hide Slots, KeyOf, Emit;
    if j == |text| {
      NoSlots(text, values, first);
    } else if text[j] == '}' {
      OutsideSlots(text, values, j + 1);
      EmitSlots(text, values, key, first, j, Outside(text, values, j + 1));
    } else {
      var inside := text[first + 2..j];
      KeyOfMore(inside, text[j]);
      assert text[first + 2..j + 1] == inside + [text[j]];
      BrokenSlots(text, values, key + "}" + [text[j]], first, j + 1);
    }
  }

  // ---- the length ------------------------------------------------------------------------------

  /** The text from a position on with every slot replaced by its value. */
  function Replaced(text: string, values: Values, items: seq<Item>, from: nat): string
    requires from <= |text| && Slots(text, values, items, from)
    decreases |items|
  {
    if items == [] then text[from..]
    else text[from..items[0].first] + values[items[0].key] + Replaced(text, values, items[1..], items[0].second + 1)
  }

  /** What replacing the items adds to the length. */
  function Growth(values: Values, items: seq<Item>): int
    requires forall i :: 0 <= i < |items| ==> items[i].key in values
  {
    if items == [] then 0
    else Growth(values, items[..|items| - 1]) - (items[|items| - 1].second - items[|items| - 1].first + 1)
         + |values[items[|items| - 1].key]|
  }

  /** The loop of send_response over the items. */
  method DynamicFileSize(fileSize: nat, values: Values, items: seq<Item>) returns (size: int)
    requires forall i :: 0 <= i < |items| ==> items[i].key in values
    ensures size == fileSize + Growth(values, items)
  {
    size := fileSize;
    for i := 0 to |items|
      invariant size == fileSize + Growth(values, items[..i])
    {
      assert items[..i + 1][..i] == items[..i];
      size := size - (items[i].second - items[i].first + 1) + |values[items[i].key]|;
    }
    assert items[..|items|] == items;
  }

  lemma {:induction false} SlotsKnown(text: string, values: Values, items: seq<Item>, from: nat)
    requires Slots(text, values, items, from)
    ensures forall i :: 0 <= i < |items| ==> items[i].key in values
  {
    if items != [] {
      SlotsKnown(text, values, items[1..], items[0].second + 1);
      assert forall i :: 1 <= i < |items| ==> items[i] == items[1..][i - 1];
    }
  }

  lemma {:induction false} GrowthConcat(values: Values, a: seq<Item>, b: seq<Item>)
    requires forall i :: 0 <= i < |a| ==> a[i].key in values
    requires forall i :: 0 <= i < |b| ==> b[i].key in values
    ensures forall i :: 0 <= i < |a + b| ==> (a + b)[i].key in values
    ensures Growth(values, a + b) == Growth(values, a) + Growth(values, b)
    decreases |b|
  {
    if b == [] {
      assert a + b == a;
    } else {
      GrowthConcat(values, a, b[..|b| - 1]);
      assert (a + b)[..|a + b| - 1] == a + b[..|b| - 1];
    }
  }

  lemma GrowthOfOne(values: Values, item: Item)
    requires item.key in values
    ensures Growth(values, [item]) == |values[item.key]| - (item.second - item.first + 1)
  {
    assert [item][..0] == [] && Growth(values, []) == 0;
  }

  /** It is the length of the replaced text. */
  lemma {:induction false} ReplacedLength(text: string, values: Values, items: seq<Item>, from: nat)
    requires from <= |text| && Slots(text, values, items, from)
    ensures forall i :: 0 <= i < |items| ==> items[i].key in values
    ensures |Replaced(text, values, items, from)| == |text| - from + Growth(values, items)
    decreases |items|
  {
    SlotsKnown(text, values, items, from);
    if items != [] {
      hide IsSlot;
      SlotInside(text, values, items[0], from);
      ReplacedLength(text, values, items[1..], items[0].second + 1);
      GrowthOfOne(values, items[0]);
      GrowthConcat(values, [items[0]], items[1..]);
      assert items == [items[0]] + items[1..];
    }
  }

  lemma SlotInside(text: string, values: Values, item: Item, from: nat)
    requires IsSlot(text, values, item, from)
    ensures from <= item.first <= item.second < |text|
  {
  }

  // ---- the scan --------------------------------------------------------------------------------

  /** Where the loop stands, and that its variables say so. */
  predicate StandsAt(text: string, open: bool, special: bool, key: string, first: nat, j: nat) {
    && j <= |text|
    && (special && !open ==> j == first + 1 && text[first] == '{' && key == "")
    && (!special && !open ==> key == "")
    && (open ==> first + 2 <= j && text[first] == '{' && text[first + 1] == '{')
    && (open && !special ==> key == text[first + 2..j] && '}' !in key)
    && (open && special && '}' !in key ==> first + 3 <= j && text[j - 1] == '}' && key == text[first + 2..j - 1])
  }

  /** What is still to be found from there. */
  function Remaining(text: string, values: Values, open: bool, special: bool, key: string, first: nat, j: nat)
      : seq<Item>
    requires StandsAt(text, open, special, key, first, j)
  {
    if open then
      if !special then Inside(text, values, first, j)
      else if '}' !in key then Inside(text, values, first, j - 1)
      else Broken(text, values, key, first, j)
    else Outside(text, values, if special then first else j)
  }

  /** One character of the loop's body. */
  method ScanChar(ghost text: string, c: char, values: Values, open0: bool, special0: bool, key0: string, first0: nat,
      j: nat)
      returns (open: bool, special: bool, key: string, first: nat, founded: seq<Item>)
    requires StandsAt(text, open0, special0, key0, first0, j) && j < |text| && c == text[j]
    ensures StandsAt(text, open, special, key, first, j + 1)
    ensures Remaining(text, values, open0, special0, key0, first0, j)
         == founded + Remaining(text, values, open, special, key, first, j + 1)
    ensures founded != [] ==> !open && !special
  {
    open, special, key, first, founded := open0, special0, key0, first0, [];
    if open {
      if special {
        if c == '}' {
          special := false;
          open := false;
          if key != "" && key in values {
            founded := [Item(key, first, j)];
          }
          key := "";
          return;
        }
        key := key + "}";
      } else if c == '}' {
        special := true;
        return;
      }
      key := key + [c];
      return;
    }
    if special {
      special := false;
      if c == '{' {
        open := true;
      } else {
        assert Outside(text, values, first) == Outside(text, values, j);
      }
    } else if c == '{' {
      special := true;
      first := j;
    }
  }

  lemma NothingLeft(text: string, values: Values, j: nat)
    requires |text| - 1 <= j <= |text|
    ensures Outside(text, values, j) == []
  {
  }

  lemma RestAtEnd(text: string, values: Values, open: bool, special: bool, key: string, first: nat)
    requires StandsAt(text, open, special, key, first, |text|)
    ensures Remaining(text, values, open, special, key, first, |text|) == []
  {
    if special && !open { NothingLeft(text, values, first); }
  }

  /** found_replacers_in_file for a whole file. The loop notices the end of the file only after a read
      has failed, so braces that are open then get one more character, whatever its variable holds. */
  method FoundReplacers(file: string, stale: char, values: Values) returns (founded: seq<Item>)
    ensures founded == Items(file + [stale], values)
  {
    hide Outside, Inside, Broken;
    founded := [];
    ghost var text := file + [stale];
    var open, special, firstTime, eof := false, false, true, false;
    var key: string, first: nat := "", 0;
    var j := 0;
    while j < |file| || special || open
      invariant StandsAt(text, open, special, key, first, j)
      invariant Items(text, values) == founded + Remaining(text, values, open, special, key, first, j)
      invariant eof == (j > |file|) && firstTime == (j <= |file|)
      decreases |text| - j
    {
      if eof {
        RestAtEnd(text, values, open, special, key, first);
        return;
      }
      if j == |file| && firstTime {
        firstTime := false;
      }
      // the read: at the end it fails and leaves the variable as it was
      var c := stale;
      if j < |file| {
        c := file[j];
      } else {
        eof := true;
      }
      var found: seq<Item>;
      open, special, key, first, found := ScanChar(text, c, values, open, special, key, first, j);
      founded := founded + found;
      j := j + 1;
      if !firstTime && !open && !special {
        break;
      }
    }
    NothingLeft(text, values, j);
  }

  // ---- the end of the file ---------------------------------------------------------------------

  /** The item that one more } at the end of the text would close, from each of the three states. */
  function PendingOutside(text: string, values: Values, j: nat): seq<Item>
    requires j <= |text|
    decreases |text| - j, 1
  {
    if j == |text| then []
    else if text[j] == '{' && j + 1 < |text| && text[j + 1] == '{' then PendingInside(text, values, j, j + 2)
    else PendingOutside(text, values, j + 1)
  }

  function PendingInside(text: string, values: Values, first: nat, j: nat): seq<Item>
    requires first + 2 <= j <= |text|
    decreases |text| - j, 0
  {
    if j == |text| then []
    else if text[j] != '}' then PendingInside(text, values, first, j + 1)
    else if j + 1 == |text| then Emit(values, text[first + 2..j], first, j + 1)
    else if text[j + 1] == '}' then PendingOutside(text, values, j + 2)
    else PendingBroken(text, values, text[first + 2..j] + "}" + [text[j + 1]], first, j + 2)
  }

  function PendingBroken(text: string, values: Values, key: string, first: nat, j: nat): seq<Item>
    requires j <= |text|
    decreases |text| - j, 2
  {
    if j == |text| then Emit(values, key, first, j)
    else if text[j] == '}' then PendingOutside(text, values, j + 1)
    else PendingBroken(text, values, key + "}" + [text[j]], first, j + 1)
  }

  function Pending(file: string, values: Values): seq<Item> { PendingOutside(file, values, 0) }

  lemma {:induction false} OutsideMore(text: string, c: char, values: Values, j: nat)
    requires j <= |text|
    ensures Outside(text + [c], values, j)
         == Outside(text, values, j) + if c == '}' then PendingOutside(text, values, j) else []
    decreases |text| - j, 1
  {
    if j == |text| {
      NothingLeft(text + [c], values, j);
    } else if text[j] == '{' && j + 1 < |text| && text[j + 1] == '{' {
      InsideMore(text, c, values, j, j + 2);
    } else if j + 1 == |text| {
      NothingLeft(text + [c], values, j + 1);
      NothingLeft(text, values, j);
    } else {
      OutsideMore(text, c, values, j + 1);
    }
  }

  lemma {:induction false} InsideMore(text: string, c: char, values: Values, first: nat, j: nat)
    requires first + 2 <= j <= |text|
    ensures Inside(text + [c], values, first, j)
         == Inside(text, values, first, j) + if c == '}' then PendingInside(text, values, first, j) else []
    decreases |text| - j, 0
  {
    var more := text + [c];
    if j == |text| {
    } else if text[j] != '}' {
      InsideMore(text, c, values, first, j + 1);
    } else if j + 1 == |text| {
      assert more[first + 2..j] == text[first + 2..j];
      NothingLeft(more, values, |more|);
    } else if text[j + 1] == '}' {
      assert more[first + 2..j] == text[first + 2..j];
      OutsideMore(text, c, values, j + 2);
    } else {
      assert more[first + 2..j] == text[first + 2..j];
      BrokenMore(text, c, values, text[first + 2..j] + "}" + [text[j + 1]], first, j + 2);
    }
  }

  lemma {:induction false} BrokenMore(text: string, c: char, values: Values, key: string, first: nat, j: nat)
    requires j <= |text|
    ensures Broken(text + [c], values, key, first, j)
         == Broken(text, values, key, first, j) + if c == '}' then PendingBroken(text, values, key, first, j) else []
    decreases |text| - j, 2
  {
    var more := text + [c];
    if j == |text| {
      NothingLeft(more, values, |more|);
      assert Broken(more, values, key + "}" + [c], first, |more|) == [];
    } else if text[j] == '}' {
      OutsideMore(text, c, values, j + 1);
    } else {
      BrokenMore(text, c, values, key + "}" + [text[j]], first, j + 1);
    }
  }

  /** The scan finds exactly the file's items unless the file ends one closing brace short of an item, and the
      variable of the failed read holds that brace. */
  lemma ScanIsExact(file: string, stale: char, values: Values)
    ensures Items(file + [stale], values) == Items(file, values)
        <==> !(stale == '}' && Pending(file, values) != [])
  {
    OutsideMore(file, stale, values, 0);
  }

  /** At most one item, of a known key, whose last brace would be the character after the text. */
  predicate Overruns(text: string, values: Values, items: seq<Item>) {
    && |items| <= 1
    && (items != [] ==> items[0].second == |text| && items[0].first + 3 <= |text| && items[0].key in values)
  }

  /** Then it has one item more, whose slice does not end inside the file. */
  lemma {:induction false} PendingOverruns(text: string, values: Values, j: nat)
    requires j <= |text|
    ensures Overruns(text, values, PendingOutside(text, values, j))
    decreases |text| - j, 1
  {
    if j < |text| {
      if text[j] == '{' && j + 1 < |text| && text[j + 1] == '{' {
        PendingInsideOverruns(text, values, j, j + 2);
      } else {
        PendingOverruns(text, values, j + 1);
      }
    }
  }

  lemma {:induction false} PendingInsideOverruns(text: string, values: Values, first: nat, j: nat)
    requires first + 2 <= j <= |text|
    ensures Overruns(text, values, PendingInside(text, values, first, j))
    decreases |text| - j, 0
  {
    if j < |text| {
      if text[j] != '}' {
        PendingInsideOverruns(text, values, first, j + 1);
      } else if j + 1 < |text| {
        PendingOverruns(text, values, j + 2);
        PendingBrokenOverruns(text, values, text[first + 2..j] + "}" + [text[j + 1]], first, j + 2);
      }
    }
  }

  lemma {:induction false} PendingBrokenOverruns(text: string, values: Values, key: string, first: nat, j: nat)
    requires first + 3 <= j <= |text|
    ensures Overruns(text, values, PendingBroken(text, values, key, first, j))
    decreases |text| - j, 2
  {
    if j < |text| {
      PendingOverruns(text, values, j + 1);
      PendingBrokenOverruns(text, values, key + "}" + [text[j]], first, j + 1);
    }
  }

  /** A file that ends so: the item is found with a last brace past the end. */
  lemma OneBraceShort(value: string)
    ensures var file, values := "{{k}", map["k" := value];
      Items(file, values) == [] && Items(file + ['}'], values) == Pending(file, values) == [Item("k", 0, 4)]
  {
    var file, values := "{{k}", map["k" := value];
    assert file[2..3] == "k" && |file| == 4;
    assert PendingOutside(file, values, 0) == PendingInside(file, values, 0, 2);
    assert PendingInside(file, values, 0, 2) == PendingInside(file, values, 0, 3) == Emit(values, "k", 0, 4);
    assert Outside(file, values, 0) == Inside(file, values, 0, 2) == Inside(file, values, 0, 3) == [];
    OutsideMore(file, '}', values, 0);
  }

  /** A known key with a } in it is found between one brace less than it needs. */
  lemma BrokenKeyIsFound(value: string)
    ensures var text, values := "{{a}b}", map["a}b" := value];
      Items(text, values) == [Item("a}b", 0, 5)]
  {
    var text, values := "{{a}b}", map["a}b" := value];
    assert text[2..3] + "}" + [text[4]] == "a}b" && |text| == 6;
    assert Outside(text, values, 0) == Inside(text, values, 0, 2) == Inside(text, values, 0, 3);
    assert Inside(text, values, 0, 3) == Broken(text, values, "a}b", 0, 5);
    assert Broken(text, values, "a}b", 0, 5) == Emit(values, "a}b", 0, 5) + Outside(text, values, 6);
  }

  // ---- the meaning -----------------------------------------------------------------------------

  /** A text as its author sees it: literals, each followed by a key in braces, and a last literal. */
  datatype Piece = Piece(literal: string, key: string)

  function TextOf(pieces: seq<Piece>, last: string): string {
    if pieces == [] then last
    else pieces[0].literal + (("{{" + pieces[0].key + "}}") + TextOf(pieces[1..], last))
  }

  function Rendered(pieces: seq<Piece>, last: string, values: Values): string {
    if pieces == [] then last
    else
      var p := pieces[0];
      p.literal + ((if p.key != "" && p.key in values then values[p.key] else "{{" + p.key + "}}")
                   + Rendered(pieces[1..], last, values))
  }

  /** There is a {{ in a text. */
  predicate Opens(s: string) {
    |s| >= 2 && ((s[0] == '{' && s[1] == '{') || Opens(s[1..]))
  }

  /** Lone braces are passed over. The literal is taken with the character after it, if there is one. */
  lemma {:induction false} SkipLiteral(text: string, values: Values, from: nat, until: nat)
    requires from <= until <= |text| && !Opens(text[from..if until < |text| then until + 1 else until])
    ensures Outside(text, values, from) == Outside(text, values, until)
    decreases until - from
  {
    if from < until {
      var s := text[from..if until < |text| then until + 1 else until];
      assert s[1..] == text[from + 1..if until < |text| then until + 1 else until];
      SkipLiteral(text, values, from + 1, until);
    }
  }

  lemma {:induction false} SkipKey(text: string, values: Values, first: nat, from: nat, until: nat)
    requires first + 2 <= from <= until <= |text| && '}' !in text[from..until]
    ensures Inside(text, values, first, from) == Inside(text, values, first, until)
    decreases until - from
  {
    if from < until {
      assert text[from] == text[from..until][0] && text[from + 1..until] == text[from..until][1..];
      SkipKey(text, values, first, from + 1, until);
    }
  }

  lemma Join(a: string, b: string, c: string, d: string)
    ensures a + b + c + d == a + (b + c + d)
  {
  }

  lemma ReplacedFrom(text: string, values: Values, items: seq<Item>, from: nat, until: nat)
    requires from <= until <= |text| && Slots(text, values, items, until)
    ensures Slots(text, values, items, from)
    ensures Replaced(text, values, items, from) == text[from..until] + Replaced(text, values, items, until)
  {
    SlotsLater(text, values, items, from, until);
    if items == [] {
      assert text[from..] == text[from..until] + text[until..];
    } else {
      assert text[from..items[0].first] == text[from..until] + text[until..items[0].first];
      Join(text[from..until], text[until..items[0].first], values[items[0].key],
        Replaced(text, values, items[1..], items[0].second + 1));
    }
  }

  lemma Cut(text: string, p: nat, a: string, b: string, c: string)
    requires p <= |text| && text[p..] == a + (b + c)
    ensures p + |a| + |b| <= |text| && text[p..p + |a|] == a && text[p + |a|..p + |a| + |b|] == b
    ensures text[p + |a| + |b|..] == c
  {
    assert text[p..][..|a|] == a && text[p..][|a|..][..|b|] == b && text[p..][|a|..][|b|..] == c;
  }

  lemma Slice(text: string, a: nat, b: nat, c: nat, d: nat)
    requires a <= b <= |text| && c <= d <= b - a
    ensures text[a..b][c..d] == text[a + c..a + d]
  {
    var s, t := text[a..b][c..d], text[a + c..a + d];
    assert |s| == |t|;
    assert forall k :: 0 <= k < |s| ==> s[k] == text[a..b][c + k] == text[a + c + k] == t[k];
  }

  /** A slot in the text: found if its key is known, passed over if not. */
  lemma AtSlot(text: string, values: Values, key: string, q: nat)
    requires q + |key| + 4 <= |text| && text[q..q + |key| + 4] == "{{" + key + "}}" && '}' !in key
    ensures Outside(text, values, q) == Emit(values, key, q, q + |key| + 3) + Outside(text, values, q + |key| + 4)
  {
    var slot := text[q..q + |key| + 4];
    var r := q + 2 + |key|;
    assert slot[0] == text[q] && slot[1] == text[q + 1] && slot[|key| + 2] == text[r] && slot[|key| + 3] == text[r + 1];
    assert slot[2..|key| + 2] == key;
    Slice(text, q, q + |key| + 4, 2, |key| + 2);
    assert text[q + 2..r] == key;
    SkipKey(text, values, q, q + 2, r);
  }

  /** A literal does not open braces, nor with the slot after it. */
  predicate IsLiteral(literal: string, beforeSlot: bool) { !Opens(literal + if beforeSlot then "{" else "") }

  /** The whole chain on an author's text: the file with its slots replaced is the literals with the
      values of the keys between them; a key that is not known stays as it stands. */
  lemma {:induction false} Renders(text: string, values: Values, pieces: seq<Piece>, last: string, p: nat)
    requires p <= |text| && text[p..] == TextOf(pieces, last)
    requires forall k :: 0 <= k < |pieces| ==> IsLiteral(pieces[k].literal, true) && '}' !in pieces[k].key
    requires IsLiteral(last, false)
    ensures Slots(text, values, Outside(text, values, p), p)
    ensures Replaced(text, values, Outside(text, values, p), p) == Rendered(pieces, last, values)
    decreases |pieces|
  {
    hide Outside, Inside, Replaced, Slots;
    if pieces == [] {
      assert text[p..|text|] == last + "";
      SkipLiteral(text, values, p, |text|);
      NothingAtEnd(text, values, p);
    } else {
      var piece := pieces[0];
      var slot := "{{" + piece.key + "}}";
      Cut(text, p, piece.literal, slot, TextOf(pieces[1..], last));
      var q := p + |piece.literal|;
      var r := q + |slot|;
      assert text[p..q + 1] == piece.literal + "{" by { assert text[q..r][0] == text[q] == '{'; }
      SkipLiteral(text, values, p, q);
      AtSlot(text, values, piece.key, q);
      Renders(text, values, pieces[1..], last, r);
      var rest := Outside(text, values, r);
      OneSlot(text, values, rest, piece.key, q, r);
      ReplacedFrom(text, values, Emit(values, piece.key, q, r - 1) + rest, p, q);
    }
  }

  lemma NothingAtEnd(text: string, values: Values, p: nat)
    requires p <= |text| && Outside(text, values, p) == Outside(text, values, |text|)
    ensures Slots(text, values, Outside(text, values, p), p)
    ensures Replaced(text, values, Outside(text, values, p), p) == text[p..]
  {
  }

  lemma OneSlot(text: string, values: Values, rest: seq<Item>, key: string, q: nat, r: nat)
    requires r == q + |key| + 4 <= |text| && text[q..r] == "{{" + key + "}}" && '}' !in key
    requires Slots(text, values, rest, r)
    ensures var items := Emit(values, key, q, r - 1) + rest;
      Slots(text, values, items, q) &&
      Replaced(text, values, items, q) ==
        (if key != "" && key in values then values[key] else "{{" + key + "}}") + Replaced(text, values, rest, r)
  {
    hide IsSlot, KeyOf;
    if key != "" && key in values {
      var items := [Item(key, q, r - 1)] + rest;
      SlotOf(text, values, key, q);
      assert items[1..] == rest && text[q..q] == "";
    } else {
      assert [] + rest == rest;
      ReplacedFrom(text, values, rest, q, r);
    }
  }

  /** The Content-Length that is sent for a file with replacers is the length of the replaced file, unless there is
      one item more, and its value is not as long as its slice would be. */
  method ContentLength(file: string, stale: char, values: Values) returns (size: int)
    ensures Slots(file, values, Items(file, values), 0)
    ensures var more := Pending(file, values);
      size == |Replaced(file, values, Items(file, values), 0)| <==>
        stale != '}' || more == [] || (more[0].key in values && |values[more[0].key]| == |file| - more[0].first + 1)
  {
    hide Slots, Replaced, Outside, PendingOutside, Growth;
    var items := FoundReplacers(file, stale, values);
    ghost var own, more := Items(file, values), Pending(file, values);
    OutsideMore(file, stale, values, 0);
    OutsideSlots(file, values, 0);
    ReplacedLength(file, values, own, 0);
    PendingOverruns(file, values, 0);
    if stale == '}' {
      GrowthConcat(values, own, more);
      if more != [] { GrowthOfOne(values, more[0]); }
      if more == [] { assert own + more == own; }
      assert more != [] ==> more == [more[0]];
    } else {
      assert own + [] == own;
    }
    size := DynamicFileSize(|file|, values, items);
  }
}
