/** json::dump and escape_string, as functions and as the loops that append to a string. */
module JsonPrinter {
  import opened JsonValue

  function EscapeChar(c: char): string {
    match c
    case '\n' => "\\n" case '\t' => "\\t" case '\r' => "\\r"
    case '\U{0C}' => "\\f" case '\U{08}' => "\\b"
    case _ => if c == '"' || c == '\\' || c == '/' then ['\\', c] else [c]
  }

  function Escape(s: string): string {
    if s == "" then "" else EscapeChar(s[0]) + Escape(s[1..])
  }

  function Quote(s: string): string {
    "\"" + Escape(s) + "\""
  }

  function Digit(n: nat): char
    requires n < 10
  {
    (n + '0' as int) as char
  }

  function ShowNat(n: nat): string {
    if n < 10 then [Digit(n)] else ShowNat(n / 10) + [Digit(n % 10)]
  }

  function ShowInt(n: int): string {
    if n < 0 then "-" + ShowNat(-n) else ShowNat(n)
  }

  function Pad(n: nat): string {
    if n == 0 then "" else " " + Pad(n - 1)
  }

  /** After an opening bracket and before a closing one. */
  function NewLine(spaces: nat): string {
    if spaces > 0 then "\n" else ""
  }

  /** After a comma. */
  function Separator(spaces: nat): string {
    if spaces > 0 then "\n" else " "
  }

  /** A decimal prints the text it holds. */
  function Dump(v: Json, spaces: nat, first: nat): string
    decreases v, 2
  {
    match v
    case JNull => "null"
    case JBool(b) => if b then "true" else "false"
    case JNumber(n) => ShowInt(n)
    case JDecimal(text) => text
    case JString(s) => Quote(s)
    case JArray(items) =>
      "[" + NewLine(spaces)
      + (if items == [] then ""
         else Pad(first + spaces) + Dump(items[0], spaces, first + spaces) + DumpItems(v, 1, spaces, first + spaces))
      + NewLine(spaces) + Pad(first) + "]"
    case JObject(entries) =>
      "{" + NewLine(spaces)
      + (if entries == [] then ""
         else Pad(first + spaces) + DumpEntry(v, 0, spaces, first + spaces) + DumpEntries(v, 1, spaces, first + spaces))
      + NewLine(spaces) + Pad(first) + "}"
  }

  function DumpItems(v: Json, n: nat, spaces: nat, total: nat): string
    requires v.JArray? && n <= |v.items|
    decreases v, 1, |v.items| - n
  {
    if n == |v.items| then ""
    else "," + Separator(spaces) + Pad(total) + Dump(v.items[n], spaces, total) + DumpItems(v, n + 1, spaces, total)
  }

  function DumpEntry(v: Json, n: nat, spaces: nat, total: nat): string
    requires v.JObject? && n < |v.entries|
    decreases v, 0
  {
    Quote(v.entries[n].key) + ": " + Dump(v.entries[n].value, spaces, total)
  }

  function DumpEntries(v: Json, n: nat, spaces: nat, total: nat): string
    requires v.JObject? && n <= |v.entries|
    decreases v, 1, |v.entries| - n
  {
    if n == |v.entries| then ""
    else "," + Separator(spaces) + Pad(total) + DumpEntry(v, n, spaces, total) + DumpEntries(v, n + 1, spaces, total)
  }

  // ---- the loops -----------------------------------------------------------------------------

  lemma Assoc(a: string, b: string, c: string)
    ensures a + b + c == a + (b + c)
  {
  }

  method EscapeString(str: string) returns (escaped: string)
    ensures escaped == Escape(str)
  {
    escaped := "";
    for i := 0 to |str|
      invariant escaped + Escape(str[i..]) == Escape(str)
    {
      assert str[i..][0] == str[i] && str[i..][1..] == str[i + 1..];
      Assoc(escaped, EscapeChar(str[i]), Escape(str[i + 1..]));
      match str[i]
      case '\n' => escaped := escaped + "\\n";
      case '\t' => escaped := escaped + "\\t";
      case '\r' => escaped := escaped + "\\r";
      case '\U{0C}' => escaped := escaped + "\\f";
      case '\U{08}' => escaped := escaped + "\\b";
      case c =>
        if c == '"' || c == '\\' || c == '/' {
          escaped := escaped + ['\\', c];
        } else {
          escaped := escaped + [c];
        }
    }
  }

  method AppendSpaces(str: string, n: nat) returns (r: string)
    ensures r == str + Pad(n)
  {
    r := str;
    for z := 0 to n
      invariant r + Pad(n - z) == str + Pad(n)
    {
      Assoc(r, " ", Pad(n - z - 1));
      r := r + " ";
    }
  }

  method DumpJson(v: Json, spaces: nat, first: nat) returns (str: string)
    ensures str == Dump(v, spaces, first)
    decreases v, 1
  {
    match v
    case JString(s) =>
      str := EscapeString(s);
      str := "\"" + str + "\"";
    case JDecimal(text) => str := text;
    case JNumber(n) => str := ShowInt(n);
    case JBool(b) => str := if b then "true" else "false";
    case JNull => str := "null";
    case JObject(_) => str := DumpObject(v, spaces, first);
    case JArray(_) => str := DumpArray(v, spaces, first);
  }

  /** A comma, the line break or space, the indentation, the piece. */
  method AppendNext(str: string, spaces: nat, total: nat, piece: string) returns (r: string)
    ensures r == str + ("," + Separator(spaces) + Pad(total) + piece)
  {
    r := str + ",";
    if spaces > 0 { r := r + "\n"; } else { r := r + " "; }
    Assoc(str, ",", Separator(spaces));
    r := AppendSpaces(r, total);
    Assoc(str, "," + Separator(spaces), Pad(total));
    r := r + piece;
    Assoc(str, "," + Separator(spaces) + Pad(total), piece);
  }

  method DumpArray(v: Json, spaces: nat, first: nat) returns (str: string)
    requires v.JArray?
    ensures str == Dump(v, spaces, first)
    decreases v, 0
  {
    hide Pad;
    var total := first + spaces;
    str := "[";
    if spaces > 0 { str := str + "\n"; }
    assert "[" + "" == "[";
    if v.items != [] {
      ghost var body := Pad(total) + Dump(v.items[0], spaces, total);
      ghost var head := str;
      var piece := DumpJson(v.items[0], spaces, total);
      str := AppendSpaces(str, total);
      str := str + piece;
      Assoc(head, Pad(total), piece);
      Assoc(head, body, DumpItems(v, 1, spaces, total));
      for i := 1 to |v.items|
        invariant str + DumpItems(v, i, spaces, total) == head + (body + DumpItems(v, 1, spaces, total))
      {
        piece := DumpJson(v.items[i], spaces, total);
        ghost var was := str;
        str := AppendNext(str, spaces, total, piece);
        Assoc(was, "," + Separator(spaces) + Pad(total) + piece, DumpItems(v, i + 1, spaces, total));
      }
      assert str + "" == str;
    } else {
      assert str + "" == str;
    }
    if spaces > 0 { str := str + "\n"; } else { assert str + "" == str; }
    str := AppendSpaces(str, first);
    str := str + "]";
  }

  /** A quoted key, the colon and the value. */
  method DumpPair(v: Json, n: nat, spaces: nat, total: nat) returns (str: string)
    requires v.JObject? && n < |v.entries|
    ensures str == DumpEntry(v, n, spaces, total)
    decreases v, 0, 0
  {
    var key := EscapeString(v.entries[n].key);
    var value := DumpJson(v.entries[n].value, spaces, total);
    str := "\"";
    str := str + key + "\": " + value;
    Assoc("\"" + key, "\"", ": ");
    assert "\"" + ": " == "\": ";
  }

  method DumpObject(v: Json, spaces: nat, first: nat) returns (str: string)
    requires v.JObject?
    ensures str == Dump(v, spaces, first)
    decreases v, 0, 1
  {
    hide Pad;
    var total := first + spaces;
    str := "{";
    if spaces > 0 { str := str + "\n"; }
    assert "{" + "" == "{";
    if v.entries != [] {
      ghost var body := Pad(total) + DumpEntry(v, 0, spaces, total);
      ghost var head := str;
      var piece := DumpPair(v, 0, spaces, total);
      str := AppendSpaces(str, total);
      str := str + piece;
      Assoc(head, Pad(total), piece);
      Assoc(head, body, DumpEntries(v, 1, spaces, total));
      for i := 1 to |v.entries|
        invariant str + DumpEntries(v, i, spaces, total) == head + (body + DumpEntries(v, 1, spaces, total))
      {
        piece := DumpPair(v, i, spaces, total);
        ghost var was := str;
        str := AppendNext(str, spaces, total, piece);
        Assoc(was, "," + Separator(spaces) + Pad(total) + piece, DumpEntries(v, i + 1, spaces, total));
      }
      assert str + "" == str;
    } else {
      assert str + "" == str;
    }
    if spaces > 0 { str := str + "\n"; } else { assert str + "" == str; }
    str := AppendSpaces(str, first);
    str := str + "}";
  }

  // ---- the printed text in the order it is read ----------------------------------------------

  /** What closes a container, and what comes after it. */
  function ClosingText(v: Json, spaces: nat, first: nat, rest: string): string {
    NewLine(spaces) + (Pad(first) + ((if v.JArray? then "]" else "}") + rest))
  }

  /** The items from the n-th on, after the one before. */
  function ItemsText(v: Json, n: nat, spaces: nat, first: nat, rest: string): string
    requires v.JArray? && n <= |v.items|
  {
    DumpItems(v, n, spaces, first + spaces) + ClosingText(v, spaces, first, rest)
  }

  function EntriesText(v: Json, n: nat, spaces: nat, first: nat, rest: string): string
    requires v.JObject? && n <= |v.entries|
  {
    DumpEntries(v, n, spaces, first + spaces) + ClosingText(v, spaces, first, rest)
  }

  /** One entry and what follows it. */
  function EntryText(v: Json, n: nat, spaces: nat, first: nat, rest: string): string
    requires v.JObject? && n < |v.entries|
  {
    Quote(v.entries[n].key)
    + (": " + (Dump(v.entries[n].value, spaces, first + spaces) + EntriesText(v, n + 1, spaces, first, rest)))
  }

  /** Six pieces read from the left. */
  lemma Right6(a: string, b: string, c: string, d: string, e: string, f: string)
    ensures a + b + c + d + e + f == a + (b + (c + (d + (e + f))))
  {
    Assoc(a + b + c + d, e, f);
    Assoc(a + b + c, d, e + f);
    Assoc(a + b, c, d + (e + f));
    Assoc(a, b, c + (d + (e + f)));
  }

  /** The pieces of a container printed with a first element. */
  lemma Container(a: string, b: string, pad: string, head: string, more: string, c: string, d: string, e: string,
      rest: string)
    ensures a + b + (pad + head + more) + c + d + e + rest == a + (b + (pad + (head + (more + (c + (d + (e + rest)))))))
  {
    var close := c + (d + (e + rest));
    Right6(a + b + (pad + head + more), c, d, e, rest, "");
    assert rest + "" == rest;
    assert a + b + (pad + head + more) + c + d + e + rest + "" == a + b + (pad + head + more) + c + d + e + rest;
    Assoc(a + b, pad + head + more, close);
    Assoc(pad + head, more, close);
    Assoc(pad, head, more + close);
    Assoc(a, b, pad + (head + (more + close)));
  }

  lemma ArrayText(v: Json, spaces: nat, first: nat, rest: string)
    requires v.JArray?
    ensures Dump(v, spaces, first) + rest == "[" + (NewLine(spaces) +
      (if v.items == [] then ClosingText(v, spaces, first, rest)
       else Pad(first + spaces) + (Dump(v.items[0], spaces, first + spaces) + ItemsText(v, 1, spaces, first, rest))))
  {
    hide Pad, NewLine, DumpItems;
    if v.items == [] {
      assert "[" + NewLine(spaces) + "" == "[" + NewLine(spaces);
      Right6("[", NewLine(spaces), NewLine(spaces), Pad(first), "]", rest);
    } else {
      Container("[", NewLine(spaces), Pad(first + spaces), Dump(v.items[0], spaces, first + spaces),
        DumpItems(v, 1, spaces, first + spaces), NewLine(spaces), Pad(first), "]", rest);
    }
  }

  lemma NextItemText(v: Json, n: nat, spaces: nat, first: nat, rest: string)
    requires v.JArray? && n < |v.items|
    ensures ItemsText(v, n, spaces, first, rest)
      == "," + (Separator(spaces) + (Pad(first + spaces)
          + (Dump(v.items[n], spaces, first + spaces) + ItemsText(v, n + 1, spaces, first, rest))))
  {
    hide Pad, Separator, Dump, ClosingText;
    Right6(",", Separator(spaces), Pad(first + spaces), Dump(v.items[n], spaces, first + spaces),
           DumpItems(v, n + 1, spaces, first + spaces), ClosingText(v, spaces, first, rest));
  }

  lemma ObjectText(v: Json, spaces: nat, first: nat, rest: string)
    requires v.JObject?
    ensures Dump(v, spaces, first) + rest == "{" + (NewLine(spaces) +
      (if v.entries == [] then ClosingText(v, spaces, first, rest)
       else Pad(first + spaces) + EntryText(v, 0, spaces, first, rest)))
  {
    hide Pad, NewLine, DumpEntries, Quote;
    if v.entries == [] {
      assert "{" + NewLine(spaces) + "" == "{" + NewLine(spaces);
      Right6("{", NewLine(spaces), NewLine(spaces), Pad(first), "}", rest);
    } else {
      Container("{", NewLine(spaces), Pad(first + spaces), DumpEntry(v, 0, spaces, first + spaces),
        DumpEntries(v, 1, spaces, first + spaces), NewLine(spaces), Pad(first), "}", rest);
      EntryPieces(v, 0, spaces, first, rest);
    }
  }

  lemma EntryPieces(v: Json, n: nat, spaces: nat, first: nat, rest: string)
    requires v.JObject? && n < |v.entries|
    ensures DumpEntry(v, n, spaces, first + spaces) + EntriesText(v, n + 1, spaces, first, rest)
      == EntryText(v, n, spaces, first, rest)
  {
    hide Quote, Dump, EntriesText;
    var q, d := Quote(v.entries[n].key), Dump(v.entries[n].value, spaces, first + spaces);
    Assoc(q + ": ", d, EntriesText(v, n + 1, spaces, first, rest));
    Assoc(q, ": ", d + EntriesText(v, n + 1, spaces, first, rest));
  }

  lemma NextEntryText(v: Json, n: nat, spaces: nat, first: nat, rest: string)
    requires v.JObject? && n < |v.entries|
    ensures EntriesText(v, n, spaces, first, rest)
      == "," + (Separator(spaces) + (Pad(first + spaces) + EntryText(v, n, spaces, first, rest)))
  {
    hide Pad, Separator, DumpEntry, ClosingText, EntryText;
    Right6(",", Separator(spaces), Pad(first + spaces), DumpEntry(v, n, spaces, first + spaces),
           DumpEntries(v, n + 1, spaces, first + spaces), ClosingText(v, spaces, first, rest));
    EntryPieces(v, n, spaces, first, rest);
  }
}
