/** What a printed tree looks like: the lines that the tree alone gives, each with its depth, and the text they make. */
module JsonLayout {
  import opened JsonNumbers
  import opened JsonPrinter
  import opened JsonValue

  /** A line at a depth, perhaps with a comma behind it; an empty container has an empty line inside. */
  datatype Line = Empty | Line(depth: nat, text: string, comma: bool)

  predicate IsContainer(v: Json) { v.JArray? || v.JObject? }

  function Size(v: Json): nat
    requires IsContainer(v)
  {
    if v.JArray? then |v.items| else |v.entries|
  }

  /** The lines of a tree: each element and each bracket has its own. `head` is the key it stands behind. */
  function Lines(v: Json, depth: nat, head: string, comma: bool): seq<Line>
    decreases v, 1
  {
    if !IsContainer(v) then [Line(depth, head + Dump(v, 0, 0), comma)]
    else
      [Line(depth, head + (if v.JArray? then "[" else "{"), false)]
      + (if Size(v) == 0 then [Empty] else Elements(v, 0, depth + 1))
      + [Line(depth, if v.JArray? then "]" else "}", comma)]
  }

  /** The lines of one element. */
  function ElementLines(v: Json, n: nat, depth: nat): seq<Line>
    requires IsContainer(v) && n < Size(v)
    decreases v, 0, 0
  {
    if v.JArray? then Lines(v.items[n], depth, "", n + 1 < Size(v))
    else Lines(v.entries[n].value, depth, Quote(v.entries[n].key) + ": ", n + 1 < Size(v))
  }

  /** The elements from the n-th on; all but the last have a comma. */
  function Elements(v: Json, n: nat, depth: nat): seq<Line>
    requires IsContainer(v) && n <= Size(v)
    decreases v, 0, Size(v) - n
  {
    if n == Size(v) then [] else ElementLines(v, n, depth) + Elements(v, n + 1, depth)
  }

  function Spaces(n: nat): string { seq(n, _ => ' ') }

  /** A line with its indentation. */
  function Shown(l: Line, spaces: nat, first: nat): string {
    if l.Empty? then "" else Spaces(first + l.depth * spaces) + l.text + if l.comma then "," else ""
  }

  /** Lines are broken when there is an indentation; otherwise one space comes after a comma. */
  function Break(l: Line, spaces: nat): string {
    if spaces > 0 then "\n" else if l.Line? && l.comma then " " else ""
  }

  function Render(ls: seq<Line>, spaces: nat, first: nat): string {
    if ls == [] then "" else Shown(ls[0], spaces, first) + Break(ls[0], spaces) + Render(ls[1..], spaces, first)
  }

  // ---- printing gives these lines --------------------------------------------------------------

  lemma {:induction false} Padding(n: nat)
    ensures Pad(n) == Spaces(n)
  {
    if n > 0 {
      Padding(n - 1);
      assert " " + Spaces(n - 1) == Spaces(n);
    }
  }

  lemma {:induction false} RenderConcat(a: seq<Line>, b: seq<Line>, spaces: nat, first: nat)
    ensures Render(a + b, spaces, first) == Render(a, spaces, first) + Render(b, spaces, first)
  {
    hide Shown, Break;
    if a == [] {
      assert a + b == b;
    } else {
      RenderConcat(a[1..], b, spaces, first);
      assert (a + b)[1..] == a[1..] + b;
      Assoc(Shown(a[0], spaces, first) + Break(a[0], spaces), Render(a[1..], spaces, first), Render(b, spaces, first));
    }
  }

  lemma RenderOne(l: Line, spaces: nat, first: nat)
    ensures Render([l], spaces, first) == Shown(l, spaces, first) + Break(l, spaces)
  {
    hide Shown, Break;
  }

  /** What comes behind an element. */
  function Behind(comma: bool, spaces: nat): string {
    if comma then "," + Separator(spaces) else NewLine(spaces)
  }

  lemma RenderLine(depth: nat, text: string, comma: bool, spaces: nat, first: nat)
    ensures Render([Line(depth, text, comma)], spaces, first)
      == Pad(first + depth * spaces) + text + Behind(comma, spaces)
  {
    var l := Line(depth, text, comma);
    Padding(first + depth * spaces);
    RenderOne(l, spaces, first);
    hide Spaces, Pad;
    assert l.text + "" == l.text;
  }

  function Opening(v: Json): string { if v.JArray? then "[" else "{" }
  function Closing(v: Json): string { if v.JArray? then "]" else "}" }

  function Piece(v: Json, n: nat, spaces: nat, total: nat): string
    requires IsContainer(v) && n < Size(v)
  {
    if v.JArray? then Dump(v.items[n], spaces, total) else DumpEntry(v, n, spaces, total)
  }

  function Pieces(v: Json, n: nat, spaces: nat, total: nat): string
    requires IsContainer(v) && n <= Size(v)
  {
    if v.JArray? then DumpItems(v, n, spaces, total) else DumpEntries(v, n, spaces, total)
  }

  lemma PiecesFrom(v: Json, n: nat, spaces: nat, total: nat)
    requires IsContainer(v) && n <= Size(v)
    ensures Pieces(v, n, spaces, total)
      == if n == Size(v) then ""
         else "," + Separator(spaces) + Pad(total) + Piece(v, n, spaces, total) + Pieces(v, n + 1, spaces, total)
  {
    hide Dump, Pad, Separator, DumpEntry;
  }

  function Body(v: Json, spaces: nat, total: nat): string
    requires IsContainer(v)
  {
    if Size(v) == 0 then "" else Pad(total) + Piece(v, 0, spaces, total) + Pieces(v, 1, spaces, total)
  }

  lemma DumpOfContainer(v: Json, spaces: nat, first: nat)
    requires IsContainer(v)
    ensures Dump(v, spaces, first)
      == Opening(v) + NewLine(spaces) + Body(v, spaces, first + spaces) + NewLine(spaces) + Pad(first) + Closing(v)
  {
    hide Pad, NewLine, DumpItems, DumpEntries, DumpEntry;
  }

  /** The pieces of a container, as its lines group them and as its text does. */
  lemma Regroup(p: string, h: string, o: string, n: string, b: string, c: string, e: string)
    ensures (p + (h + o) + n) + (b + n) + (p + c + e) == p + (h + (o + n + b + n + p + c)) + e
  {
    var t := p + (c + e);
    Assoc(p, c, e);
    calc {
      (p + (h + o) + n) + (b + n) + t;
      { Assoc(p + (h + o) + n, b + n, t); Assoc(b, n, t); }
      (p + (h + o) + n) + (b + (n + t));
      { Assoc(p + (h + o), n, b + (n + t)); Assoc(p, h + o, n + (b + (n + t))); Assoc(h, o, n + (b + (n + t))); }
      p + (h + (o + (n + (b + (n + t)))));
    }
    var u := o + n + b + n + p + c;
    calc {
      p + (h + u) + e;
      { Assoc(p, h + u, e); Assoc(h, u, e); }
      p + (h + (u + e));
      { Right6(o, n, b, n, p + c, e); Assoc(o + n + b + n, p, c); Assoc(p, c, e); }
      p + (h + (o + (n + (b + (n + t)))));
    }
  }

  /** Printing a tree at a depth gives its lines. */
  lemma {:induction false} Printed(v: Json, depth: nat, head: string, comma: bool, spaces: nat, first: nat)
    ensures Render(Lines(v, depth, head, comma), spaces, first)
      == Pad(first + depth * spaces) + (head + Dump(v, spaces, first + depth * spaces)) + Behind(comma, spaces)
    decreases v, 1
  {
    hide Pad, Elements, Render, Behind, Body, DumpItems, DumpEntries, DumpEntry, NewLine;
    var f := first + depth * spaces;
    if !IsContainer(v) {
      RenderLine(depth, head + Dump(v, 0, 0), comma, spaces, first);
    } else {
      hide Dump;
      var inner := Inside(v, depth, spaces, first);
      var open, close := Line(depth, head + Opening(v), false), Line(depth, Closing(v), comma);
      RenderLine(depth, head + Opening(v), false, spaces, first);
      RenderLine(depth, Closing(v), comma, spaces, first);
      RenderConcat([open] + inner, [close], spaces, first);
      RenderConcat([open], inner, spaces, first);
      DumpOfContainer(v, spaces, f);
      PlainBehind(spaces);
      Regroup(Pad(f), head, Opening(v), NewLine(spaces), Body(v, spaces, f + spaces), Closing(v),
        Behind(comma, spaces));
    }
  }

  lemma PlainBehind(spaces: nat)
    ensures Behind(false, spaces) == NewLine(spaces) && Behind(true, spaces) == "," + Separator(spaces)
  {
  }

  /** What stands between the brackets. */
  lemma {:induction false} Inside(v: Json, depth: nat, spaces: nat, first: nat) returns (inner: seq<Line>)
    requires IsContainer(v)
    ensures inner == if Size(v) == 0 then [Empty] else Elements(v, 0, depth + 1)
    ensures Render(inner, spaces, first) == Body(v, spaces, first + depth * spaces + spaces) + NewLine(spaces)
    decreases v, 0, Size(v) + 1
  {
    var total := first + depth * spaces + spaces;
    assert first + (depth + 1) * spaces == total;
    if Size(v) == 0 {
      inner := [Empty];
      RenderOne(Empty, spaces, first);
    } else {
      inner := Elements(v, 0, depth + 1);
      hide Pad, NewLine, Piece, Pieces, Elements, Render;
      PrintedElements(v, 0, depth + 1, spaces, first, total);
    }
  }

  lemma {:induction false} PrintedElements(v: Json, n: nat, depth: nat, spaces: nat, first: nat, total: nat)
    requires IsContainer(v) && n < Size(v) && total == first + depth * spaces
    ensures Render(Elements(v, n, depth), spaces, first)
      == Pad(total) + Piece(v, n, spaces, total) + Pieces(v, n + 1, spaces, total) + NewLine(spaces)
    decreases v, 0, Size(v) - n
  {
    var comma := n + 1 < Size(v);
    PiecesFrom(v, n + 1, spaces, total);
    ElementsFrom(v, n, depth);
    hide Pad, Piece, Pieces, Render, NewLine, Separator, Behind, Lines, Elements, ElementLines;
    PrintedElement(v, n, depth, spaces, first, total);
    PlainBehind(spaces);
    RenderConcat(ElementLines(v, n, depth), Elements(v, n + 1, depth), spaces, first);
    if comma {
      PrintedElements(v, n + 1, depth, spaces, first, total);
      NextElement(Pad(total) + Piece(v, n, spaces, total), Separator(spaces), Pad(total),
        Piece(v, n + 1, spaces, total),
        Pieces(v, n + 2, spaces, total), NewLine(spaces));
    } else {
      RenderNone(spaces, first);
      Nothing(Pad(total) + Piece(v, n, spaces, total), NewLine(spaces));
    }
  }

  lemma ElementsFrom(v: Json, n: nat, depth: nat)
    requires IsContainer(v) && n < Size(v)
    ensures Elements(v, n, depth) == ElementLines(v, n, depth) + Elements(v, n + 1, depth)
    ensures n + 1 == Size(v) ==> Elements(v, n + 1, depth) == []
  {
    hide ElementLines;
  }

  lemma RenderNone(spaces: nat, first: nat)
    ensures Render([], spaces, first) == ""
  {
  }

  lemma Nothing(a: string, b: string)
    ensures a + b + "" == a + "" + b
  {
  }

  lemma NextElement(a: string, s: string, p: string, x: string, y: string, n: string)
    ensures a + ("," + s) + (p + x + y + n) == a + ("," + s + p + x + y) + n
  {
    Assoc(a, "," + s, p + x + y + n);
    Assoc(a, "," + s + p + x + y, n);
    Right6("," + s, p, x, y, n, "");
    Right6(p, x, y, n, "", "");
    assert n + "" == n && "" + "" == "";
    assert p + x + y + n + "" + "" == p + x + y + n;
    assert "," + s + p + x + y + n + "" == "," + s + p + x + y + n;
  }

  lemma {:induction false} PrintedElement(v: Json, n: nat, depth: nat, spaces: nat, first: nat, total: nat)
    requires IsContainer(v) && n < Size(v) && total == first + depth * spaces
    ensures Render(ElementLines(v, n, depth), spaces, first)
      == Pad(total) + Piece(v, n, spaces, total) + Behind(n + 1 < Size(v), spaces)
    decreases v, 0, 0
  {
    hide Pad, Render, Lines, Behind, Dump, Quote;
    if v.JArray? {
      Printed(v.items[n], depth, "", n + 1 < Size(v), spaces, first);
    } else {
      Printed(v.entries[n].value, depth, Quote(v.entries[n].key) + ": ", n + 1 < Size(v), spaces, first);
    }
  }

  /** Dump prints the lines of the tree, the first without its indentation and the last without its line break. */
  lemma DumpsLines(v: Json, spaces: nat, first: nat)
    ensures Spaces(first) + Dump(v, spaces, first) + (if spaces > 0 then "\n" else "")
      == Render(Lines(v, 0, "", false), spaces, first)
  {
    hide Lines, Render, Dump;
    Printed(v, 0, "", false, spaces, first);
    Padding(first);
    assert "" + Dump(v, spaces, first) == Dump(v, spaces, first);
  }

  // ---- cutting the text at its line breaks -----------------------------------------------------

  /** The parts between line breaks. */
  function Cut(s: string): (parts: seq<string>)
    ensures |parts| > 0
  {
    if s == "" then [""]
    else
      var more := Cut(s[1..]);
      if s[0] == '\n' then [""] + more else [[s[0]] + more[0]] + more[1..]
  }

  function Leading(s: string): nat {
    if s == "" || s[0] != ' ' then 0 else 1 + Leading(s[1..])
  }

  /** A text that can stand in a line, behind its indentation. */
  predicate IsTidy(text: string) {
    text != "" && text[0] != ' ' && '\n' !in text
  }

  /** Every decimal holds the text of one. */
  predicate Tidy(v: Json)
    decreases v
  {
    match v
    case JDecimal(text) => IsDecimalText(text)
    case JArray(items) => forall i :: 0 <= i < |items| ==> Tidy(items[i])
    case JObject(entries) => forall i :: 0 <= i < |entries| ==> Tidy(entries[i].value)
    case _ => true
  }

  /** A decimal has neither spaces nor line breaks. */
  lemma DecimalsAreTidy(text: string)
    requires IsDecimalText(text)
    ensures IsTidy(text)
  {
    forall k | 0 <= k < |text| ensures text[k] != '\n' && text[k] != ' ' { assert Continues(text[..k], text[k]); }
  }

  predicate TidyLines(ls: seq<Line>) {
    forall i :: 0 <= i < |ls| ==> ls[i].Line? ==> IsTidy(ls[i].text)
  }

  lemma {:induction false} EscapedHasNoBreak(s: string)
    ensures '\n' !in Escape(s)
  {
    if s != "" { EscapedHasNoBreak(s[1..]); }
  }

  lemma {:induction false} NumbersAreTidy(n: nat)
    ensures IsTidy(ShowNat(n)) && IsTidy("-" + ShowNat(n))
  {
    if n >= 10 { NumbersAreTidy(n / 10); }
  }

  lemma ScalarsAreTidy(v: Json)
    requires Tidy(v) && !IsContainer(v)
    ensures IsTidy(Dump(v, 0, 0))
  {
    match v
    case JNumber(n) => NumbersAreTidy(if n < 0 then -n else n);
    case JString(s) => EscapedHasNoBreak(s);
    case JDecimal(text) => DecimalsAreTidy(text);
    case _ =>
  }

  lemma {:induction false} LinesAreTidy(v: Json, depth: nat, head: string, comma: bool)
    requires Tidy(v) && (head == "" || IsTidy(head))
    ensures TidyLines(Lines(v, depth, head, comma))
    decreases v, 1
  {
    if !IsContainer(v) {
      ScalarsAreTidy(v);
    } else if Size(v) > 0 {
      ElementsAreTidy(v, 0, depth + 1);
    }
  }

  lemma {:induction false} ElementsAreTidy(v: Json, n: nat, depth: nat)
    requires Tidy(v) && IsContainer(v) && n <= Size(v)
    ensures TidyLines(Elements(v, n, depth))
    decreases v, 0, Size(v) - n
  {
    hide Lines;
    if n < Size(v) {
      if v.JArray? {
        LinesAreTidy(v.items[n], depth, "", n + 1 < Size(v));
      } else {
        EscapedHasNoBreak(v.entries[n].key);
        LinesAreTidy(v.entries[n].value, depth, Quote(v.entries[n].key) + ": ", n + 1 < Size(v));
      }
      ElementsAreTidy(v, n + 1, depth);
    }
  }

  lemma {:induction false} CutBreaks(a: string, b: string)
    requires '\n' !in a
    ensures Cut(a + "\n" + b) == [a] + Cut(b)
  {
    var s := a + "\n" + b;
    if a == "" {
      assert s[1..] == b;
    } else {
      CutBreaks(a[1..], b);
      assert s[1..] == a[1..] + "\n" + b;
      assert [a[0]] + a[1..] == a;
    }
  }

  lemma {:induction false} CutLast(s: string)
    ensures Cut(s + "\n") == Cut(s) + [""]
  {
    if s == "" {
      CutBreaks("", "");
    } else {
      CutLast(s[1..]);
      assert (s + "\n")[1..] == s[1..] + "\n";
    }
  }

  function AllShown(ls: seq<Line>, spaces: nat, first: nat): (parts: seq<string>)
    ensures |parts| == |ls| && forall i :: 0 <= i < |ls| ==> parts[i] == Shown(ls[i], spaces, first)
  {
    seq(|ls|, i requires 0 <= i < |ls| => Shown(ls[i], spaces, first))
  }

  lemma {:induction false} CutLines(ls: seq<Line>, spaces: nat, first: nat)
    requires spaces > 0 && TidyLines(ls)
    ensures Cut(Render(ls, spaces, first)) == AllShown(ls, spaces, first) + [""]
  {
    if ls != [] {
      var more := ls[1..];
      CutLines(more, spaces, first);
      CutBreaks(Shown(ls[0], spaces, first), Render(more, spaces, first));
      assert AllShown(ls, spaces, first) == [Shown(ls[0], spaces, first)] + AllShown(more, spaces, first);
    }
  }

  lemma {:induction false} LeadingSpaces(n: nat, s: string)
    requires s != "" && s[0] != ' '
    ensures Leading(Spaces(n) + s) == n
  {
    if n > 0 {
      LeadingSpaces(n - 1, s);
      assert (Spaces(n) + s)[1..] == Spaces(n - 1) + s;
    }
  }

  /** With an indentation the printed text, cut at its line breaks, is the lines of the tree: every element and every
      bracket on its own, behind as many spaces as its depth in the tree asks for. */
  lemma Indented(v: Json, spaces: nat, first: nat)
    requires spaces > 0 && Tidy(v)
    ensures var ls, parts := Lines(v, 0, "", false), Cut(Spaces(first) + Dump(v, spaces, first));
      && |parts| == |ls|
      && forall i :: 0 <= i < |ls| ==>
        && parts[i] == Shown(ls[i], spaces, first)
        && Leading(parts[i]) == (if ls[i].Empty? then 0 else first + ls[i].depth * spaces)
  {
    var ls := Lines(v, 0, "", false);
    LinesAreTidy(v, 0, "", false);
    hide Lines, Render, Dump, Cut, Shown, IsTidy;
    DumpsLines(v, spaces, first);
    CutLines(ls, spaces, first);
    CutLast(Spaces(first) + Dump(v, spaces, first));
    Cancel(AllShown(ls, spaces, first), Cut(Spaces(first) + Dump(v, spaces, first)), "");
    forall i | 0 <= i < |ls| && ls[i].Line?
      ensures Leading(Shown(ls[i], spaces, first)) == first + ls[i].depth * spaces
    {
      ShownLeads(ls[i], spaces, first);
    }
    EmptyLeads(spaces, first);
  }

  lemma Cancel(a: seq<string>, b: seq<string>, x: string)
    requires a + [x] == b + [x]
    ensures a == b
  {
    assert (a + [x])[..|a + [x]| - 1] == a && (b + [x])[..|b + [x]| - 1] == b;
  }

  lemma EmptyLeads(spaces: nat, first: nat)
    ensures Leading(Shown(Empty, spaces, first)) == 0
  {
  }

  lemma ShownLeads(l: Line, spaces: nat, first: nat)
    requires l.Line? && IsTidy(l.text)
    ensures Leading(Shown(l, spaces, first)) == first + l.depth * spaces
  {
    var comma := if l.comma then "," else "";
    LeadingSpaces(first + l.depth * spaces, l.text + comma);
    Assoc(Spaces(first + l.depth * spaces), l.text, comma);
  }

  lemma {:induction false} NoBreaks(ls: seq<Line>, first: nat)
    requires TidyLines(ls)
    ensures '\n' !in Render(ls, 0, first)
  {
    if ls != [] { NoBreaks(ls[1..], first); }
  }

  /** Without one it is a single line. */
  lemma OnOneLine(v: Json, first: nat)
    requires Tidy(v)
    ensures '\n' !in Dump(v, 0, first)
  {
    LinesAreTidy(v, 0, "", false);
    hide Lines, Dump, Render, TidyLines;
    NoBreaks(Lines(v, 0, "", false), first);
    DumpsLines(v, 0, first);
    Part(Spaces(first), Dump(v, 0, first), "");
  }

  lemma Part(a: string, b: string, c: string)
    ensures '\n' !in a + b + c ==> '\n' !in b
  {
    assert forall k :: 0 <= k < |b| ==> b[k] == (a + b + c)[|a| + k];
  }
}
