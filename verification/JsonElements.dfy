/** A container's view of the text its element takes. */
module JsonElements {
  import opened Wrappers
  import opened JsonValue
  import opened JsonBuilderModel
  import opened JsonChunks

  /** What a container makes of what its element's builder made of a text. */
  function Lift(b: Builder, fed: Fed): Fed
    requires IsContainer(b)
  {
    match fed
    case Failed(e) => Failed(e)
    case Running(d) => Running(WithItem(b, d))
    case Finished(d, rest) =>
      match Absorb(b, Value(d))
      case Err(e) => Failed(e)
      case Ok(p) => Fold(p, rest)
  }

  /** Bytes go to the element until it closes, then to the container. */
  lemma {:induction false} FoldElement(b: Builder, s: string)
    requires IsContainer(b) && b.frame.item.Some?
    ensures Fold(b, s) == Lift(b, Fold(b.frame.item.value, s))
    decreases |s|
  {
    if s != "" {
      var out := Consume(b.frame.item.value, s[0]);
      if out.More? {
        FoldElement(WithItem(b, out.b), s[1..]);
      }
    } else {
      assert WithItem(b, b.frame.item.value) == b;
    }
  }

  /** A byte that starts an element is given to a blank builder put in the container. */
  lemma StartElement(b: Builder, s: string)
    requires IsContainer(b) && b.frame.item.None? && s != ""
    requires !IsSpace(s[0]) && !b.frame.delimiter && b.frame.isOpen && !IsClosing(b, s[0])
    ensures Fold(b, s) == Fold(WithItem(b, Blank), s)
  {
    assert Consume(b, s[0]) == Wrap(b, Start(s[0]), s[0]);
    assert Consume(WithItem(b, Blank), s[0]) == Wrap(WithItem(b, Blank), Start(s[0]), s[0]);
  }

  /** The element goes on past the end of the text. */
  lemma ElementRuns(b: Builder, text: string, j0: nat, child: Builder)
    requires IsContainer(b) && b.frame.item.Some? && !Ready(b.frame.item.value) && j0 <= |text|
    requires Fold(b.frame.item.value, text[j0..]) == Running(child)
    ensures !Ready(child) && Fold(b, text[j0..]) == Fold(WithItem(b, child), text[|text|..])
  {
    FoldElement(b, text[j0..]);
    FoldKeeps(b.frame.item.value, text[j0..]);
  }

  /** Putting a finished element into a container and going on. */
  function AfterElement(taken: Result<Builder, Error>, rest: string): Fed {
    match taken
    case Err(e) => Failed(e)
    case Ok(p) => Fold(p, rest)
  }

  /** The element is finished at j; a blank one has taken a byte. Taking it does not look at the place it was
      built in. */
  lemma ElementEnds(b: Builder, text: string, j0: nat, j: nat, child: Builder)
    requires IsContainer(b) && b.frame.item.Some? && !Ready(b.frame.item.value) && j0 <= j <= |text|
    requires Fold(b.frame.item.value, text[j0..]) == Finished(child, text[j..])
    ensures Ready(child) && (b.frame.item.value.Blank? ==> j0 < j)
    ensures Fold(b, text[j0..]) == AfterElement(Absorb(WithFrame(b, b.frame.(item := None)), Value(child)), text[j..])
  {
    FoldElement(b, text[j0..]);
    FoldKeeps(b.frame.item.value, text[j0..]);
    FoldTakes(b.frame.item.value, text[j0..]);
    assert Absorb(b, Value(child)) == Absorb(WithFrame(b, b.frame.(item := None)), Value(child));
  }

  lemma FoldEnd(b: Builder, text: string)
    ensures Fold(b, text[|text|..]) == Running(b)
  {
  }

  /** Fold at a position of a text. */
  lemma FoldAt(b: Builder, text: string, j: nat)
    requires j < |text|
    ensures Fold(b, text[j..]) ==
      match Consume(b, text[j])
      case Fail(e) => Failed(e)
      case More(d) => Fold(d, text[j + 1..])
      case Done(d, used) => Finished(d, if used then text[j + 1..] else text[j..])
  {
    assert text[j..][0] == text[j] && text[j..][1..] == text[j + 1..];
  }

  function AfterString(p: Part<Text>, last: Option<Json>, rest: string): Fed {
    match p
    case Bad(e) => Failed(e)
    case Goes(t) => Fold(Str(t, last), rest)
    case Ends(t) => Finished(ClosedStr(t), rest)
  }

  function AfterNumber(p: Option<Part<Digits>>, last: Option<Json>, text: string, j: nat): Fed
    requires j < |text|
  {
    match p
    case None => Fold(Lit("", last), text[j..])
    case Some(Bad(e)) => Failed(e)
    case Some(Goes(d)) => Fold(Num(d, last), text[j + 1..])
    case Some(Ends(d)) => Finished(ClosedNum(d, last), text[j..])
  }

  lemma StringAt(t: Text, last: Option<Json>, text: string, j: nat)
    requires j < |text|
    ensures Fold(Str(t, last), text[j..]) == AfterString(StringByte(t, text[j]), last, text[j + 1..])
  {
    hide StringByte;
    FoldAt(Str(t, last), text, j);
  }

  lemma NumberAt(d: Digits, last: Option<Json>, text: string, j: nat)
    requires j < |text|
    ensures Fold(Num(d, last), text[j..]) == AfterNumber(NumberByte(d, text[j]), last, text, j)
  {
    hide NumberByte, NumericValue;
    FoldAt(Num(d, last), text, j);
    FoldAt(Lit("", last), text, j);
  }

  lemma WordAt(word: string, last: Option<Json>, text: string, j: nat)
    requires j < |text|
    ensures Fold(Lit(word, last), text[j..]) ==
      if !IsTerminator(text[j]) then Fold(Lit(word + [text[j]], last), text[j + 1..])
      else if WordValue(word).None? then Failed(InvalidString)
      else Finished(Lit(word, WordValue(word)), text[j..])
  {
    FoldAt(Lit(word, last), text, j);
  }

  /** What the first byte of a value starts. */
  function Begin(c: char): Builder {
    if c == '{' then Obj(FRAME, false, [], true, "")
    else if c == '[' then Arr(FRAME, false, [])
    else if c == '"' then Str(TEXT, None)
    else Num(DIGITS, None)
  }

  /** The first byte of a value is given to what it starts. */
  lemma BlankAt(text: string, j: nat)
    requires j < |text|
    ensures Fold(Blank, text[j..]) ==
      if IsSpace(text[j]) then Fold(Blank, text[j + 1..])
      else Fold(Begin(text[j]), text[j..])
  {
    hide StrByte, NumByte;
    FoldAt(Blank, text, j);
    FoldAt(Begin(text[j]), text, j);
  }

  function AfterContainer(out: Outcome, rest: string): Fed {
    match out
    case Fail(e) => Failed(e)
    case More(d) => Fold(d, rest)
    case Done(d, _) => Finished(d, rest)
  }

  /** A byte given to a container with no element under construction: its own, or the first byte of an element. */
  lemma ContainerAt(b: Builder, text: string, j: nat)
    requires j < |text| && IsContainer(b) && b.frame.item.None?
    ensures IsOwn(b, text[j]) ==> Fold(b, text[j..]) == AfterContainer(ContainerByte(b, text[j]), text[j + 1..])
    ensures !IsOwn(b, text[j]) ==> Fold(b, text[j..]) == Fold(WithItem(b, Blank), text[j..])
  {
    hide CloseContainer, Delimiter, Wrap;
    if IsOwn(b, text[j]) {
      FoldAt(b, text, j);
      OwnByteIsUsed(b, text[j]);
    } else {
      StartElement(b, text[j..]);
    }
  }

  predicate IsOwn(b: Builder, c: char)
    requires IsContainer(b)
  {
    IsSpace(c) || b.frame.delimiter || !b.frame.isOpen || IsClosing(b, c)
  }

  lemma OwnByteIsUsed(b: Builder, c: char)
    requires IsContainer(b) && IsOwn(b, c)
    ensures ContainerByte(b, c).Done? ==> ContainerByte(b, c).used
  {
  }
}
