/** How a builder sees a text cut into chunks, and what get() makes of a text cut short. */
module JsonChunks {
  import opened Wrappers
  import opened JsonValue
  import opened JsonBuilderModel

  function Flatten(chunks: seq<string>): string {
    if chunks == [] then "" else chunks[0] + Flatten(chunks[1..])
  }

  /** What is left to do with `more` after a text has given `fed`. */
  function Resume(fed: Fed, more: string): Fed {
    match fed
    case Failed(e) => Failed(e)
    case Running(b) => Fold(b, more)
    case Finished(b, rest) => Finished(b, rest + more)
  }

  /** Nothing depends on where a text is cut: the machine is suspended, not restarted. */
  lemma {:induction false} FoldConcat(b: Builder, s: string, more: string)
    ensures Fold(b, s + more) == Resume(Fold(b, s), more)
    decreases |s|
  {
    if s == "" {
      assert s + more == more;
    } else {
      var out := Consume(b, s[0]);
      assert (s + more)[1..] == s[1..] + more;
      if out.More? {
        FoldConcat(out.b, s[1..], more);
      }
    }
  }

  // ---- chunks ------------------------------------------------------------------------------

  /** No byte follows the value, or it is closed in the last chunk: by a terminator it leaves, or with spaces after
      it. */
  predicate EndsInTime(b: Builder, chunks: seq<string>) {
    var fed := Fold(b, Flatten(chunks));
    (fed.Finished? ==> fed.rest == "") || (chunks != [] && !Fold(b, Flatten(chunks[..|chunks| - 1])).Finished?)
  }

  /** Cut anywhere: the chunks are taken as the whole text is, provided the value ends in time. */
  lemma {:induction false} ChunkIndependence(b: Builder, chunks: seq<string>)
    requires EndsInTime(b, chunks)
    ensures FeedAll(b, chunks) == Feed(b, Flatten(chunks))
    decreases |chunks|
  {
    hide Consume, Fold, Flatten, EndsInTime, Feed;
    if |chunks| <= 1 {
      OneChunk(b, chunks);
    } else {
      match Fold(b, chunks[0])
      case Failed(_) => FirstFails(b, chunks);
      case Running(d) =>
        FirstRuns(b, d, chunks);
        ChunkIndependence(d, chunks[1..]);
      case Finished(_, _) => FirstFinishes(b, chunks);
    }
  }

  lemma OneChunk(b: Builder, chunks: seq<string>)
    requires |chunks| <= 1
    ensures FeedAll(b, chunks) == Feed(b, Flatten(chunks))
  {
    hide Consume;
    if |chunks| == 1 { assert chunks[0] + "" == chunks[0] && chunks[1..] == []; }
  }

  lemma FirstFails(b: Builder, chunks: seq<string>)
    requires chunks != [] && Fold(b, chunks[0]).Failed?
    ensures FeedAll(b, chunks) == Feed(b, Flatten(chunks))
  {
    hide Fold;
    FoldConcat(b, chunks[0], Flatten(chunks[1..]));
  }

  lemma FirstRuns(b: Builder, d: Builder, chunks: seq<string>)
    requires |chunks| > 1 && Fold(b, chunks[0]) == Running(d)
    ensures FeedAll(b, chunks) == FeedAll(d, chunks[1..]) && Feed(b, Flatten(chunks)) == Feed(d, Flatten(chunks[1..]))
    ensures EndsInTime(b, chunks) == EndsInTime(d, chunks[1..])
  {
    hide Fold;
    var front := chunks[..|chunks| - 1];
    assert front[1..] == chunks[1..][..|chunks| - 2];
    FoldConcat(b, chunks[0], Flatten(chunks[1..]));
    FoldConcat(b, chunks[0], Flatten(front[1..]));
  }

  /** Then nothing may follow. */
  lemma FirstFinishes(b: Builder, chunks: seq<string>)
    requires |chunks| > 1 && Fold(b, chunks[0]).Finished? && EndsInTime(b, chunks)
    ensures FeedAll(b, chunks) == Feed(b, Flatten(chunks))
  {
    hide Fold;
    var front := chunks[..|chunks| - 1];
    FoldConcat(b, chunks[0], Flatten(chunks[1..]));
    FoldConcat(b, chunks[0], Flatten(front[1..]));
    assert Fold(b, chunks[0]).rest == "" && Flatten(chunks[1..]) == "";
    EmptyChunks(Fold(b, chunks[0]).b, chunks[1..]);
  }

  lemma {:induction false} EmptyChunks(b: Builder, chunks: seq<string>)
    requires Flatten(chunks) == ""
    ensures FeedAll(b, chunks) == Ok(b)
    decreases |chunks|
  {
    if chunks != [] {
      assert chunks[0] == "";
      EmptyChunks(b, chunks[1..]);
    }
  }

  /** A builder that has closed a value keeps its action, so some byte still moves it. */
  function Reopening(b: Builder): string {
    match b
    case Blank => ""
    case Str(_, _) => "\""
    case Num(_, _) => "1"
    case Lit(_, _) => "x"
    case Arr(f, _, _) => if f.delimiter then "," else "["
    case Obj(f, _, _, _, _) => if f.delimiter then ":" else "{"
  }

  /** How a builder is left by the byte that closes its value. */
  predicate Closed(b: Builder) {
    Ready(b) &&
    match b
    case Blank => false
    case Str(t, _) => !t.isOpen && !t.escaped && t.hex.None? && t.buffer == ""
    case Num(d, _) => d.buffer == ""
    case Lit(_, _) => true
    case Arr(f, _, _) => !f.isOpen && f.item.None?
    case Obj(f, _, _, isKey, key) => !f.isOpen && f.item.None? && isKey && key == ""
  }

  lemma StartKeeps(c: char)
    ensures Start(c).More? ==> !Ready(Start(c).b)
    ensures !Start(c).Done?
  {
  }

  lemma CloseKeeps(b: Builder)
    requires IsContainer(b) && b.frame.item.None?
    ensures !CloseContainer(b).More? && (CloseContainer(b).Done? ==> Closed(CloseContainer(b).b))
  {
  }

  lemma DelimiterKeeps(b: Builder, c: char)
    requires IsContainer(b) && b.frame.item.None?
    ensures Delimiter(b, c).More? ==> Ready(Delimiter(b, c).b) == Ready(b)
    ensures Delimiter(b, c).Done? ==> Closed(Delimiter(b, c).b)
  {
    hide CloseContainer, Closed;
    if IsClosing(b, c) { CloseKeeps(b); }
  }

  lemma AbsorbKeeps(b: Builder, v: Json)
    requires IsContainer(b)
    ensures var taken := Absorb(b, v);
      taken.Ok? ==> IsContainer(taken.value) && taken.value.frame.item.None? && Ready(taken.value) == Ready(b)
  {
  }

  lemma WrapKeeps(b: Builder, child: Outcome, c: char)
    requires IsContainer(b)
    ensures Wrap(b, child, c).More? ==> Ready(Wrap(b, child, c).b) == Ready(b)
    ensures Wrap(b, child, c).Done? ==> Closed(Wrap(b, child, c).b)
  {
    hide Delimiter, Absorb, Closed;
    if child.Done? {
      AbsorbKeeps(b, Value(child.b));
      var taken := Absorb(b, Value(child.b));
      if taken.Ok? { DelimiterKeeps(taken.value, c); }
    }
  }

  lemma ContainerByteKeeps(b: Builder, c: char)
    requires IsContainer(b) && b.frame.item.None?
    ensures ContainerByte(b, c).More? ==> Ready(ContainerByte(b, c).b) == Ready(b)
    ensures ContainerByte(b, c).Done? ==> Closed(ContainerByte(b, c).b)
  {
    hide CloseContainer, Delimiter, Wrap, Start, Closed;
    DelimiterKeeps(b, c);
    WrapKeeps(b, Start(c), c);
    if IsClosing(b, c) { CloseKeeps(b); }
  }

  /** A byte closes a value exactly when it makes the builder ready; a container without an element under
      construction closes with no element under construction. */
  lemma ConsumeKeeps(b: Builder, c: char)
    ensures Consume(b, c).More? ==> Ready(Consume(b, c).b) == Ready(b)
    ensures Consume(b, c).Done? ==> Closed(Consume(b, c).b)
  {
    if IsContainer(b) {
      hide Wrap, ContainerByte, Closed;
      if b.frame.item.Some? {
        WrapKeeps(b, Consume(b.frame.item.value, c), c);
      } else {
        ContainerByteKeeps(b, c);
      }
    } else {
      hide Start, StringByte, NumberByte, NumericValue, WordValue;
      StartKeeps(c);
    }
  }

  lemma {:induction false} FoldKeeps(b: Builder, s: string)
    ensures Fold(b, s).Running? ==> Ready(Fold(b, s).b) == Ready(b)
    ensures Fold(b, s).Finished? ==> Closed(Fold(b, s).b)
    decreases |s|
  {
    if s != "" {
      ConsumeKeeps(b, s[0]);
      if Consume(b, s[0]).More? {
        FoldKeeps(Consume(b, s[0]).b, s[1..]);
      }
    }
  }

  /** A blank builder takes at least one byte before it closes. */
  lemma {:induction false} FoldTakes(b: Builder, s: string)
    ensures var fed := Fold(b, s); fed.Finished? ==> |fed.rest| <= |s| && (b.Blank? ==> |fed.rest| < |s|)
    decreases |s|
  {
    if s != "" {
      StartKeeps(s[0]);
      if Consume(b, s[0]).More? {
        FoldTakes(Consume(b, s[0]).b, s[1..]);
      }
    }
  }

  lemma ReopeningWorks(b: Builder)
    requires Closed(b)
    ensures |Reopening(b)| == 1 && !IsSpace(Reopening(b)[0])
    ensures Consume(b, Reopening(b)[0]).More?
  {
  }

  /** operator<< twice. */
  function FeedTwo(b: Builder, s: string, more: string): Result<Builder, Error> {
    match Feed(b, s)
    case Err(e) => Err(e)
    case Ok(d) => Feed(d, more)
  }

  /** Cutting after `s` never matters exactly when `s` does not complete the value: a completed builder
      goes on with its old action instead of allowing only spaces. */
  lemma CutExact(b: Builder, s: string)
    requires !Ready(b)
    ensures (forall more :: FeedTwo(b, s, more) == Feed(b, s + more)) <==> !(Feed(b, s).Ok? && Ready(Feed(b, s).value))
  {
    FoldKeeps(b, s);
    forall more ensures Fold(b, s + more) == Resume(Fold(b, s), more) { FoldConcat(b, s, more); }
    match Fold(b, s)
    case Failed(_) =>
    case Running(d) =>
    case Finished(d, rest) =>
      if AllSpace(rest) {
        var more := Reopening(d);
        ReopeningWorks(d);
        assert Fold(d, more) == Fold(Consume(d, more[0]).b, "");
        assert (rest + more)[|rest|] == more[0];
        assert FeedTwo(b, s, more).Ok? && Feed(b, s + more).Err?;
      } else {
        var k :| 0 <= k < |rest| && !IsSpace(rest[k]);
        forall more ensures Feed(b, s + more) == Err(InvalidChar) { assert (rest + more)[k] == rest[k]; }
      }
  }

  /** At an input: after "[]" another bracket is an error in the same chunk, and is taken in the next one. */
  lemma CutBehindAnArray()
    ensures FeedTwo(Blank, "[]", "[").Ok? && Feed(Blank, "[][").Err?
  {
    var open, closed := Consume(Blank, '[').b, Consume(Consume(Blank, '[').b, ']').b;
    var text, more := "[][", "[";
    assert text[1..] == "][" && text[1..][1..] == more && "[]"[1..] == "]" && "]"[1..] == "" && more[1..] == "";
    assert Fold(Blank, text) == Fold(open, "][") == Finished(closed, more);
    assert Fold(Blank, "[]") == Fold(open, "]") == Finished(closed, "");
    assert Fold(closed, more) == Fold(Consume(closed, '[').b, "");
    assert !IsSpace(more[0]);
  }

  /** The builder of a closed word holds the value of its word, which is not cleared. */
  predicate KeepsWord(b: Builder) { b.Lit? ==> b.last.Some? && WordValue(b.word) == b.last }

  predicate Keeps(b: Builder, r: Result<Builder, Error>) { r.Ok? && Get(r.value) == Ok(Value(b)) }

  /** Spaces in a chunk of their own behind a value change nothing, but behind a number they are an error, and behind a
      string, if any of them is not a blank. */
  lemma {:induction false} SpacesBehindValue(b: Builder, spaces: string)
    requires Closed(b) && KeepsWord(b) && AllSpace(spaces) && spaces != ""
    ensures if b.Num? then Feed(b, spaces) == Err(InvalidString)
      else if b.Str? && exists k :: 0 <= k < |spaces| && spaces[k] != ' ' then Feed(b, spaces) == Err(InvalidChar)
      else Keeps(b, Feed(b, spaces))
  {
    hide StringByte, Start, WordValue, ContainerByte;
    if b.Str? {
      SpacesInString(b, spaces);
    } else if b.Arr? || b.Obj? {
      SpacesInContainer(b, spaces);
    } else if b.Num? {
      NoWord();
    }
  }

  lemma {:induction false} SpacesInString(b: Builder, spaces: string)
    requires b.Str? && Closed(b) && AllSpace(spaces)
    ensures if exists k :: 0 <= k < |spaces| && spaces[k] != ' ' then Fold(b, spaces) == Failed(InvalidChar)
      else Fold(b, spaces).Running? && Keeps(b, Ok(Fold(b, spaces).b))
    decreases |spaces|
  {
    hide StringByte;
    if spaces != "" {
      var t, c := b.text, spaces[0];
      SpaceInString(t, c);
      if c == ' ' {
        SpacesInString(Str(t.(wide := NextWide(t.wide, c).GetOr(0)), b.last), spaces[1..]);
        assert forall k :: 1 <= k < |spaces| ==> spaces[k] == spaces[1..][k - 1];
      }
    }
  }

  lemma SpaceInString(t: Text, c: char)
    requires IsSpace(c) && !t.isOpen && !t.escaped && t.hex.None?
    ensures StringByte(t, c) == if c == ' ' then Goes(t.(wide := NextWide(t.wide, c).GetOr(0))) else Bad(InvalidChar)
  {
  }

  lemma {:induction false} SpacesInContainer(b: Builder, spaces: string)
    requires (b.Arr? || b.Obj?) && b.frame.item.None? && AllSpace(spaces)
    ensures Fold(b, spaces) == Running(b)
    decreases |spaces|
  {
    if spaces != "" {
      assert Consume(b, spaces[0]) == ContainerByte(b, spaces[0]);
      SpacesInContainer(b, spaces[1..]);
    }
  }

  lemma NoWord()
    ensures WordValue("").None?
  {
  }

  // ---- texts cut short ---------------------------------------------------------------------

  /** A string, an array or an object whose opening character has come. */
  predicate Opened(b: Builder) {
    match b
    case Str(t, v) => t.isOpen && v.None?
    case Arr(f, ready, _) => f.isOpen && !ready
    case Obj(f, ready, _, _, _) => f.isOpen && !ready
    case _ => false
  }

  lemma DelimiterOpened(b: Builder, c: char)
    requires IsContainer(b) && Opened(b)
    ensures Delimiter(b, c).More? ==> Opened(Delimiter(b, c).b)
  {
  }

  lemma WrapOpened(b: Builder, child: Outcome, c: char)
    requires IsContainer(b) && Opened(b)
    ensures Wrap(b, child, c).More? ==> Opened(Wrap(b, child, c).b)
  {
    hide Delimiter;
    if child.Done? && Absorb(b, Value(child.b)).Ok? {
      DelimiterOpened(Absorb(b, Value(child.b)).value, c);
    }
  }

  lemma ConsumeOpened(b: Builder, c: char)
    requires Opened(b)
    ensures Consume(b, c).More? ==> Opened(Consume(b, c).b)
  {
    if IsContainer(b) {
      hide Wrap, Delimiter, CloseContainer, Start;
      DelimiterOpened(b, c);
      WrapOpened(b, if b.frame.item.Some? then Consume(b.frame.item.value, c) else Start(c), c);
    }
  }

  lemma {:induction false} FoldOpened(b: Builder, s: string)
    requires Opened(b)
    ensures Fold(b, s).Running? ==> Opened(Fold(b, s).b)
    decreases |s|
  {
    if s != "" {
      ConsumeOpened(b, s[0]);
      if Consume(b, s[0]).More? {
        FoldOpened(Consume(b, s[0]).b, s[1..]);
      }
    }
  }

  predicate IsOpening(c: char) {
    c == '"' || c == '[' || c == '{'
  }

  /** A text that starts a string, an array or an object and does not finish it is never a value,
      whatever it is and however it is cut. */
  lemma {:induction false} CutShortIsNoValue(s: string, chunks: seq<string>)
    requires s != "" && IsOpening(s[0]) && Flatten(chunks) == s && !Fold(Blank, s).Finished?
    ensures var fed := FeedAll(Blank, chunks); fed.Err? || Get(fed.value) == Err(UnexpectedEnd)
  {
    ChunkIndependence(Blank, chunks);
    assert Consume(Blank, s[0]).More? && Opened(Consume(Blank, s[0]).b);
    FoldOpened(Consume(Blank, s[0]).b, s[1..]);
  }

  /** Truncation: when a text is a complete string, array or object and nothing more, no shorter
      beginning of it is a value, and none is an error before get() is asked. */
  lemma {:induction false} TruncationIsNoValue(whole: string, n: nat, chunks: seq<string>)
    requires 0 < n < |whole| && IsOpening(whole[0]) && Flatten(chunks) == whole[..n]
    requires Fold(Blank, whole).Finished? && Fold(Blank, whole).rest == ""
    ensures FeedAll(Blank, chunks).Ok? && Get(FeedAll(Blank, chunks).value) == Err(UnexpectedEnd)
  {
    var s := whole[..n];
    assert s + whole[n..] == whole;
    FoldConcat(Blank, s, whole[n..]);
    CutShortIsNoValue(s, chunks);
    ChunkIndependence(Blank, chunks);
  }
}
