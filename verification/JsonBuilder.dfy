/** The streaming JSON builder as the library runs it: one object per value under construction,
    an element's builder owned by its container's builder, positions kept in `i` and `endCut`.
    Every method is proved against the byte machine of JsonBuilderModel. */
module JsonBuilder {
  import opened Wrappers
  import opened JsonValue
  import M = JsonBuilderModel
  import L = JsonElements
  import C = JsonChunks

  datatype Action = ToCheckType | ToBuildString | ToBuildNumeric | ToBuildNumericString | ToBuildObject | ToBuildArray

  datatype Type = TypeNull | TypeNumeric | TypeString | TypeDecimal | TypeBoolean | TypeObject | TypeArray | TypeNumber

  class Builder {
    var action: Action
    var kind: Type
    var result: Json
    var buffer: string
    var i: nat
    var endCut: nat
    var openedQuote: bool
    var wideLeft: nat
    var escaped: bool
    var utfStatus: int
    var utfEscaped: seq<nat>
    var isKey: bool
    var key: string
    var goToDelimiter: bool
    var getting: bool
    var ready: bool
    var expAlready: bool
    var operateAlready: bool
    var item: Builder?
    ghost var Repr: set<object>

    ghost predicate Valid()
      reads this, Repr
      decreases Repr
      ensures Valid() ==> this in Repr
    {
      && this in Repr && Own()
      && (item != null ==> IsContainer() && item in Repr && item.Repr <= Repr && this !in item.Repr)
      && (item != null ==> item.Valid() && !item.ready)
    }

    /** What holds of this object's own fields. */
    ghost predicate Own()
      reads `action, `kind, `result, `buffer, `openedQuote, `wideLeft, `escaped, `utfStatus, `utfEscaped,
            `isKey, `key, `goToDelimiter, `ready, `expAlready, `operateAlready
    {
      |utfEscaped| == 4 && -1 <= utfStatus < 4 && (action != ToBuildObject ==> isKey && key == "") &&
      match action
      case ToCheckType => IsBlank()
      case ToBuildString => true
      case ToBuildNumeric => IsNumeric() && (kind == TypeNumeric && !ready ==> result == JNull)
      case ToBuildNumericString => true
      case ToBuildObject => buffer == "" && result.JObject?
      case ToBuildArray => buffer == "" && result.JArray?
    }

    predicate IsContainer()
      reads `action
    {
      action == ToBuildObject || action == ToBuildArray
    }

    predicate IsBlank()
      reads `buffer, `openedQuote, `wideLeft, `escaped, `utfStatus, `goToDelimiter, `ready, `expAlready,
        `operateAlready, `result
    {
      && buffer == "" && !openedQuote && wideLeft == 0 && !escaped && utfStatus == -1 && !goToDelimiter
      && !ready && !expAlready && !operateAlready && result == JNull
    }

    ghost function TextOf(): M.Text
      requires |utfEscaped| == 4 && -1 <= utfStatus < 4
      reads this
    {
      M.Text(openedQuote, wideLeft, escaped, if utfStatus == -1 then None else Some(utfEscaped[..utfStatus]), buffer)
    }

    ghost function DigitsOf(): M.Digits
      reads this
    {
      M.Digits(if kind == TypeNumber then M.Number else if kind == TypeDecimal then M.Decimal else M.Numeric,
               operateAlready, expAlready, buffer)
    }

    ghost function LastOf(): Option<Json>
      reads this
    {
      if ready then Some(result) else None
    }

    /** The suspended machine this object stands for. */
    ghost function Model(): (b: M.Builder)
      requires Valid()
      reads this, Repr
      decreases Repr
      ensures M.Ready(b) == ready && (ready ==> M.Value(b) == result)
    {
      match action
      case ToCheckType => M.Blank
      case ToBuildString => M.Str(TextOf(), LastOf())
      case ToBuildNumeric => M.Num(DigitsOf(), LastOf())
      case ToBuildNumericString => M.Lit(buffer, LastOf())
      case ToBuildObject =>
        M.Obj(M.Frame(openedQuote, goToDelimiter, if item == null then None else Some(item.Model())), ready,
          result.entries, isKey, key)
      case ToBuildArray =>
        M.Arr(M.Frame(openedQuote, goToDelimiter, if item == null then None else Some(item.Model())), ready,
          result.items)
    }

    /** Positions agree: as many bytes are left before `endCut` as in the text. */
    ghost predicate Aligned(text: string, j: nat)
      reads this
    {
      j <= |text| && j <= i && endCut - i == |text| - j
    }

    /** What an action has done, given what the machine makes of the rest of the text. */
    ghost predicate Stepped(fed: M.Fed, text: string, j: nat, thrown: Option<Error>, done: bool)
      reads this, Repr
    {
      if thrown.Some? then fed == M.Failed(thrown.value)
      else
        && Valid() && j <= |text| && j <= i
        && if done then fed == M.Finished(Model(), text[j..]) && endCut == i && ready
           else Aligned(text, j) && M.Fold(Model(), text[j..]) == fed
    }

    lemma SteppedOn(fed: M.Fed, text: string, j: nat)
      requires Valid() && Aligned(text, j) && M.Fold(Model(), text[j..]) == fed
      ensures Stepped(fed, text, j, None, false)
    {
    }

    lemma SteppedToEnd(fed: M.Fed, text: string, j: nat)
      requires Valid() && j <= |text| && j <= i == endCut && ready && fed == M.Finished(Model(), text[j..])
      ensures Stepped(fed, text, j, None, true)
    {
    }

    lemma SteppedToError(fed: M.Fed, text: string, j: nat, error: Error, done: bool)
      requires fed == M.Failed(error)
      ensures Stepped(fed, text, j, Some(error), done)
    {
    }

    /** What stands for a builder that is not a container. */
    lemma ScalarModel()
      requires this in Repr && Own() && item == null && !IsContainer()
      ensures Valid()
      ensures action == ToCheckType ==> Model() == M.Blank
      ensures action == ToBuildString ==> Model() == M.Str(TextOf(), LastOf())
      ensures action == ToBuildNumeric ==> Model() == M.Num(DigitsOf(), LastOf())
      ensures action == ToBuildNumericString ==> Model() == M.Lit(buffer, LastOf())
    {
    }

    constructor ()
      ensures Valid() && fresh(Repr) && Model() == M.Blank
      ensures (action, item, openedQuote, i) == (ToCheckType, null, false, 0)
    {
      action, kind, result, buffer := ToCheckType, TypeNull, JNull, "";
      i, endCut, openedQuote, wideLeft, escaped := 0, 0, false, 0, false;
      utfStatus, utfEscaped := -1, [0, 0, 0, 0];
      isKey, key, goToDelimiter, getting, ready := true, "", false, false, false;
      expAlready, operateAlready, item := false, false, null;
      Repr := {this};
    }

    // ---- strings -----------------------------------------------------------------------------

    /** The body of the loop of _build_string. */
    method StringStep(c: char) returns (thrown: Option<Error>, closed: bool)
      requires |utfEscaped| == 4 && -1 <= utfStatus < 4
      modifies `wideLeft, `escaped, `utfStatus, `utfEscaped, `buffer, `openedQuote
      ensures thrown.Some? ==> M.StringByte(old(TextOf()), c) == M.Bad(thrown.value)
      ensures thrown.None? ==> |utfEscaped| == 4 && -1 <= utfStatus < 4
      ensures thrown.None? ==> M.StringByte(old(TextOf()), c) == if closed then M.Ends(TextOf()) else M.Goes(TextOf())
      ensures closed ==> !openedQuote
    {
      thrown, closed := None, false;
      var left := M.NextWide(wideLeft, c);
      if left.None? { return Some(InvalidChar), false; }
      wideLeft := left.value;
      var d := c;
      if escaped {
        escaped := false;
        if c == 'u' {
          utfStatus := 0;
          return;
        }
        var u := M.Unescape(c);
        if u.None? { return Some(BadEscapedChar), false; }
        d := u.value;
      } else {
        if utfStatus != -1 {
          thrown := HexStep(c);
          return;
        }
        if M.IsControl(c) { return Some(InvalidChar), false; }
        if c == '\\' {
          escaped := true;
          return;
        }
        if c == '"' {
          openedQuote := !openedQuote;
          closed := !openedQuote;
          return;
        }
      }
      if openedQuote {
        buffer := buffer + [d];
      } else if !IsSpace(d) {
        return Some(InvalidChar), false;
      }
    }

    /** The \u branch of the loop of _build_string. */
    method HexStep(c: char) returns (thrown: Option<Error>)
      requires |utfEscaped| == 4 && 0 <= utfStatus < 4
      modifies `utfStatus, `utfEscaped, `buffer
      ensures thrown.Some? ==> M.HexByte(old(TextOf()), c) == M.Bad(thrown.value)
      ensures thrown.None? ==>
        |utfEscaped| == 4 && -1 <= utfStatus < 4 && M.HexByte(old(TextOf()), c) == M.Goes(TextOf())
    {
      thrown := None;
      var l := M.ToLower(c);
      if !(IsDigit(l) || 'a' <= l <= 'z') { return Some(BadEscapedChar); }
      ghost var was := utfEscaped[..utfStatus];
      utfEscaped := utfEscaped[utfStatus := M.HexValue(l)];
      utfStatus := utfStatus + 1;
      assert utfEscaped[..utfStatus] == was + [M.HexValue(l)];
      if utfStatus == 4 {
        assert utfEscaped[..4] == utfEscaped;
        buffer := buffer + M.EscapeBytes(utfEscaped);
        utfStatus := -1;
      }
    }

    /** The loop of _build_string. */
    method StringRun(text: string, j0: nat) returns (thrown: Option<Error>, j: nat, closed: bool)
      requires Own() && action == ToBuildString && Aligned(text, j0)
      modifies `wideLeft, `escaped, `utfStatus, `utfEscaped, `buffer, `openedQuote, `i
      ensures thrown.None? ==> Own()
      ensures thrown.Some? ==> old(M.Fold(M.Str(TextOf(), LastOf()), text[j0..])) == M.Failed(thrown.value)
      ensures thrown.None? ==> j0 <= j && Aligned(text, j) && i - j == old(i) - j0
      ensures thrown.None? && !closed ==> j == |text|
      ensures thrown.None? && !closed ==>
        old(M.Fold(M.Str(TextOf(), LastOf()), text[j0..])) == M.Fold(M.Str(TextOf(), LastOf()), text[j..])
      ensures thrown.None? && closed ==> j < |text| && !openedQuote
      ensures thrown.None? && closed ==>
        old(M.Fold(M.Str(TextOf(), LastOf()), text[j0..])) == M.Finished(M.ClosedStr(TextOf()), text[j + 1..])
    {
      hide M.Consume, M.Fold, M.StringByte;
      ghost var fed := M.Fold(M.Str(TextOf(), LastOf()), text[j0..]);
      thrown, j, closed := None, j0, false;
      while j < |text| && !closed
        invariant |utfEscaped| == 4 && -1 <= utfStatus < 4
        invariant thrown.None? && j0 <= j && Aligned(text, j) && i - j == old(i) - j0
        invariant !closed ==> M.Fold(M.Str(TextOf(), LastOf()), text[j..]) == fed
        invariant closed ==> j < |text| && !openedQuote && fed == M.Finished(M.ClosedStr(TextOf()), text[j + 1..])
        decreases |text| - j, if closed then 0 else 1
      {
        L.StringAt(TextOf(), LastOf(), text, j);
        thrown, closed := StringStep(text[j]);
        if thrown.Some? { return; }
        if !closed {
          i, j := i + 1, j + 1;
        }
      }
    }

    method BuildString(text: string, j0: nat) returns (thrown: Option<Error>, j: nat, ghost done: bool)
      requires Valid() && action == ToBuildString && Aligned(text, j0)
      modifies `wideLeft, `escaped, `utfStatus, `utfEscaped, `buffer, `openedQuote, `i, `endCut, `result, `ready
      ensures Stepped(old(M.Fold(Model(), text[j0..])), text, j, thrown, done)
      ensures thrown.None? ==> i - j == old(i) - j0 && j0 <= j && (done || j == |text|)
    {
      hide M.Consume, M.Fold, Model, Stepped, Own;
      ScalarModel();
      ghost var fed := M.Fold(Model(), text[j0..]);
      done := false;
      var closed;
      thrown, j, closed := StringRun(text, j0);
      if thrown.Some? {
        SteppedToError(fed, text, j, thrown.value, done);
        return;
      }
      if closed {
        j, done := j + 1, true;
        CloseString();
        ScalarModel();
        SteppedToEnd(fed, text, j);
      } else {
        ScalarModel();
        SteppedOn(fed, text, j);
      }
    }

    /** The closing quote. */
    method CloseString()
      requires Own() && action == ToBuildString && !openedQuote
      modifies `i, `endCut, `result, `buffer, `ready
      ensures Own() && ready && i == endCut == old(i) + 1
      ensures M.Str(TextOf(), LastOf()) == M.ClosedStr(old(TextOf()))
    {
      i := i + 1;
      endCut := i;
      var thrown := FinishString();
    }

    /** The end of _build_string, also run by get(). */
    method FinishString() returns (thrown: Option<Error>)
      requires Own() && action == ToBuildString
      modifies `result, `buffer, `ready
      ensures Own()
      ensures thrown == (if openedQuote then Some(UnexpectedEnd) else None)
      ensures thrown.None? ==> result == JString(old(buffer)) && buffer == "" && ready
    {
      if openedQuote { return Some(UnexpectedEnd); }
      result := JString(buffer);
      buffer := "";
      ready := true;
      return None;
    }

    // ---- numbers and literals ------------------------------------------------------------------

    predicate IsNumeric()
      reads `kind
    {
      kind == TypeNumeric || kind == TypeNumber || kind == TypeDecimal
    }

    /** The body of the loop of _build_numeric: `closed` when the byte ends the number, `word` when no number
        has begun and the byte is neither a sign nor a digit. */
    method NumericStep(c: char) returns (thrown: Option<Error>, closed: bool, word: bool)
      requires IsNumeric()
      modifies `kind, `buffer, `operateAlready
      ensures IsNumeric() && (kind == TypeNumeric ==> old(kind) == TypeNumeric)
      ensures word <==> M.NumberByte(old(DigitsOf()), c).None?
      ensures word ==> thrown.None? && !closed && buffer == ""
      ensures thrown.Some? ==> M.NumberByte(old(DigitsOf()), c) == Some(M.Bad(thrown.value))
      ensures thrown.None? && !word ==>
        M.NumberByte(old(DigitsOf()), c) == Some(if closed then M.Ends(DigitsOf()) else M.Goes(DigitsOf()))
    {
      thrown, closed, word := None, false, false;
      if buffer == "" {
        operateAlready := true;
        if c == '-' || c == '+' {
          buffer := [c];
          return;
        }
        if !IsDigit(c) { return None, false, true; }
      }
      if IsDigit(c) {
        if kind == TypeNumeric { kind := TypeNumber; }
        if buffer == "0" { return Some(InvalidChar), false, false; }
        buffer := buffer + [c];
      } else {
        if buffer == "-" { return Some(InvalidChar), false, false; }
        if IsSpace(c) { return None, true, false; }
        if c == '-' || c == '+' {
          if operateAlready { return Some(InvalidChar), false, false; }
          operateAlready := true;
          buffer := buffer + [c];
        } else if c == 'e' || c == 'E' {
          if expAlready { return Some(InvalidChar), false, false; }
          if kind != TypeDecimal { kind := TypeDecimal; }
          buffer := buffer + [c];
          operateAlready := false;
        } else if c == '.' {
          if kind == TypeDecimal { return Some(InvalidChar), false, false; }
          kind := TypeDecimal;
          buffer := buffer + [c];
        } else if c == '}' || c == ']' || c == ',' {
          return None, true, false;
        } else {
          return Some(InvalidChar), false, false;
        }
      }
    }

    /** The loop of _build_numeric. */
    method NumericRun(text: string, j0: nat) returns (thrown: Option<Error>, j: nat, closed: bool, word: bool)
      requires Own() && action == ToBuildNumeric && Aligned(text, j0)
      modifies `kind, `buffer, `operateAlready, `i
      ensures Own()
      ensures thrown.Some? ==> old(M.Fold(M.Num(DigitsOf(), LastOf()), text[j0..])) == M.Failed(thrown.value)
      ensures thrown.None? ==> j0 <= j && Aligned(text, j) && i - j == old(i) - j0
      ensures thrown.None? ==> if closed || word then j < |text| && !(closed && word) else j == |text|
      ensures thrown.None? && closed ==>
        old(M.Fold(M.Num(DigitsOf(), LastOf()), text[j0..])) == M.Finished(M.ClosedNum(DigitsOf(), LastOf()), text[j..])
      ensures thrown.None? && !closed ==>
        old(M.Fold(M.Num(DigitsOf(), LastOf()), text[j0..]))
          == M.Fold(if word then M.Lit(buffer, LastOf()) else M.Num(DigitsOf(), LastOf()), text[j..])
    {
      hide M.Consume, M.Fold, M.NumberByte, M.ReadInt;
      ghost var fed := M.Fold(M.Num(DigitsOf(), LastOf()), text[j0..]);
      thrown, j, closed, word := None, j0, false, false;
      while j < |text| && !closed && !word
        invariant IsNumeric() && (kind == TypeNumeric ==> old(kind) == TypeNumeric)
        invariant thrown.None? && j0 <= j && Aligned(text, j) && i - j == old(i) - j0
        invariant (closed || word ==> j < |text|) && !(closed && word)
        invariant fed == if closed then M.Finished(M.ClosedNum(DigitsOf(), LastOf()), text[j..])
                         else M.Fold(if word then M.Lit(buffer, LastOf()) else M.Num(DigitsOf(), LastOf()), text[j..])
        decreases |text| - j, if closed || word then 0 else 1
      {
        L.NumberAt(DigitsOf(), LastOf(), text, j);
        thrown, closed, word := NumericStep(text[j]);
        if thrown.Some? { return; }
        if !closed && !word {
          i, j := i + 1, j + 1;
        }
      }
    }

    /** A word is left to _build_numeric_string. */
    method BeginWord()
      requires Own() && action == ToBuildNumeric
      modifies `action
      ensures Own() && action == ToBuildNumericString
    {
      action := ToBuildNumericString;
    }

    method BuildNumeric(text: string, j0: nat) returns (thrown: Option<Error>, j: nat, ghost done: bool)
      requires Valid() && action == ToBuildNumeric && Aligned(text, j0)
      modifies `kind, `buffer, `operateAlready, `action, `i, `endCut, `result, `ready
      ensures Stepped(old(M.Fold(Model(), text[j0..])), text, j, thrown, done)
      ensures thrown.None? ==>
        i - j == old(i) - j0 && j0 <= j && (done || j == |text| || action == ToBuildNumericString)
    {
      hide M.Consume, M.Fold, M.NumericValue, Model, Stepped, Own;
      ScalarModel();
      ghost var fed := M.Fold(Model(), text[j0..]);
      done := false;
      var closed, word;
      thrown, j, closed, word := NumericRun(text, j0);
      if thrown.Some? {
        SteppedToError(fed, text, j, thrown.value, done);
        return;
      }
      if closed {
        endCut := i;
        FinishNumeric();
        done := true;
        ScalarModel();
        SteppedToEnd(fed, text, j);
      } else {
        if word { BeginWord(); }
        ScalarModel();
        SteppedOn(fed, text, j);
      }
    }

    /** The end of _build_numeric, also run by get(). */
    method FinishNumeric()
      requires Own() && action == ToBuildNumeric
      modifies `result, `buffer, `ready
      ensures Own()
      ensures result == M.NumericValue(old(DigitsOf()), old(LastOf())) && buffer == "" && ready
    {
      if kind == TypeDecimal {
        result := JDecimal(buffer);
      } else if kind == TypeNumber {
        result := JNumber(M.ReadInt(buffer));
      }
      buffer := "";
      ready := true;
    }

    /** The loop of _build_numeric_string. */
    method WordRun(text: string, j0: nat) returns (j: nat)
      requires Own() && action == ToBuildNumericString && Aligned(text, j0)
      modifies `buffer, `i
      ensures Own() && Aligned(text, j) && i - j == old(i) - j0 && j0 <= j && (j < |text| ==> M.IsTerminator(text[j]))
      ensures old(M.Fold(M.Lit(buffer, LastOf()), text[j0..])) == M.Fold(M.Lit(buffer, LastOf()), text[j..])
    {
      hide M.Consume, M.Fold;
      ghost var fed := M.Fold(M.Lit(buffer, LastOf()), text[j0..]);
      j := j0;
      while j < |text| && !M.IsTerminator(text[j])
        invariant j0 <= j && Aligned(text, j) && i - j == old(i) - j0
        invariant M.Fold(M.Lit(buffer, LastOf()), text[j..]) == fed
      {
        L.WordAt(buffer, LastOf(), text, j);
        buffer := buffer + [text[j]];
        i, j := i + 1, j + 1;
      }
    }

    method BuildNumericString(text: string, j0: nat) returns (thrown: Option<Error>, j: nat, ghost done: bool)
      requires Valid() && action == ToBuildNumericString && Aligned(text, j0)
      modifies `buffer, `i, `endCut, `kind, `result, `ready
      ensures Stepped(old(M.Fold(Model(), text[j0..])), text, j, thrown, done)
      ensures thrown.None? ==> i - j == old(i) - j0 && j0 <= j && (done || j == |text|)
    {
      hide M.Consume, M.Fold, M.WordValue, Model, Stepped, Own;
      ScalarModel();
      ghost var fed := M.Fold(Model(), text[j0..]);
      thrown, done := None, false;
      j := WordRun(text, j0);
      if j == |text| {
        ScalarModel();
        SteppedOn(fed, text, j);
        return;
      }
      L.WordAt(buffer, LastOf(), text, j);
      endCut := i;
      thrown := FinishNumericString();
      if thrown.Some? {
        SteppedToError(fed, text, j, thrown.value, done);
      } else {
        done := true;
        ScalarModel();
        SteppedToEnd(fed, text, j);
      }
    }

    /** The end of _build_numeric_string, also run by get(). The buffer keeps the word. */
    method FinishNumericString() returns (thrown: Option<Error>)
      requires Own() && action == ToBuildNumericString
      modifies `kind, `result, `ready
      ensures Own()
      ensures thrown == if M.WordValue(buffer).Some? then None else Some(InvalidString)
      ensures ready && (thrown.None? ==> result == M.WordValue(buffer).value)
    {
      thrown, ready := None, true;
      if buffer == "true" {
        kind, result := TypeBoolean, JBool(true);
      } else if buffer == "false" {
        kind, result := TypeBoolean, JBool(false);
      } else if buffer == "null" {
        kind, result := TypeNull, JNull;
      } else {
        thrown := Some(InvalidString);
      }
    }

    // ---- the start of a value ------------------------------------------------------------------

    /** Skips spaces and chooses the action; the byte it stops at is left to that action. */
    method CheckType(text: string, j0: nat) returns (thrown: Option<Error>, j: nat, ghost done: bool)
      requires Valid() && action == ToCheckType && Aligned(text, j0)
      modifies `i, `kind, `result, `action
      ensures !done && thrown.None? && Stepped(old(M.Fold(Model(), text[j0..])), text, j, thrown, done)
      ensures i - j == old(i) - j0 && j0 <= j
      ensures j == |text| || action != ToCheckType
    {
      hide M.Consume, M.Fold, Model, Stepped, Own, L.Begin;
      ScalarModel();
      ghost var fed := M.Fold(Model(), text[j0..]);
      thrown, j, done := None, j0, false;
      while j < |text| && IsSpace(text[j])
        invariant j0 <= j && Aligned(text, j) && i - j == old(i) - j0
        invariant M.Fold(M.Blank, text[j..]) == fed
        modifies `i
      {
        L.BlankAt(text, j);
        i, j := i + 1, j + 1;
      }
      if j == |text| {
        ScalarModel();
      } else {
        L.BlankAt(text, j);
        Choose(text[j]);
      }
      SteppedOn(fed, text, j);
    }

    method Choose(c: char)
      requires Valid() && action == ToCheckType && !IsSpace(c)
      modifies `kind, `result, `action
      ensures Valid() && action != ToCheckType && Model() == L.Begin(c)
    {
      match c
      case '{' => kind, result, action := TypeObject, JObject([]), ToBuildObject;
      case '[' => kind, result, action := TypeArray, JArray([]), ToBuildArray;
      case '"' => kind, action := TypeString, ToBuildString;
      case _ => kind, action := TypeNumeric, ToBuildNumeric;
    }

    // ---- containers ----------------------------------------------------------------------------

    /** Builders nested inside this one. */
    ghost function Height(): nat
      requires Valid()
      reads this, Repr
      decreases Repr
    {
      if item == null then 0 else 1 + item.Height()
    }

    ghost function ObjectOf(): M.Builder
      requires result.JObject?
      reads `result, `openedQuote, `goToDelimiter, `ready, `isKey, `key
    {
      M.Obj(M.Frame(openedQuote, goToDelimiter, None), ready, result.entries, isKey, key)
    }

    ghost function ArrayOf(): M.Builder
      requires result.JArray?
      reads `result, `openedQuote, `goToDelimiter, `ready
    {
      M.Arr(M.Frame(openedQuote, goToDelimiter, None), ready, result.items)
    }

    /** This container without the element under construction. */
    ghost function ContainerOf(): M.Builder
      requires IsContainer() && Own()
      reads `action, `kind, `result, `buffer, `openedQuote, `wideLeft, `escaped, `utfStatus, `utfEscaped,
            `isKey, `key, `goToDelimiter, `ready, `expAlready, `operateAlready
    {
      if action == ToBuildObject then ObjectOf() else ArrayOf()
    }

    /** A byte of an object with no element under construction: `child` when the byte starts an element. */
    method ObjectStep(c: char) returns (thrown: Option<Error>, closed: bool, child: bool)
      requires result.JObject?
      modifies `openedQuote, `goToDelimiter, `isKey
      ensures child == !L.IsOwn(old(ObjectOf()), c)
      ensures child ==> thrown.None? && !closed && ObjectOf() == old(ObjectOf())
      ensures thrown.Some? ==> M.ContainerByte(old(ObjectOf()), c) == M.Fail(thrown.value)
      ensures thrown.None? && closed ==>
        M.ContainerByte(old(ObjectOf()), c) == M.CloseContainer(ObjectOf()) && !openedQuote
      ensures thrown.None? && !closed && !child ==> M.ContainerByte(old(ObjectOf()), c) == M.More(ObjectOf())
    {
      thrown, closed, child := None, false, false;
      if IsSpace(c) { return; }
      if goToDelimiter {
        if (isKey && c == ':') || (!isKey && c == ',') {
          isKey := !isKey;
          goToDelimiter := false;
          return;
        }
        if c == '}' {
          openedQuote := false;
          return None, true, false;
        }
        return Some(InvalidChar), false, false;
      }
      if openedQuote {
        if c == '}' {
          openedQuote := false;
          return None, true, false;
        }
        return None, false, true;
      }
      if c == '{' {
        openedQuote := true;
        return;
      }
      return Some(InvalidChar), false, false;
    }

    /** The end of _build_object, also run by get(). */
    method FinishObject() returns (thrown: Option<Error>)
      requires result.JObject?
      modifies `isKey, `key, `ready
      ensures thrown == if openedQuote || (old(isKey) && |result.entries| > 0) then Some(UnexpectedEnd) else None
      ensures thrown.None? ==> isKey && key == "" && ready
    {
      if openedQuote || (isKey && |result.entries| > 0) { return Some(UnexpectedEnd); }
      isKey, key := true, "";
      ready := true;
      return None;
    }

    /** A byte of an array with no element under construction. */
    method ArrayStep(c: char) returns (thrown: Option<Error>, closed: bool, child: bool)
      requires result.JArray?
      modifies `openedQuote, `goToDelimiter
      ensures child == !L.IsOwn(old(ArrayOf()), c)
      ensures child ==> thrown.None? && !closed && ArrayOf() == old(ArrayOf())
      ensures thrown.Some? ==> M.ContainerByte(old(ArrayOf()), c) == M.Fail(thrown.value)
      ensures thrown.None? && closed ==>
        M.ContainerByte(old(ArrayOf()), c) == M.CloseContainer(ArrayOf()) && !openedQuote
      ensures thrown.None? && !closed && !child ==> M.ContainerByte(old(ArrayOf()), c) == M.More(ArrayOf())
    {
      thrown, closed, child := None, false, false;
      if IsSpace(c) { return; }
      if goToDelimiter {
        if c == ',' {
          goToDelimiter := false;
          return;
        }
        if c == ']' {
          openedQuote := false;
          return None, true, false;
        }
        return Some(InvalidChar), false, false;
      }
      if openedQuote {
        if c == ']' {
          openedQuote := false;
          return None, true, false;
        }
        return None, false, true;
      }
      if c == '[' {
        openedQuote := true;
        return;
      }
      return Some(InvalidChar), false, false;
    }

    /** The end of _build_array, also run by get(). */
    method FinishArray() returns (thrown: Option<Error>)
      modifies `ready
      ensures thrown == if openedQuote then Some(UnexpectedEnd) else None
      ensures thrown.None? ==> ready
    {
      if openedQuote { return Some(UnexpectedEnd); }
      ready := true;
      return None;
    }

    /** The switch of get(). */
    method Finish() returns (thrown: Option<Error>)
      requires Valid() && !ready
      modifies `getting, `kind, `result, `buffer, `isKey, `key, `ready
      ensures M.Get(old(Model())) == if thrown.Some? then Err(thrown.value) else Ok(result)
      ensures action == ToBuildNumericString ==> buffer == old(buffer)
    {
      hide Own, Model;
      if IsContainer() { ContainerGet(); } else { ScalarModel(); }
      getting, thrown := true, None;
      match action
      case ToCheckType => BlankFields();
      case ToBuildString => thrown := FinishString();
      case ToBuildNumeric => FinishNumeric();
      case ToBuildNumericString => thrown := FinishNumericString();
      case ToBuildObject => thrown := FinishObject();
      case ToBuildArray => thrown := FinishArray();
    }

    lemma ContainerGet()
      requires Valid() && IsContainer() && !ready
      ensures action == ToBuildObject ==> result.JObject?
      ensures action == ToBuildObject ==>
        M.Get(Model()) == if openedQuote || (isKey && |result.entries| > 0) then Err(UnexpectedEnd) else Ok(result)
      ensures action == ToBuildArray ==> M.Get(Model()) == if openedQuote then Err(UnexpectedEnd) else Ok(result)
    {
    }

    lemma BlankFields()
      requires Own() && action == ToCheckType
      ensures result == JNull
    {
    }

    lemma ClosedFields()
      requires Valid() && C.Closed(Model()) && action != ToBuildNumericString
      ensures ready && buffer == "" && isKey && |utfEscaped| == 4
    {
    }

    lemma BlankModel()
      requires this in Repr && item == null && action == ToCheckType && IsBlank() && |utfEscaped| == 4 && isKey
      requires key == ""
      ensures Valid() && Model() == M.Blank
    {
    }

    /** get(): an unfinished number or literal ends here. The object is blank again afterwards, except that the word
        of a literal stays in the buffer. */
    method Get() returns (thrown: Option<Error>, value: Json)
      requires Valid()
      modifies this
      ensures M.Get(old(Model())) == if thrown.Some? then Err(thrown.value) else Ok(value)
      ensures thrown.None? && C.Closed(old(Model())) && old(action) != ToBuildNumericString ==>
        Valid() && Model() == M.Blank
      ensures Repr == old(Repr)
      ensures old(action) == ToBuildNumericString ==> buffer == old(buffer)
    {
      hide Own, Model, C.Closed, M.Value, M.Ready;
      ghost var blank := C.Closed(Model()) && action != ToBuildNumericString;
      if blank { ClosedFields(); }
      thrown, value := None, JNull;
      if ready {
        getting := true;
      } else {
        thrown := Finish();
        if thrown.Some? { return; }
      }
      value := result;
      Reset();
      result := JNull;
      if blank { BlankModel(); }
    }

    /** _reset(): neither the buffer nor `isKey` is touched. */
    method Reset()
      modifies `endCut, `kind, `i, `item, `wideLeft, `utfStatus, `key, `action, `openedQuote, `escaped,
               `goToDelimiter, `getting, `ready, `expAlready, `operateAlready
      ensures (action, item, i, endCut, wideLeft, utfStatus, key) == (ToCheckType, null, 0, 0, 0, -1, "")
      ensures !(openedQuote || escaped || goToDelimiter || ready || expAlready || operateAlready)
    {
      ResetFlags();
      endCut := 0;
      kind := TypeNull;
      i := 0;
      item := null;
      wideLeft := 0;
      utfStatus := -1;
      key := "";
      action := ToCheckType;
    }

    method ResetFlags()
      modifies `openedQuote, `escaped, `goToDelimiter, `getting, `ready, `expAlready, `operateAlready
      ensures !(openedQuote || escaped || goToDelimiter || ready || expAlready || operateAlready)
    {
      openedQuote := false;
      escaped := false;
      goToDelimiter := false;
      getting := false;
      ready := false;
      expAlready := false;
      operateAlready := false;
    }

    /** One byte of a container with no element under construction: the loop bodies of _build_object and
        _build_array. */
    method ContainerStep(c: char) returns (thrown: Option<Error>, closed: bool, child: bool)
      requires Own() && IsContainer()
      modifies `openedQuote, `goToDelimiter, `isKey
      ensures Own() && child == !L.IsOwn(old(ContainerOf()), c)
      ensures child ==> thrown.None? && !closed && ContainerOf() == old(ContainerOf())
      ensures thrown.Some? ==> M.ContainerByte(old(ContainerOf()), c) == M.Fail(thrown.value)
      ensures thrown.None? && closed ==>
        M.ContainerByte(old(ContainerOf()), c) == M.CloseContainer(ContainerOf()) && !openedQuote
      ensures thrown.None? && !closed && !child ==> M.ContainerByte(old(ContainerOf()), c) == M.More(ContainerOf())
    {
      hide M.ContainerByte, M.CloseContainer;
      if action == ToBuildObject {
        thrown, closed, child := ObjectStep(c);
      } else {
        thrown, closed, child := ArrayStep(c);
      }
    }

    /** The ends of _build_object and _build_array, after the closing bracket. */
    method FinishContainer() returns (thrown: Option<Error>)
      requires Own() && IsContainer() && !openedQuote
      modifies `isKey, `key, `ready
      ensures thrown.Some? ==> M.CloseContainer(old(ContainerOf())) == M.Fail(thrown.value)
      ensures thrown.None? ==> Own() && ready && M.CloseContainer(old(ContainerOf())) == M.Done(ContainerOf(), true)
    {
      if action == ToBuildObject {
        thrown := FinishObject();
      } else {
        thrown := FinishArray();
      }
    }

    /** A blank builder for the element that begins. */
    method AddItem()
      requires Valid() && IsContainer() && item == null
      modifies `item, `Repr
      ensures Valid() && fresh(Repr - old(Repr)) && Model() == M.WithItem(old(Model()), M.Blank)
      ensures item != null && item.action == ToCheckType && item.Height() == 0 && !item.openedQuote
    {
      hide Own;
      item := new Builder();
      Repr := Repr + item.Repr;
    }

    lemma ContainerModel()
      requires this in Repr && Own() && IsContainer() && item == null
      ensures Valid() && Model() == ContainerOf()
      ensures M.IsContainer(ContainerOf()) && ContainerOf().frame == M.Frame(openedQuote, goToDelimiter, None)
    {
    }

    /** A byte of a container with no element under construction is taken, unless it starts an element. */
    method OwnByte(c: char) returns (thrown: Option<Error>, done: bool, child: bool)
      requires Valid() && IsContainer() && item == null
      modifies `openedQuote, `goToDelimiter, `isKey, `key, `ready, `i, `endCut
      ensures child == !L.IsOwn(old(ContainerOf()), c)
      ensures child ==>
        thrown.None? && !done && Valid() && ContainerOf() == old(ContainerOf()) && (i, endCut) == old((i, endCut))
      ensures thrown.Some? ==> M.ContainerByte(old(ContainerOf()), c) == M.Fail(thrown.value)
      ensures thrown.None? && !child ==> Valid() && i == old(i) + 1 && endCut == if done then i else old(endCut)
      ensures thrown.None? && !child ==>
        M.ContainerByte(old(ContainerOf()), c) == if done then M.Done(ContainerOf(), true) else M.More(ContainerOf())
      ensures thrown.None? && done ==> ready
    {
      hide M.ContainerByte, M.CloseContainer, Own, ContainerOf, L.IsOwn;
      thrown, done, child := ContainerStep(c);
      if thrown.None? && done {
        thrown := FinishContainer();
      }
      if thrown.Some? { return thrown, false, false; }
      if !child {
        i := i + 1;
        if done { endCut := i; }
      }
    }

    method ContainerByte(text: string, j0: nat) returns (thrown: Option<Error>, j: nat, done: bool)
      requires Valid() && IsContainer() && item == null && Aligned(text, j0) && j0 < |text|
      modifies this
      ensures Stepped(old(M.Fold(Model(), text[j0..])), text, j, thrown, done)
      ensures thrown.None? ==> (i - j, action) == old((i - j0, action)) && fresh(Repr - old(Repr)) && j0 <= j
      ensures thrown.None? ==>
        j == j0 + 1 || (j == j0 && item != null && item.action == ToCheckType && item.Height() == 0 && !item.openedQuote
                        && old(openedQuote && !goToDelimiter))
    {
      hide M.Consume, M.Fold, M.ContainerByte, Own, ContainerOf, Stepped, Model;
      ghost var fed := M.Fold(Model(), text[j0..]);
      ContainerModel();
      L.ContainerAt(Model(), text, j0);
      var child;
      thrown, done, child := OwnByte(text[j0]);
      j := j0;
      if thrown.Some? {
        SteppedToError(fed, text, j, thrown.value, done);
        return;
      }
      ContainerModel();
      if child {
        AddItem();
        SteppedOn(fed, text, j);
        return;
      }
      j := j + 1;
      if done {
        SteppedToEnd(fed, text, j);
      } else {
        SteppedOn(fed, text, j);
      }
    }

    // ---- elements and texts --------------------------------------------------------------------

    /** A container with an element under construction, which may be finished. */
    ghost predicate HoldsItem()
      reads this, Repr
    {
      && this in Repr && Own() && IsContainer()
      && item != null && item in Repr && item.Repr <= Repr && this !in item.Repr && item.Valid()
    }

    /** The head of _build_object and _build_array: the element's builder takes what it can. */
    method RunItem(text: string, j0: nat)
        returns (thrown: Option<Error>, j: nat, ghost done: bool, ghost child: M.Builder)
      requires Valid() && item != null && Aligned(text, j0)
      modifies Repr
      decreases |text| - j0, item.Height(), if item.openedQuote then 1 else 0, 4
      ensures thrown.None? ==>
        HoldsItem() && Aligned(text, j) && fresh(Repr - old(Repr)) && child == item.Model() && j0 <= j
      ensures thrown.None? ==>
        (i - j, action, ContainerOf(), item.ready) == (old(i) - j0, old(action), old(ContainerOf()), M.Ready(child))
      ensures thrown.Some? ==> old(M.Fold(item.Model(), text[j0..])) == M.Failed(thrown.value)
      ensures thrown.None? && done ==> old(M.Fold(item.Model(), text[j0..])) == M.Finished(child, text[j..])
      ensures thrown.None? && !done ==> old(M.Fold(item.Model(), text[j0..])) == M.Running(child) && j == |text|
    {
      hide M.Consume, M.Fold, Own;
      i := i - j0;
      thrown, j, done, child := item.Parse(text, j0);
      if thrown.None? {
        Repr := Repr + item.Repr;
        i := i + j;
      }
    }

    method ParseItem(text: string, j0: nat) returns (thrown: Option<Error>, j: nat)
      requires Valid() && item != null && Aligned(text, j0) && j0 < |text|
      modifies Repr
      decreases |text| - j0, item.Height(), if item.openedQuote then 1 else 0, 5
      ensures Stepped(old(M.Fold(Model(), text[j0..])), text, j, thrown, false)
      ensures thrown.None? ==> (i - j, action) == old((i - j0, action)) && j0 <= j && fresh(Repr - old(Repr))
      ensures thrown.None? && old(item.action) == ToCheckType ==> j0 < j
      ensures thrown.None? ==> j == |text| || (item == null && goToDelimiter)
    {
      hide M.Consume, M.Fold, M.Absorb, Model, Own, ContainerOf, Stepped;
      ghost var b := Model();
      ghost var fed := M.Fold(b, text[j0..]);
      ItemModel();
      if item.action == ToCheckType { item.ScalarModel(); }
      ghost var done, child;
      thrown, j, done, child := RunItem(text, j0);
      if thrown.Some? {
        L.FoldElement(b, text[j0..]);
        SteppedToError(fed, text, j, thrown.value, false);
        return;
      }
      if done { L.ElementEnds(b, text, j0, j, child); } else { L.ElementRuns(b, text, j0, child); }
      if item.ready {
        thrown := FinishItem();
        if thrown.Some? {
          SteppedToError(fed, text, j, thrown.value, false);
          return;
        }
      } else {
        ItemModel();
      }
      SteppedOn(fed, text, j);
    }

    lemma ItemModel()
      requires HoldsItem() && !item.ready
      ensures Valid() && M.IsContainer(ContainerOf()) && ContainerOf().frame.item.None?
      ensures Model() == M.WithItem(ContainerOf(), item.Model())
    {
    }

    /** The element's value is taken from its builder and put into the container. */
    method FinishItem() returns (thrown: Option<Error>)
      requires HoldsItem() && item.ready
      modifies this, item
      ensures thrown.Some? ==> old(M.Absorb(ContainerOf(), M.Value(item.Model()))) == Err(thrown.value)
      ensures thrown.None? ==>
        Valid() && item == null && goToDelimiter && old(M.Absorb(ContainerOf(), M.Value(item.Model()))) == Ok(Model())
      ensures (Repr, action, i, endCut) == old((Repr, action, i, endCut))
    {
      hide Own, Model, ContainerOf, M.Absorb;
      var it;
      thrown, it := item.Get();
      assert it == old(M.Value(item.Model()));
      item := null;
      thrown := Take(it);
      if thrown.None? { ContainerModel(); }
    }

    /** Puts a finished element into the container. */
    method Take(it: Json) returns (thrown: Option<Error>)
      requires Own() && IsContainer()
      modifies `goToDelimiter, `result, `key
      ensures goToDelimiter && Own()
      ensures M.Absorb(old(ContainerOf()), it) == if thrown.Some? then Err(thrown.value) else Ok(ContainerOf())
    {
      hide Insert;
      goToDelimiter, thrown := true, None;
      if action == ToBuildArray {
        result := JArray(result.items + [it]);
      } else if isKey {
        if !it.JString? { return Some(UnsupportedType); }
        key := it.s;
      } else {
        if HasKey(result.entries, key) { return Some(DuplicateKey); }
        result := JObject(Insert(result.entries, key, it));
      }
    }

    /** What may still change without a byte being taken: an element that has begun may end here, a container
        may start an element, and a blank element takes a byte. */
    ghost function Rank(): nat
      reads this, if item == null then {} else {item}
    {
      if item == null then (if goToDelimiter then 2 else 1) else if item.action == ToCheckType then 0 else 3
    }

    /** _build_object and _build_array. */
    method BuildContainer(text: string, j0: nat) returns (thrown: Option<Error>, j: nat, done: bool)
      requires Valid() && IsContainer() && Aligned(text, j0)
      modifies Repr
      decreases |text| - j0, Height(), if openedQuote then 1 else 0, 1
      ensures Stepped(old(M.Fold(Model(), text[j0..])), text, j, thrown, done)
      ensures thrown.None? ==> i - j == old(i) - j0 && fresh(Repr - old(Repr)) && j0 <= j && (done || j == |text|)
    {
      hide M.Consume, M.Fold, Own;
      ghost var fed := M.Fold(Model(), text[j0..]);
      thrown, j, done := None, j0, false;
      while j < |text| && !done
        invariant thrown.None? && fresh(Repr - old(Repr)) && j0 <= j && i - j == old(i) - j0
        invariant Stepped(fed, text, j, thrown, done) && IsContainer()
        invariant j == j0 && item != null ==>
          || item.Height() < old(Height())
          || (item.Height() == 0 && !item.openedQuote && old(Height() == 0 && openedQuote))
        invariant j == j0 && item == null ==> goToDelimiter || (old(Height()) == 0 && openedQuote == old(openedQuote))
        decreases |text| - j, Rank()
      {
        if item != null {
          thrown, j := ParseItem(text, j);
        } else {
          thrown, j, done := ContainerByte(text, j);
        }
        if thrown.Some? { return; }
      }
    }

    /** The current action. */
    method Act(text: string, j0: nat) returns (thrown: Option<Error>, j: nat, ghost done: bool)
      requires Valid() && Aligned(text, j0)
      modifies Repr
      decreases |text| - j0, Height(), if openedQuote then 1 else 0, 2
      ensures Stepped(old(M.Fold(Model(), text[j0..])), text, j, thrown, done)
      ensures thrown.None? ==> i - j == old(i) - j0 && fresh(Repr - old(Repr)) && j0 <= j
      ensures thrown.None? && !done && j < |text| ==>
        ActionRank() < old(ActionRank()) && (Height(), openedQuote) == old((Height(), openedQuote))
    {
      hide M.Consume, M.Fold, Model, Own;
      match action
      case ToCheckType => thrown, j, done := CheckType(text, j0);
      case ToBuildString => thrown, j, done := BuildString(text, j0);
      case ToBuildNumeric => thrown, j, done := BuildNumeric(text, j0);
      case ToBuildNumericString => thrown, j, done := BuildNumericString(text, j0);
      case _ => thrown, j, done := BuildContainer(text, j0);
    }

    /** _parse(): actions run until the text is used up or the value is closed. */
    method Parse(text: string, j0: nat) returns (thrown: Option<Error>, j: nat, ghost done: bool, ghost b: M.Builder)
      requires Valid() && j0 <= |text|
      modifies Repr
      decreases |text| - j0, Height(), if openedQuote then 1 else 0, 3
      ensures thrown.Some? ==> old(M.Fold(Model(), text[j0..])) == M.Failed(thrown.value)
      ensures thrown.None? ==>
        Valid() && fresh(Repr - old(Repr)) && j0 <= j <= |text| && i == old(i) + j && b == Model()
      ensures thrown.None? && done ==> old(M.Fold(Model(), text[j0..])) == M.Finished(b, text[j..])
      ensures thrown.None? && !done ==> old(M.Fold(Model(), text[j0..])) == M.Running(b) && j == |text|
    {
      hide M.Consume, M.Fold, Own;
      b := Model();
      ghost var fed := M.Fold(b, text[j0..]);
      endCut := |text| + i;
      i := i + j0;
      thrown, j, done := None, j0, false;
      while i < endCut
        invariant thrown.None? && fresh(Repr - old(Repr)) && j0 <= j && i - j == old(i)
        invariant Stepped(fed, text, j, thrown, done)
        invariant j == j0 && !done ==> (Height(), openedQuote) == old((Height(), openedQuote))
        decreases if done then 0 else 1, |text| - j, ActionRank()
      {
        thrown, j, done := Act(text, j);
        if thrown.Some? { return; }
      }
      b := Model();
      if !done { L.FoldEnd(b, text); }
    }

    /** An action may hand over to a later one without taking a byte. */
    ghost function ActionRank(): nat
      reads `action
    {
      if action == ToCheckType then 2 else if action == ToBuildNumeric then 1 else 0
    }

    /** operator<< : after the value only spaces may follow in the same chunk. Nothing is asked of the caller; after
        an error nothing is promised about the object. */
    method Feed(text: string) returns (thrown: Option<Error>)
      requires Valid()
      modifies Repr
      ensures thrown.Some? ==> M.Feed(old(Model()), text) == Err(thrown.value)
      ensures thrown.None? ==> Valid() && fresh(Repr - old(Repr)) && i == old(i) + |text|
      ensures thrown.None? ==> M.Feed(old(Model()), text) == Ok(Model())
    {
      hide M.Consume, M.Fold, Own;
      if getting { getting := false; }
      assert text[0..] == text;
      var j;
      ghost var done, b;
      thrown, j, done, b := Parse(text, 0);
      if thrown.Some? { return; }
      thrown := CheckEnd(text, j);
    }

    /** _check_end() */
    method CheckEnd(text: string, j0: nat) returns (thrown: Option<Error>)
      requires j0 <= |text|
      modifies `i
      ensures thrown == if AllSpace(text[j0..]) then None else Some(InvalidChar)
      ensures thrown.None? ==> i == old(i) + |text| - j0
    {
      var j := j0;
      while j < |text|
        invariant j0 <= j <= |text| && i == old(i) + j - j0
        invariant forall k :: j0 <= k < j ==> IsSpace(text[k])
      {
        if !IsSpace(text[j]) {
          assert text[j0..][j - j0] == text[j];
          return Some(InvalidChar);
        }
        i, j := i + 1, j + 1;
      }
      return None;
    }
  }

  /** A new builder given the chunks of a text; json::parse is the case of one chunk. */
  method ParseChunks(chunks: seq<string>) returns (thrown: Option<Error>, value: Json)
    ensures thrown.Some? ==> M.ParseAll(chunks) == Err(thrown.value)
    ensures thrown.None? ==> M.ParseAll(chunks) == Ok(value)
  {
    hide M.Feed, M.Get;
    thrown, value := None, JNull;
    var builder := new Builder();
    for n := 0 to |chunks|
      invariant fresh(builder.Repr) && builder.Valid()
      invariant M.FeedAll(M.Blank, chunks) == M.FeedAll(builder.Model(), chunks[n..])
    {
      thrown := builder.Feed(chunks[n]);
      if thrown.Some? { return; }
    }
    thrown, value := builder.Get();
  }
}
