/** The streaming JSON builder without a mask, as a machine that takes one byte at a time.
    A suspended builder is a value here; the class JsonBuilder.Builder refines this machine. */
module JsonBuilderModel {
  import opened Wrappers
  import opened JsonValue

  /** Inside a string. `hex` is None outside a \u escape, otherwise the digit values read so far;
      `wide` is how many continuation bytes are still due. */
  datatype Text = Text(isOpen: bool, wide: nat, escaped: bool, hex: Option<seq<nat>>, buffer: string)

  datatype Kind = Numeric | Number | Decimal

  datatype Digits = Digits(kind: Kind, operate: bool, exp: bool, buffer: string)

  /** Inside an array or an object: has its bracket come, is a delimiter due, which element is being built. */
  datatype Frame = Frame(isOpen: bool, delimiter: bool, item: Option<Builder>)

  /** `last` is the value once the builder is ready; a container keeps it in `items` or `entries`. */
  datatype Builder =
    | Blank
    | Str(text: Text, last: Option<Json>)
    | Num(digits: Digits, last: Option<Json>)
    | Lit(word: string, last: Option<Json>)
    | Arr(frame: Frame, ready: bool, items: seq<Json>)
    | Obj(frame: Frame, ready: bool, entries: seq<Entry>, isKey: bool, key: string)

  /** One byte: an error, the byte taken with the value still open, or the value closed.
      A number or a literal is closed by the byte after it, which it leaves unused. */
  datatype Outcome = Fail(error: Error) | More(b: Builder) | Done(b: Builder, used: bool)

  /** A text: an error, all of it taken, or the value closed with `rest` left over. */
  datatype Fed = Failed(error: Error) | Running(b: Builder) | Finished(b: Builder, rest: string)

  /** One byte of a part of a value: an error, the part goes on, or the part ends. */
  datatype Part<+T> = Bad(error: Error) | Goes(part: T) | Ends(part: T)

  predicate Ready(b: Builder) {
    match b
    case Blank => false
    case Str(_, v) => v.Some?
    case Num(_, v) => v.Some?
    case Lit(_, v) => v.Some?
    case Arr(_, ready, _) => ready
    case Obj(_, ready, _, _, _) => ready
  }

  /** The value built so far; null before there is one. */
  function Value(b: Builder): Json {
    match b
    case Blank => JNull
    case Str(_, v) => v.GetOr(JNull)
    case Num(_, v) => v.GetOr(JNull)
    case Lit(_, v) => v.GetOr(JNull)
    case Arr(_, _, items) => JArray(items)
    case Obj(_, _, entries, _, _) => JObject(entries)
  }

  // ---- bytes of a string -------------------------------------------------------------------

  /** Leading one bits of a byte, with 1 for ASCII; 10xxxxxx also counts 1. */
  function CountOfOctet(c: char): nat {
    var n := c as int;
    if n < 192 then 1 else if n < 224 then 2 else if n < 240 then 3 else if n < 248 then 4
    else if n < 252 then 5 else if n < 254 then 6 else if n < 255 then 7 else 8
  }

  /** Continuation bytes still expected after c, None if c is out of place. */
  function NextWide(left: nat, c: char): Option<nat> {
    if left == 0 && c as int <= 127 then Some(0)
    else if left == 0 then (if CountOfOctet(c) == 1 then None else Some(CountOfOctet(c) - 1))
    else if CountOfOctet(c) != 1 then None else Some(left - 1)
  }

  function ToLower(c: char): char {
    if 'A' <= c <= 'Z' then (c as int + 32) as char else c
  }

  /** hex2dec on the characters the builder lets through: 0-9 and all of a-z. */
  function HexValue(c: char): nat
    requires IsDigit(c) || 'a' <= c <= 'z'
  {
    if IsDigit(c) then c as int - '0' as int else c as int - 'a' as int + 10
  }

  /** Bitwise or. */
  function Or(a: nat, b: nat): nat {
    if a == 0 then b else if b == 0 then a
    else 2 * Or(a / 2, b / 2) + (if a % 2 == 1 || b % 2 == 1 then 1 else 0)
  }

  /** The bytes pushed when the fourth digit of a \u escape has come in. */
  function EscapeBytes(u: seq<nat>): string
    requires |u| == 4
  {
    var middle := Or(4 * u[1], u[2] / 4);
    var last := Byte(Or(Or(128, u[2] * 64 % 256 / 4), u[3]));
    if u[0] == 0 && u[1] <= 7 then
      if u[1] == 0 && u[2] <= 7 then [Byte(Or(16 * u[2], u[3]))]
      else [Byte(Or(192, middle)), last]
    else [Byte(Or(224, u[0])), Byte(Or(128, middle)), last]
  }

  function Unescape(c: char): Option<char> {
    match c
    case 't' => Some('\t') case 'n' => Some('\n') case 'r' => Some('\r')
    case 'f' => Some('\U{0C}') case 'b' => Some('\U{08}')
    case '\\' => Some('\\') case '/' => Some('/') case '"' => Some('"')
    case _ => None
  }

  predicate IsControl(c: char) {
    c == '\t' || c == '\n' || c == '\r' || c == '\U{0C}' || c == '\U{08}'
  }

  function Put(t: Text, c: char): Part<Text> {
    if t.isOpen then Goes(t.(buffer := t.buffer + [c]))
    else if IsSpace(c) then Goes(t) else Bad(InvalidChar)
  }

  function ClosedStr(t: Text): Builder {
    Str(t.(buffer := ""), Some(JString(t.buffer)))
  }

  /** One digit of a \u escape. */
  function HexByte(t: Text, c: char): Part<Text>
    requires t.hex.Some?
  {
    var l := ToLower(c);
    if !(IsDigit(l) || 'a' <= l <= 'z') then Bad(BadEscapedChar)
    else
      var u := t.hex.value + [HexValue(l)];
      if |u| == 4 then Goes(t.(hex := None, buffer := t.buffer + EscapeBytes(u)))
      else Goes(t.(hex := Some(u)))
  }

  function EscapedByte(t: Text, c: char): Part<Text> {
    if c == 'u' then Goes(t.(escaped := false, hex := Some([])))
    else
      var d := Unescape(c);
      if d.None? then Bad(BadEscapedChar) else Put(t.(escaped := false), d.value)
  }

  function PlainByte(t: Text, c: char): Part<Text> {
    if IsControl(c) then Bad(InvalidChar)
    else if c == '\\' then Goes(t.(escaped := true))
    else if c == '"' then (if t.isOpen then Ends(t.(isOpen := false)) else Goes(t.(isOpen := true)))
    else Put(t, c)
  }

  function StringByte(t: Text, c: char): Part<Text> {
    var left := NextWide(t.wide, c);
    if left.None? then Bad(InvalidChar)
    else
      var t := t.(wide := left.value);
      if t.escaped then EscapedByte(t, c)
      else if t.hex.Some? then HexByte(t, c)
      else PlainByte(t, c)
  }

  // ---- bytes of a number or a literal ------------------------------------------------------

  predicate IsTerminator(c: char) {
    IsSpace(c) || c == '}' || c == ']' || c == ','
  }

  /** Digits up to the first other character, after `acc`. */
  function ReadDigits(s: string, acc: nat): nat {
    if s == "" || !IsDigit(s[0]) then acc
    else ReadDigits(s[1..], 10 * acc + (s[0] as int - '0' as int))
  }

  /** What a stream reads as a 64-bit integer: it saturates, and reads 0 when there is no digit. */
  function ReadInt(s: string): int {
    var n: int := if s != "" && s[0] == '-' then 0 - ReadDigits(s[1..], 0)
                  else if s != "" && s[0] == '+' then ReadDigits(s[1..], 0) else ReadDigits(s, 0);
    if n > INT64_MAX then INT64_MAX else if n < INT64_MIN then INT64_MIN else n
  }

  /** The value of a number that ends; a lone sign leaves what was there. */
  function NumericValue(d: Digits, last: Option<Json>): Json {
    match d.kind
    case Decimal => JDecimal(d.buffer)
    case Number => JNumber(ReadInt(d.buffer))
    case Numeric => last.GetOr(JNull)
  }

  function ClosedNum(d: Digits, last: Option<Json>): Builder {
    Num(d.(buffer := ""), Some(NumericValue(d, last)))
  }

  function DigitByte(d: Digits, c: char): Part<Digits> {
    if d.buffer == "0" then Bad(InvalidChar)
    else Goes(d.(kind := if d.kind == Numeric then Number else d.kind, buffer := d.buffer + [c]))
  }

  /** A byte of a number that has begun. */
  function NumericByte(d: Digits, c: char): Part<Digits> {
    if IsDigit(c) then DigitByte(d, c)
    else if d.buffer == "-" then Bad(InvalidChar)
    else if IsTerminator(c) then Ends(d)
    else if c == '-' || c == '+' then
      if d.operate then Bad(InvalidChar) else Goes(d.(operate := true, buffer := d.buffer + [c]))
    else if c == 'e' || c == 'E' then
      if d.exp then Bad(InvalidChar) else Goes(d.(kind := Decimal, operate := false, buffer := d.buffer + [c]))
    else if c == '.' && d.kind != Decimal then Goes(d.(kind := Decimal, buffer := d.buffer + [c]))
    else Bad(InvalidChar)
  }

  function WordValue(word: string): Option<Json> {
    if word == "true" then Some(JBool(true))
    else if word == "false" then Some(JBool(false))
    else if word == "null" then Some(JNull)
    else None
  }

  /** The word is not cleared when it ends. */
  function LiteralByte(word: string, last: Option<Json>, c: char): Outcome {
    if !IsTerminator(c) then More(Lit(word + [c], last))
    else if WordValue(word).None? then Fail(InvalidString)
    else Done(Lit(word, WordValue(word)), false)
  }

  /** A byte of a number; None when no number has begun and this is the first byte of a word. */
  function NumberByte(d: Digits, c: char): Option<Part<Digits>> {
    if d.buffer != "" then Some(NumericByte(d, c))
    else
      var begun := d.(operate := true);
      if c == '-' || c == '+' then Some(Goes(begun.(buffer := [c])))
      else if IsDigit(c) then Some(NumericByte(begun, c))
      else None
  }

  function NumByte(d: Digits, last: Option<Json>, c: char): Outcome {
    match NumberByte(d, c)
    case None => LiteralByte("", last, c)
    case Some(Bad(e)) => Fail(e)
    case Some(Goes(n)) => More(Num(n, last))
    case Some(Ends(n)) => Done(ClosedNum(n, last), false)
  }

  function StrByte(t: Text, last: Option<Json>, c: char): Outcome {
    match StringByte(t, c)
    case Bad(e) => Fail(e)
    case Goes(u) => More(Str(u, last))
    case Ends(u) => Done(ClosedStr(u), true)
  }

  // ---- bytes of a container ----------------------------------------------------------------

  predicate IsContainer(b: Builder) {
    b.Arr? || b.Obj?
  }

  function WithFrame(b: Builder, f: Frame): Builder
    requires IsContainer(b)
  {
    match b
    case Arr(_, ready, items) => Arr(f, ready, items)
    case Obj(_, ready, entries, isKey, key) => Obj(f, ready, entries, isKey, key)
  }

  function WithItem(b: Builder, item: Builder): Builder
    requires IsContainer(b)
  {
    WithFrame(b, b.frame.(item := Some(item)))
  }

  function CloseContainer(b: Builder): Outcome
    requires IsContainer(b)
  {
    var f := b.frame.(isOpen := false);
    if b.Arr? then Done(Arr(f, true, b.items), true)
    else if b.isKey && |b.entries| > 0 then Fail(UnexpectedEnd)
    else Done(Obj(f, true, b.entries, true, ""), true)
  }

  predicate IsClosing(b: Builder, c: char) {
    c == (if b.Arr? then ']' else '}')
  }

  /** The byte after an element. */
  function Delimiter(b: Builder, c: char): Outcome
    requires IsContainer(b)
  {
    var f := b.frame.(delimiter := false);
    if IsSpace(c) then More(b)
    else if b.Arr? && c == ',' then More(WithFrame(b, f))
    else if b.Obj? && c == (if b.isKey then ':' else ',') then More(b.(frame := f, isKey := !b.isKey))
    else if IsClosing(b, c) then CloseContainer(b)
    else Fail(InvalidChar)
  }

  /** A finished element goes into its parent. */
  function Absorb(b: Builder, v: Json): Result<Builder, Error>
    requires IsContainer(b)
  {
    var f := b.frame.(item := None, delimiter := true);
    if b.Arr? then Ok(Arr(f, b.ready, b.items + [v]))
    else if b.isKey then
      if v.JString? then Ok(Obj(f, b.ready, b.entries, true, v.s)) else Err(UnsupportedType)
    else if HasKey(b.entries, b.key) then Err(DuplicateKey)
    else Ok(Obj(f, b.ready, Insert(b.entries, b.key, v), false, b.key))
  }

  /** What the parent makes of what its child made of the byte. */
  function Wrap(b: Builder, child: Outcome, c: char): Outcome
    requires IsContainer(b)
  {
    match child
    case Fail(e) => Fail(e)
    case More(d) => More(WithItem(b, d))
    case Done(d, used) =>
      match Absorb(b, Value(d))
      case Err(e) => Fail(e)
      case Ok(p) => if used then More(p) else Delimiter(p, c)
  }

  const TEXT := Text(false, 0, false, None, "")
  const DIGITS := Digits(Numeric, false, false, "")
  const FRAME := Frame(false, false, None)

  /** The first byte of a value chooses what is built, and is also its first byte. */
  function Start(c: char): Outcome {
    if IsSpace(c) then More(Blank)
    else if c == '{' then More(Obj(FRAME.(isOpen := true), false, [], true, ""))
    else if c == '[' then More(Arr(FRAME.(isOpen := true), false, []))
    else if c == '"' then StrByte(TEXT, None, c)
    else NumByte(DIGITS, None, c)
  }

  /** A container byte with no element under construction. */
  function ContainerByte(b: Builder, c: char): Outcome
    requires IsContainer(b)
  {
    if IsSpace(c) then More(b)
    else if b.frame.delimiter then Delimiter(b, c)
    else if b.frame.isOpen then (if IsClosing(b, c) then CloseContainer(b) else Wrap(b, Start(c), c))
    else if c == (if b.Arr? then '[' else '{') then More(WithFrame(b, b.frame.(isOpen := true)))
    else Fail(InvalidChar)
  }

  /** One byte given to a builder. */
  function Consume(b: Builder, c: char): Outcome {
    match b
    case Blank => Start(c)
    case Str(t, v) => StrByte(t, v, c)
    case Num(d, v) => NumByte(d, v, c)
    case Lit(w, v) => LiteralByte(w, v, c)
    case Arr(f, _, _) => if f.item.Some? then Wrap(b, Consume(f.item.value, c), c) else ContainerByte(b, c)
    case Obj(f, _, _, _, _) => if f.item.Some? then Wrap(b, Consume(f.item.value, c), c) else ContainerByte(b, c)
  }

  // ---- texts -------------------------------------------------------------------------------

  /** A text given to a builder, up to the byte that closes its value. */
  function Fold(b: Builder, s: string): Fed
    decreases |s|
  {
    if s == "" then Running(b)
    else match Consume(b, s[0])
         case Fail(e) => Failed(e)
         case More(d) => Fold(d, s[1..])
         case Done(d, used) => Finished(d, if used then s[1..] else s)
  }

  /** operator<< : after the value only spaces may follow in the same chunk. */
  function Feed(b: Builder, s: string): Result<Builder, Error> {
    match Fold(b, s)
    case Failed(e) => Err(e)
    case Running(d) => Ok(d)
    case Finished(d, rest) => if AllSpace(rest) then Ok(d) else Err(InvalidChar)
  }

  /** operator<< on each chunk in turn. */
  function FeedAll(b: Builder, chunks: seq<string>): Result<Builder, Error>
    decreases |chunks|
  {
    if chunks == [] then Ok(b)
    else match Feed(b, chunks[0])
         case Err(e) => Err(e)
         case Ok(d) => FeedAll(d, chunks[1..])
  }

  /** The value get() hands out: an unfinished number or literal ends here, any other unfinished value is an error. */
  function Get(b: Builder): Result<Json, Error> {
    if Ready(b) || b.Blank? then Ok(Value(b))
    else match b
         case Str(t, _) => if t.isOpen then Err(UnexpectedEnd) else Ok(JString(t.buffer))
         case Num(d, v) => Ok(NumericValue(d, v))
         case Lit(w, _) => if WordValue(w).Some? then Ok(WordValue(w).value) else Err(InvalidString)
         case Arr(f, _, _) => if f.isOpen then Err(UnexpectedEnd) else Ok(Value(b))
         case Obj(f, _, entries, isKey, _) =>
           if f.isOpen || (isKey && |entries| > 0) then Err(UnexpectedEnd) else Ok(Value(b))
  }

  /** A blank builder given the chunks, then get(). */
  function ParseAll(chunks: seq<string>): Result<Json, Error> {
    match FeedAll(Blank, chunks)
    case Err(e) => Err(e)
    case Ok(b) => Get(b)
  }
}
