/** JSON masks: the compiler of a mask to a tree of rows, and the validator of a finished value. */
module JsonMask {
  import opened Wrappers
  import opened JsonValue
  import M = JsonBuilderModel

  /** Compiling throws, or meets a part of the mask language that is not modelled: `none`, brackets after bool,
      decimal and bigint, and a decimal in brackets. */
  datatype Why = Throws | NotModelled

  // ---- the tree --------------------------------------------------------------------------------

  datatype Kind = TString | TNumber | TDecimal | TBigint | TBool | TNull | TNumeric | TAny | TArray

  /** An object of the tree that says a type: its value, its bounds and, for an array made by [..], the
      rows of its items. A field that is not inserted is None. */
  datatype Row = Row(kind: Kind, value: Option<Json>, minMean: Option<int>, maxMean: Option<int>, items: Option<Rows>)

  datatype Rows = One(row: Row) | Many(rows: seq<Row>)

  datatype Tree = Leaf(rows: Rows) | ObjectOf(entries: seq<Branch>) | ArrayOf(trees: seq<Tree>)

  datatype Branch = Branch(key: string, tree: Tree)

  function Typed(k: Kind): Row { Row(k, None, None, None, None) }

  // ---- the text of a mask ----------------------------------------------------------------------

  datatype Compare = NoCompare | Equal | Greater | Less | EqualOrGreater | EqualOrLess

  /** The scanner between two characters. typing holds the letters of a type that is being read;
      within says that the comparison loop is running; builder is None while the nested JSON builder
      is empty. */
  datatype Scan = Scan(
    rows: Option<Rows>, typing: Option<string>, kind: Kind, bracket: bool, square: bool, quotes: bool,
    within: bool, compare: Compare, builder: Option<M.Builder>)

  predicate IsAlpha(c: char) { 'a' <= c <= 'z' || 'A' <= c <= 'Z' }

  predicate IsComparison(c: char) { c == '=' || c == '<' || c == '>' }

  function KindNamed(name: string): Option<Kind> {
    if name == "string" then Some(TString) else if name == "number" then Some(TNumber)
    else if name == "decimal" then Some(TDecimal) else if name == "bigint" then Some(TBigint)
    else if name == "bool" then Some(TBool) else if name == "null" then Some(TNull)
    else if name == "numeric" then Some(TNumeric) else if name == "any" then Some(TAny) else None
  }

  /** The row that rows are inserted into: the object itself, or the last of an array. */
  function Current(rows: Rows): Option<Row> {
    match rows
    case One(r) => Some(r)
    case Many(rs) => if rs == [] then None else Some(rs[|rs| - 1])
  }

  function WithCurrent(rows: Rows, r: Row): Rows {
    match rows
    case One(_) => One(r)
    case Many(rs) => if rs == [] then rows else Many(rs[..|rs| - 1] + [r])
  }

  /** The type of an alternative: the first goes into the object, the others are appended. */
  function AddType(rows: Option<Rows>, k: Kind): Rows {
    match rows
    case None => One(Typed(k))
    case Some(One(r)) => One(r)
    case Some(Many(rs)) => Many(rs + [Typed(k)])
  }

  /** _insert_meta_row: a key that is there throws. */
  function InsertValue(rows: Rows, v: Json): Result<Rows, Why> {
    match Current(rows)
    case None => Err(Throws)
    case Some(r) => if r.value.Some? then Err(Throws) else Ok(WithCurrent(rows, r.(value := Some(v))))
  }

  function InsertMin(rows: Rows, n: int): Result<Rows, Why> {
    match Current(rows)
    case None => Err(Throws)
    case Some(r) => if r.minMean.Some? then Err(Throws) else Ok(WithCurrent(rows, r.(minMean := Some(n))))
  }

  function InsertMax(rows: Rows, n: int): Result<Rows, Why> {
    match Current(rows)
    case None => Err(Throws)
    case Some(r) => if r.maxMean.Some? then Err(Throws) else Ok(WithCurrent(rows, r.(maxMean := Some(n))))
  }

  /** One comparison character more. */
  function Comparing(compare: Compare, c: char): Option<Compare>
    requires IsComparison(c)
  {
    if c == '=' then
      match compare
      case Greater => Some(EqualOrGreater)
      case Less => Some(EqualOrLess)
      case NoCompare => Some(Equal)
      case _ => None
    else if compare != Equal && compare != NoCompare then None
    else Some(if c == '>' then Greater else Less)
  }

  /** What a number in brackets inserts. */
  function InsertBound(rows: Rows, compare: Compare, n: int): Result<Rows, Why> {
    match compare
    case NoCompare => InsertValue(rows, JNumber(n))
    case Equal => (match InsertMax(rows, n + 1) case Err(e) => Err(e) case Ok(more) => InsertMin(more, n - 1))
    case EqualOrLess => InsertMax(rows, n + 1)
    case Less => InsertMax(rows, n)
    case EqualOrGreater => InsertMin(rows, n - 1)
    case Greater => InsertMin(rows, n)
  }

  /** operator<< of one character on the nested builder. */
  function Given(builder: Option<M.Builder>, c: char): Result<M.Builder, Why> {
    match M.Feed(builder.GetOr(M.Blank), [c])
    case Err(_) => Err(Throws)
    case Ok(b) => Ok(b)
  }

  /** The number in the nested builder ends. */
  function TakeNumber(s: Scan, b: M.Builder): Result<Scan, Why> {
    if s.kind == TBool || s.kind == TDecimal || s.kind == TBigint then Err(NotModelled)
    else match M.Get(b)
    case Err(_) => Err(Throws)
    case Ok(JNumber(n)) =>
      if s.rows.None? then Err(Throws)
      else (match InsertBound(s.rows.value, s.compare, n)
            case Err(e) => Err(e)
            case Ok(rows) => Ok(s.(rows := Some(rows), builder := None, compare := NoCompare)))
    case Ok(JDecimal(_)) => Err(NotModelled)
    case Ok(_) => Err(Throws)
  }

  /** A bracket closes: [..] makes an array of what has been read. */
  function CloseBracket(s: Scan): Scan {
    if s.square then
      s.(square := false, bracket := false, kind := TArray, rows := Some(One(Typed(TArray).(items := s.rows))))
    else s.(bracket := false)
  }

  /** A character inside quotes in brackets. */
  function QuotedByte(s: Scan, c: char): Result<Scan, Why> {
    match Given(s.builder, c)
    case Err(e) => Err(e)
    case Ok(b) =>
      if c == '"' && s.kind == TString && M.Ready(b) then
        if s.rows.None? then Err(Throws)
        else (match InsertValue(s.rows.value, M.Value(b))
              case Err(e) => Err(e)
              case Ok(rows) => Ok(s.(rows := Some(rows), quotes := false, builder := None)))
      else Ok(s.(builder := Some(b)))
  }

  /** A character in brackets outside quotes. */
  function BracketByte(s: Scan, c: char): Result<Scan, Why> {
    if IsComparison(c) then
      match Comparing(s.compare, c)
      case None => Err(Throws)
      case Some(compare) => Ok(s.(compare := compare, within := true))
    else if c == '"' && s.kind == TString && !s.within then
      if s.builder.Some? then Err(Throws)
      else (match Given(None, c)
            case Err(e) => Err(e)
            case Ok(b) => Ok(s.(quotes := true, builder := Some(b))))
    else
      var t := s.(within := false);
      if (t.bracket && c == ')') || (t.square && c == ']') then
        var u := CloseBracket(t);
        if u.builder.None? then Ok(u) else TakeNumber(u, u.builder.value)
      else if c != ' ' then
        match Given(t.builder, c)
        case Err(e) => Err(e)
        case Ok(b) => Ok(t.(builder := Some(b)))
      else if t.builder.None? then Ok(t)
      else TakeNumber(t, t.builder.value)
  }

  /** A character after a type. */
  function ParamByte(s: Scan, c: char): Result<Scan, Why> {
    if s.bracket || s.square then
      if s.quotes then QuotedByte(s, c) else BracketByte(s, c)
    else if c == '(' || c == '[' then
      if s.kind == TArray then Err(Throws)
      else Ok(s.(bracket := c == '(', square := c == '[', builder := None))
    else if c == '|' then
      var rows := match s.rows case Some(One(r)) => Some(Many([r])) case other => other;
      Ok(Scan(rows, Some(""), s.kind, false, false, false, false, NoCompare, None))
    else Err(Throws)
  }

  function EndType(s: Scan): Result<Scan, Why>
    requires s.typing.Some?
  {
    match KindNamed(s.typing.value)
    case None => Err(if s.typing.value == "none" then NotModelled else Throws)
    case Some(k) => Ok(s.(typing := None, kind := k, rows := Some(AddType(s.rows, k))))
  }

  function ScanByte(s: Scan, c: char): Result<Scan, Why> {
    if s.typing.None? then ParamByte(s, c)
    else if IsAlpha(c) then Ok(s.(typing := Some(s.typing.value + [c])))
    else match EndType(s)
         case Err(e) => Err(e)
         case Ok(t) => ParamByte(t, c)
  }

  function ScanText(s: Scan, text: string): Result<Scan, Why>
    decreases |text|
  {
    if text == "" then Ok(s)
    else match ScanByte(s, text[0])
         case Err(e) => Err(e)
         case Ok(t) => ScanText(t, text[1..])
  }

  /** The end of the text. A comparison that ends there is given to the builder, which is then not
      empty, or throws. */
  function ScanEnd(s: Scan): Result<Rows, Why> {
    match if s.typing.Some? then EndType(s) else Ok(s)
    case Err(e) => Err(e)
    case Ok(t) =>
      if t.within || t.builder.Some? then Err(Throws)
      else if t.rows.None? then Err(Throws) else Ok(t.rows.value)
  }

  const BEGIN := Scan(None, Some(""), TString, false, false, false, false, NoCompare, None)

  /** The rows of a text in braces. */
  function RowsOf(inner: string): Result<Rows, Why> {
    match ScanText(BEGIN, inner)
    case Err(e) => Err(e)
    case Ok(s) => ScanEnd(s)
  }

  predicate IsBraced(s: string) { |s| > 2 && s[0] == '{' && s[|s| - 1] == '}' }

  function CompileText(s: string): Result<Tree, Why> {
    if !IsBraced(s) then Ok(Leaf(One(Typed(TString).(value := Some(JString(s))))))
    else match RowsOf(s[1..|s| - 1])
         case Err(e) => Err(e)
         case Ok(rows) => Ok(Leaf(rows))
  }

  /** A mask that is no string, object or array is left as it is, and then nothing can be validated
      against it. */
  function Compile(mask: Json): Result<Tree, Why> {
    match mask
    case JString(s) => CompileText(s)
    case JObject(entries) =>
      (match CompileEntries(entries) case Err(e) => Err(e) case Ok(branches) => Ok(ObjectOf(branches)))
    case JArray(items) =>
      (match CompileItems(items) case Err(e) => Err(e) case Ok(trees) => Ok(ArrayOf(trees)))
    case _ => Err(Throws)
  }

  function CompileItems(items: seq<Json>): Result<seq<Tree>, Why> {
    if items == [] then Ok([])
    else match Compile(items[0])
         case Err(e) => Err(e)
         case Ok(t) => (match CompileItems(items[1..]) case Err(e) => Err(e) case Ok(ts) => Ok([t] + ts))
  }

  function CompileEntries(entries: seq<Entry>): Result<seq<Branch>, Why> {
    if entries == [] then Ok([])
    else match Compile(entries[0].value)
         case Err(e) => Err(e)
         case Ok(t) =>
           (match CompileEntries(entries[1..])
            case Err(e) => Err(e)
            case Ok(bs) => Ok([Branch(entries[0].key, t)] + bs))
  }

  // ---- the validator ---------------------------------------------------------------------------

  datatype Verdict = Valid | Invalid | Thrown

  function Holds(b: bool): Verdict { if b then Valid else Invalid }

  const SIZE_T: int := 0x1_0000_0000_0000_0000

  /** A signed number where a size is compared with it. */
  function AsSize(n: int): int { if n < 0 then n + SIZE_T else n }

  /** default_compare_information by size. */
  predicate SizeAdmitted(size: nat, r: Row) {
    (r.minMean.Some? ==> size > AsSize(r.minMean.value)) && (r.maxMean.Some? ==> size < AsSize(r.maxMean.value))
  }

  /** One row. For numbers and booleans a bound is not looked at. A value of another type throws. */
  function ValidRow(v: Json, r: Row): Verdict {
    match r.kind
    case TString =>
      if !v.JString? then Invalid
      else if !SizeAdmitted(|v.s|, r) then Invalid
      else if r.value.None? then Valid
      else if r.value.value.JString? then Holds(r.value.value.s == v.s) else Thrown
    case TNull => Holds(v.JNull?)
    case TBool =>
      if !v.JBool? then Invalid
      else if r.value.None? then Valid
      else if r.value.value.JBool? then Holds(r.value.value.b == v.b) else Thrown
    case TNumber =>
      if !v.JNumber? then Invalid
      else if r.value.None? then Valid
      else if r.value.value.JNumber? then Holds(r.value.value.n == v.n) else Thrown
    case TDecimal => if !v.JDecimal? then Invalid else if r.value.None? then Valid else Thrown
    case TBigint => Invalid
    case TNumeric => Holds(v.JNumber? || v.JDecimal?)
    case TAny => Valid
    case TArray =>
      if !v.JArray? then Invalid
      else if !SizeAdmitted(|v.items|, r) then Invalid
      else if r.items.Some? && v.items != [] then Thrown
      else Valid
  }

  /** Some alternative; one that throws ends the search. */
  function ValidRows(v: Json, rows: seq<Row>): Verdict {
    if rows == [] then Invalid
    else match ValidRow(v, rows[0])
         case Valid => Valid
         case Thrown => Thrown
         case Invalid => ValidRows(v, rows[1..])
  }

  /** contains and at. */
  function Lookup(entries: seq<Entry>, key: string): Option<Json> {
    if entries == [] then None
    else if entries[0].key == key then Some(entries[0].value) else Lookup(entries[1..], key)
  }

  /** recursive_valid. */
  function ValidTree(v: Json, t: Tree): Verdict
    decreases t
  {
    match t
    case Leaf(One(r)) => ValidRow(v, r)
    case Leaf(Many(rs)) => ValidRows(v, rs)
    case ObjectOf(branches) =>
      if !v.JObject? || |v.entries| > |branches| then Invalid else ValidBranches(v.entries, branches)
    case ArrayOf(trees) =>
      if !v.JArray? || |v.items| != |trees| then Invalid else ValidItems(v.items, trees)
  }

  function ValidBranches(entries: seq<Entry>, branches: seq<Branch>): Verdict
    decreases branches
  {
    if branches == [] then Valid
    else match Lookup(entries, branches[0].key)
         case None => Invalid
         case Some(v) =>
           var first := ValidTree(v, branches[0].tree);
           if first == Valid then ValidBranches(entries, branches[1..]) else first
  }

  function ValidItems(items: seq<Json>, trees: seq<Tree>): Verdict
    requires |items| == |trees|
    decreases trees
  {
    if items == [] then Valid
    else
      var first := ValidTree(items[0], trees[0]);
      if first == Valid then ValidItems(items[1..], trees[1..]) else first
  }

  // ---- the loops -------------------------------------------------------------------------------

  /** What the compiler makes of a text from a position on. */
  function Outcome(s: Scan, text: string, i: nat): Result<Rows, Why>
    requires i <= |text|
  {
    match ScanText(s, text[i..])
    case Err(e) => Err(e)
    case Ok(t) => ScanEnd(t)
  }

  lemma OutcomeNext(s: Scan, text: string, i: nat)
    requires i < |text|
    ensures Outcome(s, text, i)
      == match ScanByte(s, text[i]) case Err(e) => Err(e) case Ok(t) => Outcome(t, text, i + 1)
  {
    assert text[i..][0] == text[i] && text[i..][1..] == text[i + 1..];
    hide ScanByte, ScanEnd;
  }

  lemma OutcomeEnd(s: Scan, text: string)
    ensures Outcome(s, text, |text|) == ScanEnd(s)
  {
    assert text[|text|..] == "";
    hide ScanEnd;
  }

  lemma OutcomeAll(text: string)
    ensures Outcome(BEGIN, text, 0) == RowsOf(text)
  {
    assert text[0..] == text;
    hide ScanText, ScanEnd;
  }

  /** Looking a type up early changes nothing. */
  lemma TypeEnds(s: Scan, text: string, i: nat)
    requires i <= |text| && s.typing.Some? && (i < |text| ==> !IsAlpha(text[i]))
    ensures Outcome(s, text, i) == match EndType(s) case Err(e) => Err(e) case Ok(t) => Outcome(t, text, i)
  {
    hide ParamByte, EndType, ScanText, ScanEnd, Outcome;
    EndTypeEnds(s);
    if i < |text| {
      OutcomeNext(s, text, i);
      if EndType(s).Ok? { OutcomeNext(EndType(s).value, text, i); }
    } else {
      OutcomeEnd(s, text);
      if EndType(s).Ok? { OutcomeEnd(EndType(s).value, text); }
      EndAtType(s);
    }
  }

  lemma EndTypeEnds(s: Scan)
    requires s.typing.Some?
    ensures EndType(s).Ok? ==> EndType(s).value.typing == None
  {
  }

  lemma EndAtType(s: Scan)
    requires s.typing.Some?
    ensures ScanEnd(s) == match EndType(s) case Err(e) => Err(e) case Ok(t) => ScanEnd(t)
  {
    EndTypeEnds(s);
  }

  /** Letters of a type. */
  method ReadType(s: Scan, text: string, i: nat) returns (t: Scan, j: nat)
    requires i <= |text| && s.typing.Some?
    ensures i <= j <= |text| && t.typing.Some? && Outcome(t, text, j) == Outcome(s, text, i)
    ensures j < |text| ==> !IsAlpha(text[j])
  {
    hide Outcome, ScanEnd, ParamByte, EndType;
    t, j := s, i;
    while j < |text| && IsAlpha(text[j])
      invariant i <= j <= |text| && t.typing.Some? && Outcome(t, text, j) == Outcome(s, text, i)
    {
      OutcomeNext(t, text, j);
      t := t.(typing := Some(t.typing.value + [text[j]]));
      j := j + 1;
    }
  }

  /** The comparison characters before a number. */
  method ReadComparison(s: Scan, text: string, i: nat) returns (r: Result<Scan, Why>, j: nat)
    requires i <= |text| && s.typing.None? && (s.bracket || s.square) && !s.quotes
    ensures i <= j <= |text| && (r.Err? ==> Outcome(s, text, i) == Err(r.error))
    ensures r.Ok? ==> Outcome(r.value, text, j) == Outcome(s, text, i) && (j < |text| ==> !IsComparison(text[j]))
    ensures r.Ok? ==> r.value.typing.None? && (r.value.bracket || r.value.square) && !r.value.quotes
  {
    hide Outcome, ScanEnd, EndType, Comparing, TakeNumber, CloseBracket, Given;
    var t := s;
    j := i;
    while j < |text| && IsComparison(text[j])
      invariant i <= j <= |text| && Outcome(t, text, j) == Outcome(s, text, i)
      invariant t.typing.None? && (t.bracket || t.square) && !t.quotes
    {
      OutcomeNext(t, text, j);
      var more := Comparing(t.compare, text[j]);
      match more {
        case None => return Err(Throws), j;
        case Some(compare) => t := t.(compare := compare, within := true);
      }
      j := j + 1;
    }
    r := Ok(t);
  }

  /** What follows a type, up to the next alternative or the end. */
  method ReadParams(s: Scan, text: string, i: nat) returns (r: Result<Scan, Why>, j: nat)
    requires i <= |text| && s.typing.None?
    ensures i <= j <= |text| && (r.Err? ==> Outcome(s, text, i) == Err(r.error))
    ensures r.Ok? ==> Outcome(r.value, text, j) == Outcome(s, text, i)
    ensures r.Ok? ==> if r.value.typing.None? then j == |text| else r.value.typing == Some("") && j > i
  {
    hide Outcome, ScanEnd, EndType, QuotedByte, BracketByte;
    var t := s;
    j := i;
    while j < |text| && t.typing.None?
      invariant i <= j <= |text| && Outcome(t, text, j) == Outcome(s, text, i)
      invariant t.typing.None? || (t.typing == Some("") && j > i)
      decreases |text| - j
    {
      if (t.bracket || t.square) && !t.quotes && IsComparison(text[j]) {
        ghost var before := j;
        var compared;
        compared, j := ReadComparison(t, text, j);
        match compared {
          case Err(e) => return Err(e), j;
          case Ok(u) => t := u;
        }
        if j == |text| {
          break;
        }
      }
      OutcomeNext(t, text, j);
      ParamTyping(t, text[j]);
      var next := ParamByte(t, text[j]);
      match next {
        case Err(e) => return Err(e), j;
        case Ok(u) => t := u;
      }
      j := j + 1;
    }
    r := Ok(t);
  }

  lemma ParamTyping(s: Scan, c: char)
    requires s.typing.None?
    ensures ParamByte(s, c).Ok? ==> ParamByte(s, c).value.typing.None? || ParamByte(s, c).value.typing == Some("")
  {
  }

  /** initial_resolve_information on a text in braces: the types, and after each its parameters. */
  method ResolveText(text: string) returns (r: Result<Rows, Why>)
    ensures r == RowsOf(text)
  {
    hide Outcome, ScanByte, ScanEnd, EndType, ParamByte, RowsOf;
    var s, i := BEGIN, 0;
    OutcomeAll(text);
    while true
      invariant i <= |text| && s.typing == Some("") && Outcome(s, text, i) == RowsOf(text)
      decreases |text| - i
    {
      s, i := ReadType(s, text, i);
      TypeEnds(s, text, i);
      EndTypeEnds(s);
      var typed := EndType(s);
      match typed {
        case Err(e) => return Err(e);
        case Ok(t) => s := t;
      }
      var read;
      read, i := ReadParams(s, text, i);
      match read {
        case Err(e) => return Err(e);
        case Ok(t) => s := t;
      }
      if s.typing.None? {
        OutcomeEnd(s, text);
        return ScanEnd(s);
      }
    }
  }
}
