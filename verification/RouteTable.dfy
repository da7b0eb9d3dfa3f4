/** The routes of a site as a flat table of segment lists: the text of a uri, registration and lookup. */
module RouteTable {
  import opened Wrappers

  type Handler = nat
  type Folder = string

  datatype Kind = Page | ErrorPage | Layer

  datatype Error = DuplicateMethod | SpecialStatic

  // ---- the text of a uri -----------------------------------------------------------------------

  datatype Target = Target(segments: seq<string>, kind: Kind)

  function KindOf(part: string): Kind {
    if part == "+error" then ErrorPage else if part == "+layer" then Layer else Page
  }

  /** What the rest of a uri adds, with the part that has been begun: empty parts are skipped, and a
      last part that starts with + names a kind and no segment. */
  function Walk(begun: string, rest: string): Target
    decreases |rest|
  {
    if rest == "" then
      if begun == "" then Target([], Page)
      else if begun[0] == '+' then Target([], KindOf(begun))
      else Target([begun], Page)
    else if rest[0] == '/' then
      var t := Walk("", rest[1..]);
      if begun == "" then t else Target([begun] + t.segments, t.kind)
    else Walk(begun + [rest[0]], rest[1..])
  }

  function Parse(uri: string): Target { Walk("", uri) }

  /** A segment list as a uri, with a special last part or none. */
  function UriOf(segments: seq<string>, special: string): string {
    if segments == [] then if special == "" then "" else "/" + special
    else "/" + (segments[0] + UriOf(segments[1..], special))
  }

  predicate IsSegment(s: string) { s != "" && '/' !in s && '[' !in s }

  predicate IsOrdinary(s: string) { IsSegment(s) && s[0] != '+' }

  lemma {:induction false} WalkPart(begun: string, part: string, rest: string)
    requires '/' !in part
    ensures Walk(begun, part + rest) == Walk(begun + part, rest)
    decreases |part|
  {
    if part == "" {
      assert part + rest == rest && begun + part == begun;
    } else {
      assert (part + rest)[1..] == part[1..] + rest;
      WalkPart(begun + [part[0]], part[1..], rest);
      assert begun + [part[0]] + part[1..] == begun + part;
    }
  }

  /** Every segment list has a uri, for each kind of page: its segments in order, and a special last
      part, unless its own last segment starts with +. */
  lemma {:induction false} ParseUriOf(segments: seq<string>, special: string)
    requires forall k :: 0 <= k < |segments| ==> IsSegment(segments[k])
    requires special == "" || (special[0] == '+' && '/' !in special)
    requires special == "" && segments != [] ==> IsOrdinary(segments[|segments| - 1])
    ensures Parse(UriOf(segments, special)) == Target(segments, KindOf(special))
  {
    if segments != [] {
      ParseUriOf(segments[1..], special);
      WalkPart("", segments[0], UriOf(segments[1..], special));
      ParseFirst(segments[0], UriOf(segments[1..], special));
      assert segments == [segments[0]] + segments[1..];
    } else if special != "" {
      assert ("/" + special)[1..] == special + "";
      WalkPart("", special, "");
      assert "" + special == special;
    }
  }

  lemma ParseFirst(s: string, rest: string)
    requires s != "" && (rest == "" ==> s[0] != '+') && (rest != "" ==> rest[0] == '/')
    requires Walk("", s + rest) == Walk("" + s, rest)
    ensures Parse("/" + (s + rest)) == Target([s] + Parse(rest).segments, Parse(rest).kind)
  {
    assert ("/" + (s + rest))[1..] == s + rest;
    assert "" + s == s;
    if rest != "" { SkipSlash(s, rest); }
  }

  lemma SkipSlash(begun: string, rest: string)
    requires begun != "" && rest != "" && rest[0] == '/'
    ensures Walk(begun, rest) == Target([begun] + Walk("", rest).segments, Walk("", rest).kind)
  {
  }

  /** The parts of a text between slashes. */
  function Split(text: string): (parts: seq<string>)
    ensures parts != []
  {
    if text == "" then [""]
    else
      var more := Split(text[1..]);
      if text[0] == '/' then [""] + more else [[text[0]] + more[0]] + more[1..]
  }

  function NonEmpty(parts: seq<string>): seq<string> {
    if parts == [] then [] else (if parts[0] == "" then [] else [parts[0]]) + NonEmpty(parts[1..])
  }

  /** What the parts of a uri stand for: the parts that are not empty, but for a last one that starts with a plus sign
      and names a special page. */
  function TargetOf(parts: seq<string>): Target
    requires parts != []
  {
    var n := |parts| - 1;
    if parts[n] != "" && parts[n][0] == '+' then
      Target(NonEmpty(parts[..n]),
        match parts[n] case "+error" => ErrorPage case "+layer" => Layer case _ => Page)
    else Target(NonEmpty(parts), Page)
  }

  lemma {:induction false} WalkTarget(begun: string, rest: string)
    requires '/' !in begun
    ensures var more := Split(rest); Walk(begun, rest) == TargetOf([begun + more[0]] + more[1..])
    decreases |rest|
  {
    var more := Split(rest);
    if rest == "" {
      assert begun + "" == begun && more[1..] == [];
      LastPart(begun);
    } else if rest[0] == '/' {
      var t := Split(rest[1..]);
      assert more[1..] == t && begun + "" == begun;
      WalkTarget("", rest[1..]);
      assert "" + t[0] == t[0] && [t[0]] + t[1..] == t;
      FirstPart(begun, t);
    } else {
      var t := Split(rest[1..]);
      WalkTarget(begun + [rest[0]], rest[1..]);
      assert begun + [rest[0]] + t[0] == begun + ([rest[0]] + t[0]);
    }
  }

  lemma LastPart(begun: string)
    ensures TargetOf([begun]) == Walk(begun, "")
  {
    assert [begun][..0] == [] && [begun][1..] == [] && [begun] + [] == [begun];
    assert NonEmpty([]) == [] && NonEmpty([begun]) == if begun == "" then [] else [begun];
  }

  lemma FirstPart(begun: string, more: seq<string>)
    requires more != []
    ensures var t := TargetOf(more);
      TargetOf([begun] + more) == if begun == "" then t else Target([begun] + t.segments, t.kind)
  {
    var parts := [begun] + more;
    assert parts[|parts| - 1] == more[|more| - 1];
    assert parts[1..] == more && parts[..|parts| - 1] == [begun] + more[..|more| - 1];
    assert ([begun] + more[..|more| - 1])[1..] == more[..|more| - 1];
  }

  /** Any uri, with slashes wherever it has them, is its parts. */
  lemma ParseIsTarget(uri: string)
    ensures Parse(uri) == TargetOf(Split(uri))
  {
    WalkTarget("", uri);
    var more := Split(uri);
    assert "" + more[0] == more[0] && [more[0]] + more[1..] == more;
  }

  // ---- the flat table --------------------------------------------------------------------------

  datatype Entry = Entry(
    handlers: map<string, Handler>, errors: map<string, Handler>,
    layers: map<string, Handler>, statics: map<string, Folder>)

  const EMPTY := Entry(map[], map[], map[], map[])

  /** What is registered at each segment list; the domain is every prefix ever passed through. */
  type Table = map<seq<string>, Entry>

  function Prefixes(segments: seq<string>): set<seq<string>> {
    set k | 0 <= k <= |segments| :: segments[..k]
  }

  /** Every prefix of a segment list gets an entry. */
  function AddPrefixes(t: Table, segments: seq<string>): Table {
    t + map p | p in Prefixes(segments) - t.Keys :: EMPTY
  }

  function ByKind(e: Entry, kind: Kind): map<string, Handler> {
    match kind case Page => e.handlers case ErrorPage => e.errors case Layer => e.layers
  }

  function WithKind(e: Entry, kind: Kind, m: string, h: Handler): Entry {
    match kind
    case Page => e.(handlers := e.handlers[m := h])
    case ErrorPage => e.(errors := e.errors[m := h])
    case Layer => e.(layers := e.layers[m := h])
  }

  /** Every prefix of a key is a key. */
  predicate PrefixClosed(t: Table) {
    [] in t && forall p :: p in t && p != [] ==> p[..|p| - 1] in t
  }

  /** set_handler for a handler. */
  function Register(t: Table, m: string, uri: string, h: Handler): (Table, Result<(), Error>) {
    var target := Parse(uri);
    var u := AddPrefixes(t, target.segments);
    assert target.segments == target.segments[..|target.segments|];
    var e := u[target.segments];
    if m in ByKind(e, target.kind) then (u, Err(DuplicateMethod))
    else (u[target.segments := WithKind(e, target.kind, m, h)], Ok(()))
  }

  /** set_handler for a folder. */
  function RegisterStatic(t: Table, m: string, uri: string, folder: Folder): (Table, Result<(), Error>) {
    var target := Parse(uri);
    var u := AddPrefixes(t, target.segments);
    assert target.segments == target.segments[..|target.segments|];
    var e := u[target.segments];
    if target.kind != Page then (u, Err(SpecialStatic))
    else if m in e.statics then (u, Err(DuplicateMethod))
    else (u[target.segments := e.(statics := e.statics[m := folder])], Ok(()))
  }

  // ---- lookup ----------------------------------------------------------------------------------

  datatype Found = Found(
    handler: Option<Handler>, layers: seq<Handler>, statics: Option<Folder>, staticsLength: nat,
    errorHandler: Option<Handler>, errorLayers: seq<Handler>)

  function Own(t: Table, p: seq<string>, m: string): seq<Handler> {
    if p in t && m in t[p].layers then [t[p].layers[m]] else []
  }

  /** The layers of the prefixes of at most a length, from the root on. */
  function LayersTo(t: Table, m: string, path: seq<string>, n: nat): seq<Handler>
    requires n <= |path|
  {
    if n == 0 then Own(t, [], m) else LayersTo(t, m, path, n - 1) + Own(t, path[..n], m)
  }

  predicate HasError(t: Table, m: string, p: seq<string>) { p in t && m in t[p].errors }
  predicate HasStatic(t: Table, m: string, p: seq<string>) { p in t && m in t[p].statics }
  predicate HasPage(t: Table, m: string, p: seq<string>) { p in t && m in t[p].handlers }

  /** The longest prefix of at most a length with an error page. */
  function ErrorDepth(t: Table, m: string, path: seq<string>, n: nat): (d: Option<nat>)
    requires n <= |path|
    ensures d.Some? ==> d.value <= n && HasError(t, m, path[..d.value])
    ensures forall k :: (if d.Some? then d.value else -1) < k <= n ==> !HasError(t, m, path[..k])
  {
    if HasError(t, m, path[..n]) then Some(n) else if n == 0 then None else ErrorDepth(t, m, path, n - 1)
  }

  function StaticDepth(t: Table, m: string, path: seq<string>, n: nat): (d: Option<nat>)
    requires n <= |path|
    ensures d.Some? ==> d.value <= n && HasStatic(t, m, path[..d.value])
    ensures forall k :: (if d.Some? then d.value else -1) < k <= n ==> !HasStatic(t, m, path[..k])
  {
    if HasStatic(t, m, path[..n]) then Some(n) else if n == 0 then None else StaticDepth(t, m, path, n - 1)
  }

  predicate HasChild(t: Table, p: seq<string>) { exists q :: q in t && |q| == |p| + 1 && p <= q }

  /** Reading the segment past the path throws: it happens when the whole path is in the table and
      something is registered below it. */
  predicate ReadsPast(t: Table, path: seq<string>, size: nat) { size > |path| && path in t && HasChild(t, path) }

  /** What a request finds, without a walk: size is how many segments count. */
  function Lookup(t: Table, m: string, path: seq<string>, size: nat): Found {
    var n := if size <= |path| then size else |path|;
    var errorDepth := ErrorDepth(t, m, path, n);
    var staticDepth := StaticDepth(t, m, path, n);
    Found(
      if size <= |path| && HasPage(t, m, path[..size]) then Some(t[path[..size]].handlers[m]) else None,
      LayersTo(t, m, path, n),
      if staticDepth.Some? then Some(t[path[..staticDepth.value]].statics[m]) else None,
      if staticDepth.Some? then staticDepth.value else 0,
      if errorDepth.Some? then Some(t[path[..errorDepth.value]].errors[m]) else None,
      if errorDepth.Some? && !ReadsPast(t, path, size) then LayersTo(t, m, path, errorDepth.value) else [])
  }

  // ---- the walk --------------------------------------------------------------------------------

  /** What a walk has collected; errorDepth counts the layers above the error page and its own. */
  datatype Collected = Collected(
    layers: seq<Handler>, statics: Option<Folder>, staticsLength: nat, error: Option<Handler>, errorDepth: nat)

  const NOTHING := Collected([], None, 0, None, 0)

  /** One node's share. */
  function Visit(c: Collected, e: Entry, m: string, i: nat): Collected {
    var c1 := if m in e.statics then c.(statics := Some(e.statics[m]), staticsLength := i) else c;
    var c2 := if m in e.layers then c1.(layers := c1.layers + [e.layers[m]]) else c1;
    if m in e.errors then c2.(error := Some(e.errors[m]), errorDepth := |c2.layers|) else c2
  }

  /** What the table says a walk of a length collects. */
  function CollectedTo(t: Table, m: string, path: seq<string>, n: nat): Collected
    requires n <= |path|
  {
    var errorDepth := ErrorDepth(t, m, path, n);
    var staticDepth := StaticDepth(t, m, path, n);
    Collected(
      LayersTo(t, m, path, n),
      if staticDepth.Some? then Some(t[path[..staticDepth.value]].statics[m]) else None,
      if staticDepth.Some? then staticDepth.value else 0,
      if errorDepth.Some? then Some(t[path[..errorDepth.value]].errors[m]) else None,
      if errorDepth.Some? then |LayersTo(t, m, path, errorDepth.value)| else 0)
  }

  function CollectedBefore(t: Table, m: string, path: seq<string>, i: nat): Collected
    requires i <= |path|
  {
    if i == 0 then NOTHING else CollectedTo(t, m, path, i - 1)
  }

  lemma VisitCollects(t: Table, m: string, path: seq<string>, i: nat)
    requires i <= |path| && path[..i] in t
    ensures Visit(CollectedBefore(t, m, path, i), t[path[..i]], m, i) == CollectedTo(t, m, path, i)
  {
    assert i == 0 ==> path[..i] == [];
  }

  lemma MoreCollected(t: Table, m: string, path: seq<string>, i: nat)
    requires i < |path|
    ensures CollectedBefore(t, m, path, i + 1) == CollectedTo(t, m, path, i)
  {
  }

  /** Where the walk leaves the table there is nothing to collect any more. */
  lemma {:induction false} NothingBelow(t: Table, m: string, path: seq<string>, i: nat, n: nat)
    requires PrefixClosed(t) && i < n <= |path| && path[..i + 1] !in t
    ensures path[..n] !in t && CollectedTo(t, m, path, n) == CollectedTo(t, m, path, i)
  {
    if n == i + 1 {
    } else {
      NothingBelow(t, m, path, i, n - 1);
      assert path[..n][..n - 1] == path[..n - 1];
    }
  }

  lemma {:induction false} LayersPrefix(t: Table, m: string, path: seq<string>, d: nat, n: nat)
    requires d <= n <= |path|
    ensures LayersTo(t, m, path, d) <= LayersTo(t, m, path, n)
  {
    if d < n { LayersPrefix(t, m, path, d, n - 1); }
  }

  /** The error page's layers are the first of the layers collected. */
  lemma ErrorLayers(t: Table, m: string, path: seq<string>, n: nat)
    requires n <= |path|
    ensures var c := CollectedTo(t, m, path, n); var d := ErrorDepth(t, m, path, n);
      c.errorDepth <= |c.layers| &&
      c.layers[..c.errorDepth] == if d.Some? then LayersTo(t, m, path, d.value) else []
  {
    var d := ErrorDepth(t, m, path, n);
    if d.Some? { LayersPrefix(t, m, path, d.value, n); }
  }

  /** A lookup from what the walk collects. */
  function Finding(c: Collected, handler: Option<Handler>, thrown: bool): Found
    requires c.errorDepth <= |c.layers|
  {
    Found(handler, c.layers, c.statics, c.staticsLength, c.error, if thrown then [] else c.layers[..c.errorDepth])
  }

  lemma LookupFinds(t: Table, m: string, path: seq<string>, size: nat)
    ensures var n := if size <= |path| then size else |path|;
      var c := CollectedTo(t, m, path, n);
      c.errorDepth <= |c.layers| &&
      Lookup(t, m, path, size) == Finding(c,
        if size <= |path| && HasPage(t, m, path[..size]) then Some(t[path[..size]].handlers[m]) else None,
        ReadsPast(t, path, size))
  {
    ErrorLayers(t, m, path, if size <= |path| then size else |path|);
  }

  /** The walk ends at the node of the whole path, leaves the table, or reads past the path. */
  lemma WalkEnds(t: Table, m: string, path: seq<string>, size: nat)
    requires size <= |path| && path[..size] in t
    ensures var c := CollectedTo(t, m, path, size);
      c.errorDepth <= |c.layers| &&
      Lookup(t, m, path, size)
        == Finding(c, if m in t[path[..size]].handlers then Some(t[path[..size]].handlers[m]) else None, false)
  {
    LookupFinds(t, m, path, size);
  }

  lemma WalkLeaves(t: Table, m: string, path: seq<string>, size: nat, i: nat)
    requires PrefixClosed(t) && i < size && i <= |path| && path[..i] in t
    requires if i < |path| then path[..i + 1] !in t else !HasChild(t, path[..i])
    ensures var c := CollectedTo(t, m, path, i);
      c.errorDepth <= |c.layers| &&
      Lookup(t, m, path, size) == Finding(c, None, false)
  {
    hide PrefixClosed, CollectedTo, Lookup;
    LookupFinds(t, m, path, size);
    assert path[..|path|] == path;
    if i < |path| { NothingBelow(t, m, path, i, if size <= |path| then size else |path|); }
  }

  lemma WalkThrows(t: Table, m: string, path: seq<string>, size: nat)
    requires size > |path| && path[..|path|] in t && HasChild(t, path[..|path|])
    ensures var c := CollectedTo(t, m, path, |path|);
      c.errorDepth <= |c.layers| &&
      Lookup(t, m, path, size) == Finding(c, None, true)
  {
    assert path[..|path|] == path;
    LookupFinds(t, m, path, size);
  }

  lemma PrefixesMore(t: Table, at: seq<string>, part: string)
    ensures var u := AddPrefixes(t, at); var p := at + [part];
      AddPrefixes(t, p) == if p in u then u else u[p := EMPTY]
  {
    var p := at + [part];
    PrefixesOfMore(at, part);
    hide Prefixes;
    assert p in Prefixes(p);
    var u := AddPrefixes(t, at);
    assert AddPrefixes(t, p).Keys == u.Keys + {p};
  }

  lemma PrefixesOfMore(at: seq<string>, part: string)
    ensures Prefixes(at + [part]) == Prefixes(at) + {at + [part]}
  {
    var p := at + [part];
    assert p[..|p|] == p;
    assert forall k :: 0 <= k <= |at| ==> p[..k] == at[..k];
  }
}
