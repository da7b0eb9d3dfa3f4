/** Lookup after any registrations. */
module Registrations {
  import opened Wrappers
  import opened RouteTable
  import Router

  // ---- after any registrations -----------------------------------------------------------------

  datatype Registration =
    | Handle(m: string, uri: string, handler: Handler)
    | Serve(m: string, uri: string, folder: Folder)

  function Apply(t: Table, r: Registration): (Table, Result<(), Error>) {
    match r
    case Handle(m, uri, h) => Register(t, m, uri, h)
    case Serve(m, uri, folder) => RegisterStatic(t, m, uri, folder)
  }

  function After(rs: seq<Registration>): Table {
    if rs == [] then map[[] := EMPTY] else Apply(After(rs[..|rs| - 1]), rs[|rs| - 1]).0
  }

  predicate IsFor(r: Registration, kind: Kind, segments: seq<string>, m: string) {
    r.Handle? && r.m == m && Parse(r.uri) == Target(segments, kind)
  }

  /** The handler of the first registration for a kind, a segment list and a method. */
  function FirstFor(rs: seq<Registration>, kind: Kind, segments: seq<string>, m: string): Option<Handler> {
    if rs == [] then None
    else
      var before := FirstFor(rs[..|rs| - 1], kind, segments, m);
      var r := rs[|rs| - 1];
      if before.None? && IsFor(r, kind, segments, m) then Some(r.handler) else before
  }

  function FirstFolder(rs: seq<Registration>, segments: seq<string>, m: string): Option<Folder> {
    if rs == [] then None
    else
      var before := FirstFolder(rs[..|rs| - 1], segments, m);
      var r := rs[|rs| - 1];
      if before.None? && r.Serve? && r.m == m && Parse(r.uri) == Target(segments, Page) then Some(r.folder) else before
  }

  function HandlerAt(t: Table, kind: Kind, p: seq<string>, m: string): Option<Handler> {
    if p in t && m in ByKind(t[p], kind) then Some(ByKind(t[p], kind)[m]) else None
  }

  function FolderAt(t: Table, p: seq<string>, m: string): Option<Folder> {
    if p in t && m in t[p].statics then Some(t[p].statics[m]) else None
  }

  /** What one registration changes. */
  lemma ApplyChanges(t: Table, r: Registration, kind: Kind, p: seq<string>, m: string)
    ensures var before := HandlerAt(t, kind, p, m);
      HandlerAt(Apply(t, r).0, kind, p, m) == if before.None? && IsFor(r, kind, p, m) then Some(r.handler) else before
    ensures var before := FolderAt(t, p, m);
      FolderAt(Apply(t, r).0, p, m)
        == if before.None? && r.Serve? && r.m == m && Parse(r.uri) == Target(p, Page) then Some(r.folder) else before
  {
    hide Parse, AddPrefixes;
    PrefixesAreEmpty(t, Parse(r.uri).segments, kind, p, m);
  }

  lemma PrefixesAreEmpty(t: Table, segments: seq<string>, kind: Kind, p: seq<string>, m: string)
    ensures segments in AddPrefixes(t, segments)
    ensures HandlerAt(AddPrefixes(t, segments), kind, p, m) == HandlerAt(t, kind, p, m)
    ensures FolderAt(AddPrefixes(t, segments), p, m) == FolderAt(t, p, m)
  {
    assert segments[..|segments|] == segments;
  }

  /** After any registrations, what is registered for a key is what was registered first. */
  lemma {:induction false} FirstWins(rs: seq<Registration>, kind: Kind, p: seq<string>, m: string)
    ensures HandlerAt(After(rs), kind, p, m) == FirstFor(rs, kind, p, m)
    ensures FolderAt(After(rs), p, m) == FirstFolder(rs, p, m)
  {
    hide HandlerAt, FolderAt, Apply, IsFor, Parse;
    if rs != [] {
      FirstWins(rs[..|rs| - 1], kind, p, m);
      ApplyChanges(After(rs[..|rs| - 1]), rs[|rs| - 1], kind, p, m);
    } else {
      NothingRegistered(kind, p, m);
    }
  }

  lemma NothingRegistered(kind: Kind, p: seq<string>, m: string)
    ensures HandlerAt(map[[] := EMPTY], kind, p, m) == None && FolderAt(map[[] := EMPTY], p, m) == None
  {
  }

  /** A registration is refused exactly when the same key has been registered before, or a folder is
      put on a special page. */
  lemma RefusedExactly(rs: seq<Registration>, r: Registration)
    ensures var target := Parse(r.uri);
      Apply(After(rs), r).1 ==
        if r.Handle? then
          if FirstFor(rs, target.kind, target.segments, r.m).Some? then Err(DuplicateMethod) else Ok(())
        else if target.kind != Page then Err(SpecialStatic)
        else if FirstFolder(rs, target.segments, r.m).Some? then Err(DuplicateMethod) else Ok(())
  {
    hide Parse, AddPrefixes, After, FirstFor, FirstFolder;
    var target := Parse(r.uri);
    FirstWins(rs, target.kind, target.segments, r.m);
    PrefixesAreEmpty(After(rs), target.segments, target.kind, target.segments, r.m);
  }

  /** A lookup depends on nothing but what is registered at the prefixes of the path. */
  lemma {:induction false} CollectedDepends(t: Table, u: Table, m: string, path: seq<string>, n: nat)
    requires n <= |path|
    requires forall k, kind :: 0 <= k <= n ==> HandlerAt(t, kind, path[..k], m) == HandlerAt(u, kind, path[..k], m)
    requires forall k :: 0 <= k <= n ==> FolderAt(t, path[..k], m) == FolderAt(u, path[..k], m)
    ensures LayersTo(t, m, path, n) == LayersTo(u, m, path, n)
    ensures ErrorDepth(t, m, path, n) == ErrorDepth(u, m, path, n)
    ensures StaticDepth(t, m, path, n) == StaticDepth(u, m, path, n)
  {
    assert HandlerAt(t, Layer, path[..n], m) == HandlerAt(u, Layer, path[..n], m);
    assert HandlerAt(t, ErrorPage, path[..n], m) == HandlerAt(u, ErrorPage, path[..n], m);
    if n > 0 {
      CollectedDepends(t, u, m, path, n - 1);
    } else {
      assert path[..0] == [];
    }
  }

  /** Of two tables that agree at the prefixes of the path, the lookup in the larger one may lose its error layers. */
  lemma LookupDepends(t: Table, u: Table, m: string, path: seq<string>, size: nat)
    requires forall k, kind :: 0 <= k <= |path| ==> HandlerAt(t, kind, path[..k], m) == HandlerAt(u, kind, path[..k], m)
    requires forall k :: 0 <= k <= |path| ==> FolderAt(t, path[..k], m) == FolderAt(u, path[..k], m)
    requires ReadsPast(t, path, size) ==> ReadsPast(u, path, size)
    ensures var found := Lookup(t, m, path, size);
      Lookup(u, m, path, size) == found.(errorLayers := if ReadsPast(u, path, size) then [] else found.errorLayers)
  {
    hide ReadsPast, LayersTo, ErrorDepth, StaticDepth;
    var n := Counted(path, size);
    CollectedDepends(t, u, m, path, n);
    assert HandlerAt(t, Page, path[..n], m) == HandlerAt(u, Page, path[..n], m);
    var e := ErrorDepth(t, m, path, n);
    if e.Some? {
      CollectedDepends(t, u, m, path, e.value);
      assert HandlerAt(t, ErrorPage, path[..e.value], m) == HandlerAt(u, ErrorPage, path[..e.value], m);
    }
    var d := StaticDepth(t, m, path, n);
    if d.Some? { assert FolderAt(t, path[..d.value], m) == FolderAt(u, path[..d.value], m); }
  }

  lemma {:induction false} AfterClosed(rs: seq<Registration>)
    ensures PrefixClosed(After(rs))
  {
    if rs != [] {
      AfterClosed(rs[..|rs| - 1]);
      ApplyCloses(After(rs[..|rs| - 1]), rs[|rs| - 1]);
    }
  }

  lemma ApplyCloses(t: Table, r: Registration)
    requires PrefixClosed(t)
    ensures PrefixClosed(Apply(t, r).0)
  {
    hide Parse;
    PrefixesClose(t, Parse(r.uri).segments);
    PrefixesAreEmpty(t, Parse(r.uri).segments, Page, [], "");
    hide AddPrefixes, WithKind;
  }

  lemma PrefixesClose(t: Table, segments: seq<string>)
    requires PrefixClosed(t)
    ensures PrefixClosed(AddPrefixes(t, segments))
  {
    var u := AddPrefixes(t, segments);
    forall p | p in u && p != [] ensures p[..|p| - 1] in u {
      if p !in t {
        assert p == segments[..|p|];
        assert p[..|p| - 1] == segments[..|p| - 1];
      }
    }
  }

  lemma {:induction false} PrefixIn(t: Table, segments: seq<string>, k: nat)
    requires PrefixClosed(t) && segments in t && k <= |segments|
    ensures segments[..k] in t
    decreases |segments|
  {
    if k == |segments| {
      assert segments[..k] == segments;
    } else {
      PrefixIn(t, segments[..|segments| - 1], k);
      assert segments[..|segments| - 1][..k] == segments[..k];
    }
  }

  lemma NoPrefixMissing(t: Table, segments: seq<string>)
    requires PrefixClosed(t) && segments in t
    ensures AddPrefixes(t, segments) == t
  {
    hide PrefixClosed;
    forall p | p in Prefixes(segments) ensures p in t { PrefixIn(t, segments, |p|); }
  }

  /** A refused duplicate leaves the table as it is. */
  lemma DuplicateChangesNothing(rs: seq<Registration>, r: Registration)
    requires Apply(After(rs), r).1 == Err(DuplicateMethod)
    ensures After(rs + [r]) == After(rs)
  {
    assert (rs + [r])[..|rs|] == rs;
    hide Parse, After;
    var t, target := After(rs), Parse(r.uri);
    AfterClosed(rs);
    PrefixesAreEmpty(t, target.segments, target.kind, target.segments, r.m);
    NoPrefixMissing(t, target.segments);
  }

  /** A refused registration changes no lookup, unless it is a folder put on a special page, and the request is
      divided past the end of its path and now reads past it. */
  lemma RefusedChangesNothing(rs: seq<Registration>, r: Registration, m: string, path: seq<string>, size: nat)
    requires Apply(After(rs), r).1.Err?
    ensures var found := Lookup(After(rs), m, path, size);
      Lookup(After(rs + [r]), m, path, size) == found <==>
        !ReadsPast(After(rs + [r]), path, size) || ReadsPast(After(rs), path, size) || found.errorLayers == []
    ensures Apply(After(rs), r).1 == Err(DuplicateMethod) || size <= |path| ==>
      !ReadsPast(After(rs + [r]), path, size) || ReadsPast(After(rs), path, size)
  {
    assert (rs + [r])[..|rs|] == rs;
    var t, u := After(rs), After(rs + [r]);
    assert u == Apply(t, r).0;
    hide After;
    forall k, kind | 0 <= k <= |path| ensures HandlerAt(t, kind, path[..k], m) == HandlerAt(u, kind, path[..k], m) {
      RefusedRegistersNothing(rs, r, kind, path[..k], m);
    }
    forall k | 0 <= k <= |path| ensures FolderAt(t, path[..k], m) == FolderAt(u, path[..k], m) {
      RefusedRegistersNothing(rs, r, Page, path[..k], m);
    }
    LookupDepends(t, u, m, path, size);
    if Apply(t, r).1 == Err(DuplicateMethod) { DuplicateChangesNothing(rs, r); }
  }

  lemma RefusedRegistersNothing(rs: seq<Registration>, r: Registration, kind: Kind, p: seq<string>, m: string)
    requires Apply(After(rs), r).1.Err?
    ensures var t := After(rs); var u := Apply(t, r).0;
      HandlerAt(t, kind, p, m) == HandlerAt(u, kind, p, m) && FolderAt(t, p, m) == FolderAt(u, p, m)
  {
    hide Parse, AddPrefixes, After;
    PrefixesAreEmpty(After(rs), Parse(r.uri).segments, kind, p, m);
  }

  // ---- lookup in terms of the registrations ----------------------------------------------------

  function FirstLayers(rs: seq<Registration>, m: string, path: seq<string>, n: nat): seq<Handler>
    requires n <= |path|
  {
    var own := FirstFor(rs, Layer, path[..n], m);
    (if n == 0 then [] else FirstLayers(rs, m, path, n - 1)) + if own.Some? then [own.value] else []
  }

  lemma {:induction false} LayersAreFirst(rs: seq<Registration>, m: string, path: seq<string>, n: nat)
    requires n <= |path|
    ensures LayersTo(After(rs), m, path, n) == FirstLayers(rs, m, path, n)
  {
    hide After, FirstFor;
    FirstWins(rs, Layer, path[..n], m);
    if n == 0 { assert path[..0] == []; } else { LayersAreFirst(rs, m, path, n - 1); }
  }

  /** The depth d is the deepest at which an error page, or a folder, has been registered. */
  predicate DeepestError(rs: seq<Registration>, m: string, path: seq<string>, d: nat)
  {
    && d <= |path| && FirstFor(rs, ErrorPage, path[..d], m).Some?
    && forall k: nat :: d < k <= |path| ==> FirstFor(rs, ErrorPage, path[..k], m).None?
  }

  predicate DeepestFolder(rs: seq<Registration>, m: string, path: seq<string>, d: nat)
  {
    && d <= |path| && FirstFolder(rs, path[..d], m).Some?
    && forall k: nat :: d < k <= |path| ==> FirstFolder(rs, path[..k], m).None?
  }

  lemma ErrorAsRegistered(rs: seq<Registration>, m: string, path: seq<string>)
    ensures var e := ErrorDepth(After(rs), m, path, |path|);
      if e.Some? then DeepestError(rs, m, path, e.value)
      else forall d: nat :: d <= |path| ==> FirstFor(rs, ErrorPage, path[..d], m).None?
  {
    hide After, FirstFor;
    forall k: nat | k <= |path|
      ensures HasError(After(rs), m, path[..k]) <==> FirstFor(rs, ErrorPage, path[..k], m).Some?
    {
      FirstWins(rs, ErrorPage, path[..k], m);
    }
  }

  lemma FolderAsRegistered(rs: seq<Registration>, m: string, path: seq<string>)
    ensures var e := StaticDepth(After(rs), m, path, |path|);
      if e.Some? then DeepestFolder(rs, m, path, e.value)
      else forall d: nat :: d <= |path| ==> FirstFolder(rs, path[..d], m).None?
  {
    hide After, FirstFolder;
    forall k: nat | k <= |path|
      ensures HasStatic(After(rs), m, path[..k]) <==> FirstFolder(rs, path[..k], m).Some?
    {
      FirstWins(rs, Page, path[..k], m);
    }
  }

  /** How many segments of a path count. */
  function Counted(path: seq<string>, size: nat): nat { if size <= |path| then size else |path| }

  lemma {:induction false} CollectedCut(t: Table, m: string, path: seq<string>, n: nat, k: nat)
    requires k <= n <= |path|
    ensures LayersTo(t, m, path[..n], k) == LayersTo(t, m, path, k)
    ensures ErrorDepth(t, m, path[..n], k) == ErrorDepth(t, m, path, k)
    ensures StaticDepth(t, m, path[..n], k) == StaticDepth(t, m, path, k)
    decreases k
  {
    assert path[..n][..k] == path[..k];
    if k > 0 { CollectedCut(t, m, path, n, k - 1); }
  }

  /** A divided request is a request for the segments that count; past the end of the path no page is found. */
  lemma DividedLookup(t: Table, m: string, path: seq<string>, size: nat)
    ensures var n := Counted(path, size);
      var whole := Lookup(t, m, path[..n], n);
      Lookup(t, m, path, size) == whole.(handler := if size <= |path| then whole.handler else None,
        errorLayers := if ReadsPast(t, path, size) then [] else whole.errorLayers)
  {
    hide ReadsPast, LayersTo, ErrorDepth, StaticDepth;
    var n := Counted(path, size);
    NotPast(t, path[..n]);
    CollectedCut(t, m, path, n, n);
    assert path[..n][..n] == path[..n];
    var e, d := ErrorDepth(t, m, path, n), StaticDepth(t, m, path, n);
    if e.Some? {
      CollectedCut(t, m, path, n, e.value);
      assert path[..n][..e.value] == path[..e.value];
    }
    if d.Some? { assert path[..n][..d.value] == path[..d.value]; }
  }

  /** After any registrations a request finds the page registered first for its segments, and the layers of their
      prefixes from the root on. */
  lemma FindsPageAndLayers(rs: seq<Registration>, m: string, path: seq<string>, size: nat)
    ensures var f, p := Lookup(After(rs), m, path, size), path[..Counted(path, size)];
      f.handler == (if size <= |path| then FirstFor(rs, Page, p, m) else None) && f.layers == FirstLayers(rs, m, p, |p|)
  {
    hide After, FirstFor, FirstLayers, ReadsPast;
    DividedLookup(After(rs), m, path, size);
    var p := path[..Counted(path, size)];
    assert p[..|p|] == p;
    FirstWins(rs, Page, p, m);
    LayersAreFirst(rs, m, p, |p|);
  }

  /** It finds the deepest error page on the way, with the layers down to its depth and no more. */
  lemma FindsDeepestError(rs: seq<Registration>, m: string, path: seq<string>, size: nat)
    ensures var f, p := Lookup(After(rs), m, path, size), path[..Counted(path, size)];
      if f.errorHandler.Some? then
        exists d: nat :: DeepestError(rs, m, p, d) && f.errorHandler == FirstFor(rs, ErrorPage, p[..d], m) &&
          f.errorLayers == if ReadsPast(After(rs), path, size) then [] else FirstLayers(rs, m, p, d)
      else f.errorLayers == [] && forall d: nat :: d <= |p| ==> FirstFor(rs, ErrorPage, p[..d], m).None?
  {
    hide After, FirstFor, FirstLayers, LayersTo, ReadsPast;
    DividedLookup(After(rs), m, path, size);
    var p := path[..Counted(path, size)];
    NotPast(After(rs), p);
    ErrorAsRegistered(rs, m, p);
    var e := ErrorDepth(After(rs), m, p, |p|);
    if e.Some? {
      FirstWins(rs, ErrorPage, p[..e.value], m);
      LayersAreFirst(rs, m, p, e.value);
    }
  }

  lemma NotPast(t: Table, path: seq<string>)
    ensures !ReadsPast(t, path, |path|)
  {
  }

  /** It finds the deepest folder on the way, with its depth. */
  lemma FindsDeepestFolder(rs: seq<Registration>, m: string, path: seq<string>, size: nat)
    ensures var f, p := Lookup(After(rs), m, path, size), path[..Counted(path, size)];
      if f.statics.Some? then
        DeepestFolder(rs, m, p, f.staticsLength) && f.statics == FirstFolder(rs, p[..f.staticsLength], m)
      else forall d: nat :: d <= |p| ==> FirstFolder(rs, p[..d], m).None?
  {
    hide After, FirstFolder, LayersTo, ReadsPast;
    DividedLookup(After(rs), m, path, size);
    var p := path[..Counted(path, size)];
    FolderAsRegistered(rs, m, p);
    var e := StaticDepth(After(rs), m, p, |p|);
    if e.Some? { FirstWins(rs, Page, p[..e.value], m); }
  }

  lemma {:induction false} KeysAreRegistered(rs: seq<Registration>, p: seq<string>)
    ensures p in After(rs) <==> p == [] || exists k :: 0 <= k < |rs| && p <= Parse(rs[k].uri).segments
  {
    hide Parse;
    if rs != [] {
      var last, before := rs[|rs| - 1], rs[..|rs| - 1];
      KeysAreRegistered(before, p);
      KeysAdded(After(before), last, p);
      assert forall k :: 0 <= k < |before| ==> before[k] == rs[k];
    }
  }

  lemma KeysAdded(t: Table, r: Registration, p: seq<string>)
    ensures p in Apply(t, r).0 <==> p in t || p <= Parse(r.uri).segments
  {
    hide Parse, WithKind, ByKind;
    var segments := Parse(r.uri).segments;
    assert p <= segments ==> p == segments[..|p|];
    assert segments == segments[..|segments|];
  }

  /** A request reads past its path exactly when it is divided past the end and some registration, refused or not,
      goes on below the path. */
  lemma PastExactly(rs: seq<Registration>, path: seq<string>, size: nat)
    ensures ReadsPast(After(rs), path, size) <==>
      size > |path| && exists k :: 0 <= k < |rs| && path < Parse(rs[k].uri).segments
  {
    hide After, Parse;
    if k :| 0 <= k < |rs| && path < Parse(rs[k].uri).segments {
      var q := Parse(rs[k].uri).segments[..|path| + 1];
      assert q <= Parse(rs[k].uri).segments && path <= q;
      KeysAreRegistered(rs, q);
      KeysAreRegistered(rs, path);
    }
    if HasChild(After(rs), path) {
      var q :| q in After(rs) && |q| == |path| + 1 && path <= q;
      KeysAreRegistered(rs, q);
    }
  }

  lemma FirstOfTwo(a: Registration, b: Registration, kind: Kind, p: seq<string>, m: string)
    ensures FirstFor([a, b], kind, p, m)
      == if IsFor(a, kind, p, m) then Some(a.handler) else if IsFor(b, kind, p, m) then Some(b.handler) else None
  {
    hide Parse;
    assert [a, b][..1] == [a] && [a][..0] == [];
    assert FirstFor([a], kind, p, m) == if IsFor(a, kind, p, m) then Some(a.handler) else None;
  }

  lemma SpecialParses(special: string)
    requires special == "+layer" || special == "+error"
    ensures Parse("/" + special) == Target([], KindOf(special))
    ensures Parse("/a/" + special) == Target(["a"], KindOf(special))
  {
    assert UriOf([], special) == "/" + special;
    assert ["a"][1..] == [] && UriOf(["a"], special) == "/" + ("a" + UriOf([], special));
    assert "/a/" + special == "/" + ("a" + ("/" + special));
    ParseUriOf([], special);
    ParseUriOf(["a"], special);
  }

  /** A refused registration that is seen: a request divided past its end loses its error layers to the folder. */
  lemma RefusedFolderIsSeen(m: string, layer: Handler, error: Handler, folder: Folder)
    ensures var rs, r := [Handle(m, "/+layer", layer), Handle(m, "/+error", error)], Serve(m, "/a/+error", folder);
      && Apply(After(rs), r).1 == Err(SpecialStatic)
      && Lookup(After(rs), m, [], 1).errorLayers == [layer] && Lookup(After(rs + [r]), m, [], 1).errorLayers == []
  {
    var rs, r := [Handle(m, "/+layer", layer), Handle(m, "/+error", error)], Serve(m, "/a/+error", folder);
    var path: seq<string> := [];
    hide Parse, After, Lookup, Walk, FirstFor;
    SpecialParses("+layer");
    SpecialParses("+error");
    RefusedExactly(rs, r);
    assert "/" + "+layer" == "/+layer" && "/" + "+error" == "/+error" && "/a/" + "+error" == "/a/+error";
    FirstOfTwo(rs[0], rs[1], Layer, path, m);
    FirstOfTwo(rs[0], rs[1], ErrorPage, path, m);
    assert path[..0] == path;
    PastExactly(rs, path, 1);
    PastExactly(rs + [r], path, 1);
    assert (rs + [r])[2] == r;
    FindsDeepestError(rs, m, path, 1);
    FindsDeepestError(rs + [r], m, path, 1);
  }

  /** Registrations on a fresh site, then a request. */
  method Serving(rs: seq<Registration>, m: string, path: seq<string>, divided: Option<nat>) returns (found: Found)
    requires forall k :: 0 <= k < |rs| ==> '[' !in rs[k].uri
    ensures found == Lookup(After(rs), m, path, divided.GetOr(|path|))
  {
    hide After, Apply, Lookup, Router.TableOf, Router.Linked;
    var site := new Router.Site();
    EmptyTable();
    for i := 0 to |rs|
      invariant site.Valid() && fresh(site) && fresh(site.Nodes()) && Router.TableOf(site.items) == After(rs[..i])
    {
      OneMore(rs, i);
      var r;
      match rs[i] {
        case Handle(m, uri, h) => r := site.SetHandler(m, uri, h);
        case Serve(m, uri, folder) => r := site.SetStatic(m, uri, folder);
      }
    }
    assert rs[..|rs|] == rs;
    found := site.GetHandler(m, path, divided);
  }

  lemma EmptyTable()
    ensures After([]) == map[[] := EMPTY]
  {
  }

  lemma OneMore(rs: seq<Registration>, i: nat)
    requires i < |rs|
    ensures match rs[i]
            case Handle(m, uri, h) => After(rs[..i + 1]) == Register(After(rs[..i]), m, uri, h).0
            case Serve(m, uri, folder) => After(rs[..i + 1]) == RegisterStatic(After(rs[..i]), m, uri, folder).0
  {
    hide Register, RegisterStatic;
    assert rs[..i + 1][..i] == rs[..i];
  }
}
