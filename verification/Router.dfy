/** The URI trie, updated at registration and walked at lookup, refining the flat table. */
module Router {
  import opened Wrappers
  import opened RouteTable

  // ---- the trie --------------------------------------------------------------------------------

  class Node {
    var children: map<string, Node>
    var handlers: map<string, Handler>
    var errors: map<string, Handler>
    var layers: map<string, Handler>
    var statics: map<string, Folder>

    constructor ()
      ensures children == map[] && Contents() == EMPTY
    {
      children := map[];
      handlers, errors, layers, statics := map[], map[], map[], map[];
    }

    ghost function Contents(): Entry
      reads `handlers, `errors, `layers, `statics
    {
      Entry(handlers, errors, layers, statics)
    }
  }

  /** A node, its children and what is registered there, as history. */
  datatype Item = Item(node: Node, children: map<string, Node>, entry: Entry)

  /** Every node of a trie, by the segments on the way to it. */
  type Items = map<seq<string>, Item>

  function Below(p: seq<string>, part: string): seq<string> { p + [part] }

  /** No two segment lists lead to the same node. */
  ghost predicate Apart(items: Items) {
    forall p, q :: p in items && q in items && items[p].node == items[q].node ==> p == q
  }

  predicate HasParent(items: Items, p: seq<string>) {
    p != [] ==> p[..|p| - 1] in items && p[|p| - 1] in items[p[..|p| - 1]].children
  }

  ghost predicate Upwards(items: Items) {
    forall p :: p in items ==> HasParent(items, p)
  }

  ghost predicate Downwards(items: Items) {
    forall p, s :: p in items && s in items[p].children ==>
      Below(p, s) in items && items[p].children[s] == items[Below(p, s)].node
  }

  /** The nodes and their children form one tree. */
  ghost predicate Linked(root: Node, items: Items) {
    [] in items && items[[]].node == root && Apart(items) && Upwards(items) && Downwards(items)
  }

  /** The flat table of a trie. */
  ghost function TableOf(items: Items): Table { map p | p in items :: items[p].entry }

  function WithChild(items: Items, at: seq<string>, part: string, next: Node): Items
    requires at in items
  {
    var i := items[at];
    items[at := i.(children := i.children[part := next])][Below(at, part) := Item(next, map[], EMPTY)]
  }

  lemma NoSuchNode(items: Items, at: seq<string>, part: string)
    requires Upwards(items) && at in items && part !in items[at].children
    ensures Below(at, part) !in items
  {
    var q := Below(at, part);
    assert q[..|q| - 1] == at && q[|q| - 1] == part;
    assert q in items ==> HasParent(items, q);
  }

  lemma UpwardsMore(items: Items, at: seq<string>, part: string, next: Node)
    requires Upwards(items) && at in items && Below(at, part) !in items
    ensures Upwards(WithChild(items, at, part, next))
  {
    var q := Below(at, part);
    assert q[..|q| - 1] == at && q[|q| - 1] == part;
    forall p | p in WithChild(items, at, part, next) ensures HasParent(WithChild(items, at, part, next), p) {
      if p != q { assert HasParent(items, p); }
    }
  }

  lemma DownwardsMore(items: Items, at: seq<string>, part: string, next: Node)
    requires Downwards(items) && at in items && Below(at, part) !in items
    ensures Downwards(WithChild(items, at, part, next))
  {
    var more := WithChild(items, at, part, next);
    forall p, s | p in more && s in more[p].children
      ensures Below(p, s) in more && more[p].children[s] == more[Below(p, s)].node
    {
      if p == at && s == part {
      } else {
        assert p in items && s in items[p].children;
      }
    }
  }

  lemma ApartMore(items: Items, at: seq<string>, part: string, next: Node)
    requires Apart(items) && at in items && forall p :: p in items ==> items[p].node != next
    ensures Apart(WithChild(items, at, part, next))
  {
    hide Below;
  }

  lemma LinkedMore(root: Node, items: Items, at: seq<string>, part: string, next: Node)
    requires Linked(root, items) && at in items && part !in items[at].children
    requires forall p :: p in items ==> items[p].node != next
    ensures Below(at, part) !in items
    ensures Linked(root, WithChild(items, at, part, next))
  {
    hide Apart, Upwards, Downwards, Below;
    NoSuchNode(items, at, part);
    UpwardsMore(items, at, part, next);
    DownwardsMore(items, at, part, next);
    ApartMore(items, at, part, next);
  }

  lemma TableMore(items: Items, at: seq<string>, part: string, next: Node)
    requires at in items && Below(at, part) !in items
    ensures TableOf(WithChild(items, at, part, next)) == TableOf(items)[Below(at, part) := EMPTY]
  {
  }

  /** A target below a segment list. */
  function Onto(at: seq<string>, t: Target): Target { Target(at + t.segments, t.kind) }

  lemma ParseStarts(uri: string)
    ensures Parse(uri) == Onto([], Walk("", uri[0..]))
  {
    assert uri[0..] == uri;
  }

  lemma WalkOn(begun: string, rest: string)
    requires rest != "" && rest[0] != '/'
    ensures Walk(begun, rest) == Walk(begun + [rest[0]], rest[1..])
  {
  }

  /** At a slash, or at the end, with the part that has been begun. */
  lemma WalkAtEnd(at: seq<string>, begun: string, rest: string)
    requires rest == "" || rest[0] == '/'
    ensures begun == "" && rest != "" ==> Onto(at, Walk(begun, rest)) == Onto(at, Walk("", rest[1..]))
    ensures begun != "" && rest != "" ==> Onto(at, Walk(begun, rest)) == Onto(Below(at, begun), Walk("", rest[1..]))
    ensures rest == "" ==> Onto(at, Walk(begun, rest)) == (if begun == "" then Target(at, Page)
                                                           else if begun[0] == '+' then Target(at, KindOf(begun))
                                                           else Target(Below(at, begun), Page))
  {
    assert at + [] == at;
    if begun != "" && rest != "" {
      assert at + ([begun] + Walk("", rest[1..]).segments) == Below(at, begun) + Walk("", rest[1..]).segments;
    }
  }

  function WithEntry(items: Items, at: seq<string>, e: Entry): Items
    requires at in items
  {
    items[at := items[at].(entry := e)]
  }

  lemma EntryChanges(root: Node, items: Items, at: seq<string>, e: Entry)
    requires at in items && Linked(root, items)
    ensures TableOf(WithEntry(items, at, e)) == TableOf(items)[at := e]
    ensures Linked(root, WithEntry(items, at, e))
  {
    hide Apart, Upwards, Downwards;
    EntryApart(items, at, e);
    EntryUpwards(items, at, e);
    EntryDownwards(items, at, e);
  }

  lemma EntryApart(items: Items, at: seq<string>, e: Entry)
    requires at in items && Apart(items)
    ensures Apart(WithEntry(items, at, e))
  {
  }

  lemma EntryUpwards(items: Items, at: seq<string>, e: Entry)
    requires at in items && Upwards(items)
    ensures Upwards(WithEntry(items, at, e))
  {
    var more := WithEntry(items, at, e);
    forall p | p in more ensures HasParent(more, p) { assert HasParent(items, p); }
  }

  lemma EntryDownwards(items: Items, at: seq<string>, e: Entry)
    requires at in items && Downwards(items)
    ensures Downwards(WithEntry(items, at, e))
  {
    hide Below;
    var more := WithEntry(items, at, e);
    forall p, s | p in more && s in more[p].children
      ensures Below(p, s) in more && more[p].children[s] == more[Below(p, s)].node
    {
      assert p in items && s in items[p].children;
    }
  }

  lemma NothingAdded(t: Table)
    requires [] in t
    ensures AddPrefixes(t, []) == t
  {
    var none: seq<string> := [];
    assert none[..0] == none;
    assert Prefixes(none) == {none};
  }

  /** One more part of a uri. */
  lemma Passed(t: Table, items: Items, at: seq<string>, part: string, next: Node)
    requires at in items && TableOf(items) == AddPrefixes(t, at)
    ensures Below(at, part) in items ==> TableOf(items) == AddPrefixes(t, Below(at, part))
    ensures Below(at, part) !in items ==> TableOf(WithChild(items, at, part, next)) == AddPrefixes(t, Below(at, part))
  {
    PrefixesMore(t, at, part);
    if Below(at, part) !in items { TableMore(items, at, part, next); }
    hide AddPrefixes;
  }

  class Site {
    const root: Node
    ghost var items: Items

    ghost predicate Agrees(i: Item)
      reads i.node
    {
      i.node.children == i.children && i.node.Contents() == i.entry
    }

    ghost function Nodes(): set<Node>
      reads `items
    {
      set p | p in items :: items[p].node
    }

    ghost predicate Valid()
      reads `items, Nodes()
    {
      Linked(root, items) && forall p :: p in items ==> Agrees(items[p])
    }

    constructor ()
      ensures Valid() && fresh(root) && Nodes() == {root} && TableOf(items) == map[[] := EMPTY]
    {
      root := new Node();
      items := map[[] := Item(root, map[], EMPTY)];
    }

    /** The child a part leads to, made if there is none. */
    method Descend(cur: Node, ghost at: seq<string>, part: string) returns (next: Node)
      requires Valid() && at in items && items[at].node == cur
      modifies `items, cur`children
      ensures Valid() && Below(at, part) in items && items[Below(at, part)].node == next
      ensures items == if Below(at, part) in old(items) then old(items) else WithChild(old(items), at, part, next)
      ensures items == old(items) || fresh(next)
    {
      hide Linked, Below;
      ChildIs(at, part);
      if part !in cur.children {
        next := new Node();
        AddChild(cur, at, part, next);
      } else {
        next := cur.children[part];
      }
    }

    method AddChild(cur: Node, ghost at: seq<string>, part: string, next: Node)
      requires Valid() && at in items && items[at].node == cur && part !in cur.children
      requires next.children == map[] && next.Contents() == EMPTY && forall p :: p in items ==> items[p].node != next
      modifies `items, cur`children
      ensures Valid() && items == WithChild(old(items), at, part, next)
    {
      hide Linked, Below;
      LinkedMore(root, items, at, part, next);
      NodesApart(at);
      assert Agrees(items[at]);
      cur.children := cur.children[part := next];
      items := WithChild(items, at, part, next);
    }

    lemma ChildIs(at: seq<string>, part: string)
      requires Valid() && at in items
      ensures part in items[at].node.children <==> Below(at, part) in items
      ensures part in items[at].node.children ==> items[at].node.children[part] == items[Below(at, part)].node
    {
      assert Agrees(items[at]);
      if part !in items[at].children { NoSuchNode(items, at, part); }
    }

    /** At a node of the trie, with the prefixes up to it added to a table. */
    ghost predicate Stands(cur: Node, at: seq<string>, t: Table)
      reads `items, Nodes()
    {
      Valid() && at in items && items[at].node == cur && TableOf(items) == AddPrefixes(t, at)
    }

    /** One part of a uri: t is the table before it. */
    method Step(cur: Node, ghost at: seq<string>, part: string, ghost t: Table) returns (next: Node)
      requires Stands(cur, at, t)
      modifies `items, cur`children
      ensures Stands(next, Below(at, part), t) && fresh(Nodes() - old(Nodes()))
    {
      hide Linked, Below, TableOf, AddPrefixes;
      ghost var before := items;
      next := Descend(cur, at, part);
      Passed(t, before, at, part, next);
    }

    lemma RootStands()
      requires Valid()
      ensures Stands(root, [], TableOf(items))
    {
      NothingAdded(TableOf(items));
    }

    lemma StandsIn(cur: Node, at: seq<string>, t: Table)
      requires Stands(cur, at, t)
      ensures cur in Nodes()
    {
    }

    method VisitNode(cur: Node, m: string, i: nat, layers0: seq<Handler>, statics0: Option<Folder>, staticsLength0: nat,
        error0: Option<Handler>, errorDepth0: nat)
        returns (layers: seq<Handler>, statics: Option<Folder>, staticsLength: nat,
          error: Option<Handler>, errorDepth: nat)
      ensures Collected(layers, statics, staticsLength, error, errorDepth)
           == Visit(Collected(layers0, statics0, staticsLength0, error0, errorDepth0), cur.Contents(), m, i)
    {
      layers, statics, staticsLength, error, errorDepth := layers0, statics0, staticsLength0, error0, errorDepth0;
      if m in cur.statics {
        statics := Some(cur.statics[m]);
        staticsLength := i;
      }
      if m in cur.layers {
        layers := layers + [cur.layers[m]];
      }
      if m in cur.errors {
        error := Some(cur.errors[m]);
        errorDepth := |layers|;
      }
    }

    lemma TableClosed()
      requires Valid()
      ensures PrefixClosed(TableOf(items))
    {
      forall p | p in TableOf(items) && p != [] ensures p[..|p| - 1] in TableOf(items) { assert HasParent(items, p); }
    }

    /** A node of the trie, as the table has it. */
    lemma NodeIs(at: seq<string>)
      requires Valid() && at in items
      ensures at in TableOf(items) && items[at].node.Contents() == TableOf(items)[at]
      ensures items[at].node.children == map[] <==> !HasChild(TableOf(items), at)
    {
      hide Linked;
      assert Agrees(items[at]);
      if s :| s in items[at].node.children {
        ChildIs(at, s);
        assert Below(at, s) in TableOf(items) && at <= Below(at, s);
      }
      if HasChild(TableOf(items), at) {
        var q :| q in TableOf(items) && |q| == |at| + 1 && at <= q;
        assert q == Below(at, q[|at|]);
        ChildIs(at, q[|at|]);
      }
    }

    lemma WalkStarts(m: string, path: seq<string>)
      requires Valid()
      ensures path[..0] in items && items[path[..0]].node == root
      ensures CollectedBefore(TableOf(items), m, path, 0) == NOTHING
    {
      assert path[..0] == [];
    }

    lemma NothingNext(path: seq<string>, i: nat)
      requires Valid() && i <= |path| && path[..i] in items && items[path[..i]].node.children == map[]
      ensures if i < |path| then path[..i + 1] !in TableOf(items) else !HasChild(TableOf(items), path[..i])
    {
      NodeIs(path[..i]);
      if i < |path| { NextIs(path, i); }
    }

    lemma NextIs(path: seq<string>, i: nat)
      requires Valid() && i < |path| && path[..i] in items
      ensures path[i] in items[path[..i]].node.children <==> path[..i + 1] in items
      ensures path[..i + 1] in items <==> path[..i + 1] in TableOf(items)
      ensures path[..i + 1] in items ==> items[path[..i]].node.children[path[i]] == items[path[..i + 1]].node
    {
      hide Linked;
      assert Below(path[..i], path[i]) == path[..i + 1];
      ChildIs(path[..i], path[i]);
    }

    lemma NodesApart(at: seq<string>)
      requires Valid() && at in items
      ensures forall p :: p in items && p != at ==> items[p].node != items[at].node
    {
    }

    /** The node a uri leads to, made with all nodes on the way. */
    method BuildUriPart(uri: string) returns (cur: Node, kind: Kind, ghost at: seq<string>)
      requires Valid() && '[' !in uri
      modifies `items, Nodes()`children
      ensures Stands(cur, at, TableOf(old(items))) && Target(at, kind) == Parse(uri) && fresh(Nodes() - old(Nodes()))
    {
      hide Linked, Below, TableOf, AddPrefixes, Walk, KindOf, Parse, Stands;
      cur, kind, at := root, Page, [];
      RootStands();
      ParseStarts(uri);
      var buff, i := "", 0;
      while i <= |uri|
        invariant Stands(cur, at, TableOf(old(items))) && i <= |uri| + 1
        invariant Parse(uri) == if i <= |uri| then Onto(at, Walk(buff, uri[i..])) else Target(at, Page)
        invariant fresh(Nodes() - old(Nodes()))
      {
        var isLastPart := i == |uri|;
        if isLastPart || uri[i] == '/' {
          WalkAtEnd(at, buff, uri[i..]);
          if buff != "" {
            if buff[0] == '+' && isLastPart {
              kind := SpecialPage(buff);
              break;
            }
            StandsIn(cur, at, TableOf(old(items)));
            cur := Step(cur, at, buff, TableOf(old(items)));
            at := Below(at, buff);
            buff := "";
          }
        } else {
          WalkOn(buff, uri[i..]);
          buff := buff + [uri[i]];
        }
        i := i + 1;
      }
    }

    method SpecialPage(part: string) returns (kind: Kind)
      ensures kind == KindOf(part)
    {
      kind := Page;
      if part == "+error" {
        kind := ErrorPage;
      } else if part == "+layer" {
        kind := Layer;
      }
    }

    /** The switch of set_handler. */
    method Put(cur: Node, kind: Kind, m: string, h: Handler) returns (ok: bool)
      modifies cur`handlers, cur`errors, cur`layers
      ensures ok == (m !in ByKind(old(cur.Contents()), kind))
      ensures cur.Contents() == if ok then WithKind(old(cur.Contents()), kind, m, h) else old(cur.Contents())
    {
      match kind {
        case Page =>
          if m in cur.handlers { return false; }
          cur.handlers := cur.handlers[m := h];
        case ErrorPage =>
          if m in cur.errors { return false; }
          cur.errors := cur.errors[m := h];
        case Layer =>
          if m in cur.layers { return false; }
          cur.layers := cur.layers[m := h];
      }
      return true;
    }

    /** Takes over what has been registered at a node. */
    ghost method Record(cur: Node, at: seq<string>)
      requires Linked(root, items) && at in items && items[at].node == cur && cur.children == items[at].children
      requires forall p :: p in items && p != at ==> items[p].node != cur && Agrees(items[p])
      modifies `items
      ensures Valid() && Nodes() == old(Nodes()) && TableOf(items) == TableOf(old(items))[at := cur.Contents()]
    {
      hide Linked, TableOf;
      ghost var before := items;
      EntryChanges(root, before, at, cur.Contents());
      items := WithEntry(before, at, cur.Contents());
      assert forall p :: p in items <==> p in before;
      assert forall p :: p in items ==> items[p].node == before[p].node;
    }

    /** set_handler for a handler. */
    method SetHandler(m: string, uri: string, h: Handler) returns (r: Result<(), Error>)
      requires Valid() && '[' !in uri
      modifies `items, Nodes()
      ensures Valid() && (TableOf(items), r) == Register(TableOf(old(items)), m, uri, h)
      ensures fresh(Nodes() - old(Nodes()))
    {
      hide Linked, TableOf, AddPrefixes, Parse, ByKind, WithKind;
      ghost var t := TableOf(items);
      var cur, kind, at := BuildUriPart(uri);
      EntryIs(cur, at, t);
      var ok := Put(cur, kind, m, h);
      if !ok { return Err(DuplicateMethod); }
      Record(cur, at);
      return Ok(());
    }

    /** set_handler for a folder. */
    method SetStatic(m: string, uri: string, folder: Folder) returns (r: Result<(), Error>)
      requires Valid() && '[' !in uri
      modifies `items, Nodes()
      ensures Valid() && (TableOf(items), r) == RegisterStatic(TableOf(old(items)), m, uri, folder)
      ensures fresh(Nodes() - old(Nodes()))
    {
      hide Linked, TableOf, AddPrefixes, Parse;
      ghost var t := TableOf(items);
      var cur, kind, at := BuildUriPart(uri);
      EntryIs(cur, at, t);
      if kind != Page { return Err(SpecialStatic); }
      if m in cur.statics { return Err(DuplicateMethod); }
      cur.statics := cur.statics[m := folder];
      Record(cur, at);
      return Ok(());
    }

    lemma EntryIs(cur: Node, at: seq<string>, t: Table)
      requires Stands(cur, at, t)
      ensures at in AddPrefixes(t, at) && cur.Contents() == AddPrefixes(t, at)[at] && cur in Nodes()
      ensures forall p :: p in items && p != at ==> items[p].node != cur
    {
      assert at in TableOf(items) && TableOf(items)[at] == items[at].entry;
      assert Agrees(items[at]);
    }

    /** get_handler: divided is where the query part of the path starts, if there is one. */
    method GetHandler(m: string, path: seq<string>, divided: Option<nat>) returns (found: Found)
      requires Valid()
      ensures found == Lookup(TableOf(items), m, path, divided.GetOr(|path|))
    {
      hide Linked, TableOf, CollectedTo, CollectedBefore, Lookup, Visit, HasChild;
      ghost var t := TableOf(items);
      var cur, i, notFound := root, 0, false;
      var layers: seq<Handler>, statics: Option<Folder>, staticsLength: nat := [], None, 0;
      var error: Option<Handler>, errorDepth: nat := None, 0;
      var pathSize := divided.GetOr(|path|);
      TableClosed();
      WalkStarts(m, path);
      while true
        invariant i <= pathSize && i <= |path| && path[..i] in items && items[path[..i]].node == cur
        invariant Collected(layers, statics, staticsLength, error, errorDepth) == CollectedBefore(t, m, path, i)
        decreases pathSize - i
      {
        NodeIs(path[..i]);
        VisitCollects(t, m, path, i);
        layers, statics, staticsLength, error, errorDepth :=
          VisitNode(cur, m, i, layers, statics, staticsLength, error, errorDepth);
        if i == pathSize {
          WalkEnds(t, m, path, pathSize);
          break;
        }
        if cur.children == map[] {
          NothingNext(path, i);
          WalkLeaves(t, m, path, pathSize, i);
          notFound := true;
          break;
        }
        if i >= |path| {
          WalkThrows(t, m, path, pathSize);
          return Found(None, layers, statics, staticsLength, error, []);
        }
        NextIs(path, i);
        if path[i] !in cur.children {
          WalkLeaves(t, m, path, pathSize, i);
          notFound := true;
          break;
        }
        MoreCollected(t, m, path, i);
        cur := cur.children[path[i]];
        i := i + 1;
      }
      found := Found(None, layers, statics, staticsLength, error, layers[..errorDepth]);
      if notFound {
        return;
      }
      if m in cur.handlers {
        found := Found(Some(cur.handlers[m]), layers, statics, staticsLength, error, layers[..errorDepth]);
      }
    }
  }
}
