/**
  Read and write policy (internal/access/access.go): which work items and feed
  items a token may see, from its scopes and the relation graph.
 */
module Access {
  import opened CanonicalJson
  import opened Options
  import opened TreeWalk
  import Strings
  import Uuids

  datatype Source = Human | Agent | System

  datatype Token = Token(id: Node, root: bool, revoked: bool, source: Source, scopes: seq<string>)

  const READ: string := "work_items.read"
  const READ_ALL: string := "work_items.read_all"
  const WRITE: string := "work_items.write"
  const WRITE_ALL: string := "work_items.write_all"
  const FEED_READ: string := "feed.read"
  const FEED_READ_ASSIGNED: string := "feed.read_assigned"
  const TREE_PREFIX: string := "work_items.tree:"

  // ----------------------------------------------------------------- scopes

  /** `hasScope`. */
  predicate HasScope(t: Token, scope: string) {
    exists i :: 0 <= i < |t.scopes| && Strings.TrimSpace(t.scopes[i]) == scope
  }

  /** `legacyUnscoped`: a token without any scope predates scopes and is not restricted by them. */
  predicate Unscoped(t: Token) {
    forall i :: 0 <= i < |t.scopes| ==> Strings.TrimSpace(t.scopes[i]) == ""
  }

  function TreeRoot(scope: string): (root: Option<seq<Byte>>)
    ensures root.Some? ==> |root.value| == 16
  {
    var raw := Strings.TrimSpace(scope);
    if TREE_PREFIX <= raw && Uuids.Parse(raw[|TREE_PREFIX|..]).Some? && Uuids.Parse(raw[|TREE_PREFIX|..]).value != Uuids.NIL
    then Uuids.Parse(raw[|TREE_PREFIX|..])
    else None
  }

  /** `workItemTreeRoots`, and `parentTreeRoots` in the grants package. */
  function TreeRoots(scopes: seq<string>): (roots: seq<Node>) {
    if scopes == [] then []
    else
      var rest := TreeRoots(scopes[1..]);
      if TreeRoot(scopes[0]).Some? then [TreeRoot(scopes[0]).value] + rest else rest
  }

  lemma {:induction false} TreeRootsAre(scopes: seq<string>, root: Node)
    ensures root in TreeRoots(scopes) <==> exists i :: 0 <= i < |scopes| && TreeRoot(scopes[i]) == Some(root)
  {
    if scopes != [] {
      var rest := scopes[1..];
      TreeRootsAre(rest, root);
      if exists i :: 0 <= i < |scopes| && TreeRoot(scopes[i]) == Some(root) {
        var i :| 0 <= i < |scopes| && TreeRoot(scopes[i]) == Some(root);
        assert i > 0 ==> TreeRoot(rest[i - 1]) == Some(root);
      }
      if exists i :: 0 <= i < |rest| && TreeRoot(rest[i]) == Some(root) {
        var i :| 0 <= i < |rest| && TreeRoot(rest[i]) == Some(root);
        assert TreeRoot(scopes[i + 1]) == Some(root);
      }
    }
  }

  // ----------------------------------------------------------------- policy

  predicate ReadsAnything(t: Token) {
    t.root || Unscoped(t) || HasScope(t, READ_ALL) || HasScope(t, WRITE_ALL)
  }

  predicate WritesAnything(t: Token) {
    t.root || Unscoped(t) || HasScope(t, WRITE_ALL)
  }

  predicate FeedsAnything(t: Token) {
    t.root || Unscoped(t) || HasScope(t, FEED_READ)
  }

  /** `canReadWorkItems` on a token that does not read everything. */
  predicate ReadsTrees(t: Token) {
    HasScope(t, READ) || HasScope(t, READ_ALL) || HasScope(t, WRITE) || HasScope(t, WRITE_ALL)
  }

  predicate WritesTrees(t: Token) {
    HasScope(t, WRITE) || HasScope(t, WRITE_ALL)
  }

  ghost predicate InAnyTree(g: Graph, t: Token, id: Node) {
    AnyReaches(g, TreeRoots(t.scopes), id)
  }

  /** `CanReadWorkItem`. */
  ghost predicate CanRead(g: Graph, t: Token, id: Node) {
    ReadsAnything(t) || (ReadsTrees(t) && InAnyTree(g, t, id))
  }

  /** `CanWriteWorkItem`. */
  ghost predicate CanWrite(g: Graph, t: Token, id: Node) {
    WritesAnything(t) || (WritesTrees(t) && InAnyTree(g, t, id))
  }

  /** A feed item by the work items it hinges on: shown when any of them is in a tree of the token. */
  ghost predicate FeedShows(g: Graph, t: Token, anchors: seq<Node>) {
    || FeedsAnything(t)
    || (HasScope(t, FEED_READ_ASSIGNED) && exists i :: 0 <= i < |anchors| && InAnyTree(g, t, anchors[i]))
  }

  /** A scope is carried by a token whatever space is around it as stored. */
  ghost predicate Carries(t: Token, scope: string) {
    exists s :: s in t.scopes && Strings.TrimSpace(s) == scope
  }

  /** A tree scope of the token, as written, whose root the work item can be reached from. */
  ghost predicate UnderScope(g: Graph, t: Token, scope: string, text: string, id: Node) {
    && scope in t.scopes && Strings.TrimSpace(scope) == "work_items.tree:" + text
    && Uuids.Parse(text).Some? && Uuids.Parse(text).value != Uuids.NIL && Reaches(g, Uuids.Parse(text).value, id)
  }

  ghost predicate InSomeTree(g: Graph, t: Token, id: Node) {
    exists scope, text :: UnderScope(g, t, scope, text, id)
  }

  lemma CarriesIff(t: Token, scope: string)
    ensures HasScope(t, scope) <==> Carries(t, scope)
  {
    if HasScope(t, scope) {
      var i :| 0 <= i < |t.scopes| && Strings.TrimSpace(t.scopes[i]) == scope;
      assert t.scopes[i] in t.scopes;
    }
  }

  lemma SomeScope(g: Graph, t: Token, id: Node) returns (scope: string, text: string)
    requires InAnyTree(g, t, id)
    ensures UnderScope(g, t, scope, text, id)
  {
    var roots := TreeRoots(t.scopes);
    var i :| 0 <= i < |roots| && Reaches(g, roots[i], id);
    TreeRootsAre(t.scopes, roots[i]);
    var k :| 0 <= k < |t.scopes| && TreeRoot(t.scopes[k]) == Some(roots[i]);
    scope := t.scopes[k];
    text := Strings.TrimSpace(scope)[|TREE_PREFIX|..];
    assert Strings.TrimSpace(scope) == TREE_PREFIX + text;
  }

  lemma ScopeCounts(g: Graph, t: Token, scope: string, text: string, id: Node)
    requires UnderScope(g, t, scope, text, id)
    ensures InAnyTree(g, t, id)
  {
    assert (TREE_PREFIX + text)[|TREE_PREFIX|..] == text;
    var k :| 0 <= k < |t.scopes| && t.scopes[k] == scope;
    var root := Uuids.Parse(text).value;
    TreeRootsAre(t.scopes, root);
    var roots := TreeRoots(t.scopes);
    var i :| 0 <= i < |roots| && roots[i] == root;
    assert Reaches(g, roots[i], id);
  }

  lemma InSomeTreeIff(g: Graph, t: Token, id: Node)
    ensures InAnyTree(g, t, id) <==> InSomeTree(g, t, id)
  {
    if InAnyTree(g, t, id) {
      var scope, text := SomeScope(g, t, id);
    }
    if scope, text :| UnderScope(g, t, scope, text, id) {
      ScopeCounts(g, t, scope, text, id);
    }
  }

  /**
    What each scope allows: a root token and one without scopes everything, the
    `_all` scopes everything of their kind, and the plain scopes what is in a
    tree of the token; a write scope also reads.
   */
  lemma ScopesAllow(g: Graph, t: Token, id: Node)
    ensures CanRead(g, t, id) <==>
              || t.root || (forall s :: s in t.scopes ==> Strings.TrimSpace(s) == "")
              || Carries(t, "work_items.read_all") || Carries(t, "work_items.write_all")
              || ((Carries(t, "work_items.read") || Carries(t, "work_items.write")) && InSomeTree(g, t, id))
    ensures CanWrite(g, t, id) <==>
              || t.root || (forall s :: s in t.scopes ==> Strings.TrimSpace(s) == "") || Carries(t, "work_items.write_all")
              || (Carries(t, "work_items.write") && InSomeTree(g, t, id))
  {
    CarriesIff(t, READ);
    CarriesIff(t, READ_ALL);
    CarriesIff(t, WRITE);
    CarriesIff(t, WRITE_ALL);
    InSomeTreeIff(g, t, id);
  }

  lemma FeedScopesAllow(g: Graph, t: Token, anchors: seq<Node>)
    ensures FeedShows(g, t, anchors) <==>
              || t.root || (forall s :: s in t.scopes ==> Strings.TrimSpace(s) == "") || Carries(t, "feed.read")
              || (Carries(t, "feed.read_assigned") && exists id :: id in anchors && InSomeTree(g, t, id))
  {
    CarriesIff(t, FEED_READ);
    CarriesIff(t, FEED_READ_ASSIGNED);
    forall id ensures InAnyTree(g, t, id) <==> InSomeTree(g, t, id) {
      InSomeTreeIff(g, t, id);
    }
    if i :| 0 <= i < |anchors| && InAnyTree(g, t, anchors[i]) {
      assert anchors[i] in anchors && InSomeTree(g, t, anchors[i]);
    }
  }

  // ------------------------------------------------------------ batch checks

  function Elements<T>(s: seq<T>): (t: set<T>) {
    set x | x in s
  }

  /** `workItemsInAnyTree`: one walk over all roots answers for every candidate. */
  method InAnyTrees(g: Graph, t: Token, ids: seq<Node>) returns (visible: set<Node>)
    ensures forall id :: id in visible <==> id in ids && InAnyTree(g, t, id)
  {
    var roots := TreeRoots(t.scopes);
    if roots == [] || ids == [] {
      return {};
    }
    var subtree := Subtree(g, Elements(roots));
    visible := set id | id in ids && id in subtree;
    forall id | id in ids ensures id in subtree <==> InAnyTree(g, t, id) {
      FromSome(g, roots, id);
    }
  }

  lemma FromSome(g: Graph, roots: seq<Node>, id: Node)
    ensures ReachedFrom(g, Elements(roots), id) <==> AnyReaches(g, roots, id)
  {
    if ReachedFrom(g, Elements(roots), id) {
      var r :| r in Elements(roots) && Reaches(g, r, id);
      var i :| 0 <= i < |roots| && roots[i] == r;
      assert Reaches(g, roots[i], id);
    }
    if AnyReaches(g, roots, id) {
      var i :| 0 <= i < |roots| && Reaches(g, roots[i], id);
      assert roots[i] in Elements(roots);
    }
  }

  /** The items that pass the single-item check, in order. */
  ghost function Readable(g: Graph, t: Token, items: seq<Node>): (out: seq<Node>) {
    if items == [] then []
    else
      var last := items[|items| - 1];
      var before := Readable(g, t, items[..|items| - 1]);
      if CanRead(g, t, last) then before + [last] else before
  }

  lemma ReadableNext(g: Graph, t: Token, items: seq<Node>, k: nat)
    requires k < |items|
    ensures Readable(g, t, items[..k + 1])
            == if CanRead(g, t, items[k]) then Readable(g, t, items[..k]) + [items[k]] else Readable(g, t, items[..k])
  {
    assert items[..k + 1][..k] == items[..k];
  }

  lemma {:induction false} AllReadable(g: Graph, t: Token, items: seq<Node>)
    requires ReadsAnything(t)
    ensures Readable(g, t, items) == items
  {
    if items != [] {
      AllReadable(g, t, items[..|items| - 1]);
      assert items == items[..|items| - 1] + [items[|items| - 1]];
    }
  }

  lemma {:induction false} NoneReadable(g: Graph, t: Token, items: seq<Node>)
    requires !ReadsAnything(t) && !ReadsTrees(t)
    ensures Readable(g, t, items) == []
  {
    if items != [] {
      NoneReadable(g, t, items[..|items| - 1]);
    }
  }

  /** `FilterWorkItems`: the batch filter keeps exactly the items that pass `CanReadWorkItem`, in order. */
  method FilterWorkItems(g: Graph, t: Token, items: seq<Node>) returns (denied: bool, out: seq<Node>)
    ensures out == Readable(g, t, items)
    ensures denied <==> !ReadsAnything(t) && !ReadsTrees(t)
  {
    if ReadsAnything(t) {
      AllReadable(g, t, items);
      return false, items;
    }
    if !ReadsTrees(t) {
      NoneReadable(g, t, items);
      return true, [];
    }
    var visible := InAnyTrees(g, t, items);
    denied, out := false, [];
    for k := 0 to |items|
      invariant out == Readable(g, t, items[..k])
    {
      ReadableNext(g, t, items, k);
      if items[k] in visible {
        out := out + [items[k]];
      }
    }
    assert items[..|items|] == items;
  }

  /** A feed item and the work items it hinges on. */
  datatype FeedItem = FeedItem(position: int, anchors: seq<Node>)

  /** The feed items the token is to see, in order. */
  ghost function Visible(g: Graph, t: Token, items: seq<FeedItem>): (out: seq<FeedItem>) {
    if items == [] then []
    else
      var last := items[|items| - 1];
      var before := Visible(g, t, items[..|items| - 1]);
      if FeedShows(g, t, last.anchors) then before + [last] else before
  }

  lemma VisibleNext(g: Graph, t: Token, items: seq<FeedItem>, k: nat)
    requires k < |items|
    ensures Visible(g, t, items[..k + 1])
            == if FeedShows(g, t, items[k].anchors) then Visible(g, t, items[..k]) + [items[k]] else Visible(g, t, items[..k])
  {
    assert items[..k + 1][..k] == items[..k];
  }

  function AllAnchors(items: seq<FeedItem>): (ids: seq<Node>) {
    if items == [] then [] else items[0].anchors + AllAnchors(items[1..])
  }

  lemma {:induction false} AnchorsIn(items: seq<FeedItem>, i: nat)
    requires i < |items|
    ensures forall k :: 0 <= k < |items[i].anchors| ==> items[i].anchors[k] in AllAnchors(items)
  {
    if i > 0 {
      AnchorsIn(items[1..], i - 1);
    }
  }

  /** The inner loop of `FilterFeedItems`: it stops at the first visible anchor. */
  method AnyVisible(anchors: seq<Node>, visible: set<Node>) returns (shown: bool)
    ensures shown <==> exists k :: 0 <= k < |anchors| && anchors[k] in visible
  {
    for k := 0 to |anchors|
      invariant forall j :: 0 <= j < k ==> anchors[j] !in visible
    {
      if anchors[k] in visible {
        return true;
      }
    }
    return false;
  }

  /** `FilterFeedItems`: one walk for all anchors keeps exactly the items whose own anchors show them. */
  method FilterFeedItems(g: Graph, t: Token, items: seq<FeedItem>) returns (denied: bool, out: seq<FeedItem>)
    ensures out == Visible(g, t, items)
    ensures denied <==> !FeedsAnything(t) && !HasScope(t, FEED_READ_ASSIGNED)
  {
    if FeedsAnything(t) {
      AllVisible(g, t, items);
      return false, items;
    }
    if !HasScope(t, FEED_READ_ASSIGNED) {
      NoneVisible(g, t, items);
      return true, [];
    }
    var visible := InAnyTrees(g, t, AllAnchors(items));
    denied, out := false, [];
    for k := 0 to |items|
      invariant out == Visible(g, t, items[..k])
    {
      AnchorsIn(items, k);
      VisibleNext(g, t, items, k);
      var shown := AnyVisible(items[k].anchors, visible);
      if shown {
        out := out + [items[k]];
      }
    }
    assert items[..|items|] == items;
  }

  lemma {:induction false} AllVisible(g: Graph, t: Token, items: seq<FeedItem>)
    requires FeedsAnything(t)
    ensures Visible(g, t, items) == items
  {
    if items != [] {
      AllVisible(g, t, items[..|items| - 1]);
      assert items == items[..|items| - 1] + [items[|items| - 1]];
    }
  }

  lemma {:induction false} NoneVisible(g: Graph, t: Token, items: seq<FeedItem>)
    requires !FeedsAnything(t) && !HasScope(t, FEED_READ_ASSIGNED)
    ensures Visible(g, t, items) == []
  {
    if items != [] {
      NoneVisible(g, t, items[..|items| - 1]);
    }
  }
}
