/**
  Delegated grants (internal/grants/reducer.go, internal/grants/service.go).

  `Reduce` decides one request from resolved facts; `Granted` is one issued link
  of a chain, with the facts resolved on the relation graph of that moment.
  `ChainNarrows` is the whole-chain statement: however the graph grows later, no
  token of the chain reads, writes or is fed anything its ancestors are not, and
  a link that can write was approved by a human.
 */
module Grants {
  import opened Access
  import opened Options
  import opened SortedStrings
  import opened TreeWalk
  import Strings
  import Uuids

  datatype Template = SameTreeReadProgress | SameTreeWorker | UnknownTemplate(name: string)

  datatype Review = Blocked | WavedThrough | Approved

  /** `grants.Request`: the parent, what it asks for, and the facts the caller resolved. */
  datatype Request = Request(
    parent: Token,
    template: Template,
    source: Option<Source>,
    treeRoot: Node,
    scopes: seq<string>,
    relation: Relation,
    depth: Option<nat>,
    maxDepth: int,
    review: Review,
    approvalAuthority: bool,
    logsScope: bool)

  datatype Reason =
    | ParentRequired | ParentRevoked | RootDelegation | NotAgent | SourceMustStayAgent | UnscopedParent
    | ApprovalAuthority | LogsVisibility | TreeRootRequired | OutsideAssignment | RelationUnknown | DepthExceeded
    | UnknownGrantTemplate | ScopesNotTemplate | WriteNeedsApproval | NotSubset

  datatype Decision = Grant(scopes: seq<string>) | Deny(reason: Reason) | Escalate(reason: Reason)

  // ----------------------------------------------------------------- scopes

  function TreeScope(root: Node): (s: string) {
    TREE_PREFIX + Uuids.Format(root)
  }

  /** `templateScopeSet`. */
  function TemplateScopes(t: Template, root: Node): (s: Option<seq<string>>) {
    match t
    case SameTreeReadProgress => Some([FEED_READ_ASSIGNED, READ, TreeScope(root)])
    case SameTreeWorker => Some([FEED_READ_ASSIGNED, READ, WRITE, TreeScope(root)])
    case UnknownTemplate(_) => None
  }

  predicate Writes(t: Template) {
    t.SameTreeWorker?
  }

  /** `parentCoversTemplate`, on scopes as they are stored. */
  predicate ParentCovers(parent: seq<string>, grant: seq<string>, root: Node, relation: Relation) {
    && (|| TreeScope(root) in parent
        || (relation.Descendant? && exists i :: 0 <= i < |parent| && TREE_PREFIX <= parent[i]))
    && forall i :: 0 <= i < |grant| ==> Covered(parent, grant[i])
  }

  predicate Covered(parent: seq<string>, scope: string) {
    TREE_PREFIX <= scope || scope in parent || (scope == FEED_READ_ASSIGNED && FEED_READ in parent)
  }

  predicate ContainsLogs(scopes: seq<string>) {
    exists i :: 0 <= i < |scopes| && "logs." <= scopes[i]
  }

  predicate SameScopes(a: seq<string>, b: seq<string>) {
    (forall s :: s in a ==> s in b) && (forall s :: s in b ==> s in a)
  }

  // --------------------------------------------------------------- reducer

  /** `Reduce`: the checks in the order they are made. */
  function Reduce(q: Request): (d: Decision) {
    if q.parent.id == Uuids.NIL then Deny(ParentRequired)
    else if q.parent.revoked then Deny(ParentRevoked)
    else if q.parent.root then Escalate(RootDelegation)
    else if q.parent.source != Agent then Escalate(NotAgent)
    else if q.source.Some? && q.source.value != Agent then Escalate(SourceMustStayAgent)
    else if q.parent.scopes == [] then Escalate(UnscopedParent)
    else if q.approvalAuthority then Escalate(ApprovalAuthority)
    else if q.logsScope || ContainsLogs(q.scopes) then Escalate(LogsVisibility)
    else if q.treeRoot == Uuids.NIL then Deny(TreeRootRequired)
    else if q.relation.Outside? then Escalate(OutsideAssignment)
    else if q.relation.Unknown? then Escalate(RelationUnknown)
    else if q.depth.Some? && q.depth.value > q.maxDepth then Escalate(DepthExceeded)
    else
      match TemplateScopes(q.template, q.treeRoot)
      case None => Deny(UnknownGrantTemplate)
      case Some(scopes) =>
        if q.scopes != [] && !SameScopes(q.scopes, scopes) then Escalate(ScopesNotTemplate)
        else if Writes(q.template) && !q.review.Approved? then Escalate(WriteNeedsApproval)
        else if !ParentCovers(q.parent.scopes, scopes, q.treeRoot, q.relation) then Escalate(NotSubset)
        else Grant(Sort(scopes))
  }

  /** The order in which the checks are made. */
  function Rank(why: Reason): (n: nat) {
    match why
    case ParentRequired => 0
    case ParentRevoked => 1
    case RootDelegation => 2
    case NotAgent => 3
    case SourceMustStayAgent => 4
    case UnscopedParent => 5
    case ApprovalAuthority => 6
    case LogsVisibility => 7
    case TreeRootRequired => 8
    case OutsideAssignment => 9
    case RelationUnknown => 10
    case DepthExceeded => 11
    case UnknownGrantTemplate => 12
    case ScopesNotTemplate => 13
    case WriteNeedsApproval => 14
    case NotSubset => 15
  }

  /** What is refused for good; everything else goes to a human. */
  predicate Denied(why: Reason) {
    why.ParentRequired? || why.ParentRevoked? || why.TreeRootRequired? || why.UnknownGrantTemplate?
  }

  /** The parent holds a tree scope that allows for the root, and the named scopes of the template or the wider feed scope. */
  ghost predicate ParentAllows(q: Request) {
    var held := q.parent.scopes;
    && ("work_items.tree:" + Uuids.Format(q.treeRoot) in held
        || (q.relation == Descendant && exists s :: s in held && "work_items.tree:" <= s))
    && "work_items.read" in held && (q.template == SameTreeWorker ==> "work_items.write" in held)
    && ("feed.read_assigned" in held || "feed.read" in held)
  }

  /** What stands against a request, reason by reason. */
  ghost predicate Against(q: Request, why: Reason) {
    match why
    case ParentRequired => q.parent.id == Uuids.NIL
    case ParentRevoked => q.parent.revoked
    case RootDelegation => q.parent.root
    case NotAgent => q.parent.source == Human || q.parent.source == System
    case SourceMustStayAgent => q.source == Some(Human) || q.source == Some(System)
    case UnscopedParent => q.parent.scopes == []
    case ApprovalAuthority => q.approvalAuthority
    case LogsVisibility => q.logsScope || exists s :: s in q.scopes && "logs." <= s
    case TreeRootRequired => q.treeRoot == Uuids.NIL
    case OutsideAssignment => q.relation == Outside
    case RelationUnknown => q.relation == Unknown
    case DepthExceeded => exists n: nat :: q.depth == Some(n) && n > q.maxDepth
    case UnknownGrantTemplate => q.template.UnknownTemplate?
    case ScopesNotTemplate => q.scopes != [] && exists s :: s in q.scopes <==> !TemplateScope(q.template, q.treeRoot, s)
    case WriteNeedsApproval => q.template == SameTreeWorker && q.review != Approved
    case NotSubset => !ParentAllows(q)
  }

  lemma AgainstLogs(q: Request)
    ensures Against(q, LogsVisibility) <==> q.logsScope || ContainsLogs(q.scopes)
  {
    if i :| 0 <= i < |q.scopes| && "logs." <= q.scopes[i] {
      assert q.scopes[i] in q.scopes;
    }
    if s :| s in q.scopes && "logs." <= s {
      var i :| 0 <= i < |q.scopes| && q.scopes[i] == s;
    }
  }

  lemma AgainstScopes(q: Request)
    requires !q.template.UnknownTemplate?
    ensures Against(q, ScopesNotTemplate)
            <==> q.scopes != [] && !SameScopes(q.scopes, TemplateScopes(q.template, q.treeRoot).value)
  {
    var scopes := TemplateScopes(q.template, q.treeRoot).value;
    forall s ensures s in scopes <==> TemplateScope(q.template, q.treeRoot, s) {
      TemplateScopeIn(q.template, q.treeRoot, s);
    }
  }

  lemma AgainstSubset(q: Request)
    requires !q.template.UnknownTemplate?
    ensures Against(q, NotSubset)
            <==> !ParentCovers(q.parent.scopes, TemplateScopes(q.template, q.treeRoot).value, q.treeRoot, q.relation)
  {
    NotTreeScopes();
    var held, scopes := q.parent.scopes, TemplateScopes(q.template, q.treeRoot).value;
    forall s ensures s in scopes <==> TemplateScope(q.template, q.treeRoot, s) {
      TemplateScopeIn(q.template, q.treeRoot, s);
    }
    TreeHeld(held);
    assert (forall i :: 0 <= i < |scopes| ==> Covered(held, scopes[i])) <==> (forall s :: s in scopes ==> Covered(held, s));
    assert Covered(held, READ) <==> READ in held;
    assert Covered(held, WRITE) <==> WRITE in held;
    assert Covered(held, FEED_READ_ASSIGNED) <==> FEED_READ_ASSIGNED in held || FEED_READ in held;
    assert Covered(held, TreeScope(q.treeRoot));
    assert READ in scopes && FEED_READ_ASSIGNED in scopes && (q.template.SameTreeWorker? ==> WRITE in scopes) by {
      assert TemplateScope(q.template, q.treeRoot, READ) && TemplateScope(q.template, q.treeRoot, FEED_READ_ASSIGNED);
      assert q.template.SameTreeWorker? ==> TemplateScope(q.template, q.treeRoot, WRITE);
    }
  }

  lemma TreeHeld(held: seq<string>)
    ensures (exists i :: 0 <= i < |held| && TREE_PREFIX <= held[i]) <==> exists s :: s in held && TREE_PREFIX <= s
  {
    if i :| 0 <= i < |held| && TREE_PREFIX <= held[i] {
      assert held[i] in held;
    }
    if s :| s in held && TREE_PREFIX <= s {
      var i :| 0 <= i < |held| && held[i] == s;
    }
  }

  /** The reducer's own conditions, reason by reason. */
  lemma ChecksAre(q: Request)
    requires !q.template.UnknownTemplate?
    ensures (q.scopes != [] && !SameScopes(q.scopes, TemplateScopes(q.template, q.treeRoot).value)) <==> Against(q, ScopesNotTemplate)
    ensures (q.logsScope || ContainsLogs(q.scopes)) <==> Against(q, LogsVisibility)
    ensures ParentCovers(q.parent.scopes, TemplateScopes(q.template, q.treeRoot).value, q.treeRoot, q.relation)
            <==> !Against(q, NotSubset)
  {
    AgainstLogs(q);
    AgainstScopes(q);
    AgainstSubset(q);
  }

  /** The first check with something against the request decides, and it denies or escalates by what it is. */
  lemma FirstAgainst(q: Request, why: Reason)
    requires Against(q, why) && forall earlier :: Rank(earlier) < Rank(why) ==> !Against(q, earlier)
    ensures Reduce(q) == if Denied(why) then Deny(why) else Escalate(why)
  {
    AgainstLogs(q);
    EarlierParent(q, Rank(why));
    EarlierTarget(q, Rank(why));
    EarlierTemplate(q, Rank(why));
    if Rank(why) > 12 {
      ChecksAre(q);
    }
  }

  /** A request is granted exactly when nothing is against it. */
  lemma GrantedIff(q: Request)
    ensures Reduce(q).Grant? <==> forall why :: !Against(q, why)
  {
    if why :| Against(q, why) {
      var first := Foremost(q, why);
      FirstAgainst(q, first);
    } else {
      EarlierParent(q, 16);
      EarlierTarget(q, 16);
      EarlierTemplate(q, 16);
      ChecksAre(q);
    }
  }

  lemma {:induction false} Foremost(q: Request, why: Reason) returns (first: Reason)
    requires Against(q, why)
    ensures Against(q, first) && forall earlier :: Rank(earlier) < Rank(first) ==> !Against(q, earlier)
    decreases Rank(why)
  {
    if earlier :| Rank(earlier) < Rank(why) && Against(q, earlier) {
      first := Foremost(q, earlier);
    } else {
      first := why;
    }
  }

  /** What nothing against the first n checks says of the request: the parent, then the target, then the template. */
  lemma EarlierParent(q: Request, n: nat)
    requires forall earlier :: Rank(earlier) < n ==> !Against(q, earlier)
    ensures n > 0 ==> q.parent.id != Uuids.NIL
    ensures n > 1 ==> !q.parent.revoked
    ensures n > 2 ==> !q.parent.root
    ensures n > 3 ==> q.parent.source == Agent
    ensures n > 4 ==> q.source.None? || q.source.value == Agent
    ensures n > 5 ==> q.parent.scopes != []
  {
    assert Rank(ParentRequired) == 0 && Rank(ParentRevoked) == 1 && Rank(RootDelegation) == 2 && Rank(NotAgent) == 3;
    assert Rank(SourceMustStayAgent) == 4 && Rank(UnscopedParent) == 5;
  }

  lemma EarlierTarget(q: Request, n: nat)
    requires forall earlier :: Rank(earlier) < n ==> !Against(q, earlier)
    ensures n > 6 ==> !q.approvalAuthority
    ensures n > 7 ==> !Against(q, LogsVisibility)
    ensures n > 8 ==> q.treeRoot != Uuids.NIL
    ensures n > 10 ==> Inside(q.relation)
    ensures n > 9 ==> !q.relation.Outside?
    ensures n > 11 ==> q.depth.None? || q.depth.value <= q.maxDepth
  {
    assert Rank(ApprovalAuthority) == 6 && Rank(LogsVisibility) == 7 && Rank(TreeRootRequired) == 8;
    assert Rank(OutsideAssignment) == 9 && Rank(RelationUnknown) == 10 && Rank(DepthExceeded) == 11;
  }

  lemma EarlierTemplate(q: Request, n: nat)
    requires forall earlier :: Rank(earlier) < n ==> !Against(q, earlier)
    ensures n > 12 ==> !q.template.UnknownTemplate?
    ensures n > 13 ==> !Against(q, ScopesNotTemplate)
    ensures n > 14 ==> !Writes(q.template) || q.review.Approved?
    ensures n > 15 ==> !Against(q, NotSubset)
  {
    assert Rank(UnknownGrantTemplate) == 12 && Rank(ScopesNotTemplate) == 13;
    assert Rank(WriteNeedsApproval) == 14 && Rank(NotSubset) == 15;
  }

  /**
    What a grant means: the parent is a live, scoped, non-root agent, the target
    is in one of its trees within the depth budget, every scope of the template
    is covered by the parent, and writing was approved.
   */
  lemma GrantMeans(q: Request)
    requires Reduce(q).Grant?
    ensures q.parent.id != Uuids.NIL && !q.parent.revoked && !q.parent.root && q.parent.source == Agent
    ensures q.treeRoot != Uuids.NIL && Inside(q.relation) && (q.depth.Some? ==> q.depth.value <= q.maxDepth)
    ensures TemplateScopes(q.template, q.treeRoot).Some?
    ensures ParentCovers(q.parent.scopes, TemplateScopes(q.template, q.treeRoot).value, q.treeRoot, q.relation)
    ensures Writes(q.template) ==> q.review.Approved?
  {
  }

  /** The scopes granted are the template's, in order. */
  lemma GrantIsTemplate(q: Request)
    requires Reduce(q).Grant?
    ensures TemplateScopes(q.template, q.treeRoot).Some?
    ensures Reduce(q).scopes == Sort(TemplateScopes(q.template, q.treeRoot).value)
  {
  }

  lemma GrantScopes(q: Request, s: string)
    requires Reduce(q).Grant?
    ensures TemplateScopes(q.template, q.treeRoot).Some?
    ensures s in Reduce(q).scopes <==> s in TemplateScopes(q.template, q.treeRoot).value
  {
    GrantIsTemplate(q);
    SortMembers(TemplateScopes(q.template, q.treeRoot).value);
  }

  // ------------------------------------------------------------- evaluation

  /** `normalizeRequestedScopes`: trimmed, without repetition, in order; a blank scope is an error. */
  function Distinct(scopes: seq<string>): (s: seq<string>)
    ensures forall x :: x in s <==> x in scopes
    ensures |s| <= |scopes|
  {
    if scopes == [] then []
    else
      assert scopes == [scopes[0]] + scopes[1..];
      var rest := Distinct(scopes[1..]);
      if scopes[0] in rest then rest else [scopes[0]] + rest
  }

  function TrimAll(scopes: seq<string>): (s: seq<string>)
    ensures |s| == |scopes|
    ensures forall i :: 0 <= i < |s| ==> s[i] == Strings.TrimSpace(scopes[i])
  {
    if scopes == [] then [] else [Strings.TrimSpace(scopes[0])] + TrimAll(scopes[1..])
  }

  /**
    `EvaluateInTx` on a graph where the depth query ends: the relation and the
    depth it hands to the reducer are the tree relation of the parent's roots
    and the shortest distance from any of them.
   */
  method Evaluate(g: Graph, parent: Token, workItem: Node, template: Template, scopes: seq<string>, review: Review, maxDepth: int)
    returns (invalid: bool, q: Request, d: Decision)
    requires forall r :: r in TreeRoots(parent.scopes) ==> !CycleFrom(g, r)
    ensures invalid <==> parent.id == Uuids.NIL || workItem == Uuids.NIL || "" in TrimAll(scopes)
    ensures !invalid ==>
              && d == Reduce(q) && q.parent == parent && q.treeRoot == workItem && q.template == template && q.review == review
              && SameScopes(q.scopes, TrimAll(scopes))
              && q.relation == RelationOf(g, TreeRoots(parent.scopes), workItem)
              && Nearest(g, TreeRoots(parent.scopes), workItem, q.depth)
  {
    var trimmed := TrimAll(scopes);
    invalid := parent.id == Uuids.NIL || workItem == Uuids.NIL || "" in trimmed;
    SortMembers(Distinct(trimmed));
    var roots := TreeRoots(parent.scopes);
    var relation := TreeRelation(g, roots, workItem);
    var depth := DelegationDepth(g, roots, workItem);
    q := Request(parent, template, Some(Agent), workItem, Sort(Distinct(trimmed)), relation, depth, maxDepth, review, false, false);
    d := Reduce(q);
  }

  // ------------------------------------------------------ a granted token

  /** A scope that trimming does not change. */
  predicate Trimmed(s: string) {
    Strings.TrimSpace(s) == s
  }

  lemma TreeScopeParses(root: Node)
    requires root != Uuids.NIL
    ensures Trimmed(TreeScope(root)) && TreeRoot(TreeScope(root)) == Some(root)
  {
    Uuids.FormatChars(root);
    Uuids.ParseFormat(root);
    var s := TreeScope(root);
    assert s[|s| - 1] == Uuids.Format(root)[35];
    Strings.TrimmedStays(s);
    assert s[|TREE_PREFIX|..] == Uuids.Format(root);
  }

  lemma NamedScopesTrimmed()
    ensures Trimmed(FEED_READ_ASSIGNED) && Trimmed(READ) && Trimmed(WRITE)
  {
    Strings.TrimmedStays(FEED_READ_ASSIGNED);
    Strings.TrimmedStays(READ);
    Strings.TrimmedStays(WRITE);
  }

  /** The named scopes carry no tree. */
  lemma NamedScopesHaveNoRoot()
    ensures TreeRoot(FEED_READ_ASSIGNED).None? && TreeRoot(READ).None? && TreeRoot(WRITE).None?
  {
    NamedScopesTrimmed();
    assert FEED_READ_ASSIGNED[0] == 'f' && TREE_PREFIX[0] == 'w';
    assert |READ| < |TREE_PREFIX|;
    assert WRITE[11] == 'w' && TREE_PREFIX[11] == 't';
  }

  /** The scopes a template can contain. */
  predicate TemplateScope(t: Template, root: Node, s: string) {
    s == FEED_READ_ASSIGNED || s == READ || s == TreeScope(root) || (s == WRITE && Writes(t))
  }

  lemma TemplateScopeIn(t: Template, root: Node, s: string)
    requires TemplateScopes(t, root).Some?
    ensures s in TemplateScopes(t, root).value <==> TemplateScope(t, root, s)
  {
    var scopes := TemplateScopes(t, root).value;
    assert scopes[0] == FEED_READ_ASSIGNED && scopes[1] == READ;
    if Writes(t) {
      assert scopes[2] == WRITE && scopes[3] == TreeScope(root);
    } else {
      assert scopes[2] == TreeScope(root);
    }
  }

  /** A token with exactly the scopes of a template. */
  ghost predicate HasTemplate(child: Token, t: Template, root: Node) {
    && !child.root && root != Uuids.NIL
    && forall s :: s in child.scopes <==> TemplateScope(t, root, s)
  }

  lemma ChildHas(child: Token, t: Template, root: Node, s: string)
    requires HasTemplate(child, t, root)
    ensures HasScope(child, s) <==> TemplateScope(t, root, s)
  {
    NamedScopesTrimmed();
    TreeScopeParses(root);
    if HasScope(child, s) {
      var i :| 0 <= i < |child.scopes| && Strings.TrimSpace(child.scopes[i]) == s;
      assert child.scopes[i] in child.scopes;
    }
    if TemplateScope(t, root, s) {
      assert s in child.scopes;
      var i :| 0 <= i < |child.scopes| && child.scopes[i] == s;
    }
  }

  lemma ScopeNames(root: Node)
    ensures !TemplateScope(SameTreeWorker, root, READ_ALL) && !TemplateScope(SameTreeWorker, root, WRITE_ALL)
    ensures !TemplateScope(SameTreeWorker, root, FEED_READ)
    ensures !TemplateScope(SameTreeReadProgress, root, WRITE)
  {
    assert |FEED_READ_ASSIGNED| == 18 && |READ| == 15 && |WRITE| == 16 && |TREE_PREFIX| == 16;
    assert |READ_ALL| == 19 && |WRITE_ALL| == 20 && |FEED_READ| == 9;
    assert |TreeScope(root)| == 52;
  }

  /** What a granted token may do without a look at the relations: one tree, assigned feed, and writing only as a worker. */
  lemma ChildScopes(child: Token, t: Template, root: Node)
    requires HasTemplate(child, t, root)
    ensures !Unscoped(child) && !ReadsAnything(child) && !WritesAnything(child) && !FeedsAnything(child)
    ensures ReadsTrees(child) && HasScope(child, FEED_READ_ASSIGNED) && (WritesTrees(child) <==> Writes(t))
    ensures forall r :: r in TreeRoots(child.scopes) <==> r == root
  {
    ScopeNames(root);
    ChildHas(child, t, root, READ_ALL);
    ChildHas(child, t, root, WRITE_ALL);
    ChildHas(child, t, root, FEED_READ);
    ChildHas(child, t, root, FEED_READ_ASSIGNED);
    ChildHas(child, t, root, WRITE);
    ChildHas(child, t, root, READ);
    forall r | r in TreeRoots(child.scopes) ensures r == root {
      ChildRoot(child, t, root, r);
    }
    ChildKeepsRoot(child, t, root);
    NotUnscoped(child);
  }

  lemma ChildKeepsRoot(child: Token, t: Template, root: Node)
    requires HasTemplate(child, t, root)
    ensures root in TreeRoots(child.scopes)
  {
    TreeScopeParses(root);
    assert TreeScope(root) in child.scopes;
    var i :| 0 <= i < |child.scopes| && child.scopes[i] == TreeScope(root);
    TreeRootsAre(child.scopes, root);
  }

  /**
    What a granted token may do: it reads exactly what the root of its tree
    reaches, writes exactly that as a worker and nothing otherwise, and is fed
    exactly what hinges on something there.
   */
  lemma ChildMay(g: Graph, child: Token, t: Template, root: Node)
    requires HasTemplate(child, t, root)
    ensures forall id :: CanRead(g, child, id) <==> Reaches(g, root, id)
    ensures forall id :: CanWrite(g, child, id) <==> t.SameTreeWorker? && Reaches(g, root, id)
    ensures forall anchors :: FeedShows(g, child, anchors) <==> exists i :: 0 <= i < |anchors| && Reaches(g, root, anchors[i])
  {
    ChildScopes(child, t, root);
    var roots := TreeRoots(child.scopes);
    forall id ensures InAnyTree(g, child, id) <==> Reaches(g, root, id) {
      assert root in roots;
      var i :| 0 <= i < |roots| && roots[i] == root;
      assert Reaches(g, root, id) ==> Reaches(g, roots[i], id);
      assert forall k :: 0 <= k < |roots| ==> roots[k] in roots;
    }
  }

  lemma NotUnscoped(t: Token)
    requires HasScope(t, READ)
    ensures !Unscoped(t)
  {
    var i :| 0 <= i < |t.scopes| && Strings.TrimSpace(t.scopes[i]) == READ;
  }

  lemma ChildRoot(child: Token, t: Template, root: Node, r: Node)
    requires HasTemplate(child, t, root) && r in TreeRoots(child.scopes)
    ensures r == root
  {
    TreeRootsAre(child.scopes, r);
    NamedScopesHaveNoRoot();
    TreeScopeParses(root);
    var i :| 0 <= i < |child.scopes| && TreeRoot(child.scopes[i]) == Some(r);
    assert child.scopes[i] in child.scopes;
  }

  // ------------------------------------------------------------- one link

  /** The facts of one issued grant, resolved on the graph of that moment. */
  datatype Link = Link(graph: Graph, request: Request)

  /** `IssueSubactorGrant` up to the new token: relation and depth are what the queries answer. */
  ghost predicate Granted(parent: Token, link: Link, child: Token) {
    && link.request.parent == parent
    && link.request.relation == RelationOf(link.graph, TreeRoots(parent.scopes), link.request.treeRoot)
    && Reduce(link.request).Grant?
    && child.scopes == Reduce(link.request).scopes
    && child.source == Agent && !child.root
  }

  /** Everything a may read, write or be fed, b may. */
  ghost predicate Narrower(g: Graph, a: Token, b: Token) {
    && (forall id :: CanRead(g, a, id) ==> CanRead(g, b, id))
    && (forall id :: CanWrite(g, a, id) ==> CanWrite(g, b, id))
    && (forall anchors :: FeedShows(g, a, anchors) ==> FeedShows(g, b, anchors))
  }

  /** A stored scope without outer space is a scope of the token. */
  lemma StoredScopeCounts(t: Token, s: string)
    requires s in t.scopes && Trimmed(s)
    ensures HasScope(t, s)
  {
    var i :| 0 <= i < |t.scopes| && t.scopes[i] == s;
  }

  /** The child's tree lies inside one of the parent's, on the graph of the grant and on every later one. */
  lemma ChildTreeInside(g: Graph, parent: Token, link: Link, child: Token, id: Node)
    requires Granted(parent, link, child) && link.graph <= g
    requires HasTemplate(child, link.request.template, link.request.treeRoot)
    requires InAnyTree(g, child, id)
    ensures InAnyTree(g, parent, id)
  {
    var root, roots := link.request.treeRoot, TreeRoots(parent.scopes);
    var mine := TreeRoots(child.scopes);
    var k :| 0 <= k < |mine| && Reaches(g, mine[k], id);
    assert mine[k] in mine;
    ChildScopes(child, link.request.template, root);
    GrantMeans(link.request);
    InsideIff(link.graph, roots, root);
    var i :| 0 <= i < |roots| && Reaches(link.graph, roots[i], root);
    ReachesGrows(link.graph, g, roots[i], root);
    ReachesOn(g, roots[i], root, id);
  }

  lemma GrantedHasTemplate(parent: Token, link: Link, child: Token)
    requires Granted(parent, link, child)
    ensures HasTemplate(child, link.request.template, link.request.treeRoot)
  {
    GrantMeans(link.request);
    forall s ensures s in child.scopes <==> TemplateScope(link.request.template, link.request.treeRoot, s) {
      GrantScopes(link.request, s);
      TemplateScopeIn(link.request.template, link.request.treeRoot, s);
    }
  }

  /** The parent holds the named scopes of the template itself, or a wider feed scope. */
  lemma ParentHolds(parent: Token, link: Link, child: Token)
    requires Granted(parent, link, child)
    ensures HasScope(parent, READ)
    ensures Writes(link.request.template) ==> HasScope(parent, WRITE)
    ensures HasScope(parent, FEED_READ_ASSIGNED) || HasScope(parent, FEED_READ)
  {
    var q := link.request;
    GrantMeans(q);
    NamedScopesTrimmed();
    NotTreeScopes();
    Strings.TrimmedStays(FEED_READ);
    var scopes := TemplateScopes(q.template, q.treeRoot).value;
    assert Covered(parent.scopes, scopes[0]) && Covered(parent.scopes, scopes[1]);
    StoredIfCovered(parent, READ);
    if FEED_READ_ASSIGNED in parent.scopes {
      StoredScopeCounts(parent, FEED_READ_ASSIGNED);
    } else {
      StoredScopeCounts(parent, FEED_READ);
    }
    if Writes(q.template) {
      assert Covered(parent.scopes, scopes[2]);
      StoredIfCovered(parent, WRITE);
    }
  }

  lemma NotTreeScopes()
    ensures !(TREE_PREFIX <= READ) && !(TREE_PREFIX <= WRITE) && !(TREE_PREFIX <= FEED_READ_ASSIGNED)
    ensures READ != FEED_READ_ASSIGNED && WRITE != FEED_READ_ASSIGNED
  {
    assert FEED_READ_ASSIGNED[0] == 'f' && TREE_PREFIX[0] == 'w';
    assert |READ| == 15 && |WRITE| == 16 && |FEED_READ_ASSIGNED| == 18 && |TREE_PREFIX| == 16;
    assert WRITE[11] == 'w' && TREE_PREFIX[11] == 't';
  }

  lemma StoredIfCovered(parent: Token, s: string)
    requires Covered(parent.scopes, s) && Trimmed(s) && !(TREE_PREFIX <= s) && s != FEED_READ_ASSIGNED
    ensures HasScope(parent, s)
  {
    StoredScopeCounts(parent, s);
  }

  /** Whoever can write anything was granted as a worker, for a work item whose human review had approved it. */
  ghost predicate WriteWasApproved(g: Graph, child: Token, link: Link) {
    (exists id :: CanWrite(g, child, id)) ==> link.request.template.SameTreeWorker? && link.request.review.Approved?
  }

  lemma OnlyWorkersWrite(g: Graph, parent: Token, link: Link, child: Token)
    requires Granted(parent, link, child)
    ensures WriteWasApproved(g, child, link)
  {
    GrantedHasTemplate(parent, link, child);
    ChildMay(g, child, link.request.template, link.request.treeRoot);
    GrantMeans(link.request);
  }

  /** A token of one tree whose scopes the other holds, and whose tree lies in the other's, is the narrower. */
  lemma NarrowerBy(g: Graph, a: Token, b: Token)
    requires !ReadsAnything(a) && !WritesAnything(a) && !FeedsAnything(a)
    requires HasScope(b, READ) && (WritesTrees(a) ==> HasScope(b, WRITE)) && (HasScope(b, FEED_READ_ASSIGNED) || HasScope(b, FEED_READ))
    requires forall id :: InAnyTree(g, a, id) ==> InAnyTree(g, b, id)
    ensures Narrower(g, a, b)
  {
  }

  /** One grant narrows, on the graph of the grant and on every graph it grows into. */
  lemma GrantNarrows(g: Graph, parent: Token, link: Link, child: Token)
    requires Granted(parent, link, child) && link.graph <= g
    ensures Narrower(g, child, parent)
    ensures WriteWasApproved(g, child, link)
  {
    OnlyWorkersWrite(g, parent, link, child);
    GrantedHasTemplate(parent, link, child);
    ParentHolds(parent, link, child);
    forall id | InAnyTree(g, child, id) ensures InAnyTree(g, parent, id) {
      ChildTreeInside(g, parent, link, child, id);
    }
    ChildScopes(child, link.request.template, link.request.treeRoot);
    NarrowerBy(g, child, parent);
  }

  // ------------------------------------------------------------ the chain

  /** tokens[i + 1] was granted by tokens[i] on some earlier graph. */
  ghost predicate Chain(g: Graph, tokens: seq<Token>, links: seq<Link>) {
    && |tokens| == |links| + 1
    && forall i :: 0 <= i < |links| ==> LinkAt(g, tokens, links, i)
  }

  ghost predicate LinkAt(g: Graph, tokens: seq<Token>, links: seq<Link>, i: nat)
    requires i < |links| == |tokens| - 1
  {
    Granted(tokens[i], links[i], tokens[i + 1]) && links[i].graph <= g
  }

  lemma NarrowerOn(g: Graph, a: Token, b: Token, c: Token)
    requires Narrower(g, a, b) && Narrower(g, b, c)
    ensures Narrower(g, a, c)
  {
  }

  /**
    Along every chain of grants, and on every graph the relations have grown to
    since, each token's readable, writable and feed-visible sets are contained
    in those of every ancestor, and a token that can write at all was granted
    for a work item whose human review had approved it.
   */
  lemma {:induction false} ChainNarrows(g: Graph, tokens: seq<Token>, links: seq<Link>, i: nat, j: nat)
    requires Chain(g, tokens, links) && i < j < |tokens|
    ensures Narrower(g, tokens[j], tokens[i])
    ensures WriteWasApproved(g, tokens[j], links[j - 1])
    decreases j
  {
    LinkNarrows(g, tokens, links, j - 1);
    if i < j - 1 {
      ChainNarrows(g, tokens, links, i, j - 1);
      NarrowerOn(g, tokens[j], tokens[j - 1], tokens[i]);
    }
  }

  lemma LinkNarrows(g: Graph, tokens: seq<Token>, links: seq<Link>, k: nat)
    requires Chain(g, tokens, links) && k < |links|
    ensures Narrower(g, tokens[k + 1], tokens[k])
    ensures WriteWasApproved(g, tokens[k + 1], links[k])
  {
    assert LinkAt(g, tokens, links, k);
    GrantNarrows(g, tokens[k], links[k], tokens[k + 1]);
  }
}
