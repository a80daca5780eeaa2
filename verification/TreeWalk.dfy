/**
  The recursive queries over work_item_relations (internal/access/access.go,
  internal/grants/service.go).

  Tree membership is computed by a deduplicating walk (`UNION`), which ends on
  every graph; delegation depth by a walk that keeps one row per path
  (`UNION ALL`), which ends exactly when no cycle can be reached.
 */
module TreeWalk {
  import opened Options
  import Uuids

  type Node = Uuids.Uuid

  /** Parent and child of each relation. */
  type Graph = set<(Node, Node)>

  /** A walk along relations, from its first node to its last. */
  predicate Walk(g: Graph, p: seq<Node>) {
    p != [] && forall i :: 0 <= i < |p| - 1 ==> (p[i], p[i + 1]) in g
  }

  ghost predicate Reaches(g: Graph, a: Node, b: Node) {
    exists p :: Walk(g, p) && p[0] == a && p[|p| - 1] == b
  }

  ghost predicate ReachedFrom(g: Graph, roots: set<Node>, n: Node) {
    exists r :: r in roots && Reaches(g, r, n)
  }

  lemma ReachesSelf(g: Graph, a: Node)
    ensures Reaches(g, a, a)
  {
    assert Walk(g, [a]);
  }

  lemma WalkJoin(g: Graph, p: seq<Node>, q: seq<Node>)
    requires Walk(g, p) && Walk(g, q) && p[|p| - 1] == q[0]
    ensures Walk(g, p + q[1..]) && (p + q[1..])[0] == p[0] && (p + q[1..])[|p + q[1..]| - 1] == q[|q| - 1]
  {
    var r := p + q[1..];
    forall i | 0 <= i < |r| - 1 ensures (r[i], r[i + 1]) in g {
      if i >= |p| - 1 {
        assert r[i] == q[i - |p| + 1] && r[i + 1] == q[i - |p| + 2];
      }
    }
  }

  lemma ReachesOn(g: Graph, a: Node, b: Node, c: Node)
    requires Reaches(g, a, b) && Reaches(g, b, c)
    ensures Reaches(g, a, c)
  {
    var p :| Walk(g, p) && p[0] == a && p[|p| - 1] == b;
    var q :| Walk(g, q) && q[0] == b && q[|q| - 1] == c;
    WalkJoin(g, p, q);
  }

  lemma ReachesStep(g: Graph, a: Node, b: Node)
    requires (a, b) in g
    ensures Reaches(g, a, b)
  {
    var p := [a, b];
    assert Walk(g, p) && p[0] == a && p[|p| - 1] == b;
  }

  /** Relations are only ever added, and more of them reach more. */
  lemma ReachesGrows(g: Graph, h: Graph, a: Node, b: Node)
    requires g <= h && Reaches(g, a, b)
    ensures Reaches(h, a, b)
  {
    var p :| Walk(g, p) && p[0] == a && p[|p| - 1] == b;
    assert Walk(h, p);
  }

  // ------------------------------------------------------ the UNION walk

  function Children(g: Graph, s: set<Node>): (t: set<Node>) {
    set e | e in g && e.0 in s :: e.1
  }

  function Ends(g: Graph): (t: set<Node>) {
    set e | e in g :: e.1
  }

  /** A set with the roots in it that no relation leaves contains everything they reach. */
  lemma {:induction false} ClosedContains(g: Graph, s: set<Node>, p: seq<Node>)
    requires Children(g, s) <= s && Walk(g, p) && p[0] in s
    ensures p[|p| - 1] in s
    decreases |p|
  {
    if |p| > 1 {
      assert (p[0], p[1]) in g;
      assert p[1] in Children(g, s);
      ClosedContains(g, s, p[1..]);
    }
  }

  ghost predicate AllReached(g: Graph, roots: set<Node>, s: set<Node>) {
    forall n :: n in s ==> ReachedFrom(g, roots, n)
  }

  lemma ChildrenReached(g: Graph, roots: set<Node>, s: set<Node>)
    requires AllReached(g, roots, s)
    ensures AllReached(g, roots, Children(g, s))
  {
    forall n | n in Children(g, s) ensures ReachedFrom(g, roots, n) {
      var e :| e in g && e.0 in s && e.1 == n;
      assert ReachedFrom(g, roots, e.0);
      var r :| r in roots && Reaches(g, r, e.0);
      ReachesStep(g, e.0, n);
      ReachesOn(g, r, e.0, n);
    }
  }

  /** The walk so far: everything in it is reached, and only the working rows may lead out of it. */
  ghost predicate Walking(g: Graph, roots: set<Node>, subtree: set<Node>, working: set<Node>) {
    && working <= subtree && roots <= subtree <= roots + Ends(g)
    && AllReached(g, roots, subtree)
    && Children(g, subtree - working) <= subtree
  }

  lemma WalkStarts(g: Graph, roots: set<Node>)
    ensures Walking(g, roots, roots, roots)
  {
    forall r | r in roots ensures ReachedFrom(g, roots, r) {
      ReachesSelf(g, r);
    }
  }

  lemma WalkGoesOn(g: Graph, roots: set<Node>, subtree: set<Node>, working: set<Node>)
    requires Walking(g, roots, subtree, working)
    ensures var found := Children(g, working) - subtree; Walking(g, roots, subtree + found, found)
  {
    var found := Children(g, working) - subtree;
    ChildrenReached(g, roots, working);
    assert Children(g, working) <= Ends(g);
    forall n | n in Children(g, subtree) ensures n in subtree + found {
      var e :| e in g && e.0 in subtree && e.1 == n;
      if e.0 in working {
        assert n in Children(g, working);
      } else {
        assert n in Children(g, subtree - working);
      }
    }
    assert (subtree + found) - found == subtree;
  }

  lemma WalkIsAll(g: Graph, roots: set<Node>, subtree: set<Node>, n: Node)
    requires Walking(g, roots, subtree, {})
    ensures n in subtree <==> ReachedFrom(g, roots, n)
  {
    assert subtree - {} == subtree;
    if ReachedFrom(g, roots, n) {
      var r :| r in roots && Reaches(g, r, n);
      var p :| Walk(g, p) && p[0] == r && p[|p| - 1] == n;
      ClosedContains(g, subtree, p);
    }
  }

  /** `WITH RECURSIVE subtree ... UNION ...`: only rows not seen before are walked on from, so it ends on every graph. */
  method Subtree(g: Graph, roots: set<Node>) returns (subtree: set<Node>)
    ensures forall n :: n in subtree <==> ReachedFrom(g, roots, n)
  {
    subtree := roots;
    var working := roots;
    WalkStarts(g, roots);
    while working != {}
      invariant Walking(g, roots, subtree, working)
      decreases (roots + Ends(g)) - subtree, working
    {
      WalkGoesOn(g, roots, subtree, working);
      var found := Children(g, working) - subtree;
      subtree, working := subtree + found, found;
    }
    forall n ensures n in subtree <==> ReachedFrom(g, roots, n) {
      WalkIsAll(g, roots, subtree, n);
    }
  }

  // -------------------------------------------------- the UNION ALL walk

  /** The nodes at depth k of the walk: those a walk of k relations leads to. */
  function Level(g: Graph, root: Node, k: nat): (t: set<Node>) {
    if k == 0 then {root} else Children(g, Level(g, root, k - 1))
  }

  lemma {:induction false} LevelWalk(g: Graph, root: Node, k: nat, n: Node) returns (p: seq<Node>)
    requires n in Level(g, root, k)
    ensures Walk(g, p) && |p| == k + 1 && p[0] == root && p[k] == n
  {
    if k == 0 {
      p := [root];
    } else {
      var e :| e in g && e.0 in Level(g, root, k - 1) && e.1 == n;
      var q := LevelWalk(g, root, k - 1, e.0);
      p := q + [n];
    }
  }

  lemma {:induction false} WalkLevel(g: Graph, p: seq<Node>)
    requires Walk(g, p)
    ensures p[|p| - 1] in Level(g, p[0], |p| - 1)
    decreases |p|
  {
    if |p| > 1 {
      var q := p[..|p| - 1];
      WalkLevel(g, q);
      assert (p[|p| - 2], p[|p| - 1]) in g;
    }
  }

  /** A node that can be reached can be reached back from itself over at least one relation. */
  ghost predicate CycleFrom(g: Graph, root: Node) {
    exists p, i :: 0 <= i < |p| - 1 && Walk(g, p) && p[0] == root && p[i] == p[|p| - 1]
  }

  /** Some level is empty, so the walk ends. */
  ghost predicate WalkEnds(g: Graph, root: Node) {
    exists k :: Level(g, root, k) == {}
  }

  lemma {:induction false} EmptyOnwards(g: Graph, root: Node, k: nat, m: nat)
    requires Level(g, root, k) == {} && k <= m
    ensures Level(g, root, m) == {}
    decreases m
  {
    if k < m {
      EmptyOnwards(g, root, k, m - 1);
    }
  }

  /** Going round a cycle fills every later level. */
  lemma {:induction false} RoundAndRound(g: Graph, p: seq<Node>, i: nat, m: nat)
    requires i < |p| - 1 && Walk(g, p) && p[i] == p[|p| - 1]
    ensures var length := |p| - 1 - i; p[i + m % length] in Level(g, p[0], i + m)
    decreases m
  {
    var length := |p| - 1 - i;
    if m == 0 {
      WalkLevel(g, p[..i + 1]);
    } else {
      RoundAndRound(g, p, i, m - 1);
      var j := (m - 1) % length;
      assert (p[i + j], p[i + j + 1]) in g;
      assert p[i + j + 1] in Children(g, Level(g, p[0], i + m - 1));
      NextModulo(m, length);
    }
  }

  lemma NextModulo(m: nat, length: nat)
    requires m > 0 && length > 0
    ensures m % length == if (m - 1) % length == length - 1 then 0 else (m - 1) % length + 1
  {
    var q, j := (m - 1) / length, (m - 1) % length;
    assert m == q * length + (j + 1);
    if j == length - 1 {
      assert m == (q + 1) * length;
      ModuloIs(m, q + 1, 0, length);
    } else {
      ModuloIs(m, q, j + 1, length);
    }
  }

  lemma ModuloIs(m: nat, q: nat, j: nat, length: nat)
    requires j < length && m == q * length + j
    ensures m % length == j
  {
    var d := m / length - q;
    assert m == (m / length) * length + m % length;
    assert d * length == j - m % length;
    AtLeast(d, length);
  }

  lemma AtLeast(d: int, length: int)
    requires length > 0
    ensures d >= 1 ==> d * length >= length
    ensures d <= -1 ==> d * length <= -length
  {
    if d >= 1 {
      assert (d - 1) * length >= 0;
    } else if d <= -1 {
      assert (d + 1) * length <= 0;
    }
  }

  /** A sequence longer than the set it is drawn from repeats an element. */
  lemma {:induction false} Repeats(p: seq<Node>, s: set<Node>) returns (i: nat, j: nat)
    requires |p| > |s| && forall k :: 0 <= k < |p| ==> p[k] in s
    ensures i < j < |p| && p[i] == p[j]
    decreases |p|
  {
    var front, last := p[..|p| - 1], p[|p| - 1];
    if last in front {
      i :| 0 <= i < |front| && front[i] == last;
      j := |p| - 1;
    } else {
      i, j := Repeats(front, s - {last});
    }
  }

  lemma WalkNodes(g: Graph, p: seq<Node>)
    requires Walk(g, p)
    ensures forall k :: 0 <= k < |p| ==> p[k] in {p[0]} + Ends(g)
  {
    forall k | 0 < k < |p| ensures p[k] in Ends(g) {
      assert (p[k - 1], p[k]) in g;
    }
  }

  lemma LongWalkCycles(g: Graph, p: seq<Node>)
    requires Walk(g, p) && |p| > |{p[0]} + Ends(g)|
    ensures CycleFrom(g, p[0])
  {
    WalkNodes(g, p);
    var i, j := Repeats(p, {p[0]} + Ends(g));
    var q := p[..j + 1];
    assert Walk(g, q) && q[i] == q[|q| - 1];
  }

  /** The walk that keeps one row per path ends exactly when no cycle can be reached from its root. */
  lemma WalkEndsIff(g: Graph, root: Node)
    ensures WalkEnds(g, root) <==> !CycleFrom(g, root)
  {
    if CycleFrom(g, root) {
      var p, i :| 0 <= i < |p| - 1 && Walk(g, p) && p[0] == root && p[i] == p[|p| - 1];
      forall k: nat ensures Level(g, root, k) != {} {
        if Level(g, root, k) == {} {
          EmptyOnwards(g, root, k, i + k);
          RoundAndRound(g, p, i, k);
        }
      }
    } else {
      var nodes := {root} + Ends(g);
      if Level(g, root, |nodes|) != {} {
        var n :| n in Level(g, root, |nodes|);
        var p := LevelWalk(g, root, |nodes|, n);
        LongWalkCycles(g, p);
      }
    }
  }

  /** The depth of a node: the number of relations on a shortest walk to it. */
  ghost predicate IsDepth(g: Graph, root: Node, target: Node, depth: nat) {
    && (exists p :: Walk(g, p) && p[0] == root && p[|p| - 1] == target && |p| == depth + 1)
    && (forall p :: Walk(g, p) && p[0] == root && p[|p| - 1] == target ==> |p| >= depth + 1)
  }

  lemma FirstLevelIsDepth(g: Graph, root: Node, target: Node, depth: nat)
    requires target in Level(g, root, depth) && forall k: nat :: k < depth ==> target !in Level(g, root, k)
    ensures IsDepth(g, root, target, depth)
  {
    var q := LevelWalk(g, root, depth, target);
    forall p | Walk(g, p) && p[0] == root && p[|p| - 1] == target ensures |p| >= depth + 1 {
      WalkLevel(g, p);
    }
  }

  /** `SELECT MIN(depth)` over the walk that keeps one row per path. */
  method MinDepth(g: Graph, root: Node, target: Node) returns (depth: Option<nat>)
    requires !CycleFrom(g, root)
    ensures depth.Some? <==> Reaches(g, root, target)
    ensures depth.Some? ==> IsDepth(g, root, target, depth.value)
  {
    WalkEndsIff(g, root);
    ghost var last: nat :| Level(g, root, last) == {};
    var level, k := {root}, 0;
    depth := None;
    while level != {}
      invariant level == Level(g, root, k) && (k <= last || level == {})
      invariant depth.None? ==> forall i: nat :: i < k ==> target !in Level(g, root, i)
      invariant depth.Some? ==> target in Level(g, root, depth.value)
      invariant depth.Some? ==> forall i: nat :: i < depth.value ==> target !in Level(g, root, i)
      decreases last - k
    {
      if target in level && depth.None? {
        depth := Some(k);
      }
      level, k := Children(g, level), k + 1;
    }
    if depth.Some? {
      FirstLevelIsDepth(g, root, target, depth.value);
    } else if Reaches(g, root, target) {
      var p :| Walk(g, p) && p[0] == root && p[|p| - 1] == target;
      WalkLevel(g, p);
      EmptyOnwards(g, root, k, if k < |p| - 1 then |p| - 1 else k);
    }
  }

  // --------------------------------------------------- relation and depth

  datatype Relation = Same | Descendant | Outside | Unknown

  /** `treeRelation`: the first root that is the target or has it in its tree decides. */
  ghost function FirstRelation(g: Graph, roots: seq<Node>, target: Node): (r: Relation) {
    if roots == [] then Outside
    else if roots[0] == target then Same
    else if Reaches(g, roots[0], target) then Descendant
    else FirstRelation(g, roots[1..], target)
  }

  ghost function RelationOf(g: Graph, roots: seq<Node>, target: Node): (r: Relation) {
    if roots == [] then Unknown else FirstRelation(g, roots, target)
  }

  predicate Inside(r: Relation) {
    r.Same? || r.Descendant?
  }

  ghost predicate AnyReaches(g: Graph, roots: seq<Node>, target: Node) {
    exists i :: 0 <= i < |roots| && Reaches(g, roots[i], target)
  }

  lemma {:induction false} InsideIff(g: Graph, roots: seq<Node>, target: Node)
    ensures Inside(FirstRelation(g, roots, target)) <==> AnyReaches(g, roots, target)
    ensures Inside(RelationOf(g, roots, target)) <==> AnyReaches(g, roots, target)
    decreases |roots|
  {
    if roots != [] {
      InsideIff(g, roots[1..], target);
      ReachesSelf(g, target);
      if AnyReaches(g, roots[1..], target) {
        var i :| 0 <= i < |roots[1..]| && Reaches(g, roots[1..][i], target);
        assert Reaches(g, roots[i + 1], target);
      }
      if AnyReaches(g, roots, target) {
        var i :| 0 <= i < |roots| && Reaches(g, roots[i], target);
        if i > 0 { assert Reaches(g, roots[1..][i - 1], target); }
      }
    }
  }

  /** The first root that reaches the target decides: it is the target itself, or above it. */
  lemma {:induction false} RelationMeans(g: Graph, roots: seq<Node>, target: Node)
    ensures RelationOf(g, roots, target).Unknown? <==> roots == []
    ensures RelationOf(g, roots, target).Outside? <==> roots != [] && !AnyReaches(g, roots, target)
    ensures forall k :: 0 <= k < |roots| && Reaches(g, roots[k], target) && !AnyReaches(g, roots[..k], target) ==>
              RelationOf(g, roots, target) == if roots[k] == target then Same else Descendant
  {
    InsideIff(g, roots, target);
    forall k | 0 <= k < |roots| && Reaches(g, roots[k], target) && !AnyReaches(g, roots[..k], target)
      ensures FirstRelation(g, roots, target) == if roots[k] == target then Same else Descendant
    {
      FirstDecides(g, roots, target, k);
    }
    if roots != [] {
      NoneInside(g, roots, target);
    }
  }

  lemma {:induction false} NoneInside(g: Graph, roots: seq<Node>, target: Node)
    ensures !FirstRelation(g, roots, target).Unknown?
    ensures FirstRelation(g, roots, target).Outside? <==> !Inside(FirstRelation(g, roots, target))
  {
    if roots != [] {
      NoneInside(g, roots[1..], target);
    }
  }

  lemma {:induction false} FirstDecides(g: Graph, roots: seq<Node>, target: Node, k: nat)
    requires k < |roots| && Reaches(g, roots[k], target) && !AnyReaches(g, roots[..k], target)
    ensures FirstRelation(g, roots, target) == if roots[k] == target then Same else Descendant
    decreases k
  {
    ReachesSelf(g, target);
    if k > 0 {
      var rest := roots[1..];
      assert roots[..k][0] == roots[0];
      var before, restBefore := roots[..k], rest[..k - 1];
      forall i | 0 <= i < |restBefore| ensures !Reaches(g, restBefore[i], target) {
        assert before[i + 1] == restBefore[i];
      }
      FirstDecides(g, rest, target, k - 1);
    }
  }

  /** `workItemInTree`. */
  method InTree(g: Graph, root: Node, target: Node) returns (ok: bool)
    ensures ok <==> Reaches(g, root, target)
  {
    var subtree := Subtree(g, {root});
    ok := target in subtree;
    if Reaches(g, root, target) {
      assert root in {root} && ReachedFrom(g, {root}, target);
    }
  }

  method TreeRelation(g: Graph, roots: seq<Node>, target: Node) returns (r: Relation)
    ensures r == RelationOf(g, roots, target)
    ensures Inside(r) <==> AnyReaches(g, roots, target)
  {
    InsideIff(g, roots, target);
    if roots == [] {
      return Unknown;
    }
    assert roots[0..] == roots;
    for i := 0 to |roots|
      invariant FirstRelation(g, roots[i..], target) == FirstRelation(g, roots, target)
    {
      assert roots[i..][0] == roots[i] && roots[i..][1..] == roots[i + 1..];
      if roots[i] == target {
        return Same;
      }
      var ok := InTree(g, roots[i], target);
      if ok {
        return Descendant;
      }
    }
    return Outside;
  }

  ghost predicate NoShorter(g: Graph, root: Node, target: Node, depth: nat) {
    forall p :: Walk(g, p) && p[0] == root && p[|p| - 1] == target ==> |p| > depth
  }

  /** The shortest distance to the target from any of the roots, when there is one. */
  ghost predicate Nearest(g: Graph, roots: seq<Node>, target: Node, depth: Option<nat>) {
    && (depth.Some? <==> AnyReaches(g, roots, target))
    && (depth.Some? ==> exists i :: 0 <= i < |roots| && IsDepth(g, roots[i], target, depth.value))
    && (depth.Some? ==> forall i :: 0 <= i < |roots| ==> NoShorter(g, roots[i], target, depth.value))
  }

  lemma AnyReachesSnoc(g: Graph, roots: seq<Node>, root: Node, target: Node)
    ensures AnyReaches(g, roots + [root], target) <==> AnyReaches(g, roots, target) || Reaches(g, root, target)
  {
    var more := roots + [root];
    if AnyReaches(g, roots, target) {
      var i :| 0 <= i < |roots| && Reaches(g, roots[i], target);
      assert Reaches(g, more[i], target);
    }
    if Reaches(g, root, target) {
      assert Reaches(g, more[|roots|], target);
    }
    if AnyReaches(g, more, target) {
      var i :| 0 <= i < |more| && Reaches(g, more[i], target);
      assert i < |roots| ==> Reaches(g, roots[i], target);
    }
  }

  lemma NearestSnoc(g: Graph, roots: seq<Node>, root: Node, target: Node, depth: Option<nat>, current: Option<nat>)
    requires Nearest(g, roots, target, depth)
    requires current.Some? <==> Reaches(g, root, target)
    requires current.Some? ==> IsDepth(g, root, target, current.value)
    ensures Nearest(g, roots + [root], target,
                    if current.Some? && (depth.None? || current.value < depth.value) then current else depth)
  {
    var more := roots + [root];
    AnyReachesSnoc(g, roots, root, target);
    var best := if current.Some? && (depth.None? || current.value < depth.value) then current else depth;
    if best.Some? {
      forall i | 0 <= i < |more| ensures NoShorter(g, more[i], target, best.value) {
        if i < |roots| {
          assert depth.Some? ==> NoShorter(g, roots[i], target, depth.value);
          assert depth.None? ==> !Reaches(g, roots[i], target);
        }
      }
      if best == current {
        assert IsDepth(g, more[|roots|], target, best.value);
      } else {
        var i :| 0 <= i < |roots| && IsDepth(g, roots[i], target, depth.value);
        assert IsDepth(g, more[i], target, best.value);
      }
    }
  }

  /**
    `delegationDepth`, on graphs where the query ends: known exactly when the
    tree relation is same or descendant, and then the shortest distance from any
    of the parent's roots.
   */
  method DelegationDepth(g: Graph, roots: seq<Node>, target: Node) returns (depth: Option<nat>)
    requires forall i :: 0 <= i < |roots| ==> !CycleFrom(g, roots[i])
    ensures depth.Some? <==> Inside(RelationOf(g, roots, target))
    ensures Nearest(g, roots, target, depth)
  {
    InsideIff(g, roots, target);
    depth := None;
    for i := 0 to |roots|
      invariant Nearest(g, roots[..i], target, depth)
    {
      var current := MinDepth(g, roots[i], target);
      NearestSnoc(g, roots[..i], roots[i], target, depth, current);
      assert roots[..i + 1] == roots[..i] + [roots[i]];
      if current.Some? && (depth.None? || current.value < depth.value) {
        depth := current;
      }
    }
    assert roots[..|roots|] == roots;
  }
}
