/**
  Route selection and delivery between nodes (internal/crossnode/select.go,
  internal/crossnode/deliver.go).

  A sender lists the routes to a target in a fixed order, skips those it saw
  failing within the last minute, and walks the rest until one gives a
  definitive answer.  `SelectAfterDeliver` ties the two together: within the
  window, selecting with the cooldowns a delivery returned is selecting as
  before without exactly the routes that failed; behind it, nothing is missing.
 */
module Routes {
  import opened NodeRefs
  import opened Options
  import opened Sequences

  /** A registered node; an empty direct URL means it cannot be reached from outside. */
  datatype Node = Node(id: string, directUrl: string, relayVia: seq<string>)

  datatype Kind = Direct | Relay | Queue

  datatype Candidate = Candidate(kind: Kind, url: string, via: string, routeKey: string)

  /** Failure times by route key, in nanoseconds. */
  type Cooldowns = map<string, int>

  const COOLDOWN_WINDOW: int := 60_000_000_000

  function KindText(k: Kind): (s: string) {
    match k
    case Direct => "direct"
    case Relay => "relay"
    case Queue => "queue"
  }

  /** `routeKey`. */
  function RouteKey(k: Kind, target: string, via: string): (key: string) {
    if via == "" then KindText(k) + "|" + target else KindText(k) + "|" + target + "|" + via
  }

  lemma ValidHasNoBar(id: string)
    requires ValidNodeId(id)
    ensures Free(id, '|')
  {
  }

  lemma KindHasNoBar(k: Kind)
    ensures Free(KindText(k), '|')
  {
  }

  lemma KindTextInjective(k: Kind, l: Kind)
    requires KindText(k) == KindText(l)
    ensures k == l
  {
    assert KindText(Direct)[0] == 'd' && KindText(Relay)[0] == 'r' && KindText(Queue)[0] == 'q';
  }

  /** The part of a key behind its first bar, and whether there is a second one. */
  function Rest(target: string, via: string): (s: string) {
    if via == "" then target else target + "|" + via
  }

  lemma KeyIs(k: Kind, target: string, via: string)
    ensures RouteKey(k, target, via) == KindText(k) + "|" + Rest(target, via)
  {
    if via != "" {
      Assoc(KindText(k) + "|", target, "|");
      Assoc(KindText(k) + "|", target + "|", via);
    }
  }

  lemma BarInside(a: string, x: string)
    ensures !Free(a + "|" + x, '|')
  {
    var s := a + "|" + x;
    assert s[|a|] == '|';
  }

  /** For valid node ids a route key names exactly one kind, target and hop. */
  lemma RouteKeyInjective(k: Kind, target: string, via: string, l: Kind, target': string, via': string)
    requires ValidNodeId(target) && ValidNodeId(target')
    requires (via == "" || ValidNodeId(via)) && (via' == "" || ValidNodeId(via'))
    requires RouteKey(k, target, via) == RouteKey(l, target', via')
    ensures k == l && target == target' && via == via'
  {
    KindHasNoBar(k);
    KindHasNoBar(l);
    KeyIs(k, target, via);
    KeyIs(l, target', via');
    Apart(KindText(k), Rest(target, via), KindText(l), Rest(target', via'), '|');
    KindTextInjective(k, l);
    ValidHasNoBar(target);
    ValidHasNoBar(target');
    if via != "" {
      BarInside(target, via);
      if via' != "" {
        Apart(target, via, target', via', '|');
      }
    } else if via' != "" {
      BarInside(target', via');
    }
  }

  // ---------------------------------------------------------------- Select

  predicate Cooling(c: Cooldowns, key: string, now: int) {
    key in c && now < c[key] + COOLDOWN_WINDOW
  }

  /** The index `Select` builds: a later entry for one id replaces an earlier one. */
  function ById(nodes: seq<Node>): (m: map<string, Node>) {
    if nodes == [] then map[]
    else
      var last := nodes[|nodes| - 1];
      ById(nodes[..|nodes| - 1])[last.id := last]
  }

  /** The hops of a target that can be reached, in registered order. */
  function Hops(m: map<string, Node>, target: string, via: seq<string>, k: Kind): (cs: seq<Candidate>) {
    if via == [] then []
    else
      var before := Hops(m, target, via[..|via| - 1], k);
      var hop := via[|via| - 1];
      if hop in m && m[hop].directUrl != ""
      then before + [Candidate(k, m[hop].directUrl, hop, RouteKey(k, target, hop))]
      else before
  }

  /** Every route to a registered target: direct, then relays, then queues. */
  function AllRoutes(m: map<string, Node>, target: string): (cs: seq<Candidate>)
    requires target in m
  {
    (if m[target].directUrl != "" then [Candidate(Direct, m[target].directUrl, "", RouteKey(Direct, target, ""))] else [])
    + Hops(m, target, m[target].relayVia, Relay)
    + Hops(m, target, m[target].relayVia, Queue)
  }

  /** The routes a sender does not see cooling, in the same order. */
  function Warm(cs: seq<Candidate>, c: Cooldowns, now: int): (ws: seq<Candidate>) {
    if cs == [] then []
    else
      var last := cs[|cs| - 1];
      var before := Warm(cs[..|cs| - 1], c, now);
      if Cooling(c, last.routeKey, now) then before else before + [last]
  }

  datatype Selection = Selected(candidates: seq<Candidate>) | UnknownTarget | NoRoute

  function Select(nodes: seq<Node>, target: string, c: Cooldowns, now: int): (s: Selection) {
    var m := ById(nodes);
    if target !in m then UnknownTarget
    else
      var ws := Warm(AllRoutes(m, target), c, now);
      if ws == [] then NoRoute else Selected(ws)
  }

  lemma {:induction false} WarmConcat(a: seq<Candidate>, b: seq<Candidate>, c: Cooldowns, now: int)
    ensures Warm(a + b, c, now) == Warm(a, c, now) + Warm(b, c, now)
    decreases |b|
  {
    if b == [] {
      assert a + b == a;
    } else {
      var front, last := b[..|b| - 1], b[|b| - 1];
      assert (a + b)[..|a + b| - 1] == a + front;
      WarmConcat(a, front, c, now);
      Assoc(Warm(a, c, now), Warm(front, c, now), [last]);
    }
  }

  lemma WarmSnoc(cs: seq<Candidate>, x: Candidate, c: Cooldowns, now: int)
    ensures Warm(cs + [x], c, now) == if Cooling(c, x.routeKey, now) then Warm(cs, c, now) else Warm(cs, c, now) + [x]
  {
    assert (cs + [x])[..|cs|] == cs;
  }

  /** One of the two relay loops of `Select`. */
  method AddHops(m: map<string, Node>, target: string, via: seq<string>, k: Kind, c: Cooldowns, now: int, found: seq<Candidate>)
    returns (out: seq<Candidate>)
    ensures out == found + Warm(Hops(m, target, via, k), c, now)
  {
    out := found;
    for i := 0 to |via|
      invariant out == found + Warm(Hops(m, target, via[..i], k), c, now)
    {
      assert via[..i + 1][..i] == via[..i];
      if via[i] in m && m[via[i]].directUrl != "" {
        var x := Candidate(k, m[via[i]].directUrl, via[i], RouteKey(k, target, via[i]));
        WarmSnoc(Hops(m, target, via[..i], k), x, c, now);
        if !Cooling(c, x.routeKey, now) {
          Assoc(found, Warm(Hops(m, target, via[..i], k), c, now), [x]);
          out := out + [x];
        }
      }
    }
    assert via[..|via|] == via;
  }

  method SelectRoutes(nodes: seq<Node>, target: string, c: Cooldowns, now: int) returns (s: Selection)
    ensures s == Select(nodes, target, c, now)
  {
    var m := map[];
    for i := 0 to |nodes|
      invariant m == ById(nodes[..i])
    {
      assert nodes[..i + 1][..i] == nodes[..i];
      m := m[nodes[i].id := nodes[i]];
    }
    assert nodes[..|nodes|] == nodes;
    if target !in m {
      return UnknownTarget;
    }
    var candidates: seq<Candidate> := [];
    ghost var direct: seq<Candidate> := [];
    if m[target].directUrl != "" {
      var x := Candidate(Direct, m[target].directUrl, "", RouteKey(Direct, target, ""));
      direct := [x];
      WarmSnoc([], x, c, now);
      assert [] + [x] == [x];
      if !Cooling(c, x.routeKey, now) {
        candidates := candidates + [x];
      }
    }
    assert candidates == Warm(direct, c, now);
    candidates := AddHops(m, target, m[target].relayVia, Relay, c, now, candidates);
    candidates := AddHops(m, target, m[target].relayVia, Queue, c, now, candidates);
    WarmConcat(direct, Hops(m, target, m[target].relayVia, Relay), c, now);
    WarmConcat(direct + Hops(m, target, m[target].relayVia, Relay), Hops(m, target, m[target].relayVia, Queue), c, now);
    s := if candidates == [] then NoRoute else Selected(candidates);
  }

  // --------------------------------------------------------------- Deliver

  /** What posting to a route yields. */
  datatype Answer = TransportError | Status(code: int)

  predicate Advances(a: Answer) {
    a.TransportError? || a.code >= 500
  }

  datatype Attempt = Attempt(candidate: Candidate, answer: Answer, cooledDown: bool)

  datatype Outcome = Outcome(delivered: bool, terminal: Option<Candidate>, status: int, attempts: seq<Attempt>, cooldowns: Cooldowns)

  /** How many of the posts from the i-th on fail before the first definitive answer; answers is by position. */
  function Failures(count: nat, answers: nat -> Answer, i: nat := 0): (n: nat)
    requires i <= count
    ensures i <= n <= count
    ensures forall k :: i <= k < n ==> Advances(answers(k))
    ensures n < count ==> !Advances(answers(n))
    decreases count - i
  {
    if i == count || !Advances(answers(i)) then i else Failures(count, answers, i + 1)
  }

  /** The cooldowns after the first n candidates failed. */
  function Cooled(c: Cooldowns, cs: seq<Candidate>, now: int): (d: Cooldowns) {
    if cs == [] then c else Cooled(c, cs[..|cs| - 1], now)[cs[|cs| - 1].routeKey := now]
  }

  predicate Named(cs: seq<Candidate>, key: string) {
    exists i :: 0 <= i < |cs| && cs[i].routeKey == key
  }

  lemma {:induction false} CooledIs(c: Cooldowns, cs: seq<Candidate>, now: int, key: string)
    ensures Named(cs, key) ==> key in Cooled(c, cs, now) && Cooled(c, cs, now)[key] == now
    ensures !Named(cs, key) ==> (key in Cooled(c, cs, now) <==> key in c) && (key in c ==> Cooled(c, cs, now)[key] == c[key])
  {
    if cs != [] {
      var front, last := cs[..|cs| - 1], cs[|cs| - 1];
      CooledIs(c, front, now, key);
      if Named(cs, key) && last.routeKey != key {
        var i :| 0 <= i < |cs| && cs[i].routeKey == key;
        assert front[i].routeKey == key;
      }
      if Named(front, key) {
        var i :| 0 <= i < |front| && front[i].routeKey == key;
        assert cs[i].routeKey == key;
      }
      assert cs[|cs| - 1].routeKey == last.routeKey;
    }
  }

  /**
    The walk of `Deliver`: it stops at the first candidate that answers with a
    status below 500, tries nothing behind it, and cools down exactly the
    candidates before it.
   */
  method Deliver(cs: seq<Candidate>, c: Cooldowns, now: int, answers: nat -> Answer) returns (out: Outcome, failed: bool)
    ensures var n := Failures(|cs|, answers);
            && failed == (n == |cs|)
            && (forall i :: 0 <= i < n ==> answers(i).TransportError? || answers(i).code >= 500)
            && (!failed ==> answers(n).Status? && answers(n).code < 500)
            && out.cooldowns == Cooled(c, cs[..n], now)
            && |out.attempts| == (if failed then n else n + 1)
            && (forall i :: 0 <= i < |out.attempts| ==> out.attempts[i] == Attempt(cs[i], answers(i), i < n))
            && (!failed ==> out.terminal == Some(cs[n]) && out.status == answers(n).code
                            && (out.delivered <==> answers(n).code < 400))
            && (failed ==> !out.delivered && out.terminal.None?)
  {
    var cooldowns, attempts := c, [];
    for i := 0 to |cs|
      invariant forall k :: 0 <= k < i ==> Advances(answers(k))
      invariant cooldowns == Cooled(c, cs[..i], now)
      invariant |attempts| == i && forall k :: 0 <= k < i ==> attempts[k] == Attempt(cs[k], answers(k), true)
    {
      assert cs[..i + 1][..i] == cs[..i];
      var answer := answers(i);
      if Advances(answer) {
        cooldowns := cooldowns[cs[i].routeKey := now];
        attempts := attempts + [Attempt(cs[i], answer, true)];
      } else if answer.code >= 400 {
        return Outcome(false, Some(cs[i]), answer.code, attempts + [Attempt(cs[i], answer, false)], cooldowns), false;
      } else {
        return Outcome(true, Some(cs[i]), answer.code, attempts + [Attempt(cs[i], answer, false)], cooldowns), false;
      }
    }
    out, failed := Outcome(false, None, 0, attempts, cooldowns), true;
  }

  // ---------------------------------------------------- the two together

  /** The candidates whose key is none of the given ones, in the same order. */
  function Without(cs: seq<Candidate>, gone: seq<Candidate>): (rest: seq<Candidate>) {
    if cs == [] then []
    else
      var last := cs[|cs| - 1];
      var before := Without(cs[..|cs| - 1], gone);
      if Named(gone, last.routeKey) then before else before + [last]
  }

  lemma CoolingAfter(c: Cooldowns, gone: seq<Candidate>, now: int, later: int, key: string)
    requires now <= later < now + COOLDOWN_WINDOW
    ensures Cooling(Cooled(c, gone, now), key, later) <==> Cooling(c, key, later) || Named(gone, key)
  {
    CooledIs(c, gone, now, key);
  }

  lemma {:induction false} WarmAfter(cs: seq<Candidate>, c: Cooldowns, gone: seq<Candidate>, now: int, later: int)
    requires now <= later < now + COOLDOWN_WINDOW
    ensures Warm(cs, Cooled(c, gone, now), later) == Without(Warm(cs, c, later), gone)
  {
    if cs != [] {
      var front, last := cs[..|cs| - 1], cs[|cs| - 1];
      WarmAfter(front, c, gone, now, later);
      CoolingAfter(c, gone, now, later, last.routeKey);
      var before := Warm(front, c, later);
      assert (before + [last])[..|before|] == before;
    }
  }

  lemma {:induction false} WarmLater(cs: seq<Candidate>, c: Cooldowns, gone: seq<Candidate>, now: int, later: int)
    requires now + COOLDOWN_WINDOW <= later
    requires forall i :: 0 <= i < |gone| ==> !Cooling(c, gone[i].routeKey, now)
    ensures Warm(cs, Cooled(c, gone, now), later) == Warm(cs, c, later)
  {
    if cs != [] {
      var front, last := cs[..|cs| - 1], cs[|cs| - 1];
      WarmLater(front, c, gone, now, later);
      CooledIs(c, gone, now, last.routeKey);
      if Named(gone, last.routeKey) {
        var i :| 0 <= i < |gone| && gone[i].routeKey == last.routeKey;
        assert !Cooling(c, gone[i].routeKey, now);
      }
    }
  }

  function CandidatesOf(s: Selection): (cs: seq<Candidate>) {
    if s.Selected? then s.candidates else []
  }

  lemma {:induction false} WarmIsWarm(cs: seq<Candidate>, c: Cooldowns, now: int)
    ensures forall i :: 0 <= i < |Warm(cs, c, now)| ==> !Cooling(c, Warm(cs, c, now)[i].routeKey, now)
  {
    if cs != [] {
      WarmIsWarm(cs[..|cs| - 1], c, now);
    }
  }

  /**
    Selecting again with the cooldowns a delivery at `now` returned: up to a
    minute later it is the selection with the old cooldowns, in the same order,
    without exactly the routes that failed; from then on it is the selection
    with the old cooldowns.
   */
  lemma SelectAfterDeliver(nodes: seq<Node>, target: string, c: Cooldowns, now: int, later: int, nodes': seq<Node>, target': string, n: nat)
    requires now <= later && n <= |CandidatesOf(Select(nodes, target, c, now))|
    ensures var gone := CandidatesOf(Select(nodes, target, c, now))[..n];
            var before := CandidatesOf(Select(nodes', target', c, later));
            CandidatesOf(Select(nodes', target', Cooled(c, gone, now), later))
              == if later < now + COOLDOWN_WINDOW then Without(before, gone) else before
  {
    var m, m' := ById(nodes), ById(nodes');
    var gone := CandidatesOf(Select(nodes, target, c, now))[..n];
    if target' in m' {
      if later < now + COOLDOWN_WINDOW {
        WarmAfter(AllRoutes(m', target'), c, gone, now, later);
      } else {
        if target in m {
          WarmIsWarm(AllRoutes(m, target), c, now);
        }
        WarmLater(AllRoutes(m', target'), c, gone, now, later);
      }
    }
  }

  /** A candidate of a selection for the target carries the key of its own route. */
  predicate Keyed(x: Candidate, target: string) {
    x.routeKey == RouteKey(x.kind, target, x.via)
  }

  lemma {:induction false} HopsAreKeyed(m: map<string, Node>, target: string, via: seq<string>, k: Kind)
    ensures forall x :: x in Hops(m, target, via, k) ==> Keyed(x, target) && x.via in via
  {
    if via != [] {
      HopsAreKeyed(m, target, via[..|via| - 1], k);
      assert forall hop :: hop in via[..|via| - 1] ==> hop in via;
    }
  }

  lemma {:induction false} WarmAreThere(cs: seq<Candidate>, c: Cooldowns, now: int)
    ensures forall x :: x in Warm(cs, c, now) ==> x in cs
  {
    if cs != [] {
      WarmAreThere(cs[..|cs| - 1], c, now);
      assert forall x :: x in cs[..|cs| - 1] ==> x in cs;
    }
  }

  /** Every selected candidate carries the key of its route, through a hop registered for the target if through any. */
  lemma SelectedAreKeyed(nodes: seq<Node>, target: string, c: Cooldowns, now: int, x: Candidate)
    requires x in CandidatesOf(Select(nodes, target, c, now))
    ensures Keyed(x, target)
    ensures x.via == "" || (target in ById(nodes) && x.via in ById(nodes)[target].relayVia)
  {
    var m := ById(nodes);
    WarmAreThere(AllRoutes(m, target), c, now);
    HopsAreKeyed(m, target, m[target].relayVia, Relay);
    HopsAreKeyed(m, target, m[target].relayVia, Queue);
  }

  /** A candidate of one selection is named by another's failures exactly when it is the same route. */
  predicate SameRoute(a: Candidate, target: string, b: Candidate, target': string) {
    a.kind == b.kind && a.via == b.via && target == target'
  }

  lemma NamedIsSameRoute(a: Candidate, target: string, b: Candidate, target': string)
    requires ValidNodeId(target) && ValidNodeId(target')
    requires (a.via == "" || ValidNodeId(a.via)) && (b.via == "" || ValidNodeId(b.via))
    requires Keyed(a, target) && Keyed(b, target')
    ensures a.routeKey == b.routeKey <==> SameRoute(a, target, b, target')
  {
    if a.routeKey == b.routeKey {
      RouteKeyInjective(a.kind, target, a.via, b.kind, target', b.via);
    }
  }

  // ----------------------------------------------------- what is selected

  /** The last node registered under an id counts. */
  ghost predicate RegisteredAs(nodes: seq<Node>, i: nat, id: string) {
    i < |nodes| && nodes[i].id == id && forall k :: i < k < |nodes| ==> nodes[k].id != id
  }

  lemma {:induction false} Registered(nodes: seq<Node>, id: string)
    ensures id in ById(nodes) <==> exists i :: 0 <= i < |nodes| && nodes[i].id == id
  {
    if nodes != [] {
      var n := |nodes| - 1;
      Registered(nodes[..n], id);
      if i :| 0 <= i < |nodes| && nodes[i].id == id && i < n {
        assert nodes[..n][i].id == id;
      }
      if i :| 0 <= i < n && nodes[..n][i].id == id {
        assert nodes[i].id == id;
      }
    }
  }

  lemma {:induction false} LastRegistered(nodes: seq<Node>, id: string, i: nat)
    requires RegisteredAs(nodes, i, id)
    ensures id in ById(nodes) && ById(nodes)[id] == nodes[i]
    decreases |nodes|
  {
    var n := |nodes| - 1;
    if i < n {
      assert nodes[n].id != id;
      LastRegistered(nodes[..n], id, i);
    }
  }

  /** A key that failed less than a minute ago. */
  ghost predicate JustFailed(c: Cooldowns, key: string, now: int) {
    key in c && now - c[key] < 60_000_000_000
  }

  /** A hop that is registered with a URL and did not just fail for this target. */
  predicate Usable(m: map<string, Node>, target: string, k: Kind, c: Cooldowns, now: int, hop: string) {
    hop in m && m[hop].directUrl != "" && !Cooling(c, RouteKey(k, target, hop), now)
  }

  function HopTo(m: map<string, Node>, target: string, k: Kind, hop: string): (x: Candidate)
    requires hop in m
  {
    Candidate(k, m[hop].directUrl, hop, RouteKey(k, target, hop))
  }

  /** One candidate per hop, in that order. */
  ghost predicate Through(m: map<string, Node>, target: string, k: Kind, hops: seq<string>, cs: seq<Candidate>) {
    |cs| == |hops| && forall i :: 0 <= i < |hops| ==> hops[i] in m && cs[i] == HopTo(m, target, k, hops[i])
  }

  lemma {:induction false} WarmHops(m: map<string, Node>, target: string, via: seq<string>, k: Kind, c: Cooldowns, now: int)
    ensures Through(m, target, k, Sift(hop => Usable(m, target, k, c, now, hop), via), Warm(Hops(m, target, via, k), c, now))
    decreases |via|
  {
    if via != [] {
      var front, hop := via[..|via| - 1], via[|via| - 1];
      assert via == front + [hop];
      WarmHops(m, target, front, k, c, now);
      SiftSnoc(hop => Usable(m, target, k, c, now, hop), front, hop);
      WarmHop(m, target, via, k, c, now);
    }
  }

  /** The last hop is added when it is usable. */
  lemma WarmHop(m: map<string, Node>, target: string, via: seq<string>, k: Kind, c: Cooldowns, now: int)
    requires via != []
    ensures var front, hop := via[..|via| - 1], via[|via| - 1];
            Warm(Hops(m, target, via, k), c, now)
            == Warm(Hops(m, target, front, k), c, now) + (if Usable(m, target, k, c, now, hop) then [HopTo(m, target, k, hop)] else [])
  {
    var front, hop := via[..|via| - 1], via[|via| - 1];
    if hop in m && m[hop].directUrl != "" {
      WarmSnoc(Hops(m, target, front, k), HopTo(m, target, k, hop), c, now);
    }
  }

  /** The text of a key, and when it cools down. */
  lemma KeyText(k: Kind, target: string, via: string, c: Cooldowns, now: int)
    ensures RouteKey(k, target, via)
            == (if k == Direct then "direct|" else if k == Relay then "relay|" else "queue|") + target + (if via == "" then "" else "|" + via)
    ensures Cooling(c, RouteKey(k, target, via), now) <==> JustFailed(c, RouteKey(k, target, via), now)
  {
    assert KindText(k) + "|" == (if k == Direct then "direct|" else if k == Relay then "relay|" else "queue|");
    if via != "" {
      Assoc(KindText(k) + "|" + target, "|", via);
    }
  }

  /**
    What a selection lists: the direct route, then one relay per usable hop, then
    one queue per usable hop, both in registered order, and nothing else.
   */
  lemma SelectionIs(nodes: seq<Node>, target: string, c: Cooldowns, now: int)
    returns (direct: seq<Candidate>, relays: seq<Candidate>, queues: seq<Candidate>)
    requires target in ById(nodes)
    ensures var m := ById(nodes);
            && Select(nodes, target, c, now)
               == (if direct + relays + queues == [] then NoRoute else Selected(direct + relays + queues))
            && direct == (if m[target].directUrl == "" || JustFailed(c, "direct|" + target, now) then []
                          else [Candidate(Direct, m[target].directUrl, "", "direct|" + target)])
            && Through(m, target, Relay, Sift(hop => Usable(m, target, Relay, c, now, hop), m[target].relayVia), relays)
            && Through(m, target, Queue, Sift(hop => Usable(m, target, Queue, c, now, hop), m[target].relayVia), queues)
  {
    var m := ById(nodes);
    var via, url := m[target].relayVia, m[target].directUrl;
    var first := if url != "" then [Candidate(Direct, url, "", RouteKey(Direct, target, ""))] else [];
    direct, relays, queues := Warm(first, c, now), Warm(Hops(m, target, via, Relay), c, now), Warm(Hops(m, target, via, Queue), c, now);
    WarmConcat(first, Hops(m, target, via, Relay), c, now);
    WarmConcat(first + Hops(m, target, via, Relay), Hops(m, target, via, Queue), c, now);
    WarmHops(m, target, via, Relay, c, now);
    WarmHops(m, target, via, Queue, c, now);
    KeyText(Direct, target, "", c, now);
    assert RouteKey(Direct, target, "") == "direct|" + target;
    if url != "" {
      WarmSnoc([], first[0], c, now);
      assert [] + [first[0]] == first;
    }
  }

  /** A hop is usable when its node has a URL and its key did not just fail. */
  lemma UsableIff(m: map<string, Node>, target: string, c: Cooldowns, now: int, hop: string)
    requires hop != ""
    ensures Usable(m, target, Relay, c, now, hop)
            <==> hop in m && m[hop].directUrl != "" && !JustFailed(c, "relay|" + target + ("|" + hop), now)
    ensures Usable(m, target, Queue, c, now, hop)
            <==> hop in m && m[hop].directUrl != "" && !JustFailed(c, "queue|" + target + ("|" + hop), now)
  {
    KeyText(Relay, target, hop, c, now);
    KeyText(Queue, target, hop, c, now);
  }

  /** Selection knows a target exactly when some node has its id. */
  lemma UnknownIff(nodes: seq<Node>, target: string, c: Cooldowns, now: int)
    ensures Select(nodes, target, c, now) == UnknownTarget <==> forall i :: 0 <= i < |nodes| ==> nodes[i].id != target
  {
    Registered(nodes, target);
  }
}
