/**
  Retried handlers converge (internal/idempotency/context.go,
  internal/inbox/service.go, internal/crossnode/queue.go).

  A handler that runs under the idempotency contract derives its subject ids and
  event discriminators from the request, so every execution of one request
  appends the same events and the event ids collapse them.  `Converges` is the
  whole-run statement: whatever executions of whatever requests commit or roll
  back, in any order, the log holds for each request exactly the events of one
  execution, from the first commit of a request with these events, or nothing.
 */
module HandlerConvergence {
  import opened CanonicalJson
  import opened EventIdentity
  import opened Options
  import opened Sequences
  import NodeRefs
  import Strings
  import Uuids

  type Uuid = Uuids.Uuid

  /** `idempotency.Request`. */
  datatype Identity = Identity(token: Uuid, scope: string, key: string, hash: seq<Byte>)

  /** The library functions the derivations use. */
  datatype Hashes = Hashes(
    base64: seq<Byte> -> string,
    sha1: string -> Uuid,
    node: string -> Uuid,
    title: string -> string)

  /** base64 text contains no bar and tells two hashes apart. */
  predicate Base64Tells(h: Hashes, r: Identity, q: Identity) {
    && Free(h.base64(r.hash), '|') && Free(h.base64(q.hash), '|')
    && (h.base64(r.hash) == h.base64(q.hash) ==> r.hash == q.hash)
  }

  /** What a request must carry for ids to be derived from it. */
  predicate Complete(r: Identity) {
    r.token != Uuids.NIL && r.scope != "" && r.key != ""
  }

  // ------------------------------------------------------------------ seeds

  /** What `EventDiscriminator` returns. */
  function Discriminator(r: Identity): (d: string) {
    Uuids.Format(r.token) + "|" + r.scope + "|" + r.key
  }

  /** The text `SubjectID` hashes; role is its label. */
  function Seed(h: Hashes, r: Identity, role: string): (s: string) {
    Discriminator(r) + "|" + h.base64(r.hash) + "|" + role
  }

  function SubjectId(h: Hashes, r: Identity, role: string): (id: Uuid)
    requires Complete(r) && role != ""
  {
    h.sha1(Seed(h, r, role))
  }

  // Subject kinds and event kinds.
  const WORK_ITEM: string := "work_item"
  const CREATED: string := "work_item.created"
  const MESSAGE_SUBJECT: string := "message"
  const CAPTURED: string := "message.captured"
  const NODE: string := "node"
  const QUEUED: string := "command.queued"

  // The labels of the inbox.
  const ITEM: string := "inbox.work_item"
  const MESSAGE: string := "inbox.message"

  lemma TokenHasNoBar(token: Uuid)
    ensures Free(Uuids.Format(token), '|')
  {
    Uuids.FormatChars(token);
  }

  /** The part behind the last bar is recoverable. */
  lemma BehindBar(x: string, a: string, y: string, b: string)
    requires Free(a, '|') && Free(b, '|') && x + "|" + a == y + "|" + b
    ensures x == y && a == b
  {
    var s := x + "|" + a;
    assert s[|x|] == '|' && s[|y|] == '|' by {
      assert (x + "|" + a)[|x|] == '|' && (y + "|" + b)[|y|] == '|';
    }
    assert forall i :: |x| < i < |s| ==> s[i] == a[i - |x| - 1];
    assert forall i :: |y| < i < |s| ==> s[i] == b[i - |y| - 1];
    assert |x| == |y|;
    SplitLeft(x, "|" + a);
    SplitLeft(y, "|" + b);
    Assoc(x, "|", a);
    Assoc(y, "|", b);
    EqualPrefix(x, y, "|" + a, "|" + b);
    EqualPrefix("|", "|", a, b);
  }

  /** Discriminators are one-to-one on (token, scope, key) as long as scopes contain no bar; keys may. */
  lemma DiscriminatorIdentity(r: Identity, q: Identity)
    requires Free(r.scope, '|') && Free(q.scope, '|') && Discriminator(r) == Discriminator(q)
    ensures r.token == q.token && r.scope == q.scope && r.key == q.key
  {
    TokenHasNoBar(r.token);
    TokenHasNoBar(q.token);
    Assoc(Uuids.Format(r.token) + "|", r.scope + "|", r.key);
    Assoc(Uuids.Format(q.token) + "|", q.scope + "|", q.key);
    Assoc(Uuids.Format(r.token) + "|", r.scope, "|");
    Assoc(Uuids.Format(q.token) + "|", q.scope, "|");
    Apart(Uuids.Format(r.token), r.scope + "|" + r.key, Uuids.Format(q.token), q.scope + "|" + q.key, '|');
    Uuids.FormatInjective(r.token, q.token);
    Apart(r.scope, r.key, q.scope, q.key, '|');
  }

  /** Seeds are one-to-one on the whole request and the label. */
  lemma SeedIdentity(h: Hashes, r: Identity, role: string, q: Identity, role': string)
    requires Base64Tells(h, r, q) && Free(r.scope, '|') && Free(q.scope, '|') && Free(role, '|') && Free(role', '|')
    requires Seed(h, r, role) == Seed(h, q, role')
    ensures r == q && role == role'
  {
    var x, y := h.base64(r.hash), h.base64(q.hash);
    BehindBar(Discriminator(r) + "|" + x, role, Discriminator(q) + "|" + y, role');
    BehindBar(Discriminator(r), x, Discriminator(q), y);
    DiscriminatorIdentity(r, q);
  }

  // --------------------------------------------------------------- handlers

  /** The identity-bearing part of an `events.Spec`, with Go strings as text. */
  datatype Draft = Draft(subjectKind: string, subjectId: Uuid, kind: string, payload: Json, discriminator: string)

  /** The input of a handler, a function of the request. */
  datatype Call =
    | Capture(text: string)
    | Enqueue(target: string, path: string, body: Json, originKey: string, originActor: Option<Uuid>)

  /** One authenticated request: its idempotency identity and what its body asks for. */
  datatype Request = Request(identity: Identity, call: Call)

  function CaptureDrafts(h: Hashes, text: string, item: Uuid, message: Uuid): (ds: seq<Draft>) {
    [ Draft(WORK_ITEM, item, CREATED, Obj(map[
        "title" := Str(h.title(text)), "body" := Str(text), "state" := Str("captured"),
        "suggested_convergence_checks" := Arr([]), "human_review_status" := Str("waved_through")]), ""),
      Draft(MESSAGE_SUBJECT, message, CAPTURED, Obj(map[
        "work_item_id" := Str(Uuids.Format(item)), "text" := Str(text)]), "") ]
  }

  function QueuedPayload(c: Call): (p: Json)
    requires c.Enqueue?
  {
    if c.originActor.None? then
      Obj(map["target_node_id" := Str(c.target), "command_path" := Str(c.path), "command_body" := c.body,
              "origin_idempotency_key" := Str(c.originKey)])
    else
      Obj(map["target_node_id" := Str(c.target), "command_path" := Str(c.path), "command_body" := c.body,
              "origin_idempotency_key" := Str(c.originKey),
              "origin_actor_token_id" := Str(Uuids.Format(c.originActor.value))])
  }

  /** What one execution appends; nothing when the handler refuses its input. */
  function Drafts(h: Hashes, r: Request): (ds: seq<Draft>)
    requires Complete(r.identity)
  {
    match r.call
    case Capture(text) =>
      if Strings.TrimSpace(text) == "" then []
      else CaptureDrafts(h, Strings.TrimSpace(text), SubjectId(h, r.identity, ITEM), SubjectId(h, r.identity, MESSAGE))
    case Enqueue(target, _, _, _, _) =>
      if !NodeRefs.ValidNodeId(target) then []
      else [Draft(NODE, h.node(target), QUEUED, QueuedPayload(r.call), Discriminator(r.identity))]
  }

  /** The payload holds this text under this name. */
  ghost predicate Says(d: Draft, name: string, text: string) {
    d.payload.Obj? && name in d.payload.fields && d.payload.fields[name] == Str(text)
  }

  /**
    What a captured text leaves: a captured work item with the trimmed text as
    its body and a message that carries the text and names the item; a blank text
    leaves nothing.
   */
  lemma CaptureSays(h: Hashes, r: Request)
    requires Complete(r.identity) && r.call.Capture?
    ensures var ds, text := Drafts(h, r), Strings.TrimSpace(r.call.text);
            if text == "" then ds == []
            else
              && |ds| == 2
              && ds[0].subjectKind == "work_item" && ds[0].kind == "work_item.created"
              && ds[0].subjectId == h.sha1(Seed(h, r.identity, "inbox.work_item"))
              && Says(ds[0], "body", text) && Says(ds[0], "title", h.title(text)) && Says(ds[0], "state", "captured")
              && Says(ds[0], "human_review_status", "waved_through")
              && ds[1].subjectKind == "message" && ds[1].kind == "message.captured"
              && ds[1].subjectId == h.sha1(Seed(h, r.identity, "inbox.message"))
              && Says(ds[1], "text", text) && Says(ds[1], "work_item_id", Uuids.Format(ds[0].subjectId))
              && ds[0].discriminator == ds[1].discriminator == ""
  {
  }

  /** What an enqueued command leaves: one event on the target node with the command, or nothing for an invalid target. */
  lemma EnqueueSays(h: Hashes, r: Request)
    requires Complete(r.identity) && r.call.Enqueue?
    ensures var ds, c := Drafts(h, r), r.call;
            if !NodeRefs.ValidNodeId(c.target) then ds == []
            else
              && |ds| == 1 && ds[0].subjectKind == "node" && ds[0].kind == "command.queued" && ds[0].subjectId == h.node(c.target)
              && Says(ds[0], "target_node_id", c.target) && Says(ds[0], "command_path", c.path)
              && Says(ds[0], "origin_idempotency_key", c.originKey)
              && ds[0].payload.fields["command_body"] == c.body
              && (if c.originActor.None? then "origin_actor_token_id" !in ds[0].payload.fields
                  else Says(ds[0], "origin_actor_token_id", Uuids.Format(c.originActor.value)))
              && ds[0].discriminator
                 == Uuids.Format(r.identity.token) + "|" + r.identity.scope + "|" + r.identity.key
  {
  }

  // ------------------------------------------------------- identity of drafts

  function TextBytes(s: string): (b: seq<Byte>) {
    if s == "" then [] else Utf8(s[0] as int) + TextBytes(s[1..])
  }

  function AsSpec(d: Draft): (s: Spec) {
    Spec(TextBytes(d.subjectKind), d.subjectId, TextBytes(d.kind), d.payload, TextBytes(d.discriminator))
  }

  /** Two drafts get one event id: their preimages are the same bytes. */
  ghost predicate Same(d: Draft, e: Draft) {
    Preimage(AsSpec(d)) == Preimage(AsSpec(e))
  }

  lemma {:induction false} TextBytesInjective(s: string, t: string)
    requires TextBytes(s) == TextBytes(t)
    ensures s == t
  {
    if s != "" && t != "" {
      var r, q := TextBytes(s[1..]), TextBytes(t[1..]);
      Utf8Prefix(s[0] as int, t[0] as int, r, q);
      EqualPrefix(Utf8(s[0] as int), Utf8(t[0] as int), r, q);
      TextBytesInjective(s[1..], t[1..]);
      HeadTail(s);
      HeadTail(t);
    }
  }

  predicate PlainName(s: string) {
    forall i :: 0 <= i < |s| ==> s[i] < 128 as char && s[i] != ':'
  }

  lemma {:induction false} PlainNameBytes(s: string)
    requires PlainName(s)
    ensures NoColon(TextBytes(s))
  {
    if s != "" {
      PlainNameBytes(s[1..]);
    }
  }

  /** Drafts of one event id agree on everything the id is made of. */
  lemma SameDraft(d: Draft, e: Draft)
    requires PlainName(d.subjectKind) && PlainName(d.kind) && PlainName(e.subjectKind) && PlainName(e.kind)
    ensures Same(d, e) ==> d.subjectId == e.subjectId && d.kind == e.kind && d.discriminator == e.discriminator
  {
    PlainNameBytes(d.subjectKind);
    PlainNameBytes(d.kind);
    PlainNameBytes(e.subjectKind);
    PlainNameBytes(e.kind);
    PreimageIdentity(AsSpec(d), AsSpec(e));
    if Same(d, e) {
      TextBytesInjective(d.kind, e.kind);
      TextBytesInjective(d.discriminator, e.discriminator);
    }
  }

  /** The labels the inbox derives subject ids for. */
  predicate InboxRole(role: string) {
    role == ITEM || role == MESSAGE
  }

  /** The hash tells the seeds of two requests apart. */
  ghost predicate ToldApart(h: Hashes, r: Identity, q: Identity) {
    forall role, role' :: InboxRole(role) && InboxRole(role') && h.sha1(Seed(h, r, role)) == h.sha1(Seed(h, q, role')) ==>
      Seed(h, r, role) == Seed(h, q, role')
  }

  predicate SameCaller(r: Identity, q: Identity) {
    r.token == q.token && r.scope == q.scope && r.key == q.key
  }

  lemma PlainNames()
    ensures PlainName(WORK_ITEM) && PlainName(CREATED)
    ensures PlainName(MESSAGE_SUBJECT) && PlainName(CAPTURED)
    ensures PlainName(NODE) && PlainName(QUEUED)
  {
    assert PlainName(WORK_ITEM);
    assert PlainName(CREATED);
    assert PlainName(MESSAGE_SUBJECT);
    assert PlainName(CAPTURED);
    assert PlainName(NODE);
    assert PlainName(QUEUED);
  }

  /** What identifies a draft of a request: its discriminator, or its subject. */
  ghost predicate Describes(h: Hashes, r: Request, d: Draft)
    requires Complete(r.identity)
  {
    match r.call
    case Enqueue(_, _, _, _, _) =>
      d.subjectKind == NODE && d.kind == QUEUED && d.discriminator == Discriminator(r.identity)
    case Capture(_) =>
      || (d.subjectKind == WORK_ITEM && d.kind == CREATED && d.subjectId == SubjectId(h, r.identity, ITEM))
      || (d.subjectKind == MESSAGE_SUBJECT && d.kind == CAPTURED && d.subjectId == SubjectId(h, r.identity, MESSAGE))
  }

  lemma DraftsDescribed(h: Hashes, r: Request, i: nat)
    requires Complete(r.identity) && i < |Drafts(h, r)|
    ensures Describes(h, r, Drafts(h, r)[i])
  {
  }

  lemma KindsDiffer()
    ensures CREATED != CAPTURED && CREATED != QUEUED && CAPTURED != QUEUED
  {
    assert |CREATED| == 17 && |CAPTURED| == 16 && |QUEUED| == 14;
  }

  lemma DescribedNames(h: Hashes, r: Request, d: Draft)
    requires Complete(r.identity) && Describes(h, r, d)
    ensures PlainName(d.subjectKind) && PlainName(d.kind)
    ensures r.call.Enqueue? <==> d.kind == QUEUED
  {
    PlainNames();
    KindsDiffer();
  }

  lemma DescribedSubject(h: Hashes, r: Request, d: Draft)
    requires Complete(r.identity) && Describes(h, r, d) && r.call.Capture?
    ensures d.subjectId == SubjectId(h, r.identity, if d.kind == CREATED then ITEM else MESSAGE)
  {
    KindsDiffer();
  }

  /** Drafts of one event id come from requests with the same token, scope and key. */
  lemma SameCallers(h: Hashes, r: Request, q: Request, d: Draft, e: Draft)
    requires Base64Tells(h, r.identity, q.identity) && ToldApart(h, r.identity, q.identity)
    requires Free(r.identity.scope, '|') && Free(q.identity.scope, '|')
    requires Complete(r.identity) && Complete(q.identity)
    requires Describes(h, r, d) && Describes(h, q, e) && Same(d, e)
    ensures SameCaller(r.identity, q.identity)
  {
    DescribedNames(h, r, d);
    DescribedNames(h, q, e);
    SameDraft(d, e);
    if r.call.Enqueue? {
      DiscriminatorIdentity(r.identity, q.identity);
    } else {
      DescribedSubject(h, r, d);
      DescribedSubject(h, q, e);
      SubjectsTell(h, r.identity, q.identity, if d.kind == CREATED then ITEM else MESSAGE);
    }
  }

  lemma SubjectsTell(h: Hashes, r: Identity, q: Identity, role: string)
    requires Base64Tells(h, r, q) && ToldApart(h, r, q) && Free(r.scope, '|') && Free(q.scope, '|')
    requires Complete(r) && Complete(q) && InboxRole(role)
    requires SubjectId(h, r, role) == SubjectId(h, q, role)
    ensures r == q
  {
    assert Seed(h, r, role) == Seed(h, q, role);
    SeedIdentity(h, r, role, q, role);
  }

  /** Requests that differ in token, scope or key never share an event. */
  lemma DifferentCallersDiffer(h: Hashes, r: Request, q: Request, i: nat, j: nat)
    requires Base64Tells(h, r.identity, q.identity) && ToldApart(h, r.identity, q.identity)
    requires Free(r.identity.scope, '|') && Free(q.identity.scope, '|')
    requires Complete(r.identity) && Complete(q.identity) && !SameCaller(r.identity, q.identity)
    requires i < |Drafts(h, r)| && j < |Drafts(h, q)|
    ensures !Same(Drafts(h, r)[i], Drafts(h, q)[j])
  {
    DraftsDescribed(h, r, i);
    DraftsDescribed(h, q, j);
    if Same(Drafts(h, r)[i], Drafts(h, q)[j]) {
      SameCallers(h, r, q, Drafts(h, r)[i], Drafts(h, q)[j]);
    }
  }

  lemma SameIsEqual(d: Draft, e: Draft)
    requires PlainName(d.subjectKind) && PlainName(d.kind) && PlainName(e.subjectKind) && PlainName(e.kind)
    requires d.payload.Obj? && e.payload.Obj? && Same(d, e)
    ensures d == e
  {
    SameDraft(d, e);
    PlainNameBytes(d.subjectKind);
    PlainNameBytes(d.kind);
    PlainNameBytes(e.subjectKind);
    PlainNameBytes(e.kind);
    PreimageIdentity(AsSpec(d), AsSpec(e));
    TextBytesInjective(d.subjectKind, e.subjectKind);
  }

  lemma DraftPayload(h: Hashes, r: Request, i: nat)
    requires Complete(r.identity) && i < |Drafts(h, r)|
    ensures Drafts(h, r)[i].payload.Obj?
  {
  }

  /** Two captures that share an event were given the same text. */
  lemma CapturedText(h: Hashes, r: Request, q: Request, i: nat)
    requires Complete(r.identity) && Complete(q.identity) && r.call.Capture? && q.call.Capture?
    requires i < |Drafts(h, r)| && i < |Drafts(h, q)| && Drafts(h, r)[i].payload == Drafts(h, q)[i].payload
    ensures Strings.TrimSpace(r.call.text) == Strings.TrimSpace(q.call.text)
  {
    var key := if i == 0 then "body" else "text";
    assert Drafts(h, r)[i].payload.fields[key] == Str(Strings.TrimSpace(r.call.text));
    assert Drafts(h, q)[i].payload.fields[key] == Str(Strings.TrimSpace(q.call.text));
  }

  lemma CaptureIndex(h: Hashes, r: Request, i: nat)
    requires Complete(r.identity) && r.call.Capture? && i < |Drafts(h, r)|
    ensures |Drafts(h, r)| == 2 && (i == 0 <==> Drafts(h, r)[i].kind == CREATED)
  {
    KindsDiffer();
  }

  lemma SharedDraft(h: Hashes, r: Request, q: Request, d: Draft, e: Draft)
    requires Base64Tells(h, r.identity, q.identity) && ToldApart(h, r.identity, q.identity)
    requires Free(r.identity.scope, '|') && Free(q.identity.scope, '|')
    requires Complete(r.identity) && Complete(q.identity)
    requires Describes(h, r, d) && Describes(h, q, e) && d.payload.Obj? && e.payload.Obj? && Same(d, e)
    ensures d == e && SameCaller(r.identity, q.identity) && (r.call.Capture? <==> q.call.Capture?)
  {
    SameCallers(h, r, q, d, e);
    DescribedNames(h, r, d);
    DescribedNames(h, q, e);
    SameIsEqual(d, e);
  }

  lemma OneDraft(h: Hashes, r: Request, i: nat)
    requires Complete(r.identity) && r.call.Enqueue? && i < |Drafts(h, r)|
    ensures Drafts(h, r) == [Drafts(h, r)[i]]
  {
  }

  /**
    Requests that share one event share all of them: they come from one caller
    and ask for the same thing.
   */
  lemma SharedEvent(h: Hashes, r: Request, q: Request, i: nat, j: nat)
    requires Base64Tells(h, r.identity, q.identity) && ToldApart(h, r.identity, q.identity)
    requires Free(r.identity.scope, '|') && Free(q.identity.scope, '|')
    requires Complete(r.identity) && Complete(q.identity)
    requires i < |Drafts(h, r)| && j < |Drafts(h, q)| && Same(Drafts(h, r)[i], Drafts(h, q)[j])
    ensures Drafts(h, r) == Drafts(h, q) && SameCaller(r.identity, q.identity)
  {
    DraftsDescribed(h, r, i);
    DraftsDescribed(h, q, j);
    DraftPayload(h, r, i);
    DraftPayload(h, q, j);
    SharedDraft(h, r, q, Drafts(h, r)[i], Drafts(h, q)[j]);
    if r.call.Capture? {
      SharedCapture(h, r, q, i, j);
    } else {
      OneDraft(h, r, i);
      OneDraft(h, q, j);
    }
  }

  lemma SharedCapture(h: Hashes, r: Request, q: Request, i: nat, j: nat)
    requires Base64Tells(h, r.identity, q.identity) && ToldApart(h, r.identity, q.identity)
    requires Free(r.identity.scope, '|') && Free(q.identity.scope, '|')
    requires Complete(r.identity) && Complete(q.identity) && r.call.Capture? && q.call.Capture?
    requires i < |Drafts(h, r)| && j < |Drafts(h, q)| && Drafts(h, r)[i] == Drafts(h, q)[j]
    ensures Drafts(h, r) == Drafts(h, q)
  {
    CaptureIndex(h, r, i);
    CaptureIndex(h, q, j);
    assert i == j;
    SubjectsTell(h, r.identity, q.identity, if i == 0 then ITEM else MESSAGE);
    CapturedText(h, r, q, i);
  }

  /** The events of one execution are distinct. */
  lemma OwnDraftsDiffer(h: Hashes, r: Request, i: nat, j: nat)
    requires Complete(r.identity) && i < j < |Drafts(h, r)|
    ensures !Same(Drafts(h, r)[i], Drafts(h, r)[j])
  {
    PlainNames();
    KindsDiffer();
    SameDraft(Drafts(h, r)[i], Drafts(h, r)[j]);
  }

  // -------------------------------------------------------------------- runs

  /** A row of `events`: what its id is made of, and when it was inserted. */
  datatype Row = Row(draft: Draft, at: int)

  /** Which drafts get one event id; the log is described for any such relation and used with `Same`. */
  type Alike = (Draft, Draft) -> bool

  /** `Append`: a draft whose id is in the log collapses. */
  ghost function Appended(same: Alike, log: seq<Row>, d: Draft, now: int): (t: seq<Row>) {
    if Logged(same, log, d) then log else log + [Row(d, now)]
  }

  ghost predicate Logged(same: Alike, log: seq<Row>, d: Draft) {
    exists i :: 0 <= i < |log| && same(log[i].draft, d)
  }

  ghost function AppendedAll(same: Alike, log: seq<Row>, ds: seq<Draft>, now: int): (t: seq<Row>)
    decreases |ds|
  {
    if ds == [] then log
    else Appended(same, AppendedAll(same, log, ds[..|ds| - 1], now), ds[|ds| - 1], now)
  }

  /** The hash behind the event ids tells two preimages apart. */
  ghost predicate Tells<Id>(eventId: Draft -> Id, same: Alike, d: Draft, e: Draft) {
    eventId(d) == eventId(e) <==> same(d, e)
  }

  /** It tells the given drafts apart from each other and from everything in the log. */
  ghost predicate TellsAll<Id>(eventId: Draft -> Id, same: Alike, log: seq<Row>, ds: seq<Draft>) {
    && (forall i, j {:trigger Tells(eventId, same, log[i].draft, ds[j])} ::
          0 <= i < |log| && 0 <= j < |ds| ==> Tells(eventId, same, log[i].draft, ds[j]))
    && (forall i, j {:trigger Tells(eventId, same, ds[i], ds[j])} ::
          0 <= i < |ds| && 0 <= j < |ds| ==> Tells(eventId, same, ds[i], ds[j]))
  }

  lemma TellsNext<Id>(eventId: Draft -> Id, same: Alike, log: seq<Row>, ds: seq<Draft>, i: nat, now: int)
    requires TellsAll(eventId, same, log, ds) && i < |ds|
    ensures TellsAll(eventId, same, Appended(same, log, ds[i], now), ds)
  {
    var next := Appended(same, log, ds[i], now);
    forall k, j | 0 <= k < |next| && 0 <= j < |ds| ensures Tells(eventId, same, next[k].draft, ds[j]) {
      if k < |log| {
        assert next[k] == log[k];
      }
    }
  }

  lemma LoggedById<Id>(eventId: Draft -> Id, same: Alike, log: seq<Row>, ds: seq<Draft>, i: nat)
    requires TellsAll(eventId, same, log, ds) && i < |ds|
    ensures Logged(same, log, ds[i]) <==> exists k :: 0 <= k < |log| && eventId(log[k].draft) == eventId(ds[i])
  {
    assert forall k :: 0 <= k < |log| ==> Tells(eventId, same, log[k].draft, ds[i]);
  }

  lemma AppendNext(same: Alike, log: seq<Row>, ds: seq<Draft>, i: nat, now: int)
    requires i < |ds|
    ensures AppendedAll(same, log, ds[..i + 1], now) == Appended(same, AppendedAll(same, log, ds[..i], now), ds[i], now)
  {
    assert ds[..i + 1][..i] == ds[..i];
  }

  /**
    The `events` table under the two handlers.  A transaction that is cut off,
    after however many of its statements, is rolled back.
   */
  class EventTable<Id(==, !new)> {
    const eventId: Draft -> Id
    ghost const same: Alike
    var rows: seq<Row>

    constructor (eventId: Draft -> Id, ghost same: Alike)
      ensures this.eventId == eventId && this.same == same && rows == []
    {
      this.eventId, this.same, rows := eventId, same, [];
    }

    /** `INSERT ... ON CONFLICT (id) DO NOTHING`, for the i-th append of a transaction. */
    method Append(ds: seq<Draft>, i: nat, now: int) returns (novel: bool)
      requires TellsAll(eventId, same, rows, ds) && i < |ds|
      modifies this
      ensures rows == Appended(same, old(rows), ds[i], now) && TellsAll(eventId, same, rows, ds)
      ensures novel <==> !Logged(same, old(rows), ds[i])
    {
      novel := !exists k :: 0 <= k < |rows| && eventId(rows[k].draft) == eventId(ds[i]);
      LoggedById(eventId, same, rows, ds, i);
      TellsNext(eventId, same, rows, ds, i, now);
      if novel {
        rows := rows + [Row(ds[i], now)];
      }
    }

    /** One transaction of appends, cut off before statement cutAt; the last statement is the commit. */
    method Transact(ds: seq<Draft>, now: int, cutAt: nat) returns (committed: bool)
      requires TellsAll(eventId, same, rows, ds)
      modifies this
      ensures rows == if committed then AppendedAll(same, old(rows), ds, now) else old(rows)
      ensures committed <==> cutAt > |ds|
    {
      var before := rows;
      var i := 0;
      while i < |ds| && i < cutAt
        invariant i <= |ds| && i <= cutAt && TellsAll(eventId, same, rows, ds)
        invariant rows == AppendedAll(same, before, ds[..i], now)
      {
        AppendNext(same, before, ds, i, now);
        var _ := Append(ds, i, now);
        i := i + 1;
      }
      committed := cutAt > |ds|;
      assert i == |ds| ==> ds[..i] == ds;
      if !committed {
        rows := before;
      }
    }

    /** `CaptureText`: both appends in one transaction, or a refusal of blank text. */
    method CaptureText(h: Hashes, r: Request, now: int, cutAt: nat) returns (committed: bool)
      requires r.call.Capture? && Complete(r.identity) && TellsAll(eventId, same, rows, Drafts(h, r))
      modifies this
      ensures rows == if committed then AppendedAll(same, old(rows), Drafts(h, r), now) else old(rows)
      ensures committed <==> Strings.TrimSpace(r.call.text) != "" && cutAt > |Drafts(h, r)|
    {
      var text := Strings.TrimSpace(r.call.text);
      if text == "" {
        return false;
      }
      var message := SubjectId(h, r.identity, MESSAGE);
      var item := SubjectId(h, r.identity, ITEM);
      committed := Transact(CaptureDrafts(h, text, item, message), now, cutAt);
    }

    /** `Enqueue`: one append, or a refusal of a malformed target. */
    method Enqueue(h: Hashes, r: Request, now: int, cutAt: nat) returns (committed: bool)
      requires r.call.Enqueue? && Complete(r.identity) && TellsAll(eventId, same, rows, Drafts(h, r))
      modifies this
      ensures rows == if committed then AppendedAll(same, old(rows), Drafts(h, r), now) else old(rows)
      ensures committed <==> NodeRefs.ValidNodeId(r.call.target) && cutAt > |Drafts(h, r)|
    {
      if !NodeRefs.ValidNodeId(r.call.target) {
        return false;
      }
      var d := Draft(NODE, h.node(r.call.target), QUEUED, QueuedPayload(r.call), Discriminator(r.identity));
      committed := Transact([d], now, cutAt);
    }
  }

  /** One execution of a request's handler: its transaction commits, or is rolled back wherever it was cut off. */
  datatype Execution = Execution(request: Request, committed: bool, now: int)

  ghost function Run(h: Hashes, executions: seq<Execution>): (log: seq<Row>)
    requires forall i :: 0 <= i < |executions| ==> Complete(executions[i].request.identity)
    decreases |executions|
  {
    if executions == [] then []
    else
      var before := Run(h, executions[..|executions| - 1]);
      var last := executions[|executions| - 1];
      if last.committed then AppendedAll(Same, before, Drafts(h, last.request), last.now) else before
  }

  /** The drafts as rows inserted at one time. */
  function RowsAt(ds: seq<Draft>, now: int): (rows: seq<Row>) {
    seq(|ds|, i requires 0 <= i < |ds| => Row(ds[i], now))
  }

  ghost predicate IsOf(ds: seq<Draft>, row: Row) {
    exists i :: 0 <= i < |ds| && Same(row.draft, ds[i])
  }

  /** The elements of a sequence that satisfy p, in order. */
  ghost function Kept<T>(p: T -> bool, s: seq<T>): (t: seq<T>)
    decreases |s|
  {
    if s == [] then []
    else
      var before := Kept(p, s[..|s| - 1]);
      if p(s[|s| - 1]) then before + [s[|s| - 1]] else before
  }

  lemma {:induction false} KeptConcat<T>(p: T -> bool, a: seq<T>, b: seq<T>)
    ensures Kept(p, a + b) == Kept(p, a) + Kept(p, b)
    decreases |b|
  {
    if b == [] {
      assert a + b == a;
    } else {
      var front := b[..|b| - 1];
      assert (a + b)[..|a + b| - 1] == a + front;
      KeptConcat(p, a, front);
      Assoc(Kept(p, a), Kept(p, front), [b[|b| - 1]]);
    }
  }

  lemma {:induction false} KeptNone<T>(p: T -> bool, s: seq<T>)
    requires forall i :: 0 <= i < |s| ==> !p(s[i])
    ensures Kept(p, s) == []
    decreases |s|
  {
    if s != [] {
      KeptNone(p, s[..|s| - 1]);
    }
  }

  lemma {:induction false} KeptAll<T>(p: T -> bool, s: seq<T>)
    requires forall i :: 0 <= i < |s| ==> p(s[i])
    ensures Kept(p, s) == s
    decreases |s|
  {
    if s != [] {
      KeptAll(p, s[..|s| - 1]);
      assert s == s[..|s| - 1] + [s[|s| - 1]];
    }
  }

  lemma {:induction false} KeptAre<T>(p: T -> bool, s: seq<T>, x: T)
    ensures x in Kept(p, s) <==> x in s && p(x)
    decreases |s|
  {
    if s != [] {
      KeptAre(p, s[..|s| - 1], x);
      assert s == s[..|s| - 1] + [s[|s| - 1]];
    }
  }

  ghost function OneOf(ds: seq<Draft>): (p: Row -> bool) {
    (row: Row) => IsOf(ds, row)
  }

  /** The rows of a log that carry an event of the given drafts, in log order. */
  ghost function RowsOf(log: seq<Row>, ds: seq<Draft>): (rows: seq<Row>) {
    Kept(OneOf(ds), log)
  }

  lemma {:induction false} AppendedNew(same: Alike, log: seq<Row>, ds: seq<Draft>, now: int) returns (added: seq<Row>)
    ensures AppendedAll(same, log, ds, now) == log + added
    ensures forall i :: 0 <= i < |added| ==> added[i].draft in ds
    decreases |ds|
  {
    if ds == [] {
      added := [];
    } else {
      var front, last := ds[..|ds| - 1], ds[|ds| - 1];
      var before := AppendedNew(same, log, front, now);
      var more := if Logged(same, log + before, last) then [] else [Row(last, now)];
      added := before + more;
      Assoc(log, before, more);
      assert forall d :: d in front ==> d in ds;
    }
  }

  lemma {:induction false} AllLogged(same: Alike, log: seq<Row>, ds: seq<Draft>, now: int)
    requires forall i :: 0 <= i < |ds| ==> Logged(same, log, ds[i])
    ensures AppendedAll(same, log, ds, now) == log
    decreases |ds|
  {
    if ds != [] {
      AllLogged(same, log, ds[..|ds| - 1], now);
    }
  }

  lemma NotLoggedAfter(same: Alike, log: seq<Row>, more: seq<Row>, d: Draft)
    requires !Logged(same, log, d) && forall i :: 0 <= i < |more| ==> !same(more[i].draft, d)
    ensures !Logged(same, log + more, d)
  {
    forall i | 0 <= i < |log + more| ensures !same((log + more)[i].draft, d) {
      if i < |log| {
        assert (log + more)[i] == log[i];
      } else {
        assert (log + more)[i] == more[i - |log|];
      }
    }
  }

  lemma {:induction false} NoneLogged(same: Alike, log: seq<Row>, ds: seq<Draft>, now: int)
    requires forall i :: 0 <= i < |ds| ==> !Logged(same, log, ds[i])
    requires forall i, j :: 0 <= i < j < |ds| ==> !same(ds[i], ds[j])
    ensures AppendedAll(same, log, ds, now) == log + RowsAt(ds, now)
    decreases |ds|
  {
    if ds != [] {
      var front, last := ds[..|ds| - 1], ds[|ds| - 1];
      NoneLogged(same, log, front, now);
      NotLoggedAfter(same, log, RowsAt(front, now), last);
      Assoc(log, RowsAt(front, now), [Row(last, now)]);
      assert RowsAt(ds, now) == RowsAt(front, now) + [Row(last, now)];
    }
  }

  /** A draft is logged exactly when some row of the log carries its event. */
  lemma LoggedShows(log: seq<Row>, ds: seq<Draft>, i: nat)
    requires i < |ds|
    ensures Logged(Same, log, ds[i]) <==> exists j :: 0 <= j < |RowsOf(log, ds)| && Same(RowsOf(log, ds)[j].draft, ds[i])
  {
    var rows := RowsOf(log, ds);
    if Logged(Same, log, ds[i]) {
      var k :| 0 <= k < |log| && Same(log[k].draft, ds[i]);
      KeptAre(OneOf(ds), log, log[k]);
    }
    if j :| 0 <= j < |rows| && Same(rows[j].draft, ds[i]) {
      KeptAre(OneOf(ds), log, rows[j]);
    }
  }

  /** When a request with the events of this one first committed, if one did. */
  function FirstCommit(h: Hashes, executions: seq<Execution>, r: Request): (at: Option<int>)
    requires Complete(r.identity) && forall i :: 0 <= i < |executions| ==> Complete(executions[i].request.identity)
    decreases |executions|
  {
    if executions == [] then None
    else
      var last := executions[|executions| - 1];
      var before := FirstCommit(h, executions[..|executions| - 1], r);
      if before.Some? then before
      else if last.committed && Drafts(h, last.request) == Drafts(h, r) then Some(last.now)
      else None
  }

  /** The hashes tell the identities of two requests apart. */
  ghost predicate Comparable(h: Hashes, r: Request, q: Request) {
    && Complete(q.identity) && Free(q.identity.scope, '|')
    && Base64Tells(h, r.identity, q.identity) && ToldApart(h, r.identity, q.identity)
  }

  lemma OthersLeaveAlone(h: Hashes, log: seq<Row>, r: Request, q: Request, now: int)
    requires Complete(r.identity) && Free(r.identity.scope, '|') && Comparable(h, r, q) && Drafts(h, q) != Drafts(h, r)
    ensures RowsOf(AppendedAll(Same, log, Drafts(h, q), now), Drafts(h, r)) == RowsOf(log, Drafts(h, r))
  {
    var added := AppendedNew(Same, log, Drafts(h, q), now);
    forall i | 0 <= i < |added| ensures !IsOf(Drafts(h, r), added[i]) {
      var j :| 0 <= j < |Drafts(h, q)| && Drafts(h, q)[j] == added[i].draft;
      forall k | 0 <= k < |Drafts(h, r)| ensures !Same(added[i].draft, Drafts(h, r)[k]) {
        if Same(added[i].draft, Drafts(h, r)[k]) {
          SharedEvent(h, r, q, k, j);
        }
      }
    }
    KeptNone(OneOf(Drafts(h, r)), added);
    KeptConcat(OneOf(Drafts(h, r)), log, added);
  }

  /** The first committed execution adds all events of the request; later ones add nothing. */
  lemma OwnExecution(h: Hashes, log: seq<Row>, r: Request, first: Option<int>, now: int)
    requires Complete(r.identity)
    requires RowsOf(log, Drafts(h, r)) == if first.Some? then RowsAt(Drafts(h, r), first.value) else []
    ensures RowsOf(AppendedAll(Same, log, Drafts(h, r), now), Drafts(h, r))
            == RowsAt(Drafts(h, r), if first.Some? then first.value else now)
  {
    var ds := Drafts(h, r);
    forall i | 0 <= i < |ds| ensures Logged(Same, log, ds[i]) <==> first.Some? {
      LoggedShows(log, ds, i);
      if first.Some? {
        assert Same(RowsOf(log, ds)[i].draft, ds[i]);
      }
    }
    if first.Some? {
      AllLogged(Same, log, ds, now);
    } else {
      forall i, j | 0 <= i < j < |ds| ensures !Same(ds[i], ds[j]) {
        OwnDraftsDiffer(h, r, i, j);
      }
      NoneLogged(Same, log, ds, now);
      forall i | 0 <= i < |ds| ensures IsOf(ds, RowsAt(ds, now)[i]) {
        assert Same(ds[i], ds[i]);
      }
      KeptAll(OneOf(ds), RowsAt(ds, now));
      KeptConcat(OneOf(ds), log, RowsAt(ds, now));
    }
  }

  /**
    Whatever executions commit or are rolled back, in any order and among any
    other requests, the log holds exactly the events of one execution of a
    request, in order and from the first commit of a request with these events,
    or none if none ever committed.  A key that is used again with another body
    is no exception: the other body has events of its own, or the same ones.
   */
  lemma {:induction false} Converges(h: Hashes, executions: seq<Execution>, r: Request)
    requires Complete(r.identity) && Free(r.identity.scope, '|')
    requires forall i :: 0 <= i < |executions| ==> Complete(executions[i].request.identity)
    requires forall i :: 0 <= i < |executions| ==> Comparable(h, r, executions[i].request)
    ensures var first := FirstCommit(h, executions, r);
            RowsOf(Run(h, executions), Drafts(h, r)) == if first.Some? then RowsAt(Drafts(h, r), first.value) else []
    decreases |executions|
  {
    if executions != [] {
      var front, last := executions[..|executions| - 1], executions[|executions| - 1];
      assert forall i :: 0 <= i < |front| ==> front[i] == executions[i];
      Converges(h, front, r);
      if last.committed {
        if Drafts(h, last.request) == Drafts(h, r) {
          OwnExecution(h, Run(h, front), r, FirstCommit(h, front, r), last.now);
        } else {
          OthersLeaveAlone(h, Run(h, front), r, last.request, last.now);
        }
      }
    }
  }

  lemma SharedDrafts(h: Hashes, r: Request, q: Request)
    requires Complete(r.identity) && Free(r.identity.scope, '|') && Comparable(h, r, q)
    requires Drafts(h, r) != [] && Drafts(h, q) == Drafts(h, r)
    ensures SameCaller(r.identity, q.identity)
  {
    assert Same(Drafts(h, r)[0], Drafts(h, q)[0]);
    SharedEvent(h, r, q, 0, 0);
  }

  /** Which execution was the first commit. */
  lemma {:induction false} FirstCommitAt(h: Hashes, executions: seq<Execution>, r: Request) returns (k: nat)
    requires Complete(r.identity) && forall i :: 0 <= i < |executions| ==> Complete(executions[i].request.identity)
    requires FirstCommit(h, executions, r).Some?
    ensures k < |executions| && executions[k].committed && FirstCommit(h, executions, r) == Some(executions[k].now)
    ensures Drafts(h, executions[k].request) == Drafts(h, r)
    ensures forall i :: 0 <= i < k && executions[i].committed ==> executions[i].request != r
    decreases |executions|
  {
    var front, last := executions[..|executions| - 1], executions[|executions| - 1];
    assert forall i :: 0 <= i < |front| ==> front[i] == executions[i];
    if FirstCommit(h, front, r).Some? {
      k := FirstCommitAt(h, front, r);
    } else {
      k := |front|;
      NeverCommitted(h, front, r);
    }
  }

  /** Only executions of the same caller can be the first commit of a request that appends anything. */
  lemma FirstCommitIsOwn(h: Hashes, executions: seq<Execution>, r: Request) returns (k: nat)
    requires Complete(r.identity) && Free(r.identity.scope, '|') && Drafts(h, r) != []
    requires forall i :: 0 <= i < |executions| ==> Complete(executions[i].request.identity)
    requires forall i :: 0 <= i < |executions| ==> Comparable(h, r, executions[i].request)
    requires FirstCommit(h, executions, r).Some?
    ensures k < |executions| && executions[k].committed && FirstCommit(h, executions, r) == Some(executions[k].now)
    ensures SameCaller(r.identity, executions[k].request.identity)
    ensures forall i :: 0 <= i < k && executions[i].committed ==> executions[i].request != r
  {
    k := FirstCommitAt(h, executions, r);
    SharedDrafts(h, r, executions[k].request);
  }

  lemma {:induction false} NeverCommitted(h: Hashes, executions: seq<Execution>, r: Request)
    requires Complete(r.identity) && forall i :: 0 <= i < |executions| ==> Complete(executions[i].request.identity)
    requires FirstCommit(h, executions, r).None?
    ensures forall i :: 0 <= i < |executions| && executions[i].committed ==> executions[i].request != r
    decreases |executions|
  {
    if executions != [] {
      var front := executions[..|executions| - 1];
      NeverCommitted(h, front, r);
      assert forall i :: 0 <= i < |front| ==> front[i] == executions[i];
    }
  }
}
