/**
  Projection writers (internal/approvals/projectors.go,
  internal/httpconnector/projectors.go, internal/idempotency/projectors.go): how
  one event row changes the approvals, connector-action and idempotency tables.

  A projector first decodes the payload, which may fail, and then runs one
  insert or update.  `Decode` is the first half and `ApplyEffect` the second;
  the decoding never looks at the tables.
 */
module Projectors {
  import opened CanonicalJson
  import opened Options

  /** A UUID; zero is uuid.Nil. */
  type Id = nat

  const NIL: Id := 0

  /** Library decoders of field values. */
  datatype Codec = Codec(
    uuid: string -> Option<Id>,
    time: string -> Option<int>,
    base64: string -> Option<seq<Byte>>,
    integer: NumLit -> Option<int>)

  /** A row of `events`. */
  datatype Event = Event(
    id: nat, occurredAt: int, actor: Option<Id>, source: string,
    subjectKind: string, subjectId: Id, kind: string, payload: Json)

  // ------------------------------------------------------------------- rows

  datatype Approval = Approval(
    workItem: Id, status: string, summary: string, request: Json, requestedBy: Option<Id>, requestedSource: string,
    createdAt: int, expiresAt: int, decision: Option<Decision>, updatedAt: int)

  /** The columns a decision or an expiry writes. */
  datatype Decision = Decision(decision: string, decider: Option<Id>, source: string, at: int, reason: string)

  datatype Action = Action(
    workItem: Id, mode: string, verb: string, url: string, request: Json, status: string, approval: Option<Id>,
    response: Option<Response>, requestedBy: Option<Id>, source: string, createdAt: int, updatedAt: int)

  datatype Response = Response(status: int, body: string)

  datatype CacheKey = CacheKey(token: Id, scope: string, key: string)

  datatype CacheRow = CacheRow(hash: seq<Byte>, status: int, body: Json, createdAt: int, expiresAt: int)

  datatype Tables = Tables(
    approvals: map<Id, Approval>,
    actions: map<Id, Action>,
    cache: map<CacheKey, CacheRow>)

  const EMPTY: Tables := Tables(map[], map[], map[])

  const TTL: int := 86_400

  /** The zero time.Time, in seconds of the same clock. */
  const ZERO_TIME: int := -62_135_596_800

  // --------------------------------------------------------- payload fields

  /** A payload struct is decoded from an object; null leaves every field at its zero value. */
  function Fields(payload: Json): (f: Option<map<string, Json>>) {
    match payload
    case Obj(fields) => Some(fields)
    case Null => Some(map[])
    case _ => None
  }

  function StringField(f: map<string, Json>, name: string): (s: Option<string>) {
    if name !in f || f[name].Null? then Some("")
    else if f[name].Str? then Some(f[name].s)
    else None
  }

  function UuidField(c: Codec, f: map<string, Json>, name: string): (id: Option<Id>) {
    if name !in f || f[name].Null? then Some(NIL)
    else if f[name].Str? then c.uuid(f[name].s)
    else None
  }

  /** An integer that also has to fit an INTEGER column. */
  function IntField(c: Codec, f: map<string, Json>, name: string): (n: Option<int>) {
    if name !in f || f[name].Null? then Some(0)
    else if f[name].Num? && c.integer(f[name].lit).Some? && -0x8000_0000 <= c.integer(f[name].lit).value < 0x8000_0000
    then c.integer(f[name].lit)
    else None
  }

  /** A time.Time field: absent and null leave it at zero, and any other text has to parse. */
  function TimeField(c: Codec, f: map<string, Json>, name: string): (t: Option<int>) {
    if name !in f || f[name].Null? then Some(ZERO_TIME)
    else if f[name].Str? then c.time(f[name].s)
    else None
  }

  /** A json.RawMessage field that is read as the empty object when it is absent or null. */
  function ObjectField(f: map<string, Json>, name: string): (v: Json) {
    if name !in f || f[name].Null? then Obj(map[]) else f[name]
  }

  // --------------------------------------------------------------- decoding

  /** What a projector does once it has decoded its event. */
  datatype Effect =
    | Nothing
    | InsertApproval(id: Id, approval: Approval)
    | CloseApproval(id: Id, status: string, decision: Decision)
    | InsertAction(id: Id, action: Action)
    | ApproveAction(id: Id, at: int)
    | SendAction(id: Id, response: Response, at: int)
    | PutCache(key: CacheKey, row: CacheRow)

  function DecodeCreated(c: Codec, e: Event, f: map<string, Json>): (r: Option<Effect>) {
    var workItem, summary, expires := UuidField(c, f, "work_item_id"), StringField(f, "summary"), StringField(f, "expires_at");
    if workItem.None? || summary.None? || expires.None? then None
    else if workItem.value == NIL || summary.value == "" || c.time(expires.value).None? then None
    else
      Some(InsertApproval(e.subjectId, Approval(workItem.value, "pending", summary.value, ObjectField(f, "request"), e.actor,
                          e.source, e.occurredAt, c.time(expires.value).value, None, e.occurredAt)))
  }

  function DecodeDecided(e: Event, f: map<string, Json>): (r: Option<Effect>) {
    var decision, reason := StringField(f, "decision"), StringField(f, "reason");
    if decision.None? || reason.None? then None
    else if decision.value != "approved" && decision.value != "denied" then None
    else Some(CloseApproval(e.subjectId, decision.value, Decision(decision.value, e.actor, e.source, e.occurredAt, reason.value)))
  }

  function DecodeExpired(e: Event, f: map<string, Json>): (r: Option<Effect>) {
    var reason := StringField(f, "reason");
    if reason.None? then None
    else Some(CloseApproval(e.subjectId, "expired", Decision("expired", e.actor, e.source, e.occurredAt, reason.value)))
  }

  function DecodeRequested(c: Codec, e: Event, f: map<string, Json>): (r: Option<Effect>) {
    var workItem, approval := UuidField(c, f, "work_item_id"), UuidField(c, f, "approval_id");
    var mode, verb, url := StringField(f, "mode"), StringField(f, "method"), StringField(f, "url");
    if workItem.None? || approval.None? || mode.None? || verb.None? || url.None? then None
    else if workItem.value == NIL || (mode.value != "read" && mode.value != "write") then None
    else if mode.value == "write" && approval.value == NIL then None
    else
      var write := mode.value == "write";
      Some(InsertAction(e.subjectId, Action(workItem.value, mode.value, verb.value, url.value, ObjectField(f, "request"),
                        if write then "awaiting_approval" else "requested", if write then Some(approval.value) else None,
                        None, e.actor, e.source, e.occurredAt, e.occurredAt)))
  }

  function DecodeApproved(c: Codec, e: Event, f: map<string, Json>): (r: Option<Effect>) {
    var workItem, approval := UuidField(c, f, "work_item_id"), UuidField(c, f, "approval_id");
    if workItem.None? || approval.None? then None
    else if workItem.value == NIL || approval.value == NIL then None
    else Some(ApproveAction(e.subjectId, e.occurredAt))
  }

  function DecodeSent(c: Codec, e: Event, f: map<string, Json>): (r: Option<Effect>) {
    var status, body := IntField(c, f, "response_status"), StringField(f, "response_body");
    if status.None? || body.None? then None
    else Some(SendAction(e.subjectId, Response(status.value, body.value), e.occurredAt))
  }

  function DecodeRecorded(c: Codec, e: Event, f: map<string, Json>): (r: Option<Effect>) {
    var token, scope, key := UuidField(c, f, "token_id"), StringField(f, "scope"), StringField(f, "key");
    var hash, status, expires := StringField(f, "request_hash"), IntField(c, f, "response_status"), TimeField(c, f, "expires_at");
    if token.None? || scope.None? || key.None? || hash.None? || status.None? || expires.None? then None
    else if token.value == NIL || scope.value == "" || key.value == "" || c.base64(hash.value).None? then None
    else
      var until := if expires.value == ZERO_TIME then e.occurredAt + TTL else expires.value;
      Some(PutCache(CacheKey(token.value, scope.value, key.value),
                    CacheRow(c.base64(hash.value).value, status.value,
                             if "response_body" in f then f["response_body"] else Obj(map[]), e.occurredAt, until)))
  }

  function SubjectOf(kind: string): (subject: string) {
    if kind in ["approval.created", "approval.decided", "approval.expired"] then "approval"
    else if kind in ["http_connector.action_requested", "http_connector.action_approved", "http_connector.action_sent"]
    then "http_connector_action"
    else ""
  }

  /** The decoding half of the registered projector; a kind without one has no effect on these tables. */
  function Decode(c: Codec, e: Event): (r: Option<Effect>) {
    var subject := SubjectOf(e.kind);
    if subject == "" && e.kind != "idempotency.recorded" then Some(Nothing)
    else if subject != "" && e.subjectKind != subject then None
    else
      match Fields(e.payload)
      case None => None
      case Some(f) =>
        if e.kind == "approval.created" then DecodeCreated(c, e, f)
        else if e.kind == "approval.decided" then DecodeDecided(e, f)
        else if e.kind == "approval.expired" then DecodeExpired(e, f)
        else if e.kind == "http_connector.action_requested" then DecodeRequested(c, e, f)
        else if e.kind == "http_connector.action_approved" then DecodeApproved(c, e, f)
        else if e.kind == "http_connector.action_sent" then DecodeSent(c, e, f)
        else DecodeRecorded(c, e, f)
  }

  // --------------------------------------------------------------- applying

  /** `ON CONFLICT (id) DO NOTHING`. */
  function Insert<K, V>(m: map<K, V>, k: K, v: V): (r: map<K, V>) {
    if k in m then m else m[k := v]
  }

  function Closed(a: Approval, status: string, d: Decision): (b: Approval) {
    a.(status := status, decision := Some(d), updatedAt := d.at)
  }

  function ApprovedAction(a: Action, at: int): (b: Action) {
    if a.status == "sent" then a else a.(status := "approved", updatedAt := at)
  }

  function SentAction(a: Action, response: Response, at: int): (b: Action) {
    a.(status := "sent", response := Some(response), updatedAt := at)
  }

  /** The upsert keeps the creation time of the row it replaces. */
  function Upserted(cache: map<CacheKey, CacheRow>, key: CacheKey, row: CacheRow): (r: CacheRow) {
    if key in cache then row.(createdAt := cache[key].createdAt) else row
  }

  function ApplyEffect(t: Tables, x: Effect): (u: Tables) {
    match x
    case Nothing => t
    case InsertApproval(id, approval) => t.(approvals := Insert(t.approvals, id, approval))
    case CloseApproval(id, status, d) =>
      if id in t.approvals then t.(approvals := t.approvals[id := Closed(t.approvals[id], status, d)]) else t
    case InsertAction(id, action) => t.(actions := Insert(t.actions, id, action))
    case ApproveAction(id, at) =>
      if id in t.actions then t.(actions := t.actions[id := ApprovedAction(t.actions[id], at)]) else t
    case SendAction(id, response, at) =>
      if id in t.actions then t.(actions := t.actions[id := SentAction(t.actions[id], response, at)]) else t
    case PutCache(key, row) => t.(cache := t.cache[key := Upserted(t.cache, key, row)])
  }

  /** Folding a log by seq into empty tables; an event that does not decode stops it. */
  function Fold(c: Codec, log: seq<Event>): (t: Option<Tables>)
    decreases |log|
  {
    if log == [] then Some(EMPTY)
    else
      var before := Fold(c, log[..|log| - 1]);
      var x := Decode(c, log[|log| - 1]);
      if before.None? || x.None? then None else Some(ApplyEffect(before.value, x.value))
  }

  // ------------------------------------------------- what each kind of event says

  /** A payload that can be read into a struct: an object, or null for one without fields. */
  ghost predicate Record(payload: Json) {
    payload.Obj? || payload.Null?
  }

  ghost predicate Absent(payload: Json, name: string) {
    payload.Null? || (payload.Obj? && (name !in payload.fields || payload.fields[name].Null?))
  }

  ghost predicate Present(payload: Json, name: string) {
    payload.Obj? && name in payload.fields && !payload.fields[name].Null?
  }

  /** The payload's text field reads so. */
  ghost predicate Text(payload: Json, name: string, text: string) {
    (Absent(payload, name) && text == "") || (Present(payload, name) && payload.fields[name] == Str(text))
  }

  ghost predicate Names(c: Codec, payload: Json, name: string, id: Id) {
    || (Absent(payload, name) && id == NIL)
    || (Present(payload, name) && payload.fields[name].Str? && c.uuid(payload.fields[name].s) == Some(id))
  }

  ghost predicate Counts(c: Codec, payload: Json, name: string, n: int) {
    || (Absent(payload, name) && n == 0)
    || (Present(payload, name) && payload.fields[name].Num? && c.integer(payload.fields[name].lit) == Some(n)
        && -0x8000_0000 <= n < 0x8000_0000)
  }

  ghost predicate Dates(c: Codec, payload: Json, name: string, at: int) {
    || (Absent(payload, name) && at == ZERO_TIME)
    || (Present(payload, name) && payload.fields[name].Str? && c.time(payload.fields[name].s) == Some(at))
  }

  /** The payload's JSON field, read as the empty object when there is none. */
  ghost predicate Carries(payload: Json, name: string, v: Json) {
    (Absent(payload, name) && v == Obj(map[])) || (Present(payload, name) && payload.fields[name] == v)
  }

  /** Two versions of a table agree outside one row. */
  ghost predicate OnlyRow<K, V>(before: map<K, V>, after: map<K, V>, key: K) {
    && (forall k :: k in before && k != key ==> k in after && after[k] == before[k])
    && (forall k :: k in after && k != key ==> k in before)
  }

  ghost predicate OnlyApproval(t: Tables, u: Tables, id: Id) {
    u.actions == t.actions && u.cache == t.cache && OnlyRow(t.approvals, u.approvals, id)
  }

  ghost predicate OnlyAction(t: Tables, u: Tables, id: Id) {
    u.approvals == t.approvals && u.cache == t.cache && OnlyRow(t.actions, u.actions, id)
  }

  /** approval.created: a pending row with what the payload says, unless the row is there. */
  ghost predicate CreatedRow(c: Codec, e: Event, t: Tables, u: Tables) {
    var id, p := e.subjectId, e.payload;
    && OnlyApproval(t, u, id) && id in u.approvals
    && (id in t.approvals ==> u.approvals[id] == t.approvals[id])
    && (id !in t.approvals ==>
          var a := u.approvals[id];
          && Names(c, p, "work_item_id", a.workItem) && a.workItem != NIL
          && a.status == "pending" && Text(p, "summary", a.summary) && a.summary != "" && Carries(p, "request", a.request)
          && a.requestedBy == e.actor && a.requestedSource == e.source && a.createdAt == a.updatedAt == e.occurredAt
          && (exists s :: Text(p, "expires_at", s) && c.time(s) == Some(a.expiresAt)) && a.decision == None)
  }

  /** approval.decided and approval.expired: the row keeps what it asked for and takes on its closing. */
  ghost predicate ClosedRow(e: Event, t: Tables, u: Tables) {
    var id, p := e.subjectId, e.payload;
    && OnlyApproval(t, u, id) && (id !in t.approvals ==> u == t)
    && (id in t.approvals ==>
          id in u.approvals &&
          var a, b := t.approvals[id], u.approvals[id];
          && b.workItem == a.workItem && b.summary == a.summary && b.request == a.request && b.requestedBy == a.requestedBy
          && b.requestedSource == a.requestedSource && b.createdAt == a.createdAt && b.expiresAt == a.expiresAt
          && (if e.kind == "approval.expired" then b.status == "expired"
              else Text(p, "decision", b.status) && b.status in ["approved", "denied"])
          && b.decision.Some? && b.decision.value.decision == b.status && b.decision.value.decider == e.actor
          && b.decision.value.source == e.source && b.decision.value.at == b.updatedAt == e.occurredAt
          && Text(p, "reason", b.decision.value.reason))
  }

  /** http_connector.action_requested: a read waits for nothing, a write for its approval. */
  ghost predicate RequestedRow(c: Codec, e: Event, t: Tables, u: Tables) {
    var id, p := e.subjectId, e.payload;
    && OnlyAction(t, u, id) && id in u.actions
    && (id in t.actions ==> u.actions[id] == t.actions[id])
    && (id !in t.actions ==>
          var a := u.actions[id];
          && Names(c, p, "work_item_id", a.workItem) && a.workItem != NIL
          && Text(p, "mode", a.mode) && Text(p, "method", a.verb) && Text(p, "url", a.url) && Carries(p, "request", a.request)
          && (a.mode == "read" ==> a.status == "requested" && a.approval == None)
          && (a.mode == "write" ==> a.status == "awaiting_approval" && a.approval.Some? && a.approval.value != NIL
                                    && Names(c, p, "approval_id", a.approval.value))
          && a.mode in ["read", "write"] && a.response == None && a.requestedBy == e.actor && a.source == e.source
          && a.createdAt == a.updatedAt == e.occurredAt)
  }

  /** What an action's later events leave of its row. */
  ghost predicate SameRequest(a: Action, b: Action) {
    && b.workItem == a.workItem && b.mode == a.mode && b.verb == a.verb && b.url == a.url && b.request == a.request
    && b.approval == a.approval && b.requestedBy == a.requestedBy && b.source == a.source && b.createdAt == a.createdAt
  }

  /** http_connector.action_approved: an action that was not sent is approved. */
  ghost predicate ApprovedRow(e: Event, t: Tables, u: Tables) {
    var id := e.subjectId;
    && OnlyAction(t, u, id) && (id !in t.actions || t.actions[id].status == "sent" ==> u == t)
    && (id in t.actions && t.actions[id].status != "sent" ==>
          id in u.actions &&
          var a, b := t.actions[id], u.actions[id];
          SameRequest(a, b) && b.status == "approved" && b.response == a.response && b.updatedAt == e.occurredAt)
  }

  /** http_connector.action_sent: the action is sent, with the response of the payload. */
  ghost predicate SentRow(c: Codec, e: Event, t: Tables, u: Tables) {
    var id, p := e.subjectId, e.payload;
    && OnlyAction(t, u, id) && (id !in t.actions ==> u == t)
    && (id in t.actions ==>
          id in u.actions &&
          var a, b := t.actions[id], u.actions[id];
          && SameRequest(a, b) && b.status == "sent" && b.response.Some? && b.updatedAt == e.occurredAt
          && Counts(c, p, "response_status", b.response.value.status) && Text(p, "response_body", b.response.value.body))
  }

  /** idempotency.recorded: the row of the key is replaced, but for its creation time. */
  ghost predicate CachedRow(c: Codec, e: Event, t: Tables, u: Tables) {
    var p := e.payload;
    && u.approvals == t.approvals && u.actions == t.actions
    && exists key :: key in u.cache && OnlyRow(t.cache, u.cache, key) &&
         var row := u.cache[key];
         && Names(c, p, "token_id", key.token) && Text(p, "scope", key.scope) && Text(p, "key", key.key)
         && key.token != NIL && key.scope != "" && key.key != ""
         && (exists s :: Text(p, "request_hash", s) && c.base64(s) == Some(row.hash))
         && Counts(c, p, "response_status", row.status)
         && row.body == (if p.Obj? && "response_body" in p.fields then p.fields["response_body"] else Obj(map[]))
         && row.createdAt == (if key in t.cache then t.cache[key].createdAt else e.occurredAt)
         && (exists at :: Dates(c, p, "expires_at", at) && row.expiresAt == if at == ZERO_TIME then e.occurredAt + TTL else at)
  }

  /** What an event changes in the tables, told by its own fields. */
  ghost predicate Written(c: Codec, e: Event, t: Tables, u: Tables) {
    if e.kind == "approval.created" then CreatedRow(c, e, t, u)
    else if e.kind == "approval.decided" || e.kind == "approval.expired" then ClosedRow(e, t, u)
    else if e.kind == "http_connector.action_requested" then RequestedRow(c, e, t, u)
    else if e.kind == "http_connector.action_approved" then ApprovedRow(e, t, u)
    else if e.kind == "http_connector.action_sent" then SentRow(c, e, t, u)
    else if e.kind == "idempotency.recorded" then CachedRow(c, e, t, u)
    else u == t
  }

  ghost predicate CreatedWellFormed(c: Codec, p: Json) {
    && (exists id :: Names(c, p, "work_item_id", id) && id != NIL)
    && (exists s :: Text(p, "summary", s) && s != "")
    && (exists s :: Text(p, "expires_at", s) && c.time(s).Some?)
  }

  ghost predicate DecidedWellFormed(p: Json) {
    (exists s :: Text(p, "decision", s) && s in ["approved", "denied"]) && (exists s :: Text(p, "reason", s))
  }

  ghost predicate RequestedWellFormed(c: Codec, p: Json) {
    && (exists id :: Names(c, p, "work_item_id", id) && id != NIL)
    && (exists s :: Text(p, "method", s)) && (exists s :: Text(p, "url", s))
    && ((Text(p, "mode", "read") && exists id :: Names(c, p, "approval_id", id))
        || (Text(p, "mode", "write") && exists id :: Names(c, p, "approval_id", id) && id != NIL))
  }

  ghost predicate RecordedWellFormed(c: Codec, p: Json) {
    && (exists id :: Names(c, p, "token_id", id) && id != NIL)
    && (exists s :: Text(p, "scope", s) && s != "") && (exists s :: Text(p, "key", s) && s != "")
    && (exists s :: Text(p, "request_hash", s) && c.base64(s).Some?)
    && (exists n :: Counts(c, p, "response_status", n)) && (exists at :: Dates(c, p, "expires_at", at))
  }

  /** What a projector accepts; kinds without one are always accepted. */
  ghost predicate WellFormed(c: Codec, e: Event) {
    var p := e.payload;
    if e.kind == "approval.created" then e.subjectKind == "approval" && CreatedWellFormed(c, p)
    else if e.kind == "approval.decided" then e.subjectKind == "approval" && DecidedWellFormed(p)
    else if e.kind == "approval.expired" then e.subjectKind == "approval" && exists s :: Text(p, "reason", s)
    else if e.kind == "http_connector.action_requested" then e.subjectKind == "http_connector_action" && RequestedWellFormed(c, p)
    else if e.kind == "http_connector.action_approved" then
      && e.subjectKind == "http_connector_action"
      && (exists id :: Names(c, p, "work_item_id", id) && id != NIL) && (exists id :: Names(c, p, "approval_id", id) && id != NIL)
    else if e.kind == "http_connector.action_sent" then
      && e.subjectKind == "http_connector_action"
      && (exists n :: Counts(c, p, "response_status", n)) && (exists s :: Text(p, "response_body", s))
    else if e.kind == "idempotency.recorded" then RecordedWellFormed(c, p)
    else true
  }

  /** A field reader reads what the payload says, and fails exactly when it says nothing readable. */
  lemma ReadsText(p: Json, name: string)
    requires Record(p)
    ensures forall s :: StringField(Fields(p).value, name) == Some(s) <==> Text(p, name, s)
  {
  }

  lemma ReadsName(c: Codec, p: Json, name: string)
    requires Record(p)
    ensures forall id: Id :: UuidField(c, Fields(p).value, name) == Some(id) <==> Names(c, p, name, id)
  {
  }

  lemma ReadsCount(c: Codec, p: Json, name: string)
    requires Record(p)
    ensures forall n :: IntField(c, Fields(p).value, name) == Some(n) <==> Counts(c, p, name, n)
  {
  }

  lemma ReadsDate(c: Codec, p: Json, name: string)
    requires Record(p)
    ensures forall at :: TimeField(c, Fields(p).value, name) == Some(at) <==> Dates(c, p, name, at)
  {
  }

  lemma Created(c: Codec, e: Event)
    requires Record(e.payload)
    ensures var x := DecodeCreated(c, e, Fields(e.payload).value);
            && (x.Some? <==> CreatedWellFormed(c, e.payload))
            && (x.Some? ==> forall t :: CreatedRow(c, e, t, ApplyEffect(t, x.value)))
  {
    ReadsName(c, e.payload, "work_item_id");
    ReadsText(e.payload, "summary");
    ReadsText(e.payload, "expires_at");
    var x := DecodeCreated(c, e, Fields(e.payload).value);
    if x.Some? {
      var a := x.value.approval;
      assert Names(c, e.payload, "work_item_id", a.workItem) && Text(e.payload, "summary", a.summary);
      var s := StringField(Fields(e.payload).value, "expires_at").value;
      assert Text(e.payload, "expires_at", s) && c.time(s) == Some(a.expiresAt);
      assert Carries(e.payload, "request", a.request);
    }
  }

  lemma Decided(e: Event)
    requires Record(e.payload) && e.kind != "approval.expired"
    ensures var x := DecodeDecided(e, Fields(e.payload).value);
            && (x.Some? <==> DecidedWellFormed(e.payload))
            && (x.Some? ==> forall t :: ClosedRow(e, t, ApplyEffect(t, x.value)))
  {
    ReadsText(e.payload, "decision");
    ReadsText(e.payload, "reason");
    var x := DecodeDecided(e, Fields(e.payload).value);
    if x.Some? {
      assert Text(e.payload, "decision", x.value.status) && Text(e.payload, "reason", x.value.decision.reason);
    }
  }

  lemma Expired(e: Event)
    requires Record(e.payload) && e.kind == "approval.expired"
    ensures var x := DecodeExpired(e, Fields(e.payload).value);
            && (x.Some? <==> exists s :: Text(e.payload, "reason", s))
            && (x.Some? ==> forall t :: ClosedRow(e, t, ApplyEffect(t, x.value)))
  {
    ReadsText(e.payload, "reason");
    var x := DecodeExpired(e, Fields(e.payload).value);
    if x.Some? {
      assert Text(e.payload, "reason", x.value.decision.reason);
    }
  }

  lemma Requested(c: Codec, e: Event)
    requires Record(e.payload)
    ensures var x := DecodeRequested(c, e, Fields(e.payload).value);
            && (x.Some? <==> RequestedWellFormed(c, e.payload))
            && (x.Some? ==> forall t :: RequestedRow(c, e, t, ApplyEffect(t, x.value)))
  {
    ReadsName(c, e.payload, "work_item_id");
    ReadsName(c, e.payload, "approval_id");
    ReadsText(e.payload, "mode");
    ReadsText(e.payload, "method");
    ReadsText(e.payload, "url");
    var x := DecodeRequested(c, e, Fields(e.payload).value);
    if x.Some? {
      var a := x.value.action;
      assert Names(c, e.payload, "work_item_id", a.workItem) && Text(e.payload, "mode", a.mode);
      assert Text(e.payload, "method", a.verb) && Text(e.payload, "url", a.url) && Carries(e.payload, "request", a.request);
      var id := UuidField(c, Fields(e.payload).value, "approval_id").value;
      assert Names(c, e.payload, "approval_id", id);
    }
  }

  lemma ApprovedOrSent(c: Codec, e: Event)
    requires Record(e.payload)
    ensures var x := DecodeApproved(c, e, Fields(e.payload).value);
            && (x.Some? <==> (exists id :: Names(c, e.payload, "work_item_id", id) && id != NIL)
                             && exists id :: Names(c, e.payload, "approval_id", id) && id != NIL)
            && (x.Some? ==> forall t :: ApprovedRow(e, t, ApplyEffect(t, x.value)))
    ensures var x := DecodeSent(c, e, Fields(e.payload).value);
            && (x.Some? <==> (exists n :: Counts(c, e.payload, "response_status", n))
                             && exists s :: Text(e.payload, "response_body", s))
            && (x.Some? ==> forall t :: SentRow(c, e, t, ApplyEffect(t, x.value)))
  {
    ReadsName(c, e.payload, "work_item_id");
    ReadsName(c, e.payload, "approval_id");
    ReadsCount(c, e.payload, "response_status");
    ReadsText(e.payload, "response_body");
    var x := DecodeSent(c, e, Fields(e.payload).value);
    if x.Some? {
      assert Counts(c, e.payload, "response_status", x.value.response.status);
      assert Text(e.payload, "response_body", x.value.response.body);
    }
    var y := DecodeApproved(c, e, Fields(e.payload).value);
    if y.Some? {
      assert Names(c, e.payload, "work_item_id", UuidField(c, Fields(e.payload).value, "work_item_id").value);
      assert Names(c, e.payload, "approval_id", UuidField(c, Fields(e.payload).value, "approval_id").value);
    }
  }

  lemma Recorded(c: Codec, e: Event)
    requires Record(e.payload)
    ensures var x := DecodeRecorded(c, e, Fields(e.payload).value);
            && (x.Some? <==> RecordedWellFormed(c, e.payload))
            && (x.Some? ==> forall t :: CachedRow(c, e, t, ApplyEffect(t, x.value)))
  {
    var f := Fields(e.payload).value;
    ReadsName(c, e.payload, "token_id");
    ReadsText(e.payload, "scope");
    ReadsText(e.payload, "key");
    ReadsText(e.payload, "request_hash");
    ReadsCount(c, e.payload, "response_status");
    ReadsDate(c, e.payload, "expires_at");
    var x := DecodeRecorded(c, e, f);
    if x.Some? {
      var key, row := x.value.key, x.value.row;
      assert Names(c, e.payload, "token_id", key.token) && Text(e.payload, "scope", key.scope) && Text(e.payload, "key", key.key);
      assert Text(e.payload, "request_hash", StringField(f, "request_hash").value);
      assert Counts(c, e.payload, "response_status", row.status);
      assert Dates(c, e.payload, "expires_at", TimeField(c, f, "expires_at").value);
      forall t ensures CachedRow(c, e, t, ApplyEffect(t, x.value)) {
        assert key in ApplyEffect(t, x.value).cache && OnlyRow(t.cache, ApplyEffect(t, x.value).cache, key);
      }
    }
  }

  lemma ApprovalWrites(c: Codec, e: Event)
    requires e.kind in ["approval.created", "approval.decided", "approval.expired"]
    ensures Decode(c, e).Some? <==> WellFormed(c, e)
    ensures Decode(c, e).Some? ==> forall t :: Written(c, e, t, ApplyEffect(t, Decode(c, e).value))
  {
    if Record(e.payload) {
      if e.kind == "approval.created" {
        Created(c, e);
      } else if e.kind == "approval.decided" {
        Decided(e);
      } else {
        Expired(e);
      }
    }
  }

  lemma ActionWrites(c: Codec, e: Event)
    requires e.kind in ["http_connector.action_requested", "http_connector.action_approved", "http_connector.action_sent"]
    ensures Decode(c, e).Some? <==> WellFormed(c, e)
    ensures Decode(c, e).Some? ==> forall t :: Written(c, e, t, ApplyEffect(t, Decode(c, e).value))
  {
    if Record(e.payload) {
      if e.kind == "http_connector.action_requested" {
        Requested(c, e);
      } else {
        ApprovedOrSent(c, e);
      }
    }
  }

  lemma CacheWrites(c: Codec, e: Event)
    requires e.kind == "idempotency.recorded"
    ensures Decode(c, e).Some? <==> WellFormed(c, e)
    ensures Decode(c, e).Some? ==> forall t :: Written(c, e, t, ApplyEffect(t, Decode(c, e).value))
  {
    if Record(e.payload) {
      Recorded(c, e);
    }
  }

  /** A projector accepts exactly the well-formed events of its kind, and writes what they say. */
  lemma ProjectorWrites(c: Codec, e: Event)
    ensures Decode(c, e).Some? <==> WellFormed(c, e)
    ensures Decode(c, e).Some? ==> forall t :: Written(c, e, t, ApplyEffect(t, Decode(c, e).value))
  {
    if e.kind in ["approval.created", "approval.decided", "approval.expired"] {
      ApprovalWrites(c, e);
    } else if e.kind in ["http_connector.action_requested", "http_connector.action_approved", "http_connector.action_sent"] {
      ActionWrites(c, e);
    } else if e.kind == "idempotency.recorded" {
      CacheWrites(c, e);
    }
  }

  // ------------------------------------------------------------ the database

  /** What a caller hands to `Writer.Append`: everything but the insertion time; the id is derived from the rest. */
  datatype Spec = Spec(id: nat, actor: Option<Id>, source: string, subjectKind: string, subjectId: Id, kind: string, payload: Json)

  function EventOf(s: Spec, now: int): (e: Event) {
    Event(s.id, now, s.actor, s.source, s.subjectKind, s.subjectId, s.kind, s.payload)
  }

  /** The event with this id is in the log. */
  predicate Logged(log: seq<Event>, id: nat) {
    exists i :: 0 <= i < |log| && log[i].id == id
  }

  /** Which of the specs end up in the log: the first with each new id. */
  function Novel(log: seq<Event>, specs: seq<Spec>, now: int): (events: seq<Event>)
    decreases |specs|
  {
    if specs == [] then []
    else if Logged(log, specs[0].id) then Novel(log, specs[1..], now)
    else [EventOf(specs[0], now)] + Novel(log + [EventOf(specs[0], now)], specs[1..], now)
  }

  ghost predicate AllWellFormed(c: Codec, events: seq<Event>) {
    forall i :: 0 <= i < |events| ==> WellFormed(c, events[i])
  }

  lemma FirstWellFormed(c: Codec, e: Event, events: seq<Event>)
    ensures AllWellFormed(c, [e] + events) <==> WellFormed(c, e) && AllWellFormed(c, events)
  {
    var all := [e] + events;
    assert all[0] == e && forall i :: 0 <= i < |events| ==> all[i + 1] == events[i];
  }

  /** What is left to append after one more spec. */
  lemma NovelStep(c: Codec, log: seq<Event>, specs: seq<Spec>, i: nat, now: int)
    requires i < |specs|
    ensures var e, rest := EventOf(specs[i], now), Novel(log, specs[i..], now);
            if Logged(log, specs[i].id) then rest == Novel(log, specs[i + 1..], now)
            else
              var next := Novel(log + [e], specs[i + 1..], now);
              && log + rest == log + [e] + next
              && (AllWellFormed(c, rest) <==> WellFormed(c, e) && AllWellFormed(c, next))
  {
    assert specs[i..][1..] == specs[i + 1..];
    var e := EventOf(specs[i], now);
    if !Logged(log, specs[i].id) {
      FirstWellFormed(c, e, Novel(log + [e], specs[i + 1..], now));
    }
  }

  /** The `events` table and the tables its projectors write. */
  class Database {
    const codec: Codec
    var log: seq<Event>
    var approvals: map<Id, Approval>
    var actions: map<Id, Action>
    var cache: map<CacheKey, CacheRow>

    function View(): (t: Tables)
      reads this
    {
      Tables(approvals, actions, cache)
    }

    /** The live tables are the fold of the log, and no event is in it twice. */
    ghost predicate Valid()
      reads this
    {
      && Fold(codec, log) == Some(View())
      && forall i, j :: 0 <= i < j < |log| ==> log[i].id != log[j].id
    }

    constructor (codec: Codec)
      ensures Valid() && log == [] && this.codec == codec
    {
      this.codec := codec;
      log, approvals, actions, cache := [], map[], map[], map[];
    }

    /** The statement of a projector. */
    method Execute(x: Effect)
      modifies `approvals, `actions, `cache
      ensures View() == ApplyEffect(old(View()), x)
    {
      match x
      case Nothing =>
      case InsertApproval(id, approval) =>
        if id !in approvals {
          approvals := approvals[id := approval];
        }
      case CloseApproval(id, status, d) =>
        if id in approvals {
          approvals := approvals[id := Closed(approvals[id], status, d)];
        }
      case InsertAction(id, action) =>
        if id !in actions {
          actions := actions[id := action];
        }
      case ApproveAction(id, at) =>
        if id in actions && actions[id].status != "sent" {
          actions := actions[id := actions[id].(status := "approved", updatedAt := at)];
        } else if id in actions {
          assert actions[id := actions[id]] == actions;
        }
      case SendAction(id, response, at) =>
        if id in actions {
          actions := actions[id := SentAction(actions[id], response, at)];
        }
      case PutCache(key, row) =>
        var created := if key in cache then cache[key].createdAt else row.createdAt;
        cache := cache[key := row.(createdAt := created)];
    }

    /**
      `Writer.Append`: an id already in the log changes nothing; otherwise the
      event is inserted and its projector runs, and a projector error leaves the
      transaction to be rolled back.
     */
    method Append(spec: Spec, now: int) returns (novel: bool, ok: bool)
      requires Valid()
      modifies this
      ensures novel <==> forall i :: 0 <= i < |old(log)| ==> old(log)[i].id != spec.id
      ensures !novel ==> ok && log == old(log) && View() == old(View())
      ensures novel && ok ==> log == old(log) + [EventOf(spec, now)]
      ensures novel ==> (ok <==> WellFormed(codec, EventOf(spec, now)))
      ensures novel && ok ==> Written(codec, EventOf(spec, now), old(View()), View())
      ensures ok ==> Valid()
    {
      novel, ok := !Logged(log, spec.id), true;
      if novel {
        var e := EventOf(spec, now);
        ProjectorWrites(codec, e);
        log := log + [e];
        assert log[..|log| - 1] == old(log);
        match Decode(codec, e)
        case None => ok := false;
        case Some(x) => Execute(x);
      }
    }

    /**
      One transaction of appends.  It commits as a whole or not at all: a
      projector error, a database error or a crash rolls everything back.
     */
    method Transact(specs: seq<Spec>, now: int, aborts: bool) returns (committed: bool)
      requires Valid()
      modifies this
      ensures Valid()
      ensures committed <==> !aborts && AllWellFormed(codec, Novel(old(log), specs, now))
      ensures committed ==> log == old(log) + Novel(old(log), specs, now)
      ensures !committed ==> log == old(log) && View() == old(View())
    {
      var savedLog, saved := log, View();
      ghost var added := Novel(log, specs, now);
      ghost var fine := AllWellFormed(codec, added);
      committed := !aborts;
      var i := 0;
      assert specs[0..] == specs;
      while i < |specs| && committed
        invariant 0 <= i <= |specs|
        invariant aborts ==> !committed
        invariant committed ==> Valid() && log + Novel(log, specs[i..], now) == savedLog + added
        invariant committed ==> (fine <==> AllWellFormed(codec, Novel(log, specs[i..], now)))
        invariant !aborts && !committed ==> !fine
      {
        NovelStep(codec, log, specs, i, now);
        var novel, ok := Append(specs[i], now);
        committed := ok;
        i := i + 1;
      }
      if !committed {
        log, approvals, actions, cache := savedLog, saved.approvals, saved.actions, saved.cache;
      }
    }
  }
}
