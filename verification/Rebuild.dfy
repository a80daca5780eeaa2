/**
  Rebuilding the tables from the log (cmd/meristem/rebuild.go).

  The live tables are the fold of the log (`Projectors.Database` keeps that as
  its invariant over every run of transactions).  The rebuild folds the same
  log, but reads every payload back without json.Number, so that numbers pass
  through float64.  `RebuildMirrorsLive` and `RebuildExactIff` say what that
  makes of the live tables, and `RowOrderSuffices` that only the order of the
  events of one row matters to that row.
 */
module Rebuild {
  import opened CanonicalJson
  import opened Options
  import opened Projectors
  import opened Sequences

  // -------------------------------------------------- numbers through float64

  /** Decoding a number into a float64: whether it is in range, and the literal it is written back as. */
  datatype Floats = Floats(inRange: NumLit -> bool, shortest: NumLit -> NumLit)

  /** Integers that fit a column survive, and what was written back once stays. */
  ghost predicate Lawful(c: Codec, x: Floats) {
    && (forall n :: c.integer(n).Some? && -0x8000_0000 <= c.integer(n).value < 0x8000_0000 ==>
          c.integer(x.shortest(n)) == c.integer(n))
    && (forall n :: x.shortest(x.shortest(n)) == x.shortest(n))
  }

  /** json.Unmarshal into an empty interface fails on a number float64 cannot hold. */
  predicate Readable(x: Floats, v: Json)
    decreases v
  {
    match v
    case Num(n) => x.inRange(n)
    case Arr(items) => forall i :: 0 <= i < |items| ==> Readable(x, items[i])
    case Obj(fields) => forall k :: k in fields ==> Readable(x, fields[k])
    case _ => true
  }

  /** A value read into an empty interface and marshalled again. */
  function Reread(x: Floats, v: Json): (w: Json)
    decreases v
  {
    match v
    case Num(n) => Num(x.shortest(n))
    case Arr(items) => Arr(seq(|items|, i requires 0 <= i < |items| => Reread(x, items[i])))
    case Obj(fields) => Obj(map k | k in fields :: Reread(x, fields[k]))
    case _ => v
  }

  function RereadFields(x: Floats, f: map<string, Json>): (g: map<string, Json>) {
    map k | k in f :: Reread(x, f[k])
  }

  lemma {:induction false} RereadTwice(c: Codec, x: Floats, v: Json)
    requires Lawful(c, x)
    ensures Reread(x, Reread(x, v)) == Reread(x, v)
    decreases v
  {
    match v
    case Arr(items) =>
      forall i | 0 <= i < |items| ensures Reread(x, Reread(x, items[i])) == Reread(x, items[i]) {
        RereadTwice(c, x, items[i]);
      }
    case Obj(fields) =>
      forall k | k in fields ensures Reread(x, Reread(x, fields[k])) == Reread(x, fields[k]) {
        RereadTwice(c, x, fields[k]);
      }
    case _ =>
  }

  // ------------------------------------------------------------- the rebuild

  function RereadEvent(x: Floats, e: Event): (f: Event) {
    e.(payload := Reread(x, e.payload))
  }

  function RereadLog(x: Floats, log: seq<Event>): (g: seq<Event>)
    ensures |g| == |log|
  {
    if log == [] then [] else RereadLog(x, log[..|log| - 1]) + [RereadEvent(x, log[|log| - 1])]
  }

  predicate AllReadable(x: Floats, log: seq<Event>) {
    forall i :: 0 <= i < |log| ==> Readable(x, log[i].payload)
  }

  /** `foldEvents`: every payload is decoded before the first projector runs. */
  function Rebuilt(c: Codec, x: Floats, log: seq<Event>): (t: Option<Tables>) {
    if AllReadable(x, log) then Fold(c, RereadLog(x, log)) else None
  }

  function RereadApproval(x: Floats, a: Approval): (b: Approval) {
    a.(request := Reread(x, a.request))
  }

  function RereadAction(x: Floats, a: Action): (b: Action) {
    a.(request := Reread(x, a.request))
  }

  function RereadCache(x: Floats, r: CacheRow): (s: CacheRow) {
    r.(body := Reread(x, r.body))
  }

  function RereadApprovals(x: Floats, m: map<Id, Approval>): (n: map<Id, Approval>) {
    map id | id in m :: RereadApproval(x, m[id])
  }

  function RereadActions(x: Floats, m: map<Id, Action>): (n: map<Id, Action>) {
    map id | id in m :: RereadAction(x, m[id])
  }

  function RereadRows(x: Floats, m: map<CacheKey, CacheRow>): (n: map<CacheKey, CacheRow>) {
    map key | key in m :: RereadCache(x, m[key])
  }

  function RereadTables(x: Floats, t: Tables): (u: Tables) {
    Tables(RereadApprovals(x, t.approvals), RereadActions(x, t.actions), RereadRows(x, t.cache))
  }

  function RereadEffect(x: Floats, y: Effect): (z: Effect) {
    match y
    case InsertApproval(id, a) => InsertApproval(id, RereadApproval(x, a))
    case InsertAction(id, a) => InsertAction(id, RereadAction(x, a))
    case PutCache(key, row) => PutCache(key, RereadCache(x, row))
    case _ => y
  }

  /** Every event of the log is accepted by its projector. */
  predicate Accepted(c: Codec, log: seq<Event>) {
    forall i :: 0 <= i < |log| ==> Decode(c, log[i]).Some?
  }

  lemma {:induction false} AcceptedFolds(c: Codec, log: seq<Event>)
    ensures Fold(c, log).Some? <==> Accepted(c, log)
    decreases |log|
  {
    if log != [] {
      var before := log[..|log| - 1];
      AcceptedFolds(c, before);
      assert forall i :: 0 <= i < |before| ==> before[i] == log[i];
    }
  }

  lemma RereadNext(x: Floats, log: seq<Event>, i: nat)
    requires i < |log|
    ensures RereadLog(x, log[..i + 1]) == RereadLog(x, log[..i]) + [RereadEvent(x, log[i])]
  {
    assert log[..i + 1][..i] == log[..i];
  }

  /** The first loop of `foldEvents`: every payload is decoded before any projector runs. */
  method ReadEvents(x: Floats, log: seq<Event>) returns (ok: bool, events: seq<Event>)
    ensures ok <==> AllReadable(x, log)
    ensures ok ==> events == RereadLog(x, log)
  {
    events := [];
    for i := 0 to |log|
      invariant events == RereadLog(x, log[..i]) && forall k :: 0 <= k < i ==> Readable(x, log[k].payload)
    {
      if !Readable(x, log[i].payload) {
        return false, events;
      }
      RereadNext(x, log, i);
      events := events + [RereadEvent(x, log[i])];
    }
    assert log[..|log|] == log;
    ok := true;
  }

  lemma FoldNext(c: Codec, log: seq<Event>, i: nat)
    requires i < |log| && Fold(c, log[..i]).Some?
    ensures Fold(c, log[..i + 1]) == match Decode(c, log[i]) {
              case None => None
              case Some(y) => Some(ApplyEffect(Fold(c, log[..i]).value, y))
            }
  {
    assert log[..i + 1][..i] == log[..i];
  }

  /** `foldEvents`: the projectors run one after the other on empty tables. */
  method FoldEvents(c: Codec, x: Floats, log: seq<Event>) returns (ok: bool, sandbox: Database)
    ensures fresh(sandbox)
    ensures ok <==> Rebuilt(c, x, log).Some?
    ensures ok ==> Rebuilt(c, x, log) == Some(sandbox.View())
  {
    var events;
    ok, events := ReadEvents(x, log);
    sandbox := new Database(c);
    if !ok {
      return;
    }
    AcceptedFolds(c, events);
    assert events[..0] == [] && Fold(c, []) == Some(EMPTY);
    for i := 0 to |events|
      invariant Fold(c, events[..i]) == Some(sandbox.View())
    {
      FoldNext(c, events, i);
      match Decode(c, events[i])
      case None =>
        return false, sandbox;
      case Some(y) =>
        sandbox.Execute(y);
    }
    assert events[..|events|] == events;
  }

  // --------------------------------------------------------------- the proof

  lemma FieldsReread(x: Floats, payload: Json)
    ensures Fields(Reread(x, payload)) ==
              match Fields(payload) { case None => None case Some(f) => Some(RereadFields(x, f)) }
  {
    assert payload.Null? ==> RereadFields(x, map[]) == map[];
  }

  /** Strings, ids and small integers decode alike before and after; JSON columns are reread. */
  lemma FieldsAgree(c: Codec, x: Floats, f: map<string, Json>, name: string)
    requires Lawful(c, x)
    ensures StringField(RereadFields(x, f), name) == StringField(f, name)
    ensures UuidField(c, RereadFields(x, f), name) == UuidField(c, f, name)
    ensures IntField(c, f, name).Some? ==> IntField(c, RereadFields(x, f), name) == IntField(c, f, name)
    ensures TimeField(c, RereadFields(x, f), name) == TimeField(c, f, name)
    ensures ObjectField(RereadFields(x, f), name) == Reread(x, ObjectField(f, name))
  {
    EmptyObjectStays(x);
  }

  lemma CreatedReread(c: Codec, x: Floats, e: Event, f: map<string, Json>)
    requires Lawful(c, x) && DecodeCreated(c, e, f).Some?
    ensures DecodeCreated(c, RereadEvent(x, e), RereadFields(x, f)) == Some(RereadEffect(x, DecodeCreated(c, e, f).value))
  {
    FieldsAgree(c, x, f, "work_item_id");
    FieldsAgree(c, x, f, "summary");
    FieldsAgree(c, x, f, "expires_at");
    FieldsAgree(c, x, f, "request");
  }

  lemma ClosingReread(c: Codec, x: Floats, e: Event, f: map<string, Json>)
    requires Lawful(c, x)
    ensures DecodeDecided(RereadEvent(x, e), RereadFields(x, f)) == DecodeDecided(e, f)
    ensures DecodeExpired(RereadEvent(x, e), RereadFields(x, f)) == DecodeExpired(e, f)
  {
    FieldsAgree(c, x, f, "decision");
    FieldsAgree(c, x, f, "reason");
  }

  lemma RequestedReread(c: Codec, x: Floats, e: Event, f: map<string, Json>)
    requires Lawful(c, x) && DecodeRequested(c, e, f).Some?
    ensures DecodeRequested(c, RereadEvent(x, e), RereadFields(x, f)) == Some(RereadEffect(x, DecodeRequested(c, e, f).value))
  {
    FieldsAgree(c, x, f, "work_item_id");
    FieldsAgree(c, x, f, "approval_id");
    FieldsAgree(c, x, f, "mode");
    FieldsAgree(c, x, f, "method");
    FieldsAgree(c, x, f, "url");
    FieldsAgree(c, x, f, "request");
  }

  lemma ProgressReread(c: Codec, x: Floats, e: Event, f: map<string, Json>)
    requires Lawful(c, x)
    ensures DecodeApproved(c, RereadEvent(x, e), RereadFields(x, f)) == DecodeApproved(c, e, f)
    ensures DecodeSent(c, e, f).Some? ==> DecodeSent(c, RereadEvent(x, e), RereadFields(x, f)) == DecodeSent(c, e, f)
  {
    FieldsAgree(c, x, f, "work_item_id");
    FieldsAgree(c, x, f, "approval_id");
    FieldsAgree(c, x, f, "response_status");
    FieldsAgree(c, x, f, "response_body");
  }

  lemma RecordedReread(c: Codec, x: Floats, e: Event, f: map<string, Json>)
    requires Lawful(c, x) && DecodeRecorded(c, e, f).Some?
    ensures DecodeRecorded(c, RereadEvent(x, e), RereadFields(x, f)) == Some(RereadEffect(x, DecodeRecorded(c, e, f).value))
  {
    FieldsAgree(c, x, f, "token_id");
    FieldsAgree(c, x, f, "scope");
    FieldsAgree(c, x, f, "key");
    FieldsAgree(c, x, f, "request_hash");
    FieldsAgree(c, x, f, "response_status");
    FieldsAgree(c, x, f, "expires_at");
    EmptyObjectStays(x);
  }

  /** A projector that accepts an event accepts it on the rebuild, with its JSON columns reread. */
  lemma DecodeReread(c: Codec, x: Floats, e: Event)
    requires Lawful(c, x) && Decode(c, e).Some?
    ensures Decode(c, RereadEvent(x, e)) == Some(RereadEffect(x, Decode(c, e).value))
  {
    FieldsReread(x, e.payload);
    if Fields(e.payload).Some? {
      var f := Fields(e.payload).value;
      if e.kind == "approval.created" && e.subjectKind == "approval" {
        CreatedReread(c, x, e, f);
      } else if e.kind == "http_connector.action_requested" && e.subjectKind == "http_connector_action" {
        RequestedReread(c, x, e, f);
      } else if e.kind == "idempotency.recorded" {
        RecordedReread(c, x, e, f);
      } else {
        ClosingReread(c, x, e, f);
        ProgressReread(c, x, e, f);
      }
    }
  }

  lemma PutApproval(x: Floats, m: map<Id, Approval>, id: Id, a: Approval)
    ensures RereadApprovals(x, m[id := a]) == RereadApprovals(x, m)[id := RereadApproval(x, a)]
  {
  }

  lemma PutAction(x: Floats, m: map<Id, Action>, id: Id, a: Action)
    ensures RereadActions(x, m[id := a]) == RereadActions(x, m)[id := RereadAction(x, a)]
  {
  }

  lemma PutRow(x: Floats, m: map<CacheKey, CacheRow>, key: CacheKey, r: CacheRow)
    ensures RereadRows(x, m[key := r]) == RereadRows(x, m)[key := RereadCache(x, r)]
  {
  }

  /** Rereading commutes with what a projector does to its row. */
  lemma ApplyReread(x: Floats, t: Tables, y: Effect)
    ensures ApplyEffect(RereadTables(x, t), RereadEffect(x, y)) == RereadTables(x, ApplyEffect(t, y))
  {
    match y
    case Nothing =>
    case InsertApproval(id, a) => PutApproval(x, t.approvals, id, a);
    case CloseApproval(id, status, d) =>
      if id in t.approvals { PutApproval(x, t.approvals, id, Closed(t.approvals[id], status, d)); }
    case InsertAction(id, a) => PutAction(x, t.actions, id, a);
    case ApproveAction(id, at) =>
      if id in t.actions { PutAction(x, t.actions, id, ApprovedAction(t.actions[id], at)); }
    case SendAction(id, response, at) =>
      if id in t.actions { PutAction(x, t.actions, id, SentAction(t.actions[id], response, at)); }
    case PutCache(key, row) => PutRow(x, t.cache, key, Upserted(t.cache, key, row));
  }

  lemma {:induction false} FoldReread(c: Codec, x: Floats, log: seq<Event>)
    requires Lawful(c, x) && Fold(c, log).Some?
    ensures Fold(c, RereadLog(x, log)) == Some(RereadTables(x, Fold(c, log).value))
    decreases |log|
  {
    if log == [] {
      assert RereadTables(x, EMPTY) == EMPTY;
    } else {
      var before, last := log[..|log| - 1], log[|log| - 1];
      FoldReread(c, x, before);
      DecodeReread(c, x, last);
      ApplyReread(x, Fold(c, before).value, Decode(c, last).value);
      var g := RereadLog(x, log);
      assert g[..|g| - 1] == RereadLog(x, before);
    }
  }

  /**
    The rebuild of a log whose live tables are t is t with every JSON column
    reread, unless some payload holds a number no float64 can hold; then it fails.
   */
  lemma RebuildMirrorsLive(c: Codec, x: Floats, log: seq<Event>, t: Tables)
    requires Lawful(c, x) && Fold(c, log) == Some(t)
    ensures Rebuilt(c, x, log) == if AllReadable(x, log) then Some(RereadTables(x, t)) else None
  {
    FoldReread(c, x, log);
  }

  /** Every JSON column of the live tables is written back as it was read. */
  predicate Unchanged(x: Floats, t: Tables) {
    && (forall id :: id in t.approvals ==> Reread(x, t.approvals[id].request) == t.approvals[id].request)
    && (forall id :: id in t.actions ==> Reread(x, t.actions[id].request) == t.actions[id].request)
    && (forall key :: key in t.cache ==> Reread(x, t.cache[key].body) == t.cache[key].body)
  }

  /** The rebuild reproduces the live tables exactly when every payload is readable and no JSON column is changed by rereading. */
  lemma RebuildExactIff(c: Codec, x: Floats, log: seq<Event>, t: Tables)
    requires Lawful(c, x) && Fold(c, log) == Some(t)
    ensures Rebuilt(c, x, log) == Some(t) <==> AllReadable(x, log) && Unchanged(x, t)
  {
    RebuildMirrorsLive(c, x, log, t);
    var u := RereadTables(x, t);
    if u == t {
      forall id | id in t.approvals ensures Reread(x, t.approvals[id].request) == t.approvals[id].request {
        assert u.approvals[id] == RereadApproval(x, t.approvals[id]);
      }
      forall id | id in t.actions ensures Reread(x, t.actions[id].request) == t.actions[id].request {
        assert u.actions[id] == RereadAction(x, t.actions[id]);
      }
      forall key | key in t.cache ensures Reread(x, t.cache[key].body) == t.cache[key].body {
        assert u.cache[key] == RereadCache(x, t.cache[key]);
      }
    }
  }

  // ---------------------------------------- which rows rebuild exactly anyway

  /** The connector service puts the request into its event as it reads it back itself. */
  predicate RequestsReread(x: Floats, log: seq<Event>) {
    forall i :: 0 <= i < |log| && log[i].kind == "http_connector.action_requested" && log[i].payload.Obj? ==>
      Reread(x, ObjectField(log[i].payload.fields, "request")) == ObjectField(log[i].payload.fields, "request")
  }

  /** The request a connector action is stored with has been reread once, so it is not changed again. */
  lemma StoredRequestStays(c: Codec, x: Floats, raw: Json)
    requires Lawful(c, x)
    ensures Reread(x, Reread(x, raw)) == Reread(x, raw)
  {
    RereadTwice(c, x, raw);
  }

  predicate ActionsUnchanged(x: Floats, t: Tables) {
    forall id :: id in t.actions ==> Reread(x, t.actions[id].request) == t.actions[id].request
  }

  lemma EmptyObjectStays(x: Floats)
    ensures Reread(x, Obj(map[])) == Obj(map[])
  {
    var empty: map<string, Json> := map[];
    assert RereadFields(x, empty) == empty;
    assert Reread(x, Obj(empty)) == Obj(empty);
  }

  /** Only a requested event inserts an action. */
  lemma InsertedAction(c: Codec, e: Event)
    requires Decode(c, e).Some? && Decode(c, e).value.InsertAction?
    ensures e.kind == "http_connector.action_requested" && (e.payload.Obj? || e.payload.Null?)
    ensures Decode(c, e).value.action.request
            == if e.payload.Obj? then ObjectField(e.payload.fields, "request") else Obj(map[])
  {
  }

  lemma ApplyKeepsActions(c: Codec, x: Floats, t: Tables, e: Event)
    requires ActionsUnchanged(x, t) && RequestsReread(x, [e]) && Decode(c, e).Some?
    ensures ActionsUnchanged(x, ApplyEffect(t, Decode(c, e).value))
  {
    assert [e][0] == e;
    var y := Decode(c, e).value;
    EmptyObjectStays(x);
    if y.InsertAction? {
      InsertedAction(c, e);
    }
    EffectKeepsActions(x, t, y);
  }

  lemma EffectKeepsActions(x: Floats, t: Tables, y: Effect)
    requires ActionsUnchanged(x, t)
    requires y.InsertAction? ==> Reread(x, y.action.request) == y.action.request
    ensures ActionsUnchanged(x, ApplyEffect(t, y))
  {
  }

  /** Connector actions therefore always rebuild to their live rows, whatever numbers the other tables hold. */
  lemma {:induction false} ActionsRebuildExactly(c: Codec, x: Floats, log: seq<Event>, t: Tables)
    requires Lawful(c, x) && Fold(c, log) == Some(t) && RequestsReread(x, log)
    ensures ActionsUnchanged(x, t)
    ensures AllReadable(x, log) ==> Rebuilt(c, x, log).Some? && Rebuilt(c, x, log).value.actions == t.actions
    decreases |log|
  {
    RebuildMirrorsLive(c, x, log, t);
    if log != [] {
      var before, last := log[..|log| - 1], log[|log| - 1];
      assert RequestsReread(x, before) by {
        assert forall i :: 0 <= i < |before| ==> before[i] == log[i];
      }
      ActionsRebuildExactly(c, x, before, Fold(c, before).value);
      ApplyKeepsActions(c, x, Fold(c, before).value, last);
    }
    assert forall id :: id in t.actions ==> RereadAction(x, t.actions[id]) == t.actions[id];
    assert RereadActions(x, t.actions) == t.actions;
  }

  /** The request part of what a connector write shows its approver: the body as it came in, numbers included. */
  function ShownBody(body: Json): (request: Json) {
    Obj(map["body" := body])
  }

  lemma ShownBodyChanges(x: Floats, shown: map<string, Json>, body: Json)
    requires "request" in shown && shown["request"] == ShownBody(body)
    ensures Reread(x, Obj(shown)) == Obj(shown) ==> Reread(x, body) == body
  {
    if Reread(x, Obj(shown)) == Obj(shown) {
      assert RereadFields(x, shown)["request"] == Reread(x, shown["request"]) == ShownBody(body);
      assert Reread(x, ShownBody(body)).fields["body"] == Reread(x, body);
    }
  }

  /**
    The approval of one connector write whose body holds a number that float64
    changes, at any depth, is enough to make the rebuild differ.
   */
  lemma ChangedNumberDiverges(c: Codec, x: Floats, e: Event, shown: map<string, Json>, body: Json)
    requires Lawful(c, x) && Reread(x, body) != body
    requires e.kind == "approval.created" && Decode(c, e).Some? && e.payload.Obj?
    requires "request" in e.payload.fields && e.payload.fields["request"] == Obj(shown)
    requires "request" in shown && shown["request"] == ShownBody(body)
    ensures Fold(c, [e]).Some? && Rebuilt(c, x, [e]) != Fold(c, [e])
  {
    assert [e][..0] == [];
    assert Fold(c, [e]) == Some(ApplyEffect(EMPTY, Decode(c, e).value));
    assert Decode(c, e) == DecodeCreated(c, e, e.payload.fields);
    var t := Fold(c, [e]).value;
    assert e.subjectId in t.approvals && t.approvals[e.subjectId].request == Obj(shown);
    ShownBodyChanges(x, shown, body);
    RebuildExactIff(c, x, [e], t);
  }

  // ------------------------------------------------------------ order of rows

  /** The row an effect touches. */
  datatype Row = NoRow | ApprovalRow(id: Id) | ActionRow(id: Id) | CacheRowOf(key: CacheKey)

  function RowOf(y: Effect): (r: Row) {
    match y
    case Nothing => NoRow
    case InsertApproval(id, _) => ApprovalRow(id)
    case CloseApproval(id, _, _) => ApprovalRow(id)
    case InsertAction(id, _) => ActionRow(id)
    case ApproveAction(id, _) => ActionRow(id)
    case SendAction(id, _, _) => ActionRow(id)
    case PutCache(key, _) => CacheRowOf(key)
  }

  /** The tables cut down to one row. */
  function At(t: Tables, r: Row): (u: Tables) {
    match r
    case NoRow => EMPTY
    case ApprovalRow(id) => if id in t.approvals then EMPTY.(approvals := map[id := t.approvals[id]]) else EMPTY
    case ActionRow(id) => if id in t.actions then EMPTY.(actions := map[id := t.actions[id]]) else EMPTY
    case CacheRowOf(key) => if key in t.cache then EMPTY.(cache := map[key := t.cache[key]]) else EMPTY
  }

  /** An effect on its own row depends on that row alone, and leaves every other row alone. */
  lemma EffectIsLocal(t: Tables, y: Effect, r: Row)
    ensures At(ApplyEffect(t, y), r) == if RowOf(y) == r && r != NoRow then ApplyEffect(At(t, r), y) else At(t, r)
  {
  }

  lemma RowsDecide(t: Tables, u: Tables)
    requires forall r :: At(t, r) == At(u, r)
    ensures t == u
  {
    forall id ensures id in t.approvals <==> id in u.approvals
      ensures id in t.approvals && id in u.approvals ==> t.approvals[id] == u.approvals[id]
    {
      assert At(t, ApprovalRow(id)) == At(u, ApprovalRow(id));
      assert id in t.approvals ==> id in At(t, ApprovalRow(id)).approvals;
      assert id in u.approvals ==> id in At(u, ApprovalRow(id)).approvals;
    }
    forall id ensures id in t.actions <==> id in u.actions
      ensures id in t.actions && id in u.actions ==> t.actions[id] == u.actions[id]
    {
      assert At(t, ActionRow(id)) == At(u, ActionRow(id));
      assert id in t.actions ==> id in At(t, ActionRow(id)).actions;
      assert id in u.actions ==> id in At(u, ActionRow(id)).actions;
    }
    forall key ensures key in t.cache <==> key in u.cache
      ensures key in t.cache && key in u.cache ==> t.cache[key] == u.cache[key]
    {
      assert At(t, CacheRowOf(key)) == At(u, CacheRowOf(key));
      assert key in t.cache ==> key in At(t, CacheRowOf(key)).cache;
      assert key in u.cache ==> key in At(u, CacheRowOf(key)).cache;
    }
    assert t.approvals == u.approvals;
    assert t.actions == u.actions;
    assert t.cache == u.cache;
  }

  /** The events of a log that touch one row, in log order. */
  function Touching(c: Codec, log: seq<Event>, r: Row): (events: seq<Event>)
    decreases |log|
  {
    if log == [] then []
    else
      var last := log[|log| - 1];
      var before := Touching(c, log[..|log| - 1], r);
      if Touches(c, last, r) then before + [last] else before
  }

  predicate Touches(c: Codec, e: Event, r: Row) {
    Decode(c, e).Some? && RowOf(Decode(c, e).value) == r && r != NoRow
  }

  /** A row of the fold is the fold of the events that touch it. */
  lemma {:induction false} FoldRow(c: Codec, log: seq<Event>, r: Row)
    requires Fold(c, log).Some?
    ensures Fold(c, Touching(c, log, r)) == Some(At(Fold(c, log).value, r))
    decreases |log|
  {
    if log == [] {
      assert At(EMPTY, r) == EMPTY;
    } else {
      var before, last := log[..|log| - 1], log[|log| - 1];
      FoldRow(c, before, r);
      EffectIsLocal(Fold(c, before).value, Decode(c, last).value, r);
      var own := Touching(c, before, r);
      assert (own + [last])[..|own|] == own;
    }
  }

  /**
    Any order of the log that keeps the order of the events of each row folds to
    the same tables.
   */
  lemma RowOrderSuffices(c: Codec, log: seq<Event>, other: seq<Event>)
    requires Accepted(c, log) && Accepted(c, other)
    requires forall r :: Touching(c, log, r) == Touching(c, other, r)
    ensures Fold(c, log).Some? && Fold(c, log) == Fold(c, other)
  {
    AcceptedFolds(c, log);
    AcceptedFolds(c, other);
    var t, u := Fold(c, log).value, Fold(c, other).value;
    forall r ensures At(t, r) == At(u, r) {
      FoldRow(c, log, r);
      FoldRow(c, other, r);
      assert Touching(c, log, r) == Touching(c, other, r);
    }
    RowsDecide(t, u);
  }

  lemma TouchingLast(c: Codec, a: seq<Event>, last: Event, r: Row)
    ensures Touching(c, a + [last], r)
            == if Touches(c, last, r) then Touching(c, a, r) + [last] else Touching(c, a, r)
  {
    assert (a + [last])[..|a|] == a;
  }

  lemma {:induction false} TouchingConcat(c: Codec, a: seq<Event>, b: seq<Event>, r: Row)
    ensures Touching(c, a + b, r) == Touching(c, a, r) + Touching(c, b, r)
    decreases |b|
  {
    if b == [] {
      assert a + b == a;
    } else {
      var front, last := b[..|b| - 1], b[|b| - 1];
      assert b == front + [last];
      TouchingConcat(c, a, front, r);
      TouchingLast(c, front, last, r);
      TouchingLast(c, a + front, last, r);
      Assoc(a, front, [last]);
      Assoc(Touching(c, a, r), Touching(c, front, r), [last]);
    }
  }

  lemma TouchingTwo(c: Codec, e: Event, f: Event, r: Row)
    requires Decode(c, e).Some? && Decode(c, f).Some?
    requires RowOf(Decode(c, e).value) != RowOf(Decode(c, f).value) || RowOf(Decode(c, e).value) == NoRow
    ensures Touching(c, [e, f], r) == Touching(c, [f, e], r)
  {
    assert [e, f][..1] == [e] && [f, e][..1] == [f] && [e][..0] == [] && [f][..0] == [];
  }

  lemma SwapTouching(c: Codec, a: seq<Event>, e: Event, f: Event, b: seq<Event>, r: Row)
    requires Decode(c, e).Some? && Decode(c, f).Some?
    requires RowOf(Decode(c, e).value) != RowOf(Decode(c, f).value) || RowOf(Decode(c, e).value) == NoRow
    ensures Touching(c, a + [e, f] + b, r) == Touching(c, a + [f, e] + b, r)
  {
    TouchingTwo(c, e, f, r);
    TouchingConcat(c, a, [e, f], r);
    TouchingConcat(c, a, [f, e], r);
    TouchingConcat(c, a + [e, f], b, r);
    TouchingConcat(c, a + [f, e], b, r);
  }

  lemma SwapAccepted(c: Codec, a: seq<Event>, e: Event, f: Event, b: seq<Event>)
    requires Accepted(c, a + [e, f] + b)
    ensures Accepted(c, a + [f, e] + b)
  {
    var log, other := a + [e, f] + b, a + [f, e] + b;
    forall i | 0 <= i < |other| ensures Decode(c, other[i]).Some? {
      var j := if i == |a| then i + 1 else if i == |a| + 1 then i - 1 else i;
      assert other[i] == log[j];
    }
  }

  /** Swapping neighbours that touch different rows never changes the fold. */
  lemma SwapNeighbours(c: Codec, a: seq<Event>, e: Event, f: Event, b: seq<Event>)
    requires Accepted(c, a + [e, f] + b) && Decode(c, e).Some? && Decode(c, f).Some?
    requires RowOf(Decode(c, e).value) != RowOf(Decode(c, f).value) || RowOf(Decode(c, e).value) == NoRow
    ensures Fold(c, a + [e, f] + b) == Fold(c, a + [f, e] + b)
  {
    SwapAccepted(c, a, e, f, b);
    forall r ensures Touching(c, a + [e, f] + b, r) == Touching(c, a + [f, e] + b, r) {
      SwapTouching(c, a, e, f, b, r);
    }
    RowOrderSuffices(c, a + [e, f] + b, a + [f, e] + b);
  }
}
