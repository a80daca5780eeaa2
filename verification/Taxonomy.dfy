/**
  Event kinds and the chatter taxonomy of the feed (internal/domain/models.go,
  internal/feed/feed.go, internal/feed/taxonomy.go).
 */
module Taxonomy {
  import opened CanonicalJson
  import opened Options
  import Strings

  /** The kinds of internal/domain/models.go; Unknown stands for any other text. */
  datatype Kind =
    | TokenCreated
    | TokenRevoked
    | IdempotencyRecorded
    | MessageCaptured
    | WorkItemCreated
    | WorkItemTransitioned
    | WorkItemEventAppended
    | WorkItemRelationAdded
    | WorkItemMetadataUpdated
    | XylemExhausted
    | SignalReceived
    | DeterministicErrorReported
    | DeterministicErrorMasked
    | DeterministicErrorUnmasked
    | EscalationRequested
    | SubactorGrantRequested
    | SubactorGrantGranted
    | SubactorGrantDenied
    | SubactorGrantEscalated
    | CultivarActivationRequested
    | CultivarActivationGranted
    | CultivarActivationDenied
    | CultivarActivationEscalated
    | ApprovalCreated
    | ApprovalDecided
    | ApprovalExpired
    | HTTPConnectorActionRequested
    | HTTPConnectorActionApproved
    | HTTPConnectorActionSent
    | PatienceBreached
    | ConvergenceVerdictRecorded
    | ConvergenceChecksProposed
    | DispatchRequested
    | PolicyProfileSwitched
    | TropismDefined
    | CultivarDefined
    | ProjectionDefined
    | NodeRegistered
    | NodeRouteUpdated
    | CommandQueued
    | CommandAcked
    | Unknown(name: string)

  datatype Class = Lifecycle | Decision | Progress | Admin | UnknownClass(name: string)

  // AllEventKinds, in declaration order, in stretches.
  const KINDS_0: seq<Kind> := [
    TokenCreated, TokenRevoked, IdempotencyRecorded, MessageCaptured, WorkItemCreated, WorkItemTransitioned,
    WorkItemEventAppended
  ]

  const KINDS_1: seq<Kind> := [
    WorkItemRelationAdded, WorkItemMetadataUpdated, XylemExhausted, SignalReceived,
    DeterministicErrorReported, DeterministicErrorMasked, DeterministicErrorUnmasked
  ]

  const KINDS_2: seq<Kind> := [
    EscalationRequested, SubactorGrantRequested, SubactorGrantGranted, SubactorGrantDenied,
    SubactorGrantEscalated, CultivarActivationRequested, CultivarActivationGranted
  ]

  const KINDS_3: seq<Kind> := [
    CultivarActivationDenied, CultivarActivationEscalated, ApprovalCreated, ApprovalDecided, ApprovalExpired,
    HTTPConnectorActionRequested, HTTPConnectorActionApproved
  ]

  const KINDS_4: seq<Kind> := [
    HTTPConnectorActionSent, PatienceBreached, ConvergenceVerdictRecorded, ConvergenceChecksProposed,
    DispatchRequested, PolicyProfileSwitched, TropismDefined
  ]

  const KINDS_5: seq<Kind> := [
    CultivarDefined, ProjectionDefined, NodeRegistered, NodeRouteUpdated, CommandQueued, CommandAcked
  ]

  const AllEventKinds: seq<Kind> := KINDS_0 + KINDS_1 + KINDS_2 + KINDS_3 + KINDS_4 + KINDS_5

  predicate Known(k: Kind) {
    !k.Unknown?
  }

  lemma Stretch0(k: Kind)
    ensures k in KINDS_0 <==> (
      || k.TokenCreated? || k.TokenRevoked? || k.IdempotencyRecorded? || k.MessageCaptured? ||
      k.WorkItemCreated? || k.WorkItemTransitioned? || k.WorkItemEventAppended?)
  {
    assert KINDS_0[0] == TokenCreated;
    assert KINDS_0[1] == TokenRevoked;
    assert KINDS_0[2] == IdempotencyRecorded;
    assert KINDS_0[3] == MessageCaptured;
    assert KINDS_0[4] == WorkItemCreated;
    assert KINDS_0[5] == WorkItemTransitioned;
    assert KINDS_0[6] == WorkItemEventAppended;
  }

  lemma Stretch1(k: Kind)
    ensures k in KINDS_1 <==> (
      || k.WorkItemRelationAdded? || k.WorkItemMetadataUpdated? || k.XylemExhausted? ||
      k.SignalReceived? || k.DeterministicErrorReported? || k.DeterministicErrorMasked? ||
      k.DeterministicErrorUnmasked?)
  {
    assert KINDS_1[0] == WorkItemRelationAdded;
    assert KINDS_1[1] == WorkItemMetadataUpdated;
    assert KINDS_1[2] == XylemExhausted;
    assert KINDS_1[3] == SignalReceived;
    assert KINDS_1[4] == DeterministicErrorReported;
    assert KINDS_1[5] == DeterministicErrorMasked;
    assert KINDS_1[6] == DeterministicErrorUnmasked;
  }

  lemma Stretch2(k: Kind)
    ensures k in KINDS_2 <==> (
      || k.EscalationRequested? || k.SubactorGrantRequested? || k.SubactorGrantGranted? ||
      k.SubactorGrantDenied? || k.SubactorGrantEscalated? || k.CultivarActivationRequested? ||
      k.CultivarActivationGranted?)
  {
    assert KINDS_2[0] == EscalationRequested;
    assert KINDS_2[1] == SubactorGrantRequested;
    assert KINDS_2[2] == SubactorGrantGranted;
    assert KINDS_2[3] == SubactorGrantDenied;
    assert KINDS_2[4] == SubactorGrantEscalated;
    assert KINDS_2[5] == CultivarActivationRequested;
    assert KINDS_2[6] == CultivarActivationGranted;
  }

  lemma Stretch3(k: Kind)
    ensures k in KINDS_3 <==> (
      || k.CultivarActivationDenied? || k.CultivarActivationEscalated? || k.ApprovalCreated? ||
      k.ApprovalDecided? || k.ApprovalExpired? || k.HTTPConnectorActionRequested? ||
      k.HTTPConnectorActionApproved?)
  {
    assert KINDS_3[0] == CultivarActivationDenied;
    assert KINDS_3[1] == CultivarActivationEscalated;
    assert KINDS_3[2] == ApprovalCreated;
    assert KINDS_3[3] == ApprovalDecided;
    assert KINDS_3[4] == ApprovalExpired;
    assert KINDS_3[5] == HTTPConnectorActionRequested;
    assert KINDS_3[6] == HTTPConnectorActionApproved;
  }

  lemma Stretch4(k: Kind)
    ensures k in KINDS_4 <==> (
      || k.HTTPConnectorActionSent? || k.PatienceBreached? || k.ConvergenceVerdictRecorded? ||
      k.ConvergenceChecksProposed? || k.DispatchRequested? || k.PolicyProfileSwitched? ||
      k.TropismDefined?)
  {
    assert KINDS_4[0] == HTTPConnectorActionSent;
    assert KINDS_4[1] == PatienceBreached;
    assert KINDS_4[2] == ConvergenceVerdictRecorded;
    assert KINDS_4[3] == ConvergenceChecksProposed;
    assert KINDS_4[4] == DispatchRequested;
    assert KINDS_4[5] == PolicyProfileSwitched;
    assert KINDS_4[6] == TropismDefined;
  }

  lemma Stretch5(k: Kind)
    ensures k in KINDS_5 <==> (
      || k.CultivarDefined? || k.ProjectionDefined? || k.NodeRegistered? || k.NodeRouteUpdated? ||
      k.CommandQueued? || k.CommandAcked?)
  {
    assert KINDS_5[0] == CultivarDefined;
    assert KINDS_5[1] == ProjectionDefined;
    assert KINDS_5[2] == NodeRegistered;
    assert KINDS_5[3] == NodeRouteUpdated;
    assert KINDS_5[4] == CommandQueued;
    assert KINDS_5[5] == CommandAcked;
  }

  lemma KnownKindsAreListed(k: Kind)
    ensures k in AllEventKinds <==> Known(k)
  {
    Stretch0(k);
    Stretch1(k);
    Stretch2(k);
    Stretch3(k);
    Stretch4(k);
    Stretch5(k);
  }

  /** `IncludedKinds`: what the unprojected feed shows. */
  predicate Included(k: Kind) {
    || k.MessageCaptured? || k.WorkItemCreated? || k.WorkItemTransitioned? || k.WorkItemEventAppended?
    || k.WorkItemRelationAdded? || k.WorkItemMetadataUpdated? || k.XylemExhausted? || k.SignalReceived?
    || k.DeterministicErrorReported? || k.DeterministicErrorMasked? || k.DeterministicErrorUnmasked?
    || k.EscalationRequested? || k.SubactorGrantRequested? || k.SubactorGrantGranted?
    || k.SubactorGrantDenied? || k.SubactorGrantEscalated? || k.CultivarActivationRequested?
    || k.CultivarActivationGranted? || k.CultivarActivationDenied? || k.CultivarActivationEscalated?
    || k.ApprovalCreated? || k.ApprovalDecided? || k.ApprovalExpired? || k.HTTPConnectorActionRequested?
    || k.HTTPConnectorActionApproved? || k.HTTPConnectorActionSent? || k.PatienceBreached?
    || k.ConvergenceVerdictRecorded? || k.ConvergenceChecksProposed? || k.DispatchRequested?
    || k.PolicyProfileSwitched? || k.TropismDefined? || k.CultivarDefined? || k.ProjectionDefined?
  }

  /** `StaticKindClass` without its dynamic case: Unknown has no class, WorkItemEventAppended no static one. */
  predicate IsLifecycle(k: Kind) {
    || k.WorkItemCreated? || k.WorkItemTransitioned? || k.WorkItemRelationAdded?
    || k.WorkItemMetadataUpdated? || k.XylemExhausted? || k.SignalReceived? || k.EscalationRequested?
    || k.ApprovalCreated? || k.ApprovalExpired? || k.HTTPConnectorActionRequested?
    || k.HTTPConnectorActionApproved? || k.PatienceBreached? || k.DispatchRequested?
  }

  predicate IsDecision(k: Kind) {
    || k.MessageCaptured? || k.SubactorGrantRequested? || k.SubactorGrantGranted? || k.SubactorGrantDenied?
    || k.SubactorGrantEscalated? || k.CultivarActivationRequested? || k.CultivarActivationGranted?
    || k.CultivarActivationDenied? || k.CultivarActivationEscalated? || k.ApprovalDecided?
    || k.ConvergenceVerdictRecorded? || k.ConvergenceChecksProposed? || k.PolicyProfileSwitched?
    || k.TropismDefined? || k.CultivarDefined? || k.ProjectionDefined?
  }

  predicate IsProgress(k: Kind) {
    || k.HTTPConnectorActionSent?
  }

  predicate IsAdmin(k: Kind) {
    || k.TokenCreated? || k.TokenRevoked? || k.IdempotencyRecorded? || k.DeterministicErrorReported?
    || k.DeterministicErrorMasked? || k.DeterministicErrorUnmasked? || k.NodeRegistered?
    || k.NodeRouteUpdated? || k.CommandQueued? || k.CommandAcked?
  }

  datatype StaticClass = Static(cls: Class) | Dynamic | NoClass

  function StaticKindClass(k: Kind): (c: StaticClass) {
    if IsLifecycle(k) then Static(Lifecycle)
    else if k.WorkItemEventAppended? then Dynamic
    else if IsDecision(k) then Static(Decision)
    else if IsProgress(k) then Static(Progress)
    else if IsAdmin(k) then Static(Admin)
    else NoClass
  }

  /** Every known kind falls into exactly one of the five cases. */
  lemma TaxonomyTotal(k: Kind)
    ensures StaticKindClass(k).NoClass? <==> !Known(k)
    ensures Included(k) && !IsAdmin(k) <==> Known(k) && !IsAdmin(k)
  {
  }

  /** The unprojected feed shows every known kind but those of tokens, idempotency, nodes and commands. */
  lemma IncludedIff(k: Kind)
    ensures Included(k) <==> Known(k) && k !in {TokenCreated, TokenRevoked, IdempotencyRecorded,
                                                NodeRegistered, NodeRouteUpdated, CommandQueued, CommandAcked}
  {
  }

  // ------------------------------------------------------- dynamic classing

  datatype Text = Text(s: string) | Unreadable

  /** A string field of a payload struct: absent and null read as empty, other types do not decode. */
  function TextField(fields: map<string, Json>, name: string): (t: Text) {
    if name !in fields || fields[name].Null? then Text("")
    else if fields[name].Str? then Text(fields[name].s)
    else Unreadable
  }

  /** The class of a `work_item.event_appended` payload, from its inner kind. */
  function DynamicClass(payload: Json): (c: Class) {
    match payload
    case Obj(fields) =>
      var inner, kind := TextField(fields, "inner_kind"), TextField(fields, "kind");
      if inner.Unreadable? || kind.Unreadable? then Progress
      else
        var name := if Strings.TrimSpace(inner.s) != "" then Strings.TrimSpace(inner.s) else Strings.TrimSpace(kind.s);
        if "coordination." <= name then Decision else Progress
    case _ => Progress
  }

  function ClassifyItem(k: Kind, payload: Json): (c: Option<Class>) {
    match StaticKindClass(k)
    case Static(cls) => Some(cls)
    case Dynamic => Some(DynamicClass(payload))
    case NoClass => None
  }

  // ---------------------------------------------------------------- filters

  datatype Filter = Filter(kinds: seq<Kind>, classes: seq<Class>)

  predicate Matches(f: Filter, k: Kind, payload: Json) {
    k in f.kinds || (ClassifyItem(k, payload).Some? && ClassifyItem(k, payload).value in f.classes)
  }

  /** What `QueryKinds` adds for one known kind on behalf of the classes. */
  predicate AddedByClass(f: Filter, k: Kind) {
    match StaticKindClass(k)
    case Static(cls) => cls != Admin && cls in f.classes
    case Dynamic => Decision in f.classes || Progress in f.classes
    case NoClass => false
  }

  predicate QueriesKind(f: Filter, k: Kind) {
    k in f.kinds || AddedByClass(f, k)
  }

  predicate NoRepeats(kinds: seq<Kind>) {
    forall i, j :: 0 <= i < j < |kinds| ==> kinds[i] != kinds[j]
  }

  /** The first loop of `QueryKinds`: the listed kinds, once each. */
  method ListedKinds(listed: seq<Kind>) returns (kinds: seq<Kind>)
    ensures (forall k :: k in kinds <==> k in listed) && NoRepeats(kinds)
  {
    kinds := [];
    for n := 0 to |listed|
      invariant (forall k :: k in kinds <==> k in listed[..n]) && NoRepeats(kinds)
    {
      if listed[n] !in kinds {
        kinds := kinds + [listed[n]];
      }
      assert listed[..n + 1] == listed[..n] + [listed[n]];
    }
    assert listed[..|listed|] == listed;
  }

  /** The second loop of `QueryKinds`: the kinds a class of the filter asks for. */
  method ClassKinds(f: Filter, listed: seq<Kind>, all: seq<Kind>) returns (kinds: seq<Kind>)
    requires NoRepeats(listed)
    ensures (forall k :: k in kinds <==> k in listed || (k in all && AddedByClass(f, k))) && NoRepeats(kinds)
  {
    kinds := listed;
    for n := 0 to |all|
      invariant (forall k :: k in kinds <==> k in listed || (k in all[..n] && AddedByClass(f, k))) && NoRepeats(kinds)
    {
      if AddedByClass(f, all[n]) && all[n] !in kinds {
        kinds := kinds + [all[n]];
      }
      assert all[..n + 1] == all[..n] + [all[n]];
    }
    assert all[..|all|] == all;
  }

  /** `QueryKinds`: no kind twice, and exactly the queried kinds. */
  method QueryKinds(f: Filter) returns (kinds: seq<Kind>)
    ensures forall k :: k in kinds <==> QueriesKind(f, k)
    ensures NoRepeats(kinds)
  {
    var listed := ListedKinds(f.kinds);
    kinds := ClassKinds(f, listed, AllEventKinds);
    forall k ensures k in kinds <==> QueriesKind(f, k) {
      KnownKindsAreListed(k);
    }
  }

  datatype FilterError = EmptyFilter | UnknownKind | KindNotAllowed | UnknownKindClass | ClassNotAllowed

  datatype Normalized = Accepted(filter: Filter) | Refused(error: FilterError)

  predicate ProjectableKind(k: Kind) {
    !StaticKindClass(k).NoClass? && StaticKindClass(k) != Static(Admin)
  }

  function Dedupe<T(==, !new)>(s: seq<T>): (t: seq<T>)
    ensures forall x :: x in t <==> x in s
  {
    if s == [] then []
    else
      var rest := Dedupe(s[..|s| - 1]);
      assert s == s[..|s| - 1] + [s[|s| - 1]];
      if s[|s| - 1] in rest then rest else rest + [s[|s| - 1]]
  }

  function FirstKindError(kinds: seq<Kind>): (e: Option<FilterError>)
    ensures e.None? <==> forall k :: k in kinds ==> ProjectableKind(k)
  {
    if kinds == [] then None
    else if !Known(kinds[0]) then
      assert !ProjectableKind(kinds[0]); Some(UnknownKind)
    else if !ProjectableKind(kinds[0]) then Some(KindNotAllowed)
    else FirstKindError(kinds[1..])
  }

  function FirstClassError(classes: seq<Class>): (e: Option<FilterError>)
    ensures e.None? <==> forall c :: c in classes ==> !c.UnknownClass? && c != Admin
  {
    if classes == [] then None
    else if classes[0].UnknownClass? then Some(UnknownKindClass)
    else if classes[0] == Admin then Some(ClassNotAllowed)
    else FirstClassError(classes[1..])
  }

  /** `NormalizeProjectionFilter`, on names that are already trimmed and non-blank. */
  function NormalizeProjectionFilter(f: Filter): (n: Normalized) {
    var kinds, classes := Dedupe(f.kinds), Dedupe(f.classes);
    if kinds == [] && classes == [] then Refused(EmptyFilter)
    else if FirstKindError(kinds).Some? then Refused(FirstKindError(kinds).value)
    else if FirstClassError(classes).Some? then Refused(FirstClassError(classes).value)
    else Accepted(Filter(kinds, classes))
  }

  /** The kind prefilter may be used in front of a filter when it loses no match. */
  ghost predicate PrefilterComplete(f: Filter) {
    forall k, payload :: Matches(f, k, payload) ==> QueriesKind(f, k)
  }

  /**
    The kind prefilter loses no match exactly when the filter does not name the
    administrative class, unless it also lists every administrative kind.
   */
  lemma PrefilterCompleteIff(f: Filter)
    ensures PrefilterComplete(f) <==> (Admin in f.classes ==> forall k :: IsAdmin(k) ==> k in f.kinds)
  {
    forall k, payload: Json | Matches(f, k, payload) && k !in f.kinds && !(IsAdmin(k) && Admin in f.classes)
      ensures AddedByClass(f, k)
    {
    }
    if PrefilterComplete(f) && Admin in f.classes {
      forall k | IsAdmin(k) ensures k in f.kinds {
        assert Matches(f, k, Null);
      }
    }
  }

  /** Normalized filters refuse the administrative class, so their prefilter is complete, and they keep their meaning. */
  lemma NormalizedFilter(f: Filter)
    requires NormalizeProjectionFilter(f).Accepted?
    ensures var g := NormalizeProjectionFilter(f).filter;
            && PrefilterComplete(g)
            && (forall k, payload :: Matches(g, k, payload) <==> Matches(f, k, payload))
            && (forall k, payload :: Matches(g, k, payload) ==> Known(k) && !IsAdmin(k))
  {
    var g := NormalizeProjectionFilter(f).filter;
    PrefilterCompleteIff(g);
    forall k, payload | Matches(g, k, payload) ensures Known(k) && !IsAdmin(k) {
      if k in g.kinds {
        assert ProjectableKind(k);
      } else {
        ClassNotAdmin(k, payload);
      }
    }
  }

  lemma ClassNotAdmin(k: Kind, payload: Json)
    requires ClassifyItem(k, payload).Some? && ClassifyItem(k, payload).value != Admin
    ensures Known(k) && !IsAdmin(k)
  {
  }

  /** The payload reads so under a name: absent and null read as empty. */
  ghost predicate Reads(payload: Json, name: string, text: string) {
    && payload.Obj?
    && (if name in payload.fields && !payload.fields[name].Null? then payload.fields[name] == Str(text) else text == "")
  }

  /** The inner kind of an appended event: the one text, or the other when that is blank. */
  ghost function InnerName(inner: string, kind: string): (name: string) {
    if Strings.TrimSpace(inner) != "" then Strings.TrimSpace(inner) else Strings.TrimSpace(kind)
  }

  lemma ReadsField(payload: Json, name: string)
    requires payload.Obj?
    ensures TextField(payload.fields, name).Unreadable? <==> forall text :: !Reads(payload, name, text)
    ensures forall text :: Reads(payload, name, text) ==> TextField(payload.fields, name) == Text(text)
  {
    var t := TextField(payload.fields, name);
    if t.Text? {
      assert Reads(payload, name, t.s);
    }
  }

  /** An appended event is a decision when its inner kind is one of coordination, and progress otherwise. */
  lemma DynamicMeans(payload: Json, inner: string, kind: string)
    ensures ClassifyItem(WorkItemEventAppended, payload) in {Some(Decision), Some(Progress)}
    ensures Reads(payload, "inner_kind", inner) && Reads(payload, "kind", kind) ==>
              (ClassifyItem(WorkItemEventAppended, payload) == Some(Decision) <==> "coordination." <= InnerName(inner, kind))
    ensures (forall text :: !Reads(payload, "inner_kind", text)) || (forall text :: !Reads(payload, "kind", text)) ==>
              ClassifyItem(WorkItemEventAppended, payload) == Some(Progress)
  {
    if payload.Obj? {
      ReadsField(payload, "inner_kind");
      ReadsField(payload, "kind");
    }
  }

  lemma DedupeEmpty<T(!new)>(s: seq<T>)
    ensures Dedupe(s) == [] <==> s == []
  {
    if s != [] {
      assert s[0] in Dedupe(s);
    }
  }

  /** Neither unknown nor administrative. */
  ghost predicate PlainKinds(kinds: seq<Kind>) {
    forall k :: k in kinds ==> Known(k) && !IsAdmin(k)
  }

  ghost predicate PlainClasses(classes: seq<Class>) {
    forall c :: c in classes ==> c.Lifecycle? || c.Decision? || c.Progress?
  }

  lemma Projectable(k: Kind)
    ensures ProjectableKind(k) <==> Known(k) && !IsAdmin(k)
  {
  }

  lemma KindErrorIff(kinds: seq<Kind>)
    ensures FirstKindError(kinds).None? <==> PlainKinds(kinds)
  {
    forall k | k in kinds ensures ProjectableKind(k) <==> Known(k) && !IsAdmin(k) {
      Projectable(k);
    }
  }

  lemma ClassErrorIff(classes: seq<Class>)
    ensures FirstClassError(classes).None? <==> PlainClasses(classes)
  {
  }

  lemma SamePlain(f: Filter)
    ensures PlainKinds(Dedupe(f.kinds)) <==> PlainKinds(f.kinds)
    ensures PlainClasses(Dedupe(f.classes)) <==> PlainClasses(f.classes)
  {
  }

  /** A projection filter is accepted exactly when it names something, and nothing unknown or administrative. */
  lemma NormalizedIff(f: Filter)
    ensures NormalizeProjectionFilter(f).Accepted?
            <==> (f.kinds != [] || f.classes != []) && PlainKinds(f.kinds) && PlainClasses(f.classes)
  {
    DedupeEmpty(f.kinds);
    DedupeEmpty(f.classes);
    KindErrorIff(Dedupe(f.kinds));
    ClassErrorIff(Dedupe(f.classes));
    SamePlain(f);
  }
}
