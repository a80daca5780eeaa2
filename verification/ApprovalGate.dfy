/**
  Approval-gated side effects (internal/approvals/service.go,
  internal/httpconnector/service.go) as an interleaving of transactions.

  A connector write is requested together with an approval, decided by a human,
  moved to the outbox by `EnqueueApprovedWrite` and sent by `DispatchOnce`, each
  by any number of workers that may crash between any two of their steps.  Row
  locks hold from the step that takes them to the end of the transaction.

  `DispatchApproved` is the whole-run statement: every request sent for a write
  is preceded by a decision "approved", taken on the approval of that very
  action by a non-root human other than its requester.
 */
module ApprovalGate {
  import opened CanonicalJson
  import opened Options
  import opened WorkItems

  /** Where an idempotency scope belongs to: the scope names the route. */
  datatype Operation = Connector | PlainApproval

  datatype Identity = Identity(token: nat, operation: Operation, key: string, hash: seq<Byte>)

  /** `newSubjectID`: derived from the request identity and a label, or a random UUID. */
  datatype Id = Derived(identity: Identity, role: string) | Random(n: nat)

  const ACTION_LABEL: string := "http_connector_action"
  const APPROVAL_LABEL: string := "approval"

  datatype Source = Human | Agent | System

  datatype Token = Token(id: nat, root: bool, source: Source)

  // ------------------------------------------------------------------- rows

  /** What a human is shown: the connector's description of the write, or any other request. */
  datatype Shown = ForAction(action: Id, verb: string, url: string, request: Json) | Plain(request: Json)

  datatype ApprovalStatus = Pending | Approved | Denied | Expired

  datatype Approval = Approval(workItem: nat, request: Shown, requestedBy: nat, status: ApprovalStatus, decidedBy: Option<nat>)

  datatype ActionStatus = Requested | Awaiting | ActionApproved | Sent

  datatype Content = Content(workItem: nat, write: bool, verb: string, url: string, request: Json,
                             approval: Option<Id>, requestedBy: nat)

  datatype Action = Action(content: Content, status: ActionStatus)

  datatype OutboxState = Ready | Leased(until: int) | Delivered

  /** The identity-bearing content of http_connector.action_approved: its event id is the outbox row's key. */
  datatype ApprovedEvent = ApprovedEvent(action: Id, content: Content)

  datatype Outgoing = Outgoing(action: Id, verb: string, url: string, request: Json)

  // ------------------------------------------------------------------ state

  datatype Phase =
    | Committed(action: Id)
    | Locked(action: Id)
    | Checked(action: Id)
    | Claimed(event: ApprovedEvent)
    | Sending(action: Id, row: Content, delivery: Option<ApprovedEvent>)
    | Answered(action: Id, delivery: Option<ApprovedEvent>)
    | Appended(delivery: Option<ApprovedEvent>)

  datatype State = State(
    clock: int,
    items: map<nat, WorkItemState>,
    approvals: map<Id, Approval>,
    actions: map<Id, Action>,
    events: set<ApprovedEvent>,
    outbox: map<ApprovedEvent, OutboxState>,
    locks: map<Id, nat>,
    workers: map<nat, Phase>,
    minted: set<nat>,
    sent: seq<Outgoing>)

  /** What `normalizeRequest` lets through. */
  datatype Input = Input(write: bool, verb: string, url: string, request: Json)

  predicate Normalized(i: Input) {
    if i.write then i.verb in ["POST", "PUT", "PATCH", "DELETE"] else i.verb in ["GET", "HEAD"]
  }

  /** How `rawJSON` reads the request back into a Go value, as a function on JSON values. */
  type Reading = Json -> Json

  datatype Step =
    | Request(w: nat, identity: Option<Identity>, n: nat, m: nat, actor: Token, workItem: nat, input: Input)
    | Create(identity: Option<Identity>, n: nat, actor: Token, workItem: nat, request: Json)
    | Decide(actor: Token, approval: Id, decision: ApprovalStatus)
    | Expire(actor: Token, approval: Id)
    | LockAction(w: nat, action: Id)
    | ReadApproval(w: nat)
    | CommitApproved(w: nat)
    | ClaimOutbox(w: nat, event: ApprovedEvent, lease: nat)
    | LoadClaimed(w: nat)
    | LoadRequested(w: nat)
    | Send(w: nat, answered: bool)
    | AppendSent(w: nat)
    | MarkSent(w: nat)
    | Crash(w: nat)
    | Tick(elapsed: nat)
    | MoveItem(workItem: nat, state: WorkItemState)

  function IdFor(identity: Option<Identity>, role: string, n: nat): (id: Id) {
    match identity
    case Some(i) => Derived(i, role)
    case None => Random(n)
  }

  /** An identity belongs to the token and the route of the request; a random UUID was never minted before. */
  predicate Addressed(s: State, identity: Option<Identity>, operation: Operation, actor: Token, ns: set<nat>) {
    match identity
    case Some(i) => i.token == actor.id && i.operation == operation
    case None => ns !! s.minted
  }

  predicate Enabled(s: State, step: Step) {
    match step
    case Request(w, identity, n, m, actor, _, input) =>
      w !in s.workers && n != m && Addressed(s, identity, Connector, actor, {n, m}) && Normalized(input)
    case Create(identity, n, actor, _, _) => Addressed(s, identity, PlainApproval, actor, {n})
    case Decide(_, _, _) => true
    case Expire(_, _) => true
    case LockAction(w, action) => w !in s.workers && action in s.actions && action !in s.locks
    case ReadApproval(w) => w in s.workers && s.workers[w].Locked?
    case CommitApproved(w) => w in s.workers && s.workers[w].Checked?
    case ClaimOutbox(w, event, _) =>
      && w !in s.workers && event in s.outbox
      && (s.outbox[event].Ready? || (s.outbox[event].Leased? && s.outbox[event].until <= s.clock))
    case LoadClaimed(w) => w in s.workers && s.workers[w].Claimed? && s.workers[w].event.action in s.actions
    case LoadRequested(w) => w in s.workers && s.workers[w].Committed? && s.workers[w].action in s.actions
    case Send(w, _) => w in s.workers && s.workers[w].Sending?
    case AppendSent(w) => w in s.workers && s.workers[w].Answered? && s.workers[w].action !in s.locks
    case MarkSent(w) => w in s.workers && s.workers[w].Appended?
    case Crash(w) => w in s.workers
    case Tick(_) => true
    case MoveItem(_, _) => true
  }

  // ------------------------------------------------------------- operations

  /** A worker is through with its call, or has failed; its locks are released. */
  function Finish(s: State, w: nat): (t: State) {
    s.(workers := s.workers - {w}, locks := map a | a in s.locks && s.locks[a] != w :: s.locks[a])
  }

  function Enter(s: State, w: nat, p: Phase): (t: State) {
    s.(workers := s.workers[w := p])
  }

  /** `ON CONFLICT (id) DO NOTHING`. */
  function Insert<K, V>(m: map<K, V>, k: K, v: V): (r: map<K, V>) {
    if k in m then m else m[k := v]
  }

  function ContentOf(read: Reading, input: Input, workItem: nat, approval: Id, actor: Token): (c: Content) {
    Content(workItem, input.write, input.verb, input.url, read(input.request),
            if input.write then Some(approval) else None, actor.id)
  }

  /** The transaction of `Request`: the approval and its action commit together. */
  function DoRequest(read: Reading, s: State, step: Step): (t: State)
    requires step.Request?
  {
    if step.workItem !in s.items || Terminal(s.items[step.workItem]) then s
    else
      var action := IdFor(step.identity, ACTION_LABEL, step.n);
      var approval := IdFor(step.identity, APPROVAL_LABEL, step.m);
      var input := step.input;
      var content := ContentOf(read, input, step.workItem, approval, step.actor);
      var shown := ForAction(action, input.verb, input.url, input.request);
      var row := Approval(step.workItem, shown, step.actor.id, Pending, None);
      s.(approvals := if input.write then Insert(s.approvals, approval, row) else s.approvals,
         items := if input.write then s.items[step.workItem := AwaitingApproval] else s.items,
         actions := Insert(s.actions, action, Action(content, if input.write then Awaiting else Requested)),
         minted := s.minted + {step.n, step.m},
         workers := s.workers[step.w := Committed(action)])
  }

  /** `approvals.Create` on its own. */
  function DoCreate(s: State, step: Step): (t: State)
    requires step.Create?
  {
    if step.workItem !in s.items || Terminal(s.items[step.workItem]) then s
    else
      var row := Approval(step.workItem, Plain(step.request), step.actor.id, Pending, None);
      s.(approvals := Insert(s.approvals, IdFor(step.identity, APPROVAL_LABEL, step.n), row),
         items := s.items[step.workItem := AwaitingApproval],
         minted := s.minted + {step.n})
  }

  /** Whether `Decide` gets past its checks to the decided event. */
  predicate Decides(s: State, actor: Token, approval: Id, decision: ApprovalStatus) {
    && !actor.root && actor.source == Human
    && (decision.Approved? || decision.Denied?)
    && approval in s.approvals
    && s.approvals[approval].requestedBy != actor.id
    && s.approvals[approval].status.Pending?
    && CanMove(s, s.approvals[approval].workItem, if decision.Approved? then Running else Failed)
  }

  /** `appendApprovalTransition` refuses to move a terminal or missing item, which rolls the decision back. */
  predicate CanMove(s: State, workItem: nat, to: WorkItemState) {
    workItem in s.items && CanTransition(s.items[workItem], to)
  }

  function Close(s: State, approval: Id, status: ApprovalStatus, decider: nat, to: WorkItemState): (t: State)
    requires approval in s.approvals
  {
    var row := s.approvals[approval];
    s.(approvals := s.approvals[approval := row.(status := status, decidedBy := Some(decider))],
       items := s.items[row.workItem := to])
  }

  function DoDecide(s: State, actor: Token, approval: Id, decision: ApprovalStatus): (t: State) {
    if Decides(s, actor, approval, decision)
    then Close(s, approval, decision, actor.id, if decision.Approved? then Running else Failed)
    else s
  }

  function DoExpire(s: State, actor: Token, approval: Id): (t: State) {
    if approval in s.approvals && s.approvals[approval].status.Pending? && CanMove(s, s.approvals[approval].workItem, Blocked)
    then Close(s, approval, Expired, actor.id, Blocked)
    else s
  }

  /** `EnqueueApprovedWrite` up to the locked row: reads, and writes already approved or sent, are through. */
  function DoLock(s: State, w: nat, action: Id): (t: State)
    requires action in s.actions
  {
    var row := s.actions[action];
    if !row.content.write || row.status.Sent? || row.status.ActionApproved? || row.content.approval.None? then s
    else Enter(s.(locks := s.locks[action := w]), w, Locked(action))
  }

  /** The approval is read outside the transaction that holds the action row. */
  function DoReadApproval(s: State, w: nat): (t: State)
    requires w in s.workers && s.workers[w].Locked?
  {
    var action := s.workers[w].action;
    if action !in s.actions || s.actions[action].content.approval.None? then Finish(s, w)
    else
      var approval := s.actions[action].content.approval.value;
      if approval in s.approvals && s.approvals[approval].status.Approved?
      then Enter(s, w, Checked(action))
      else Finish(s, w)
  }

  /** The action_approved event: a collapsed one runs no projector. */
  function DoCommitApproved(s: State, w: nat): (t: State)
    requires w in s.workers && s.workers[w].Checked?
  {
    var action := s.workers[w].action;
    if action !in s.actions then Finish(s, w)
    else
      var row := s.actions[action];
      var event := ApprovedEvent(action, row.content);
      if event in s.events then Finish(s, w)
      else Finish(s.(events := s.events + {event},
                     actions := s.actions[action := row.(status := if row.status.Sent? then Sent else ActionApproved)],
                     outbox := Insert(s.outbox, event, Ready)), w)
  }

  function DoClaim(s: State, w: nat, event: ApprovedEvent, lease: nat): (t: State) {
    Enter(s.(outbox := s.outbox[event := Leased(s.clock + lease)]), w, Claimed(event))
  }

  function DoLoadClaimed(s: State, w: nat): (t: State)
    requires w in s.workers && s.workers[w].Claimed? && s.workers[w].event.action in s.actions
  {
    var event := s.workers[w].event;
    Enter(s, w, Sending(event.action, s.actions[event.action].content, Some(event)))
  }

  /** `Request` executes what it finds in the row, and only a read. */
  function DoLoadRequested(s: State, w: nat): (t: State)
    requires w in s.workers && s.workers[w].Committed? && s.workers[w].action in s.actions
  {
    var action := s.workers[w].action;
    if s.actions[action].content.write then Finish(s, w)
    else Enter(s, w, Sending(action, s.actions[action].content, None))
  }

  function DoSend(s: State, w: nat, answered: bool): (t: State)
    requires w in s.workers && s.workers[w].Sending?
  {
    var p := s.workers[w];
    var out := s.(sent := s.sent + [Outgoing(p.action, p.row.verb, p.row.url, p.row.request)]);
    if answered then Enter(out, w, Answered(p.action, p.delivery)) else Finish(out, w)
  }

  function DoAppendSent(s: State, w: nat): (t: State)
    requires w in s.workers && s.workers[w].Answered?
  {
    var p := s.workers[w];
    var actions := if p.action in s.actions then s.actions[p.action := s.actions[p.action].(status := Sent)] else s.actions;
    Enter(s.(actions := actions), w, Appended(p.delivery))
  }

  function DoMarkSent(s: State, w: nat): (t: State)
    requires w in s.workers && s.workers[w].Appended?
  {
    var event := s.workers[w].delivery;
    Finish(if event.Some? && event.value in s.outbox then s.(outbox := s.outbox[event.value := Delivered]) else s, w)
  }

  function Do(read: Reading, s: State, step: Step): (t: State)
    requires Enabled(s, step)
  {
    match step
    case Request(_, _, _, _, _, _, _) => DoRequest(read, s, step)
    case Create(_, _, _, _, _) => DoCreate(s, step)
    case Decide(actor, approval, decision) => DoDecide(s, actor, approval, decision)
    case Expire(actor, approval) => DoExpire(s, actor, approval)
    case LockAction(w, action) => DoLock(s, w, action)
    case ReadApproval(w) => DoReadApproval(s, w)
    case CommitApproved(w) => DoCommitApproved(s, w)
    case ClaimOutbox(w, event, lease) => DoClaim(s, w, event, lease)
    case LoadClaimed(w) => DoLoadClaimed(s, w)
    case LoadRequested(w) => DoLoadRequested(s, w)
    case Send(w, answered) => DoSend(s, w, answered)
    case AppendSent(w) => DoAppendSent(s, w)
    case MarkSent(w) => DoMarkSent(s, w)
    case Crash(w) => Finish(s, w)
    case Tick(elapsed) => s.(clock := s.clock + elapsed)
    case MoveItem(workItem, state) => s.(items := s.items[workItem := state])
  }

  // ------------------------------------------------------------- invariants

  /** A write action's approval shows that action, was asked for by its requester, and is the only source of its fields. */
  predicate Gated(read: Reading, s: State, a: Id)
    requires a in s.actions
  {
    var c := s.actions[a].content;
    if !c.write then c.verb in ["GET", "HEAD"]
    else
      && c.approval.Some? && c.approval.value in s.approvals
      && var p := s.approvals[c.approval.value];
      && p.requestedBy == c.requestedBy
      && p.request.ForAction? && p.request.action == a
      && p.request.verb == c.verb && p.request.url == c.url
      && c.request == read(p.request.request)
  }

  predicate IsApproved(s: State, a: Id)
    requires a in s.actions
  {
    var c := s.actions[a].content;
    c.write && c.approval.Some? && c.approval.value in s.approvals && s.approvals[c.approval.value].status.Approved?
  }

  /** A derived connector approval exists only together with its action; random ids are remembered. */
  predicate Paired(s: State) {
    && (forall p :: p in s.approvals && p.Derived? && p.identity.operation.Connector? ==>
          Derived(p.identity, ACTION_LABEL) in s.actions)
    && (forall p :: p in s.approvals && p.Random? ==> p.n in s.minted)
    && (forall a :: a in s.actions && a.Random? ==> a.n in s.minted)
    && (forall a :: a in s.actions ==> a.Derived? ==> a.role == ACTION_LABEL)
    && (forall p :: p in s.approvals ==> p.Derived? ==> p.role == APPROVAL_LABEL)
  }

  /** An approved event describes its action, whose status shows it and whose approval was given. */
  predicate Backed(s: State, e: ApprovedEvent) {
    && e.action in s.actions && e.content == s.actions[e.action].content
    && (s.actions[e.action].status.ActionApproved? || s.actions[e.action].status.Sent?)
    && IsApproved(s, e.action)
  }

  predicate EventOf(s: State, event: Option<ApprovedEvent>, a: Id) {
    if event.Some? then event.value in s.events && event.value.action == a
    else a in s.actions && !s.actions[a].content.write
  }

  predicate WorkerOk(s: State, w: nat)
    requires w in s.workers
  {
    match s.workers[w]
    case Committed(a) => a in s.actions
    case Locked(a) => Holds(s, w, a)
    case Checked(a) => Holds(s, w, a) && IsApproved(s, a)
    case Claimed(e) => e in s.events
    case Sending(a, row, e) => EventOf(s, e, a) && a in s.actions && row == s.actions[a].content
    case Answered(a, e) => EventOf(s, e, a)
    case Appended(e) => true
  }

  /** The worker holds the row of a write that was neither approved nor sent when it was locked. */
  predicate Holds(s: State, w: nat, a: Id) {
    && a in s.locks && s.locks[a] == w
    && a in s.actions && s.actions[a].content.write && s.actions[a].status.Awaiting?
  }

  /**
    What a step keeps of the rows the gate depends on: actions stay with their
    content, events stay, and approvals stay with what they show and, once
    decided, with their decision.
   */
  predicate Keeps(s: State, t: State) {
    && (forall a :: a in s.actions ==> a in t.actions && t.actions[a].content == s.actions[a].content)
    && (forall p :: p in s.approvals ==> p in t.approvals && KeepsApproval(s.approvals[p], t.approvals[p]))
    && s.events <= t.events
  }

  /** An approval leaves pending at most once and is fixed from then on. */
  predicate KeepsApproval(p: Approval, q: Approval) {
    && q.request == p.request && q.requestedBy == p.requestedBy && q.workItem == p.workItem
    && (!p.status.Pending? ==> q == p)
  }

  lemma RequestKeeps(read: Reading, s: State, step: Step)
    requires step.Request?
    ensures Keeps(s, DoRequest(read, s, step))
  {
  }

  lemma CreateKeeps(s: State, step: Step)
    requires step.Create?
    ensures Keeps(s, DoCreate(s, step))
  {
  }

  lemma CloseKeeps(s: State, approval: Id, status: ApprovalStatus, decider: nat, to: WorkItemState)
    requires approval in s.approvals && s.approvals[approval].status.Pending?
    ensures Keeps(s, Close(s, approval, status, decider, to))
  {
  }

  lemma CommitKeeps(s: State, w: nat)
    requires w in s.workers && s.workers[w].Checked?
    ensures Keeps(s, DoCommitApproved(s, w))
  {
  }

  lemma AppendKeeps(s: State, w: nat)
    requires w in s.workers && s.workers[w].Answered?
    ensures Keeps(s, DoAppendSent(s, w))
  {
  }

  /** Steps that change neither approvals, actions nor events. */
  predicate SameRows(s: State, t: State) {
    t.approvals == s.approvals && t.actions == s.actions && t.events == s.events
  }

  predicate Bookkeeping(step: Step) {
    !(step.Request? || step.Create? || step.Decide? || step.Expire? || step.CommitApproved? || step.AppendSent?)
  }

  lemma FinishSame(s: State, w: nat)
    ensures SameRows(s, Finish(s, w))
  {
  }

  lemma WaitingSame(s: State, w: nat)
    requires w in s.workers
    ensures s.workers[w].Locked? ==> SameRows(s, DoReadApproval(s, w))
    ensures s.workers[w].Sending? ==> forall answered :: SameRows(s, DoSend(s, w, answered))
    ensures s.workers[w].Appended? ==> SameRows(s, DoMarkSent(s, w))
  {
  }

  lemma LoadingSame(s: State, w: nat)
    requires w in s.workers
    ensures s.workers[w].Claimed? && s.workers[w].event.action in s.actions ==> SameRows(s, DoLoadClaimed(s, w))
    ensures s.workers[w].Committed? && s.workers[w].action in s.actions ==> SameRows(s, DoLoadRequested(s, w))
  {
  }

  lemma BookkeepingSame(read: Reading, s: State, step: Step)
    requires Enabled(s, step) && Bookkeeping(step)
    ensures SameRows(s, Do(read, s, step))
  {
    match step
    case LockAction(_, _) =>
    case ReadApproval(w) => WaitingSame(s, w);
    case ClaimOutbox(_, _, _) =>
    case LoadClaimed(w) => LoadingSame(s, w);
    case LoadRequested(w) => LoadingSame(s, w);
    case Send(w, _) => WaitingSame(s, w);
    case MarkSent(w) => WaitingSame(s, w);
    case Crash(w) => FinishSame(s, w);
    case Tick(_) =>
    case MoveItem(_, _) =>
  }

  lemma StepKeeps(read: Reading, s: State, step: Step)
    requires Enabled(s, step)
    ensures Keeps(s, Do(read, s, step))
  {
    if Bookkeeping(step) {
      BookkeepingSame(read, s, step);
    } else {
      match step
      case Request(_, _, _, _, _, _, _) => RequestKeeps(read, s, step);
      case Create(_, _, _, _, _) => CreateKeeps(s, step);
      case Decide(actor, approval, decision) =>
        if Decides(s, actor, approval, decision) {
          CloseKeeps(s, approval, decision, actor.id, if decision.Approved? then Running else Failed);
        }
      case Expire(actor, approval) =>
        if DoExpire(s, actor, approval) != s {
          CloseKeeps(s, approval, Expired, actor.id, Blocked);
        }
      case CommitApproved(w) => CommitKeeps(s, w);
      case AppendSent(w) => AppendKeeps(s, w);
    }
  }

  // ------------------------------------------------ the invariant, by parts

  predicate AllGated(read: Reading, s: State) {
    forall a :: a in s.actions ==> Gated(read, s, a)
  }

  predicate AllBacked(s: State) {
    && (forall e :: e in s.events ==> Backed(s, e))
    && (forall e :: e in s.outbox ==> e in s.events)
    && (forall a :: a in s.actions && s.actions[a].content.write && !s.actions[a].status.Awaiting? ==>
          ApprovedEvent(a, s.actions[a].content) in s.events)
  }

  predicate AllWorkersOk(s: State) {
    forall w :: w in s.workers ==> WorkerOk(s, w)
  }

  predicate Inv(read: Reading, s: State) {
    Paired(s) && AllGated(read, s) && AllBacked(s) && AllWorkersOk(s)
  }

  lemma PairedRequest(read: Reading, s: State, step: Step)
    requires Paired(s) && Enabled(s, step) && step.Request?
    ensures Paired(DoRequest(read, s, step))
  {
  }

  lemma PairedCreate(s: State, step: Step)
    requires Paired(s) && Enabled(s, step) && step.Create?
    ensures Paired(DoCreate(s, step))
  {
  }

  /** The same rows exist, whatever became of their contents. */
  predicate SameKeys(s: State, t: State) {
    t.approvals.Keys == s.approvals.Keys && t.actions.Keys == s.actions.Keys && t.minted == s.minted
  }

  lemma SameKeysIff(s: State, t: State, a: Id)
    requires SameKeys(s, t)
    ensures (a in t.actions <==> a in s.actions) && (a in t.approvals <==> a in s.approvals)
  {
    assert a in t.actions.Keys <==> a in s.actions.Keys;
    assert a in t.approvals.Keys <==> a in s.approvals.Keys;
  }

  lemma PairedSame(s: State, t: State)
    requires Paired(s) && SameKeys(s, t)
    ensures Paired(t)
  {
    assert forall p :: p in t.approvals <==> p in s.approvals.Keys;
    assert forall a :: a in t.actions <==> a in s.actions.Keys;
  }

  lemma CloseSameKeys(s: State, approval: Id, status: ApprovalStatus, decider: nat, to: WorkItemState)
    requires approval in s.approvals
    ensures SameKeys(s, Close(s, approval, status, decider, to))
  {
  }

  lemma WorkSameKeys(read: Reading, s: State, step: Step)
    requires Enabled(s, step) && Bookkeeping(step)
    ensures Do(read, s, step).minted == s.minted
  {
    match step
    case LockAction(_, _) =>
    case ReadApproval(_) =>
    case ClaimOutbox(_, _, _) =>
    case LoadClaimed(_) =>
    case LoadRequested(_) =>
    case Send(_, _) =>
    case MarkSent(_) =>
    case Crash(_) =>
    case Tick(_) =>
    case MoveItem(_, _) =>
  }

  lemma OthersSameKeys(read: Reading, s: State, step: Step)
    requires Enabled(s, step) && !step.Request? && !step.Create?
    ensures SameKeys(s, Do(read, s, step))
  {
    if Bookkeeping(step) {
      BookkeepingSame(read, s, step);
      WorkSameKeys(read, s, step);
    } else {
      match step
      case Decide(actor, approval, decision) =>
        if Decides(s, actor, approval, decision) {
          CloseSameKeys(s, approval, decision, actor.id, if decision.Approved? then Running else Failed);
        }
      case Expire(actor, approval) =>
        if DoExpire(s, actor, approval) != s {
          CloseSameKeys(s, approval, Expired, actor.id, Blocked);
        }
      case CommitApproved(w) =>
      case AppendSent(w) =>
    }
  }

  lemma PairedPreserved(read: Reading, s: State, step: Step)
    requires Inv(read, s) && Enabled(s, step)
    ensures Paired(Do(read, s, step))
  {
    if step.Request? {
      PairedRequest(read, s, step);
    } else if step.Create? {
      PairedCreate(s, step);
    } else {
      OthersSameKeys(read, s, step);
      PairedSame(s, Do(read, s, step));
    }
  }

  lemma GatedPreserved(read: Reading, s: State, step: Step)
    requires Inv(read, s) && Enabled(s, step)
    ensures AllGated(read, Do(read, s, step))
  {
    var t := Do(read, s, step);
    StepKeeps(read, s, step);
    forall a | a in t.actions ensures Gated(read, t, a) {
      if a in s.actions {
        GatedStays(read, s, t, a);
      } else {
        FreshActionGated(read, s, step, a);
      }
    }
  }

  lemma OnlyRequestsAdd(read: Reading, s: State, step: Step, a: Id)
    requires Enabled(s, step) && a in Do(read, s, step).actions && a !in s.actions
    ensures step.Request? && a == IdFor(step.identity, ACTION_LABEL, step.n)
  {
    if !step.Request? && !step.Create? {
      OthersSameKeys(read, s, step);
      SameKeysIff(s, Do(read, s, step), a);
    }
  }

  lemma RequestGated(read: Reading, s: State, step: Step, a: Id)
    requires Paired(s) && Enabled(s, step) && step.Request?
    requires a == IdFor(step.identity, ACTION_LABEL, step.n) && a !in s.actions && a in DoRequest(read, s, step).actions
    ensures Gated(read, DoRequest(read, s, step), a)
  {
    assert IdFor(step.identity, APPROVAL_LABEL, step.m) !in s.approvals;
  }

  /** Only a request adds an action, and the approval it names did not exist before. */
  lemma FreshActionGated(read: Reading, s: State, step: Step, a: Id)
    requires Inv(read, s) && Enabled(s, step)
    requires a in Do(read, s, step).actions && a !in s.actions
    ensures Gated(read, Do(read, s, step), a)
  {
    OnlyRequestsAdd(read, s, step, a);
    RequestGated(read, s, step, a);
  }

  /** Nothing is approved by a step that leaves events, outbox keys and action statuses alone or only adds actions. */
  predicate Quiet(s: State, t: State) {
    && t.events == s.events && t.outbox.Keys == s.outbox.Keys
    && forall a :: a in t.actions ==>
         if a in s.actions then t.actions[a].status == s.actions[a].status
         else t.actions[a].content.write ==> t.actions[a].status.Awaiting?
  }

  lemma BackedQuiet(s: State, t: State)
    requires AllBacked(s) && Keeps(s, t) && Quiet(s, t)
    ensures AllBacked(t)
  {
    forall e | e in t.events ensures Backed(t, e) {
      BackedStays(s, t, e);
    }
    assert forall e :: e in t.outbox <==> e in s.outbox.Keys;
  }

  lemma RequestQuiet(read: Reading, s: State, step: Step)
    requires step.Request?
    ensures Quiet(s, DoRequest(read, s, step))
  {
  }

  lemma SameQuiet(s: State, t: State)
    requires t.events == s.events && t.actions == s.actions && t.outbox.Keys == s.outbox.Keys
    ensures Quiet(s, t)
  {
  }

  lemma OthersQuiet(read: Reading, s: State, step: Step)
    requires Enabled(s, step) && !step.CommitApproved? && !step.AppendSent? && AllBacked(s)
    ensures Quiet(s, Do(read, s, step))
  {
    var t := Do(read, s, step);
    if Bookkeeping(step) {
      BookkeepingSame(read, s, step);
      BookkeepingOutbox(read, s, step);
      SameQuiet(s, t);
    } else {
      match step
      case Request(_, _, _, _, _, _, _) => RequestQuiet(read, s, step);
      case Create(_, _, _, _, _) => SameQuiet(s, t);
      case Decide(actor, approval, decision) => SameQuiet(s, t);
      case Expire(actor, approval) => SameQuiet(s, t);
    }
  }

  lemma BookkeepingOutbox(read: Reading, s: State, step: Step)
    requires Enabled(s, step) && Bookkeeping(step)
    ensures Do(read, s, step).outbox.Keys == s.outbox.Keys
  {
    match step
    case LockAction(_, _) =>
    case ReadApproval(_) =>
    case ClaimOutbox(_, _, _) =>
    case LoadClaimed(_) =>
    case LoadRequested(_) =>
    case Send(_, _) =>
    case MarkSent(_) =>
    case Crash(_) =>
    case Tick(_) =>
    case MoveItem(_, _) =>
  }

  lemma BackedCommit(s: State, w: nat)
    requires AllBacked(s) && w in s.workers && s.workers[w].Checked? && WorkerOk(s, w)
    ensures AllBacked(DoCommitApproved(s, w))
  {
    var t := DoCommitApproved(s, w);
    CommitKeeps(s, w);
    forall e | e in t.events ensures Backed(t, e) {
      if e in s.events {
        BackedStays(s, t, e);
      }
    }
  }

  lemma BackedAppend(s: State, w: nat)
    requires AllBacked(s) && w in s.workers && s.workers[w].Answered? && WorkerOk(s, w)
    ensures AllBacked(DoAppendSent(s, w))
  {
    var t := DoAppendSent(s, w);
    AppendKeeps(s, w);
    forall e | e in t.events ensures Backed(t, e) {
      BackedStays(s, t, e);
    }
    var p := s.workers[w];
    assert p.delivery.Some? ==> Backed(s, p.delivery.value);
  }

  lemma BackedPreserved(read: Reading, s: State, step: Step)
    requires Inv(read, s) && Enabled(s, step)
    ensures AllBacked(Do(read, s, step))
  {
    if step.CommitApproved? {
      assert WorkerOk(s, step.w);
      BackedCommit(s, step.w);
    } else if step.AppendSent? {
      assert WorkerOk(s, step.w);
      BackedAppend(s, step.w);
    } else {
      StepKeeps(read, s, step);
      OthersQuiet(read, s, step);
      BackedQuiet(s, Do(read, s, step));
    }
  }

  /** The worker is where it was, with its locks, and the rows it has locked have not moved. */
  predicate Undisturbed(s: State, t: State, w: nat) {
    && w in s.workers && w in t.workers && t.workers[w] == s.workers[w]
    && (forall a :: a in s.locks && s.locks[a] == w ==> a in t.locks && t.locks[a] == w)
    && (forall a :: a in s.locks && s.locks[a] == w && a in s.actions ==> a in t.actions && t.actions[a] == s.actions[a])
  }

  lemma WorkerStays(s: State, t: State, w: nat)
    requires Keeps(s, t) && Undisturbed(s, t, w) && WorkerOk(s, w)
    ensures WorkerOk(t, w)
  {
  }

  predicate ActsAs(step: Step, w: nat) {
    match step
    case Request(v, _, _, _, _, _, _) => v == w
    case LockAction(v, _) => v == w
    case ReadApproval(v) => v == w
    case CommitApproved(v) => v == w
    case ClaimOutbox(v, _, _) => v == w
    case LoadClaimed(v) => v == w
    case LoadRequested(v) => v == w
    case Send(v, _) => v == w
    case AppendSent(v) => v == w
    case MarkSent(v) => v == w
    case Crash(v) => v == w
    case _ => false
  }

  /** What ends a worker's call leaves the other workers and their locks alone. */
  lemma FinishUndisturbed(s: State, v: nat, w: nat)
    requires w in s.workers && v != w
    ensures Undisturbed(s, Finish(s, v), w)
  {
  }

  lemma CommitUndisturbed(s: State, v: nat, w: nat)
    requires v in s.workers && s.workers[v].Checked? && WorkerOk(s, v) && w in s.workers && v != w
    ensures Undisturbed(s, DoCommitApproved(s, v), w)
  {
  }

  lemma AppendUndisturbed(s: State, v: nat, w: nat)
    requires v in s.workers && s.workers[v].Answered? && s.workers[v].action !in s.locks && w in s.workers && v != w
    ensures Undisturbed(s, DoAppendSent(s, v), w)
  {
  }

  lemma WorkUndisturbed(read: Reading, s: State, step: Step, w: nat)
    requires Enabled(s, step) && w in s.workers && Bookkeeping(step) && !ActsAs(step, w)
    ensures Undisturbed(s, Do(read, s, step), w)
  {
    match step
    case LockAction(_, _) =>
    case ReadApproval(v) => FinishUndisturbed(s, v, w);
    case ClaimOutbox(_, _, _) =>
    case LoadClaimed(_) =>
    case LoadRequested(v) => FinishUndisturbed(s, v, w);
    case Send(v, _) =>
    case MarkSent(v) =>
    case Crash(v) => FinishUndisturbed(s, v, w);
    case Tick(_) =>
    case MoveItem(_, _) =>
  }

  lemma OthersUndisturbed(read: Reading, s: State, step: Step, w: nat)
    requires Enabled(s, step) && w in s.workers && !ActsAs(step, w)
    requires step.CommitApproved? ==> WorkerOk(s, step.w)
    ensures Undisturbed(s, Do(read, s, step), w)
  {
    if Bookkeeping(step) {
      WorkUndisturbed(read, s, step, w);
    } else {
      match step
      case Request(_, _, _, _, _, _, _) =>
      case Create(_, _, _, _, _) =>
      case Decide(_, _, _) =>
      case Expire(_, _) =>
      case CommitApproved(v) => CommitUndisturbed(s, v, w);
      case AppendSent(v) => AppendUndisturbed(s, v, w);
    }
  }

  lemma RequesterOk(read: Reading, s: State, step: Step)
    requires Enabled(s, step) && step.Request? && step.w in DoRequest(read, s, step).workers
    ensures WorkerOk(DoRequest(read, s, step), step.w)
  {
  }

  lemma LockerOk(read: Reading, s: State, w: nat, a: Id)
    requires Inv(read, s) && w !in s.workers && a in s.actions && w in DoLock(s, w, a).workers
    ensures WorkerOk(DoLock(s, w, a), w)
  {
    assert Gated(read, s, a);
    assert s.actions[a].status.Requested? ==> !s.actions[a].content.write || ApprovedEvent(a, s.actions[a].content) in s.events;
    assert ApprovedEvent(a, s.actions[a].content) in s.events ==> Backed(s, ApprovedEvent(a, s.actions[a].content));
  }

  lemma ClaimerOk(s: State, w: nat, event: ApprovedEvent, lease: nat)
    requires AllBacked(s) && event in s.outbox
    ensures WorkerOk(DoClaim(s, w, event, lease), w)
  {
  }

  lemma NobodyNewEnqueueing(s: State, w: nat)
    requires w in s.workers
    ensures Finish(s, w).workers.Keys <= s.workers.Keys
    ensures s.workers[w].Locked? ==> DoReadApproval(s, w).workers.Keys <= s.workers.Keys
    ensures s.workers[w].Checked? ==> DoCommitApproved(s, w).workers.Keys <= s.workers.Keys
  {
  }

  lemma NobodyNewDispatching(s: State, w: nat)
    requires w in s.workers
    ensures s.workers[w].Sending? ==> forall answered :: DoSend(s, w, answered).workers.Keys <= s.workers.Keys
    ensures s.workers[w].Answered? ==> DoAppendSent(s, w).workers.Keys <= s.workers.Keys
    ensures s.workers[w].Appended? ==> DoMarkSent(s, w).workers.Keys <= s.workers.Keys
  {
  }

  lemma NobodyNewLoading(s: State, w: nat)
    requires w in s.workers
    requires (s.workers[w].Claimed? && s.workers[w].event.action in s.actions)
             || (s.workers[w].Committed? && s.workers[w].action in s.actions)
    ensures (if s.workers[w].Claimed? then DoLoadClaimed(s, w) else DoLoadRequested(s, w)).workers.Keys <= s.workers.Keys
  {
  }

  lemma NobodyNew(read: Reading, s: State, step: Step, w: nat)
    requires Enabled(s, step) && !step.Request? && !step.LockAction? && !step.ClaimOutbox?
    ensures w in Do(read, s, step).workers.Keys ==> w in s.workers.Keys
  {
    match step
    case LoadClaimed(v) => NobodyNewLoading(s, v);
    case LoadRequested(v) => NobodyNewLoading(s, v);
    case ReadApproval(v) => NobodyNewEnqueueing(s, v);
    case CommitApproved(v) => NobodyNewEnqueueing(s, v);
    case Send(v, _) => NobodyNewDispatching(s, v);
    case AppendSent(v) => NobodyNewDispatching(s, v);
    case MarkSent(v) => NobodyNewDispatching(s, v);
    case Crash(v) => NobodyNewEnqueueing(s, v);
    case _ =>
  }

  /** Only three steps start a worker. */
  lemma Arrives(read: Reading, s: State, step: Step, w: nat)
    requires Enabled(s, step) && w !in s.workers && w in Do(read, s, step).workers
    ensures ActsAs(step, w) && (step.Request? || step.LockAction? || step.ClaimOutbox?)
  {
    if !step.Request? && !step.LockAction? && !step.ClaimOutbox? {
      NobodyNew(read, s, step, w);
    }
  }

  lemma ArriverOk(read: Reading, s: State, step: Step, w: nat)
    requires Inv(read, s) && Enabled(s, step) && w !in s.workers && w in Do(read, s, step).workers
    ensures WorkerOk(Do(read, s, step), w)
  {
    Arrives(read, s, step, w);
    if step.Request? {
      RequesterOk(read, s, step);
    } else if step.LockAction? {
      LockerOk(read, s, w, step.action);
    } else {
      ClaimerOk(s, w, step.event, step.lease);
    }
  }

  lemma ReaderOk(read: Reading, s: State, w: nat)
    requires AllGated(read, s) && w in s.workers && s.workers[w].Locked? && WorkerOk(s, w)
    requires w in DoReadApproval(s, w).workers
    ensures WorkerOk(DoReadApproval(s, w), w)
  {
    assert Gated(read, s, s.workers[w].action);
  }

  lemma LoaderOk(s: State, w: nat)
    requires AllBacked(s) && w in s.workers && WorkerOk(s, w)
    requires (s.workers[w].Claimed? && s.workers[w].event.action in s.actions)
             || (s.workers[w].Committed? && s.workers[w].action in s.actions)
    ensures var t := if s.workers[w].Claimed? then DoLoadClaimed(s, w) else DoLoadRequested(s, w);
            w in t.workers ==> WorkerOk(t, w)
  {
  }

  lemma SenderOk(s: State, w: nat, answered: bool)
    requires w in s.workers && s.workers[w].Sending? && WorkerOk(s, w)
    ensures var t := DoSend(s, w, answered); w in t.workers ==> WorkerOk(t, w)
  {
  }

  /** The acting worker's new phase is justified by its last one. */
  lemma MoverOk(read: Reading, s: State, step: Step, w: nat)
    requires Inv(read, s) && Enabled(s, step) && ActsAs(step, w) && w in s.workers && w in Do(read, s, step).workers
    ensures WorkerOk(Do(read, s, step), w)
  {
    assert WorkerOk(s, w);
    match step
    case ReadApproval(_) => ReaderOk(read, s, w);
    case LoadClaimed(_) => LoaderOk(s, w);
    case LoadRequested(_) => LoaderOk(s, w);
    case Send(_, answered) => SenderOk(s, w, answered);
    case AppendSent(_) =>
    case CommitApproved(_) =>
    case MarkSent(_) =>
    case Crash(_) =>
  }

  lemma WorkersPreserved(read: Reading, s: State, step: Step)
    requires Inv(read, s) && Enabled(s, step)
    ensures AllWorkersOk(Do(read, s, step))
  {
    var t := Do(read, s, step);
    StepKeeps(read, s, step);
    forall w | w in t.workers ensures WorkerOk(t, w) {
      if w !in s.workers {
        ArriverOk(read, s, step, w);
      } else if ActsAs(step, w) {
        MoverOk(read, s, step, w);
      } else {
        if step.CommitApproved? { assert WorkerOk(s, step.w); }
        OthersUndisturbed(read, s, step, w);
        WorkerStays(s, t, w);
      }
    }
  }

  lemma InvPreserved(read: Reading, s: State, step: Step)
    requires Inv(read, s) && Enabled(s, step)
    ensures Inv(read, Do(read, s, step))
  {
    PairedPreserved(read, s, step);
    GatedPreserved(read, s, step);
    BackedPreserved(read, s, step);
    WorkersPreserved(read, s, step);
  }

  lemma GatedStays(read: Reading, s: State, t: State, a: Id)
    requires Keeps(s, t) && a in s.actions && Gated(read, s, a)
    ensures Gated(read, t, a)
  {
  }

  lemma BackedStays(s: State, t: State, e: ApprovedEvent)
    requires Keeps(s, t) && Backed(s, e)
    requires !s.actions[e.action].status.Awaiting? && !s.actions[e.action].status.Requested? ==>
               t.actions[e.action].status.ActionApproved? || t.actions[e.action].status.Sent?
    ensures Backed(t, e)
  {
  }

  // ------------------------------------------------------------- whole runs

  /** Nothing has been requested yet; work items may exist. */
  predicate Initial(s: State) {
    && s.approvals == map[] && s.actions == map[] && s.events == {} && s.outbox == map[]
    && s.locks == map[] && s.workers == map[] && s.sent == []
  }

  ghost predicate IsRun(read: Reading, states: seq<State>, steps: seq<Step>) {
    && |states| == |steps| + 1 && Initial(states[0])
    && forall n :: 0 <= n < |steps| ==> Follows(read, states, steps, n)
  }

  ghost predicate Follows(read: Reading, states: seq<State>, steps: seq<Step>, n: nat)
    requires n < |steps| == |states| - 1
  {
    Enabled(states[n], steps[n]) && states[n + 1] == Do(read, states[n], steps[n])
  }

  lemma {:induction false} RunKeepsInv(read: Reading, states: seq<State>, steps: seq<Step>, n: nat)
    requires IsRun(read, states, steps) && n < |states|
    ensures Inv(read, states[n])
  {
    if n > 0 {
      RunKeepsInv(read, states, steps, n - 1);
      assert Follows(read, states, steps, n - 1);
      InvPreserved(read, states[n - 1], steps[n - 1]);
    }
  }

  lemma KeepsOnwards(s: State, t: State, u: State)
    requires Keeps(s, t) && Keeps(t, u)
    ensures Keeps(s, u)
  {
  }

  lemma RunStep(read: Reading, states: seq<State>, steps: seq<Step>, n: nat)
    requires IsRun(read, states, steps) && n < |steps|
    ensures Keeps(states[n], states[n + 1])
  {
    assert Follows(read, states, steps, n);
    StepKeeps(read, states[n], steps[n]);
  }

  lemma {:induction false} RunKeeps(read: Reading, states: seq<State>, steps: seq<Step>, i: nat, j: nat)
    requires IsRun(read, states, steps) && i <= j < |states|
    ensures Keeps(states[i], states[j])
    decreases j
  {
    if i < j {
      RunKeeps(read, states, steps, i, j - 1);
      RunStep(read, states, steps, j - 1);
      KeepsOnwards(states[i], states[j - 1], states[j]);
    } else {
      KeepsSelf(states[i]);
    }
  }

  lemma KeepsSelf(s: State)
    ensures Keeps(s, s)
  {
  }

  /** Once an approval has left pending it never changes again, and what it asks for never changes at all. */
  lemma ApprovalFinal(read: Reading, states: seq<State>, steps: seq<Step>, i: nat, j: nat, p: Id)
    requires IsRun(read, states, steps) && i <= j < |states| && p in states[i].approvals
    ensures p in states[j].approvals
    ensures !states[i].approvals[p].status.Pending? ==> states[j].approvals[p] == states[i].approvals[p]
    ensures states[j].approvals[p].request == states[i].approvals[p].request
  {
    RunKeeps(read, states, steps, i, j);
  }

  /** Each action has at most one outbox row, in every reachable state. */
  lemma OneOutboxRow(read: Reading, states: seq<State>, steps: seq<Step>, n: nat, e: ApprovedEvent, f: ApprovedEvent)
    requires IsRun(read, states, steps) && n < |states|
    requires e in states[n].outbox && f in states[n].outbox && e.action == f.action
    ensures e == f
  {
    RunKeepsInv(read, states, steps, n);
    assert Backed(states[n], e) && Backed(states[n], f);
  }

  /** Only a decision makes an approval approved. */
  lemma ApprovingStep(read: Reading, s: State, step: Step, p: Id)
    requires Enabled(s, step)
    requires p in Do(read, s, step).approvals && Do(read, s, step).approvals[p].status.Approved?
    requires p in s.approvals ==> !s.approvals[p].status.Approved?
    ensures step.Decide? && step.approval == p && step.decision.Approved? && Decides(s, step.actor, p, step.decision)
  {
    if Bookkeeping(step) {
      BookkeepingSame(read, s, step);
      assert false;
    }
  }

  lemma {:induction false} ApprovedByDecision(read: Reading, states: seq<State>, steps: seq<Step>, n: nat, p: Id)
    returns (m: nat)
    requires IsRun(read, states, steps) && n < |states|
    requires p in states[n].approvals && states[n].approvals[p].status.Approved?
    ensures m < n && steps[m].Decide? && steps[m].approval == p && steps[m].decision.Approved?
    ensures Decides(states[m], steps[m].actor, p, steps[m].decision)
  {
    if n > 0 { assert Follows(read, states, steps, n - 1); }
    if p in states[n - 1].approvals && states[n - 1].approvals[p].status.Approved? {
      m := ApprovedByDecision(read, states, steps, n - 1, p);
    } else {
      m := n - 1;
      ApprovingStep(read, states[m], steps[m], p);
    }
  }

  /** A decision taken in state s lets the request through: who decided, and what was shown. */
  predicate LetsThrough(read: Reading, s: State, decision: Step, p: Id, out: Outgoing, requester: nat) {
    && decision.Decide? && decision.approval == p && decision.decision.Approved?
    && !decision.actor.root && decision.actor.source.Human? && decision.actor.id != requester
    && p in s.approvals && s.approvals[p].status.Pending? && s.approvals[p].requestedBy == requester
    && var shown := s.approvals[p].request;
    && shown.ForAction? && shown.action == out.action && shown.verb == out.verb && shown.url == out.url
    && out.request == read(shown.request)
  }

  /** What a worker about to send is about to send. */
  lemma SendingIsApproved(read: Reading, s: State, w: nat)
    requires Inv(read, s) && w in s.workers && s.workers[w].Sending?
    ensures var p := s.workers[w];
            && p.action in s.actions && p.row == s.actions[p.action].content
            && (if p.row.write then IsApproved(s, p.action) && Gated(read, s, p.action) else p.row.verb in ["GET", "HEAD"])
  {
    var p := s.workers[w];
    assert WorkerOk(s, w) && Gated(read, s, p.action);
    assert p.delivery.Some? ==> Backed(s, p.delivery.value);
  }

  /**
    In every run, every request sent with a verb other than GET or HEAD was let
    through by an earlier decision: "approved", by a non-root human other than
    the requester, on a pending approval that showed this action with this verb,
    URL and body.
   */
  lemma DispatchApproved(read: Reading, states: seq<State>, steps: seq<Step>, n: nat)
    returns (m: nat, p: Id, out: Outgoing)
    requires IsRun(read, states, steps) && n < |steps| && steps[n].Send?
    ensures states[n + 1].sent == states[n].sent + [out]
    ensures out.action in states[n].actions
    ensures out.verb !in ["GET", "HEAD"] ==>
              m < n && LetsThrough(read, states[m], steps[m], p, out, states[n].actions[out.action].content.requestedBy)
  {
    RunKeepsInv(read, states, steps, n);
    assert Follows(read, states, steps, n);
    var phase := states[n].workers[steps[n].w];
    SendingIsApproved(read, states[n], steps[n].w);
    out := Outgoing(phase.action, phase.row.verb, phase.row.url, phase.row.request);
    m, p := 0, phase.action;
    if phase.row.write {
      p := phase.row.approval.value;
      m := ApprovedByDecision(read, states, steps, n, p);
      RunKeeps(read, states, steps, m, n);
    }
  }

  // ------------------------------------------------------------ the happy path

  /** The states passed through on the way from s to t. */
  ghost predicate Passes(read: Reading, states: seq<State>, s: State, steps: seq<Step>, t: State) {
    && |states| == |steps| + 1 && states[0] == s && states[|steps|] == t
    && forall n :: 0 <= n < |steps| ==> Follows(read, states, steps, n)
  }

  ghost predicate Leads(read: Reading, s: State, steps: seq<Step>, t: State) {
    exists states :: Passes(read, states, s, steps, t)
  }

  lemma LeadsOn(read: Reading, s: State, a: seq<Step>, t: State, b: seq<Step>, u: State)
    requires Leads(read, s, a, t) && Leads(read, t, b, u)
    ensures Leads(read, s, a + b, u)
  {
    var p :| Passes(read, p, s, a, t);
    var q :| Passes(read, q, t, b, u);
    var r := p + q[1..];
    forall n | 0 <= n < |a + b| ensures Follows(read, r, a + b, n) {
      if n < |a| {
        assert Follows(read, p, a, n);
      } else {
        assert Follows(read, q, b, n - |a|) && r[n] == q[n - |a|] && r[n + 1] == q[n - |a| + 1];
      }
    }
    assert Passes(read, r, s, a + b, u);
  }

  lemma ThreeParts(read: Reading, s: State, a: seq<Step>, t: State, b: seq<Step>, u: State, c: seq<Step>, v: State)
    requires Leads(read, s, a, t) && Leads(read, t, b, u) && Leads(read, u, c, v)
    ensures Leads(read, s, a + (b + c), v)
  {
    LeadsOn(read, t, b, u, c, v);
    LeadsOn(read, s, a, t, b + c, v);
  }

  lemma OneLeads(read: Reading, s: State, step: Step, t: State)
    requires Enabled(s, step) && t == Do(read, s, step)
    ensures Leads(read, s, [step], t)
  {
    assert Follows(read, [s, t], [step], 0);
    assert Passes(read, [s, t], s, [step], t);
  }

  lemma TwoLead(read: Reading, s: State, first: Step, m: State, second: Step, t: State)
    requires Enabled(s, first) && m == Do(read, s, first) && Enabled(m, second) && t == Do(read, m, second)
    ensures Leads(read, s, [first, second], t)
  {
    OneLeads(read, s, first, m);
    OneLeads(read, m, second, t);
    LeadsOn(read, s, [first], m, [second], t);
    assert [first] + [second] == [first, second];
  }

  /** One write, as it is asked for: who asks, for which item, and the two ids it is given. */
  datatype Write = Write(identity: Option<Identity>, n: nat, m: nat, actor: Token, workItem: nat, input: Input)

  function ActionOf(x: Write): (a: Id) {
    IdFor(x.identity, ACTION_LABEL, x.n)
  }

  function ApprovalOf(x: Write): (p: Id) {
    IdFor(x.identity, APPROVAL_LABEL, x.m)
  }

  function WriteContent(read: Reading, x: Write): (c: Content) {
    ContentOf(read, x.input, x.workItem, ApprovalOf(x), x.actor)
  }

  function OutgoingOf(read: Reading, x: Write): (out: Outgoing) {
    Outgoing(ActionOf(x), x.input.verb, x.input.url, read(x.input.request))
  }

  /** The write is requested and approved. */
  function Deciding(w: nat, x: Write, human: Token): (steps: seq<Step>) {
    [Request(w, x.identity, x.n, x.m, x.actor, x.workItem, x.input), LoadRequested(w)]
    + [Decide(human, ApprovalOf(x), Approved)]
  }

  /** It is moved to the outbox. */
  function Enqueueing(w: nat, x: Write): (steps: seq<Step>) {
    [LockAction(w, ActionOf(x)), ReadApproval(w)] + [CommitApproved(w)]
  }

  /** It is claimed, sent and marked. */
  function Dispatching(read: Reading, w: nat, x: Write, lease: nat): (steps: seq<Step>) {
    [ClaimOutbox(w, ApprovedEvent(ActionOf(x), WriteContent(read, x)), lease), LoadClaimed(w)]
    + ([Send(w, true)] + [AppendSent(w), MarkSent(w)])
  }

  /** A valid write of a fresh request on an open item. */
  predicate Requestable(s: State, x: Write) {
    && x.input.write && Normalized(x.input) && x.n != x.m
    && Addressed(s, x.identity, Connector, x.actor, {x.n, x.m})
    && x.workItem in s.items && !Terminal(s.items[x.workItem])
  }

  /** What a requested and decided write leaves in the tables. */
  function Decided(read: Reading, s: State, x: Write, human: Token): (t: State) {
    var shown := ForAction(ActionOf(x), x.input.verb, x.input.url, x.input.request);
    s.(approvals := map[ApprovalOf(x) := Approval(x.workItem, shown, x.actor.id, Approved, Some(human.id))],
       items := s.items[x.workItem := Running],
       actions := map[ActionOf(x) := Action(WriteContent(read, x), Awaiting)],
       minted := s.minted + {x.n, x.m})
  }

  /** What a requested write leaves in the tables. */
  function Asked(read: Reading, s: State, x: Write): (t: State) {
    var shown := ForAction(ActionOf(x), x.input.verb, x.input.url, x.input.request);
    s.(approvals := map[ApprovalOf(x) := Approval(x.workItem, shown, x.actor.id, Pending, None)],
       items := s.items[x.workItem := AwaitingApproval],
       actions := map[ActionOf(x) := Action(WriteContent(read, x), Awaiting)],
       minted := s.minted + {x.n, x.m})
  }

  lemma AskingLeads(read: Reading, s: State, w: nat, x: Write)
    requires Initial(s) && Requestable(s, x)
    ensures Leads(read, s, [Request(w, x.identity, x.n, x.m, x.actor, x.workItem, x.input), LoadRequested(w)], Asked(read, s, x))
  {
    var step := Request(w, x.identity, x.n, x.m, x.actor, x.workItem, x.input);
    var s1 := DoRequest(read, s, step);
    assert s1 == Asked(read, s, x).(workers := map[w := Committed(ActionOf(x))]);
    var t := Do(read, s1, LoadRequested(w));
    assert t.workers == map[] && t.locks == map[];
    TwoLead(read, s, step, s1, LoadRequested(w), t);
  }

  lemma DecisionLeads(read: Reading, s: State, x: Write, human: Token)
    requires x.workItem in s.items && !human.root && human.source == Human && human.id != x.actor.id
    ensures Leads(read, Asked(read, s, x), [Decide(human, ApprovalOf(x), Approved)], Decided(read, s, x, human))
  {
    var m := Asked(read, s, x);
    var t := Do(read, m, Decide(human, ApprovalOf(x), Approved));
    assert t.approvals == Decided(read, s, x, human).approvals && t.items == Decided(read, s, x, human).items;
    OneLeads(read, m, Decide(human, ApprovalOf(x), Approved), t);
  }

  lemma DecidingLeads(read: Reading, s: State, w: nat, x: Write, human: Token)
    requires Initial(s) && Requestable(s, x)
    requires !human.root && human.source == Human && human.id != x.actor.id
    ensures Leads(read, s, Deciding(w, x, human), Decided(read, s, x, human))
  {
    AskingLeads(read, s, w, x);
    DecisionLeads(read, s, x, human);
    LeadsOn(read, s, [Request(w, x.identity, x.n, x.m, x.actor, x.workItem, x.input), LoadRequested(w)], Asked(read, s, x),
            [Decide(human, ApprovalOf(x), Approved)], Decided(read, s, x, human));
  }

  /** What enqueueing an approved write leaves in the tables. */
  function Enqueued(read: Reading, s: State, x: Write): (t: State) {
    var event := ApprovedEvent(ActionOf(x), WriteContent(read, x));
    s.(events := {event}, outbox := map[event := Ready],
       actions := map[ActionOf(x) := Action(WriteContent(read, x), ActionApproved)])
  }

  /** A write whose approval has been checked under the lock of its row. */
  function Verified(s: State, w: nat, x: Write): (t: State) {
    s.(locks := map[ActionOf(x) := w], workers := map[w := Checked(ActionOf(x))])
  }

  lemma VerifyingLeads(read: Reading, s: State, w: nat, x: Write)
    requires s.workers == map[] && s.locks == map[] && x.input.write
    requires s.actions == map[ActionOf(x) := Action(WriteContent(read, x), Awaiting)]
    requires ApprovalOf(x) in s.approvals && s.approvals[ApprovalOf(x)].status.Approved?
    ensures Leads(read, s, [LockAction(w, ActionOf(x)), ReadApproval(w)], Verified(s, w, x))
  {
    var s1 := Do(read, s, LockAction(w, ActionOf(x)));
    assert s1 == s.(locks := map[ActionOf(x) := w], workers := map[w := Locked(ActionOf(x))]);
    var t := Do(read, s1, ReadApproval(w));
    assert t.workers == map[w := Checked(ActionOf(x))];
    TwoLead(read, s, LockAction(w, ActionOf(x)), s1, ReadApproval(w), t);
  }

  lemma CommittingLeads(read: Reading, s: State, w: nat, x: Write)
    requires s.workers == map[] && s.locks == map[] && s.events == {} && s.outbox == map[]
    requires s.actions == map[ActionOf(x) := Action(WriteContent(read, x), Awaiting)]
    ensures Leads(read, Verified(s, w, x), [CommitApproved(w)], Enqueued(read, s, x))
  {
    var m, goal := Verified(s, w, x), Enqueued(read, s, x);
    var t := Do(read, m, CommitApproved(w));
    assert t.workers == map[] && t.locks == map[] && t.events == goal.events;
    assert t.outbox == goal.outbox && t.actions == goal.actions;
    OneLeads(read, m, CommitApproved(w), t);
  }

  lemma EnqueueingLeads(read: Reading, s: State, w: nat, x: Write)
    requires s.workers == map[] && s.locks == map[] && s.events == {} && s.outbox == map[] && x.input.write
    requires s.actions == map[ActionOf(x) := Action(WriteContent(read, x), Awaiting)]
    requires ApprovalOf(x) in s.approvals && s.approvals[ApprovalOf(x)].status.Approved?
    ensures Leads(read, s, Enqueueing(w, x), Enqueued(read, s, x))
  {
    VerifyingLeads(read, s, w, x);
    CommittingLeads(read, s, w, x);
    LeadsOn(read, s, [LockAction(w, ActionOf(x)), ReadApproval(w)], Verified(s, w, x), [CommitApproved(w)], Enqueued(read, s, x));
  }

  /** A claimed write about to be sent. */
  function Loaded(read: Reading, s: State, w: nat, x: Write, until: int): (t: State) {
    var event := ApprovedEvent(ActionOf(x), WriteContent(read, x));
    s.(outbox := map[event := Leased(until)], workers := map[w := Sending(ActionOf(x), WriteContent(read, x), Some(event))])
  }

  /** A write that has been sent, with its answer still to be recorded. */
  function SentOut(read: Reading, s: State, w: nat, x: Write, until: int): (t: State) {
    var event := ApprovedEvent(ActionOf(x), WriteContent(read, x));
    s.(outbox := map[event := Leased(until)], workers := map[w := Answered(ActionOf(x), Some(event))],
       sent := s.sent + [OutgoingOf(read, x)])
  }

  /** What dispatching leaves in the tables. */
  function Dispatched(read: Reading, s: State, x: Write): (t: State) {
    s.(sent := s.sent + [OutgoingOf(read, x)],
       actions := map[ActionOf(x) := Action(WriteContent(read, x), Sent)],
       outbox := map[ApprovedEvent(ActionOf(x), WriteContent(read, x)) := Delivered])
  }

  lemma ClaimingLeads(read: Reading, s: State, w: nat, x: Write, lease: nat)
    requires s.workers == map[]
    requires s.actions == map[ActionOf(x) := Action(WriteContent(read, x), ActionApproved)]
    requires s.outbox == map[ApprovedEvent(ActionOf(x), WriteContent(read, x)) := Ready]
    ensures var event := ApprovedEvent(ActionOf(x), WriteContent(read, x));
            Leads(read, s, [ClaimOutbox(w, event, lease), LoadClaimed(w)], Loaded(read, s, w, x, s.clock + lease))
  {
    var event := ApprovedEvent(ActionOf(x), WriteContent(read, x));
    var s1 := DoClaim(s, w, event, lease);
    assert s1 == s.(outbox := map[event := Leased(s.clock + lease)], workers := map[w := Claimed(event)]);
    var s2 := DoLoadClaimed(s1, w);
    assert s2.workers == map[w := Sending(ActionOf(x), WriteContent(read, x), Some(event))];
    TwoLead(read, s, ClaimOutbox(w, event, lease), s1, LoadClaimed(w), s2);
  }

  lemma SendingLeads(read: Reading, s: State, w: nat, x: Write, until: int)
    ensures Leads(read, Loaded(read, s, w, x, until), [Send(w, true)], SentOut(read, s, w, x, until))
  {
    var m, t := Loaded(read, s, w, x, until), SentOut(read, s, w, x, until);
    assert m.workers[w := t.workers[w]] == t.workers;
    OneLeads(read, m, Send(w, true), t);
  }

  lemma MarkingLeads(read: Reading, s: State, w: nat, x: Write, until: int)
    requires s.workers == map[] && s.locks == map[]
    requires s.actions == map[ActionOf(x) := Action(WriteContent(read, x), ActionApproved)]
    ensures Leads(read, SentOut(read, s, w, x, until), [AppendSent(w), MarkSent(w)], Dispatched(read, s, x))
  {
    var m := SentOut(read, s, w, x, until);
    var s1 := Do(read, m, AppendSent(w));
    var t := Do(read, s1, MarkSent(w));
    assert t.workers == map[] && t.locks == map[];
    assert t.outbox == Dispatched(read, s, x).outbox && t.actions == Dispatched(read, s, x).actions;
    TwoLead(read, m, AppendSent(w), s1, MarkSent(w), t);
  }

  lemma DispatchingLeads(read: Reading, s: State, w: nat, x: Write, lease: nat)
    requires s.workers == map[] && s.locks == map[]
    requires s.actions == map[ActionOf(x) := Action(WriteContent(read, x), ActionApproved)]
    requires s.outbox == map[ApprovedEvent(ActionOf(x), WriteContent(read, x)) := Ready]
    ensures Leads(read, s, Dispatching(read, w, x, lease), Dispatched(read, s, x))
  {
    var event := ApprovedEvent(ActionOf(x), WriteContent(read, x));
    var until := s.clock + lease;
    ClaimingLeads(read, s, w, x, lease);
    SendingLeads(read, s, w, x, until);
    MarkingLeads(read, s, w, x, until);
    ThreeParts(read, s, [ClaimOutbox(w, event, lease), LoadClaimed(w)], Loaded(read, s, w, x, until),
               [Send(w, true)], SentOut(read, s, w, x, until), [AppendSent(w), MarkSent(w)], Dispatched(read, s, x));
  }

  /**
    The gate does open: a write that is requested, approved by a non-root human
    other than its requester, enqueued and dispatched is sent exactly once, with
    the verb, URL and body asked for, and is marked sent and delivered.
   */
  lemma ApprovedWriteIsSent(read: Reading, s: State, w: nat, x: Write, human: Token, lease: nat) returns (t: State)
    requires Initial(s) && Requestable(s, x)
    requires !human.root && human.source == Human && human.id != x.actor.id
    ensures Leads(read, s, Deciding(w, x, human) + (Enqueueing(w, x) + Dispatching(read, w, x, lease)), t)
    ensures t.sent == [OutgoingOf(read, x)]
    ensures t.actions == map[ActionOf(x) := Action(WriteContent(read, x), Sent)]
    ensures t.outbox == map[ApprovedEvent(ActionOf(x), WriteContent(read, x)) := Delivered]
  {
    var a := Decided(read, s, x, human);
    var b := Enqueued(read, a, x);
    t := Dispatched(read, b, x);
    DecidingLeads(read, s, w, x, human);
    EnqueueingLeads(read, a, w, x);
    DispatchingLeads(read, b, w, x, lease);
    ThreeParts(read, s, Deciding(w, x, human), a, Enqueueing(w, x), b, Dispatching(read, w, x, lease), t);
  }
}
