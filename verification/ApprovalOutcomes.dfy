/**
  What decisions, expiry, failed sends and leases come to
  (internal/approvals/service.go, internal/httpconnector/service.go), stated on
  the rows and over whole runs.

  `ClosedNeverSent` is the counterpart of the gate: once an approval has been
  denied or has expired, nothing is sent for the write that names it.
 */
module ApprovalOutcomes {
  import opened ApprovalGate
  import opened CanonicalJson
  import opened Options
  import opened WorkItems

  // --------------------------------------------------------------- decisions

  /** States a work item does not leave. */
  predicate Ended(state: WorkItemState) {
    state in [WorkItemState.Done, WorkItemState.Failed, WorkItemState.Canceled]
  }

  /** The rows after an approval was closed: its status and who closed it, and the state of its item. */
  ghost predicate ClosedRows(s: State, t: State, p: Id, status: ApprovalStatus, closer: nat, to: WorkItemState)
    requires p in s.approvals
  {
    var row := s.approvals[p];
    && t.approvals == s.approvals[p := Approval(row.workItem, row.request, row.requestedBy, status, Some(closer))]
    && t.items == s.items[row.workItem := to]
    && t.actions == s.actions && t.events == s.events && t.outbox == s.outbox && t.sent == s.sent
    && t.locks == s.locks && t.workers == s.workers && t.minted == s.minted && t.clock == s.clock
  }

  /** A pending approval on an item that is there. */
  predicate PendingOn(s: State, p: Id) {
    p in s.approvals && s.approvals[p].status == Pending && s.approvals[p].workItem in s.items
  }

  /** Where a decision sends the work item. */
  function Target(decision: ApprovalStatus): (to: WorkItemState) {
    if decision == Approved then Running else WorkItemState.Failed
  }

  /**
    A non-root human other than the requester closes a pending approval either
    way: approving sets the item running, denying fails it.  Everybody else, and
    everything else, changes nothing at all.
   */
  lemma DecisionCloses(read: Reading, s: State, actor: Token, p: Id, decision: ApprovalStatus)
    ensures var t := Do(read, s, Decide(actor, p, decision));
            if && !actor.root && actor.source == Human && (decision == Approved || decision == Denied)
               && PendingOn(s, p) && s.approvals[p].requestedBy != actor.id
               && (!Ended(s.items[s.approvals[p].workItem]) || s.items[s.approvals[p].workItem] == Target(decision))
            then ClosedRows(s, t, p, decision, actor.id, Target(decision))
            else t == s
  {
  }

  /** Anybody may expire a pending approval, which blocks its item; a closed one stays as it is. */
  lemma ExpiryCloses(read: Reading, s: State, actor: Token, p: Id)
    ensures var t := Do(read, s, Expire(actor, p));
            if PendingOn(s, p) && !Ended(s.items[s.approvals[p].workItem])
            then ClosedRows(s, t, p, Expired, actor.id, Blocked)
            else t == s
  {
  }

  /** An approval asked for on its own is pending, shows what was asked, and holds its item. */
  lemma PlainApprovalWaits(read: Reading, s: State, identity: Option<Identity>, n: nat, actor: Token, workItem: nat, request: Json)
    requires Enabled(s, Create(identity, n, actor, workItem, request))
    ensures var t := Do(read, s, Create(identity, n, actor, workItem, request));
            var p := IdFor(identity, APPROVAL_LABEL, n);
            if workItem !in s.items || Ended(s.items[workItem]) then t == s
            else
              && t.items == s.items[workItem := AwaitingApproval] && t.actions == s.actions && t.outbox == s.outbox
              && p in t.approvals
              && (p !in s.approvals ==> t.approvals == s.approvals[p := Approval(workItem, Plain(request), actor.id, Pending, None)])
              && (p in s.approvals ==> t.approvals == s.approvals)
  {
  }

  /** The worker about to send holds a write that names the approval. */
  predicate SendsFor(s: State, w: nat, p: Id) {
    && w in s.workers && s.workers[w].Sending? && s.workers[w].action in s.actions
    && s.actions[s.workers[w].action].content.write
    && s.actions[s.workers[w].action].content.approval == Some(p)
  }

  /** Once an approval is denied or expired, nothing goes out for the write that names it, for the rest of the run. */
  lemma ClosedNeverSent(read: Reading, states: seq<State>, steps: seq<Step>, i: nat, n: nat, p: Id)
    requires IsRun(read, states, steps) && i <= n < |steps| && steps[n].Send?
    requires p in states[i].approvals && states[i].approvals[p].status in [Denied, Expired]
    ensures !SendsFor(states[n], steps[n].w, p)
  {
    RunKeepsInv(read, states, steps, n);
    assert Follows(read, states, steps, n);
    ApprovalFinal(read, states, steps, i, n, p);
    SendingIsApproved(read, states[n], steps[n].w);
  }

  /** So a write that was denied while it was pending is never sent at all. */
  lemma DeniedNeverSent(read: Reading, states: seq<State>, steps: seq<Step>, i: nat, n: nat, actor: Token, p: Id)
    requires IsRun(read, states, steps) && i < n < |steps| && steps[n].Send? && steps[i] == Decide(actor, p, Denied)
    requires !actor.root && actor.source == Human && PendingOn(states[i], p) && states[i].approvals[p].requestedBy != actor.id
    requires !Ended(states[i].items[states[i].approvals[p].workItem])
    ensures !SendsFor(states[n], steps[n].w, p)
  {
    assert Follows(read, states, steps, i);
    DecisionCloses(read, states[i], actor, p, Denied);
    ClosedNeverSent(read, states, steps, i + 1, n, p);
  }

  // ------------------------------------------------------------------ leases

  /** A row is taken until then, or done with. */
  predicate TakenUntil(s: State, event: ApprovedEvent, until: int) {
    event in s.outbox && (s.outbox[event].Delivered? || (s.outbox[event].Leased? && s.outbox[event].until >= until))
  }

  lemma TakenStep(read: Reading, s: State, step: Step, event: ApprovedEvent, until: int)
    requires Enabled(s, step) && TakenUntil(s, event, until)
    ensures TakenUntil(Do(read, s, step), event, until)
    ensures step.ClaimOutbox? && step.event == event ==> s.outbox[event].Leased? && until <= s.clock
  {
  }

  lemma {:induction false} TakenOnwards(read: Reading, states: seq<State>, steps: seq<Step>, i: nat, j: nat, event: ApprovedEvent)
    requires IsRun(read, states, steps) && i < j < |states| && steps[i].ClaimOutbox? && steps[i].event == event
    ensures TakenUntil(states[j], event, states[i].clock + steps[i].lease)
    decreases j
  {
    assert Follows(read, states, steps, j - 1);
    if i < j - 1 {
      TakenOnwards(read, states, steps, i, j - 1, event);
      TakenStep(read, states[j - 1], steps[j - 1], event, states[i].clock + steps[i].lease);
    }
  }

  /** Two claims of one outbox row are at least the first lease apart, and a delivered row is never claimed. */
  lemma ClaimsSeparated(read: Reading, states: seq<State>, steps: seq<Step>, i: nat, j: nat, event: ApprovedEvent)
    requires IsRun(read, states, steps) && i < j < |steps|
    requires steps[i].ClaimOutbox? && steps[i].event == event && steps[j].ClaimOutbox? && steps[j].event == event
    ensures states[i].clock + steps[i].lease <= states[j].clock
    ensures event in states[j].outbox && states[j].outbox[event].Leased?
  {
    TakenOnwards(read, states, steps, i, j, event);
    assert Follows(read, states, steps, j);
    TakenStep(read, states[j], steps[j], event, states[i].clock + steps[i].lease);
  }

  /**
    A send that gets no answer, and a crash, leave the row leased and the action
    as it was, so that the write can be claimed again when the lease is over.
   */
  lemma AbandonedIsReclaimed(read: Reading, s: State, w: nat, v: nat, event: ApprovedEvent, elapsed: nat, lease: nat)
    requires w in s.workers && s.workers[w].Sending? && s.workers[w].delivery == Some(event) && v !in s.workers
    requires event in s.outbox && s.outbox[event].Leased? && s.outbox[event].until <= s.clock + elapsed
    ensures var t := Do(read, s, Send(w, false));
            && t.actions == s.actions && t.outbox == s.outbox && w !in t.workers
            && Enabled(Do(read, t, Tick(elapsed)), ClaimOutbox(v, event, lease))
    ensures var t := Do(read, s, Crash(w));
            && t.actions == s.actions && t.outbox == s.outbox && w !in t.workers
            && Enabled(Do(read, t, Tick(elapsed)), ClaimOutbox(v, event, lease))
  {
  }

  // ------------------------------------------------------------------- reads

  /** A read needs no approval: it is sent at once, as it was asked for, by the request itself. */
  lemma ReadIsSent(read: Reading, s: State, w: nat, x: Write) returns (t: State)
    requires Initial(s) && !x.input.write && Normalized(x.input) && x.n != x.m
    requires Addressed(s, x.identity, Connector, x.actor, {x.n, x.m}) && x.workItem in s.items && !Ended(s.items[x.workItem])
    ensures Leads(read, s, [Request(w, x.identity, x.n, x.m, x.actor, x.workItem, x.input), LoadRequested(w)]
                           + [Send(w, true), AppendSent(w)] + [MarkSent(w)], t)
    ensures t.sent == [Outgoing(ActionOf(x), x.input.verb, x.input.url, read(x.input.request))]
    ensures t.actions == map[ActionOf(x) := Action(WriteContent(read, x), Sent)]
    ensures WriteContent(read, x).approval == None && t.approvals == map[] && t.outbox == map[] && t.items == s.items
  {
    var request := Request(w, x.identity, x.n, x.m, x.actor, x.workItem, x.input);
    var content := WriteContent(read, x);
    var s1 := DoRequest(read, s, request);
    assert s1.workers == map[w := Committed(ActionOf(x))];
    var s2 := ReadLoaded(read, s, w, x, s1);
    TwoLead(read, s, request, s1, LoadRequested(w), s2);
    var s4 := ReadSent(read, w, x, s2);
    t := Do(read, s4, MarkSent(w));
    OneLeads(read, s4, MarkSent(w), t);
    LeadsOn(read, s, [request, LoadRequested(w)], s2, [Send(w, true), AppendSent(w)], s4);
    LeadsOn(read, s, [request, LoadRequested(w)] + [Send(w, true), AppendSent(w)], s4, [MarkSent(w)], t);
  }

  lemma ReadLoaded(read: Reading, s: State, w: nat, x: Write, s1: State) returns (t: State)
    requires !x.input.write && s1.workers == map[w := Committed(ActionOf(x))]
    requires s1.actions == map[ActionOf(x) := Action(WriteContent(read, x), Requested)]
    ensures Enabled(s1, LoadRequested(w)) && t == Do(read, s1, LoadRequested(w))
    ensures t == s1.(workers := map[w := Sending(ActionOf(x), WriteContent(read, x), None)])
  {
    t := Do(read, s1, LoadRequested(w));
    assert t.workers == map[w := Sending(ActionOf(x), WriteContent(read, x), None)];
  }

  lemma ReadSent(read: Reading, w: nat, x: Write, s: State) returns (t: State)
    requires s.workers == map[w := Sending(ActionOf(x), WriteContent(read, x), None)] && s.locks == map[]
    requires s.actions == map[ActionOf(x) := Action(WriteContent(read, x), Requested)]
    ensures Leads(read, s, [Send(w, true), AppendSent(w)], t)
    ensures t == s.(workers := map[w := Appended(None)], actions := map[ActionOf(x) := Action(WriteContent(read, x), Sent)],
                    sent := s.sent + [OutgoingOf(read, x)])
  {
    var s1 := Do(read, s, Send(w, true));
    assert s1.workers == map[w := Answered(ActionOf(x), None)];
    t := Do(read, s1, AppendSent(w));
    assert t.workers == map[w := Appended(None)];
    assert t.actions == map[ActionOf(x) := Action(WriteContent(read, x), Sent)];
    TwoLead(read, s, Send(w, true), s1, AppendSent(w), t);
  }

  /** A request on an item that is missing or has ended is refused: nothing is created. */
  lemma RequestRefused(read: Reading, s: State, step: Step)
    requires Enabled(s, step) && step.Request? && (step.workItem !in s.items || Ended(s.items[step.workItem]))
    ensures Do(read, s, step) == s
  {
  }

  /** What a write request leaves: its approval pending, its item held and its action waiting, unless they were there. */
  lemma WriteWaits(read: Reading, s: State, w: nat, x: Write)
    requires Enabled(s, Request(w, x.identity, x.n, x.m, x.actor, x.workItem, x.input)) && x.input.write
    requires x.workItem in s.items && !Ended(s.items[x.workItem])
    requires ActionOf(x) !in s.actions && ApprovalOf(x) !in s.approvals
    ensures var t := Do(read, s, Request(w, x.identity, x.n, x.m, x.actor, x.workItem, x.input));
            && t.approvals == s.approvals[ApprovalOf(x) :=
                 Approval(x.workItem, ForAction(ActionOf(x), x.input.verb, x.input.url, x.input.request), x.actor.id, Pending, None)]
            && t.actions == s.actions[ActionOf(x) :=
                 Action(Content(x.workItem, true, x.input.verb, x.input.url, read(x.input.request), Some(ApprovalOf(x)), x.actor.id),
                        Awaiting)]
            && t.items == s.items[x.workItem := AwaitingApproval] && t.outbox == s.outbox && t.sent == s.sent
  {
  }
}
