/**
  The durable idempotency protocol (internal/idempotency/middleware.go) as an
  interleaving of the database-visible steps of any number of requests.

  One request looks its key up, takes a session advisory lock, looks up again,
  runs its handler, records the response and reads the recorded row back.
  Database errors, handler errors, 5xx responses, lost commit acknowledgements
  and process crashes may happen at any step.  The lock key function is an
  arbitrary parameter, so unrelated keys may collide on one lock.

  `ReplayWindow` is the whole-run statement: while the recorded row of a key is
  unexpired, no handler runs for the key, the row never changes, and a request
  that had not been decided when the window opened is answered from the row.
 */
module IdempotencyProtocol {
  import opened CanonicalJson
  import opened Options

  /** The identity a cache row is keyed by: (token_id, scope, key). */
  datatype Key = Key(token: nat, scope: string, key: string)

  datatype Row = Row(hash: seq<Byte>, status: int, body: Json, expires: int)

  /** The content of an idempotency.recorded event; equal contents share one event id. */
  datatype Recording = Recording(key: Key, hash: seq<Byte>, status: int, body: Json)

  /** `Execute` (non-HTTP) and `Wrap` (HTTP middleware) differ in how they answer after recording. */
  datatype Surface = Execute | Wrap

  datatype Outcome =
    | Cached(status: int, body: Json)
    | Conflict
    | Own(ownStatus: int, ownBody: string)
    | ServerError(errStatus: int)
    | Unavailable
    | Failed
    | Crashed

  datatype Phase =
    | Arrived
    | Waiting
    | Holding
    | Running
    | Answered(status: int, body: string, override: Option<string>)
    | Recorded(novel: bool, status: int, body: string, override: Option<string>)
    | Leaving(outcome: Outcome)
    | Done(outcome: Outcome)

  datatype Request = Request(key: Key, hash: seq<Byte>, surface: Surface, phase: Phase)

  datatype State = State(
    clock: int,
    rows: map<Key, Row>,
    recordings: set<Recording>,
    locks: map<int, nat>,
    requests: map<nat, Request>)

  /** The advisory-lock key function and the JSON reading of a recorded body. */
  datatype Config = Config(lockKey: Key -> int, decode: string -> Json)

  const TTL := 86_400

  datatype Step =
    | Arrive(r: nat, key: Key, hash: seq<Byte>, surface: Surface)
    | FirstLookup(r: nat, ok: bool)
    | TakeLock(r: nat)
    | LockFails(r: nat)
    | SecondLookup(r: nat, ok: bool)
    | HandlerReturns(r: nat, status: int, body: string, override: Option<string>)
    | HandlerFails(r: nat)
    | Record(r: nat, occurredAt: int, committed: bool, acknowledged: bool)
    | FinalLookup(r: nat, ok: bool)
    | Release(r: nat)
    | Crash(r: nat)
    | Tick(elapsed: nat)

  // ---------------------------------------------------------------- lookups

  predicate Live(s: State, k: Key) {
    k in s.rows && s.clock < s.rows[k].expires
  }

  datatype LookupResult = Miss | Hit(row: Row) | Clash

  function Lookup(s: State, k: Key, hash: seq<Byte>): (l: LookupResult) {
    if !Live(s, k) then Miss
    else if s.rows[k].hash != hash then Clash
    else Hit(s.rows[k])
  }

  /** The answer a request is owed while a row is live. */
  function Answer(row: Row, hash: seq<Byte>): (o: Outcome) {
    if row.hash != hash then Conflict else Cached(row.status, row.body)
  }

  // ------------------------------------------------------------------ steps

  function SetPhase(s: State, r: nat, p: Phase): (t: State)
    requires r in s.requests
  {
    s.(requests := s.requests[r := s.requests[r].(phase := p)])
  }

  predicate Enabled(c: Config, s: State, step: Step) {
    match step
    case Arrive(r, _, _, _) => r !in s.requests
    case FirstLookup(r, _) => r in s.requests && s.requests[r].phase == Arrived
    case TakeLock(r) => r in s.requests && s.requests[r].phase == Waiting && c.lockKey(s.requests[r].key) !in s.locks
    case LockFails(r) => r in s.requests && s.requests[r].phase == Waiting
    case SecondLookup(r, _) => r in s.requests && s.requests[r].phase == Holding
    case HandlerReturns(r, _, _, _) => r in s.requests && s.requests[r].phase == Running
    case HandlerFails(r) => r in s.requests && s.requests[r].phase == Running
    case Record(r, at, _, _) => r in s.requests && s.requests[r].phase.Answered? && at <= s.clock
    case FinalLookup(r, _) => r in s.requests && s.requests[r].phase.Recorded?
    case Release(r) => r in s.requests && s.requests[r].phase.Leaving?
    case Crash(r) => r in s.requests && !s.requests[r].phase.Done?
    case Tick(_) => true
  }

  function RecordedBody(p: Phase): (b: string)
    requires p.Answered? || p.Recorded?
  {
    if p.override.Some? then p.override.value else p.body
  }

  function RecordingOf(c: Config, q: Request): (e: Recording)
    requires q.phase.Answered?
  {
    Recording(q.key, q.hash, q.phase.status, c.decode(RecordedBody(q.phase)))
  }

  /** The recording transaction: a collapsed event writes no row. */
  function Commit(c: Config, s: State, q: Request, occurredAt: int): (t: State)
    requires q.phase.Answered?
  {
    var e := RecordingOf(c, q);
    if e in s.recordings then s
    else s.(recordings := s.recordings + {e},
            rows := s.rows[q.key := Row(e.hash, e.status, e.body, occurredAt + TTL)])
  }

  function AfterRecord(q: Request, novel: bool): (p: Phase)
    requires q.phase.Answered?
  {
    if q.surface == Wrap && q.phase.override.Some? && novel
    then Leaving(Own(q.phase.status, q.phase.body))
    else Recorded(novel, q.phase.status, q.phase.body, q.phase.override)
  }

  function AfterFinalLookup(q: Request, l: LookupResult): (o: Outcome)
    requires q.phase.Recorded?
  {
    if l.Hit? then Cached(l.row.status, l.row.body)
    else Own(q.phase.status, if q.surface == Execute then RecordedBody(q.phase) else q.phase.body)
  }

  function AfterHandler(surface: Surface, status: int, body: string, override: Option<string>): (p: Phase) {
    var status' := if surface == Execute && status == 0 then 200 else status;
    if status' >= 500 then Leaving(ServerError(status')) else Answered(status', body, override)
  }

  function Unlock(c: Config, s: State, r: nat): (t: State)
    requires r in s.requests
  {
    var k := c.lockKey(s.requests[r].key);
    if k in s.locks && s.locks[k] == r then s.(locks := s.locks - {k}) else s
  }

  function Do(c: Config, s: State, step: Step): (t: State)
    requires Enabled(c, s, step)
  {
    match step
    case Arrive(r, k, h, surface) => s.(requests := s.requests[r := Request(k, h, surface, Arrived)])
    case FirstLookup(r, ok) =>
      var q := s.requests[r];
      SetPhase(s, r, if !ok then Done(Unavailable) else
        match Lookup(s, q.key, q.hash)
        case Miss => Waiting
        case Clash => Done(Conflict)
        case Hit(row) => Done(Cached(row.status, row.body)))
    case TakeLock(r) =>
      SetPhase(s.(locks := s.locks[c.lockKey(s.requests[r].key) := r]), r, Holding)
    case LockFails(r) => SetPhase(s, r, Done(Unavailable))
    case SecondLookup(r, ok) =>
      var q := s.requests[r];
      SetPhase(s, r, if !ok then Leaving(Unavailable) else
        match Lookup(s, q.key, q.hash)
        case Miss => Running
        case Clash => Leaving(Conflict)
        case Hit(row) => Leaving(Cached(row.status, row.body)))
    case HandlerReturns(r, status, body, override) =>
      SetPhase(s, r, AfterHandler(s.requests[r].surface, status, body, override))
    case HandlerFails(r) => SetPhase(s, r, Leaving(Failed))
    case Record(r, at, committed, acknowledged) =>
      var q := s.requests[r];
      if !committed then SetPhase(s, r, Leaving(Unavailable))
      else SetPhase(Commit(c, s, q, at), r,
             if !acknowledged then Leaving(Unavailable) else AfterRecord(q, RecordingOf(c, q) !in s.recordings))
    case FinalLookup(r, ok) =>
      var q := s.requests[r];
      SetPhase(s, r, Leaving(AfterFinalLookup(q, if ok then Lookup(s, q.key, q.hash) else Miss)))
    case Release(r) => SetPhase(Unlock(c, s, r), r, Done(s.requests[r].phase.outcome))
    case Crash(r) => SetPhase(Unlock(c, s, r), r, Done(Crashed))
    case Tick(elapsed) => s.(clock := s.clock + elapsed)
  }

  // ------------------------------------------------------------- invariants

  /** Phases between taking the lock and releasing it. */
  predicate HoldsLock(p: Phase) {
    p.Holding? || p.Running? || p.Answered? || p.Recorded? || p.Leaving?
  }

  /** Phases in which the handler runs or its result is still to be recorded. */
  predicate InHandler(p: Phase) {
    p.Running? || p.Answered?
  }

  /** Mutual exclusion: a request in its critical section is the one its lock names. */
  ghost predicate LocksHeld(c: Config, s: State) {
    forall r :: r in s.requests && HoldsLock(s.requests[r].phase) ==>
      c.lockKey(s.requests[r].key) in s.locks && s.locks[c.lockKey(s.requests[r].key)] == r
  }

  /** A handler runs only while its key has no live row. */
  ghost predicate HandlerMeansNoRow(s: State) {
    forall r :: r in s.requests && InHandler(s.requests[r].phase) ==> !Live(s, s.requests[r].key)
  }

  ghost predicate Inv(c: Config, s: State) {
    LocksHeld(c, s) && HandlerMeansNoRow(s)
  }

  ghost predicate Initial(s: State) {
    s.requests == map[] && s.locks == map[]
  }

  /** At most one request per lock key, hence per idempotency key, is in its critical section. */
  lemma MutualExclusion(c: Config, s: State, r: nat, q: nat)
    requires LocksHeld(c, s) && r in s.requests && q in s.requests
    requires HoldsLock(s.requests[r].phase) && HoldsLock(s.requests[q].phase)
    requires c.lockKey(s.requests[r].key) == c.lockKey(s.requests[q].key)
    ensures r == q
  {
  }

  lemma LocksHeldPreserved(c: Config, s: State, step: Step)
    requires LocksHeld(c, s) && Enabled(c, s, step)
    ensures LocksHeld(c, Do(c, s, step))
  {
  }

  lemma HandlerMeansNoRowPreserved(c: Config, s: State, step: Step)
    requires Inv(c, s) && Enabled(c, s, step)
    ensures HandlerMeansNoRow(Do(c, s, step))
  {
    if step.Record? {
      OnlyTheRecorder(c, s, step.r);
    }
  }

  /** While a request records, no other request of its key holds the lock. */
  lemma OnlyTheRecorder(c: Config, s: State, r: nat)
    requires Inv(c, s) && r in s.requests && HoldsLock(s.requests[r].phase)
    ensures forall q :: q in s.requests && s.requests[q].key == s.requests[r].key && HoldsLock(s.requests[q].phase) ==> q == r
  {
    forall q | q in s.requests && s.requests[q].key == s.requests[r].key && HoldsLock(s.requests[q].phase) ensures q == r {
      MutualExclusion(c, s, q, r);
    }
  }

  lemma InvPreserved(c: Config, s: State, step: Step)
    requires Inv(c, s) && Enabled(c, s, step)
    ensures Inv(c, Do(c, s, step))
  {
    LocksHeldPreserved(c, s, step);
    HandlerMeansNoRowPreserved(c, s, step);
  }

  // ------------------------------------------------------------- whole runs

  /** A run: states[n + 1] is the result of steps[n] in states[n]. */
  ghost predicate IsRun(c: Config, states: seq<State>, steps: seq<Step>) {
    && |states| == |steps| + 1
    && Initial(states[0])
    && forall n {:trigger steps[n]} :: 0 <= n < |steps| ==>
         Enabled(c, states[n], steps[n]) && states[n + 1] == Do(c, states[n], steps[n])
  }

  lemma {:induction false} RunKeepsInv(c: Config, states: seq<State>, steps: seq<Step>, n: nat)
    requires IsRun(c, states, steps) && n < |states|
    ensures Inv(c, states[n])
  {
    if n > 0 {
      RunKeepsInv(c, states, steps, n - 1);
      InvPreserved(c, states[n - 1], steps[n - 1]);
    }
  }

  /** Steps in which something outside the protocol went wrong for request r. */
  predicate Faults(step: Step, r: nat) {
    match step
    case FirstLookup(q, ok) => q == r && !ok
    case LockFails(q) => q == r
    case SecondLookup(q, ok) => q == r && !ok
    case Record(q, _, committed, acknowledged) => q == r && !(committed && acknowledged)
    case FinalLookup(q, ok) => q == r && !ok
    case Crash(q) => q == r
    case _ => false
  }

  ghost predicate HasFault(steps: seq<Step>, r: nat) {
    exists n :: 0 <= n < |steps| && Faults(steps[n], r)
  }

  /** Step n of the run committed a fresh recording for key k, made by request r. */
  ghost predicate OpensWindow(c: Config, states: seq<State>, steps: seq<Step>, n: nat, r: nat, k: Key)
    requires IsRun(c, states, steps)
  {
    && n < |steps|
    && steps[n].Record? && steps[n].r == r && steps[n].committed
    && states[n].requests[r].key == k
    && RecordingOf(c, states[n].requests[r]) !in states[n].recordings
  }

  /** What a request can end in after a fault; a winner whose read-back fails answers with its own response. */
  predicate FaultOutcome(o: Outcome) {
    o == Unavailable || o == Crashed || o.Own?
  }

  /**
    How a request of the key stands while the row is live: it is not in its
    handler, and if it has an answer the answer is the one owed by the row, unless
    an infrastructure failure actually happened to it.
   */
  predicate Agrees(q: Request, row: Row, faulted: bool) {
    match q.phase
    case Arrived => true
    case Waiting => true
    case Holding => true
    case Running => false
    case Answered(_, _, _) => false
    case Recorded(_, _, _, _) => q.hash == row.hash
    case Leaving(o) => o == Answer(row, q.hash) || (faulted && FaultOutcome(o))
    case Done(o) => o == Answer(row, q.hash) || (faulted && FaultOutcome(o))
  }

  /** The one exception: the HTTP winner of a redacted response answers with its own bytes. */
  predicate RedactedWinner(q: Request) {
    q.surface == Wrap && (q.phase.Leaving? || q.phase.Done?) && q.phase.outcome.Own?
  }

  lemma WindowStep(c: Config, s: State, step: Step, k: Key)
    requires Inv(c, s) && Enabled(c, s, step) && Live(s, k)
    requires Do(c, s, step).clock < s.rows[k].expires
    ensures var t := Do(c, s, step); k in t.rows && t.rows[k] == s.rows[k]
  {
  }

  lemma AgreesStep(c: Config, s: State, step: Step, k: Key, r: nat, faulted: bool)
    requires Inv(c, s) && Enabled(c, s, step) && Live(s, k)
    requires Do(c, s, step).clock < s.rows[k].expires
    requires r in Do(c, s, step).requests && Do(c, s, step).requests[r].key == k
    requires r in s.requests ==> Agrees(s.requests[r], s.rows[k], faulted)
    ensures Agrees(Do(c, s, step).requests[r], s.rows[k], faulted || Faults(step, r))
  {
  }

  /** When the window opens nobody else is in the critical section of the key. */
  lemma WindowOpens(c: Config, s: State, step: Step, r: nat)
    requires Inv(c, s) && Enabled(c, s, step) && r in s.requests
    requires step.Record? && step.committed
    requires s.requests[r].key == s.requests[step.r].key
    requires RecordingOf(c, s.requests[step.r]) !in s.recordings
    ensures var t := Do(c, s, step);
            var q := t.requests[r];
            q.key in t.rows &&
            (|| q.phase.Done?
             || Agrees(q, t.rows[q.key], Faults(step, r))
             || (r == step.r && RedactedWinner(q)))
  {
    assert HoldsLock(s.requests[r].phase) ==> r == step.r by {
      if HoldsLock(s.requests[r].phase) {
        MutualExclusion(c, s, r, step.r);
      }
    }
  }

  /** Every request of the key at state j, by how it stood when the window opened. */
  ghost predicate Explained(states: seq<State>, steps: seq<Step>, n: nat, j: nat, winner: nat, row: Row, r: nat)
    requires n < j < |states| == |steps| + 1 && r in states[j].requests
  {
    var q := states[j].requests[r];
    || (r in states[n + 1].requests && states[n + 1].requests[r].phase.Done? && q == states[n + 1].requests[r])
    || (r == winner && RedactedWinner(q))
    || Agrees(q, row, HasFault(steps[n..j], r))
  }

  lemma HasFaultGrows(steps: seq<Step>, n: nat, j: nat, r: nat)
    requires n <= j < |steps|
    ensures HasFault(steps[n..j + 1], r) == (HasFault(steps[n..j], r) || Faults(steps[j], r))
  {
    var a, b := steps[n..j], steps[n..j + 1];
    assert b == a + [steps[j]];
    if HasFault(a, r) {
      var i :| 0 <= i < |a| && Faults(a[i], r);
      assert Faults(b[i], r);
    }
    if Faults(steps[j], r) {
      assert Faults(b[|a|], r);
    }
    if HasFault(b, r) {
      var i :| 0 <= i < |b| && Faults(b[i], r);
      assert i < |a| ==> Faults(a[i], r);
    }
  }

  /** A finished request never moves again, whatever happens around it. */
  lemma DoneStays(c: Config, s: State, step: Step, r: nat)
    requires Enabled(c, s, step) && r in s.requests && s.requests[r].phase.Done?
    ensures var t := Do(c, s, step); r in t.requests && t.requests[r] == s.requests[r]
  {
  }

  lemma WinnerStep(c: Config, s: State, step: Step, r: nat)
    requires Enabled(c, s, step) && r in s.requests && RedactedWinner(s.requests[r])
    ensures var t := Do(c, s, step);
            r in t.requests && (RedactedWinner(t.requests[r]) || (Faults(step, r) && t.requests[r].phase == Done(Crashed)))
  {
  }

  /**
    From the commit of a fresh record for a key until its expiry the row is
    unchanged and every request of the key that was not already finished is
    answered from the row: the recorded status and body for the recorded
    request hash, a conflict for any other hash.
   */
  lemma {:induction false} ReplayWindow(c: Config, states: seq<State>, steps: seq<Step>, n: nat, j: nat, winner: nat, k: Key)
    requires IsRun(c, states, steps) && OpensWindow(c, states, steps, n, winner, k)
    requires n < j < |states|
    requires k in states[n + 1].rows
    requires forall m :: n < m <= j ==> states[m].clock < states[n + 1].rows[k].expires
    ensures k in states[j].rows && states[j].rows[k] == states[n + 1].rows[k]
    ensures forall r :: r in states[j].requests && states[j].requests[r].key == k ==>
              Explained(states, steps, n, j, winner, states[n + 1].rows[k], r)
  {
    var row := states[n + 1].rows[k];
    if j == n + 1 {
      RunKeepsInv(c, states, steps, n);
      forall r | r in states[j].requests && states[j].requests[r].key == k
        ensures Explained(states, steps, n, j, winner, row, r)
      {
        WindowOpens(c, states[n], steps[n], r);
        assert steps[n..j] == [steps[n]];
        if Faults(steps[n], r) { assert Faults(steps[n..j][0], r); }
      }
    } else {
      var i := j - 1;
      ReplayWindow(c, states, steps, n, i, winner, k);
      RunKeepsInv(c, states, steps, i);
      assert states[j] == Do(c, states[i], steps[i]);
      WindowStep(c, states[i], steps[i], k);
      forall r | r in states[j].requests && states[j].requests[r].key == k
        ensures Explained(states, steps, n, j, winner, row, r)
      {
        WindowStepExplained(c, states, steps, n, i, winner, k, r);
      }
    }
  }

  lemma WindowStepExplained(c: Config, states: seq<State>, steps: seq<Step>, n: nat, i: nat, winner: nat, k: Key, r: nat)
    requires IsRun(c, states, steps) && n < i < |steps| && k in states[n + 1].rows
    requires Inv(c, states[i]) && k in states[i].rows && states[i].rows[k] == states[n + 1].rows[k]
    requires states[i].clock < states[i].rows[k].expires && states[i + 1].clock < states[i].rows[k].expires
    requires r in states[i + 1].requests && states[i + 1].requests[r].key == k
    requires r in states[i].requests ==> Explained(states, steps, n, i, winner, states[i].rows[k], r)
    ensures Explained(states, steps, n, i + 1, winner, states[i].rows[k], r)
  {
    HasFaultGrows(steps, n, i, r);
    var row, s := states[i].rows[k], states[i];
    if r !in s.requests {
      AgreesStep(c, s, steps[i], k, r, false);
    } else if s.requests[r].phase.Done? {
      DoneStays(c, s, steps[i], r);
    } else if r == winner && RedactedWinner(s.requests[r]) {
      WinnerStep(c, s, steps[i], r);
    } else {
      AgreesStep(c, s, steps[i], k, r, HasFault(steps[n..i], r));
    }
  }

  /** No handler of the key runs at any point of the window. */
  lemma NoHandlerInWindow(c: Config, states: seq<State>, steps: seq<Step>, n: nat, j: nat, winner: nat, k: Key, r: nat)
    requires IsRun(c, states, steps) && OpensWindow(c, states, steps, n, winner, k)
    requires n < j < |states|
    requires k in states[n + 1].rows
    requires forall m :: n < m <= j ==> states[m].clock < states[n + 1].rows[k].expires
    requires r in states[j].requests && states[j].requests[r].key == k
    ensures !InHandler(states[j].requests[r].phase)
  {
    ReplayWindow(c, states, steps, n, j, winner, k);
  }

  lemma {:induction false} ClockMonotone(c: Config, states: seq<State>, steps: seq<Step>, i: nat, j: nat)
    requires IsRun(c, states, steps) && i <= j < |states|
    ensures states[i].clock <= states[j].clock
  {
    if i < j {
      ClockMonotone(c, states, steps, i, j - 1);
      assert states[j] == Do(c, states[j - 1], steps[j - 1]);
    }
  }

  /** Fresh recordings of one key are at least a full lifetime apart. */
  lemma RecordingsSeparated(c: Config, states: seq<State>, steps: seq<Step>, n: nat, m: nat, r: nat, q: nat, k: Key)
    requires IsRun(c, states, steps) && n < m
    requires OpensWindow(c, states, steps, n, r, k) && OpensWindow(c, states, steps, m, q, k)
    ensures k in states[n + 1].rows && states[n + 1].rows[k].expires <= states[m].clock
  {
    assert k in states[n + 1].rows;
    if states[m].clock < states[n + 1].rows[k].expires {
      forall i | n < i <= m ensures states[i].clock < states[n + 1].rows[k].expires {
        ClockMonotone(c, states, steps, i, m);
      }
      NoHandlerInWindow(c, states, steps, n, m, r, k, q);
      assert false;
    }
  }

  /**
    Recording makes the key replayable exactly when the same response was never
    recorded for the key before (and has not already expired): re-running an
    expired key to an identical response collapses onto the old event and
    leaves the expired row as it was.
   */
  lemma RecordingMakesReplayable(c: Config, s: State, step: Step)
    requires Inv(c, s) && Enabled(c, s, step) && step.Record? && step.committed
    ensures var q := s.requests[step.r];
            Live(Do(c, s, step), q.key) <==>
              RecordingOf(c, q) !in s.recordings && s.clock < step.occurredAt + TTL
  {
    assert InHandler(s.requests[step.r].phase);
  }

  // ------------------------------------------------------------ the happy path

  /** What one request does up to its handler, and from there, when nothing goes wrong. */
  function ToHandler(r: nat, k: Key, hash: seq<Byte>, surface: Surface): (steps: seq<Step>) {
    [Arrive(r, k, hash, surface), FirstLookup(r, true), TakeLock(r), SecondLookup(r, true)]
  }

  function FromHandler(r: nat, status: int, body: string, at: int): (steps: seq<Step>) {
    [HandlerReturns(r, status, body, None), Record(r, at, true, true), FinalLookup(r, true), Release(r)]
  }

  ghost predicate Leads(c: Config, s: State, steps: seq<Step>, t: State)
    decreases |steps|
  {
    if steps == [] then s == t
    else Enabled(c, s, steps[0]) && Leads(c, Do(c, s, steps[0]), steps[1..], t)
  }

  lemma {:induction false} LeadsOn(c: Config, s: State, a: seq<Step>, t: State, b: seq<Step>, u: State)
    requires Leads(c, s, a, t) && Leads(c, t, b, u)
    ensures Leads(c, s, a + b, u)
    decreases |a|
  {
    if a == [] {
      assert a + b == b;
    } else {
      LeadsOn(c, Do(c, s, a[0]), a[1..], t, b, u);
      assert (a + b)[1..] == a[1..] + b;
    }
  }

  lemma FourLead(c: Config, s: State, steps: seq<Step>, s1: State, s2: State, s3: State, t: State)
    requires |steps| == 4
    requires Enabled(c, s, steps[0]) && s1 == Do(c, s, steps[0])
    requires Enabled(c, s1, steps[1]) && s2 == Do(c, s1, steps[1])
    requires Enabled(c, s2, steps[2]) && s3 == Do(c, s2, steps[2])
    requires Enabled(c, s3, steps[3]) && t == Do(c, s3, steps[3])
    ensures Leads(c, s, steps, t)
  {
    assert Leads(c, s3, steps[1..][1..][1..], t);
    assert Leads(c, s2, steps[1..][1..], t);
    assert Leads(c, s1, steps[1..], t);
  }

  lemma ReachesHandler(c: Config, s: State, r: nat, k: Key, hash: seq<Byte>, surface: Surface) returns (t: State)
    requires Initial(s) && !Live(s, k)
    ensures Leads(c, s, ToHandler(r, k, hash, surface), t)
    ensures t == s.(requests := map[r := Request(k, hash, surface, Running)], locks := map[c.lockKey(k) := r])
  {
    var steps := ToHandler(r, k, hash, surface);
    var s1 := Do(c, s, steps[0]);
    var s2 := Do(c, s1, steps[1]);
    var s3 := Do(c, s2, steps[2]);
    t := Do(c, s3, steps[3]);
    FourLead(c, s, steps, s1, s2, s3, t);
  }

  /** The status a response is recorded with: a non-HTTP handler that names none means 200. */
  function Effective(surface: Surface, status: int): (e: int) {
    if surface == Execute && status == 0 then 200 else status
  }

  lemma AnswersAndRecords(c: Config, s: State, r: nat, k: Key, hash: seq<Byte>, surface: Surface, status: int, body: string)
    returns (m: State, t: State)
    requires s.requests == map[r := Request(k, hash, surface, Running)] && s.locks == map[c.lockKey(k) := r]
    requires status < 500 && Recording(k, hash, Effective(surface, status), c.decode(body)) !in s.recordings
    ensures Enabled(c, s, HandlerReturns(r, status, body, None)) && m == Do(c, s, HandlerReturns(r, status, body, None))
    ensures Enabled(c, m, Record(r, s.clock, true, true)) && t == Do(c, m, Record(r, s.clock, true, true))
    ensures t.rows == s.rows[k := Row(hash, Effective(surface, status), c.decode(body), s.clock + TTL)] && t.locks == s.locks && t.clock == s.clock
    ensures t.requests == map[r := Request(k, hash, surface, Recorded(true, Effective(surface, status), body, None))]
  {
    m := Do(c, s, HandlerReturns(r, status, body, None));
    assert m.requests == map[r := Request(k, hash, surface, Answered(Effective(surface, status), body, None))];
    t := Do(c, m, Record(r, s.clock, true, true));
  }

  lemma ReadsBackAndReleases(c: Config, s: State, r: nat, k: Key, hash: seq<Byte>, surface: Surface, status: int, body: string)
    returns (m: State, t: State)
    requires s.requests == map[r := Request(k, hash, surface, Recorded(true, status, body, None))]
    requires s.locks == map[c.lockKey(k) := r]
    requires Live(s, k) && s.rows[k].hash == hash && s.rows[k].status == status && s.rows[k].body == c.decode(body)
    ensures Enabled(c, s, FinalLookup(r, true)) && m == Do(c, s, FinalLookup(r, true))
    ensures Enabled(c, m, Release(r)) && t == Do(c, m, Release(r))
    ensures t.rows == s.rows && t.locks == map[]
    ensures t.requests == map[r := Request(k, hash, surface, Done(Cached(status, c.decode(body))))]
  {
    m := Do(c, s, FinalLookup(r, true));
    assert m.requests == map[r := Request(k, hash, surface, Leaving(Cached(status, c.decode(body))))];
    t := Do(c, m, Release(r));
  }

  lemma LeavesHandler(c: Config, s: State, r: nat, k: Key, hash: seq<Byte>, surface: Surface, status: int, body: string)
    returns (t: State)
    requires s.requests == map[r := Request(k, hash, surface, Running)] && s.locks == map[c.lockKey(k) := r]
    requires status < 500 && Recording(k, hash, Effective(surface, status), c.decode(body)) !in s.recordings
    ensures Leads(c, s, FromHandler(r, status, body, s.clock), t)
    ensures t.rows == s.rows[k := Row(hash, Effective(surface, status), c.decode(body), s.clock + TTL)] && t.locks == map[]
    ensures t.requests == map[r := Request(k, hash, surface, Done(Cached(Effective(surface, status), c.decode(body))))]
  {
    var s1, s2 := AnswersAndRecords(c, s, r, k, hash, surface, status, body);
    var s3;
    s3, t := ReadsBackAndReleases(c, s2, r, k, hash, surface, Effective(surface, status), body);
    FourLead(c, s, FromHandler(r, status, body, s.clock), s1, s2, s3, t);
  }

  /**
    A first request that is left alone runs its handler, leaves its response as
    the live row of the key for a full lifetime, answers from that row and holds
    no lock afterwards.
   */
  lemma UndisturbedRequestRecords(c: Config, s: State, r: nat, k: Key, hash: seq<Byte>, surface: Surface, status: int, body: string)
    returns (t: State)
    requires Initial(s) && !Live(s, k) && status < 500
    requires Recording(k, hash, Effective(surface, status), c.decode(body)) !in s.recordings
    ensures Leads(c, s, ToHandler(r, k, hash, surface) + FromHandler(r, status, body, s.clock), t)
    ensures t.rows == s.rows[k := Row(hash, Effective(surface, status), c.decode(body), s.clock + TTL)] && t.locks == map[]
    ensures t.requests == map[r := Request(k, hash, surface, Done(Cached(Effective(surface, status), c.decode(body))))]
  {
    var m := ReachesHandler(c, s, r, k, hash, surface);
    t := LeavesHandler(c, m, r, k, hash, surface, status, body);
    LeadsOn(c, s, ToHandler(r, k, hash, surface), m, FromHandler(r, status, body, s.clock), t);
  }
}
