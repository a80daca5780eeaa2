/**
  What the steps of the idempotency protocol (internal/idempotency/middleware.go)
  leave behind and answer: where a recording comes from, what becomes of server
  errors and failures, and who holds the locks.

  `RecordingIsAnswer` says that everything recorded is what a handler answered,
  with a status below 500, and `ServerErrorEnds` that a server error is returned
  and forgotten.
 */
module IdempotencyAnswers {
  import opened CanonicalJson
  import opened IdempotencyProtocol
  import opened Options

  // --------------------------------------------------------------- recordings

  /** Nothing but a committed recording touches the rows and the recordings. */
  lemma OnlyRecordWrites(c: Config, s: State, step: Step)
    requires Enabled(c, s, step) && !(step.Record? && step.committed)
    ensures Do(c, s, step).rows == s.rows && Do(c, s, step).recordings == s.recordings
  {
  }

  /** A request keeps its key, hash and surface. */
  lemma SameRequest(c: Config, s: State, step: Step, r: nat)
    requires Enabled(c, s, step) && r in s.requests
    ensures r in Do(c, s, step).requests
    ensures var q, p := Do(c, s, step).requests[r], s.requests[r]; q.key == p.key && q.hash == p.hash && q.surface == p.surface
  {
  }

  /** Only its handler makes a request an answered one. */
  lemma AnsweredStep(c: Config, s: State, step: Step, r: nat)
    requires Enabled(c, s, step) && r in Do(c, s, step).requests && Do(c, s, step).requests[r].phase.Answered?
    requires !(r in s.requests && s.requests[r].phase.Answered?)
    ensures step.HandlerReturns? && step.r == r && r in s.requests
    ensures var q := Do(c, s, step).requests[r];
            && Effective(q.surface, step.status) < 500
            && q.phase == Answered(Effective(q.surface, step.status), step.body, step.override)
  {
  }

  lemma AnsweredStays(c: Config, s: State, step: Step, r: nat)
    requires Enabled(c, s, step) && r in s.requests && s.requests[r].phase.Answered?
    requires r in Do(c, s, step).requests && Do(c, s, step).requests[r].phase.Answered?
    ensures Do(c, s, step).requests[r] == s.requests[r]
  {
  }

  /** An answered request was answered by its handler, earlier in the run. */
  lemma {:induction false} AnsweredBy(c: Config, states: seq<State>, steps: seq<Step>, n: nat, r: nat) returns (m: nat)
    requires IsRun(c, states, steps) && n < |states| && r in states[n].requests && states[n].requests[r].phase.Answered?
    ensures m < n && steps[m].HandlerReturns? && steps[m].r == r
    ensures var q := states[n].requests[r];
            && Effective(q.surface, steps[m].status) < 500
            && q.phase == Answered(Effective(q.surface, steps[m].status), steps[m].body, steps[m].override)
  {
    assert n > 0;
    var s := states[n - 1];
    assert states[n] == Do(c, s, steps[n - 1]);
    if r in s.requests && s.requests[r].phase.Answered? {
      AnsweredStays(c, s, steps[n - 1], r);
      m := AnsweredBy(c, states, steps, n - 1, r);
    } else {
      AnsweredStep(c, s, steps[n - 1], r);
      m := n - 1;
    }
  }

  /**
    What a request records is what its handler answered earlier in the run: the
    status, below 500, and the body, or the body that replaces it.
   */
  lemma RecordingIsAnswer(c: Config, states: seq<State>, steps: seq<Step>, n: nat) returns (m: nat)
    requires IsRun(c, states, steps) && n < |steps| && steps[n].Record? && steps[n].committed
    ensures m < n && steps[m].HandlerReturns? && steps[m].r == steps[n].r && steps[n].r in states[n].requests
    ensures var q, answer := states[n].requests[steps[n].r], steps[m];
            var recorded := if answer.override.Some? then answer.override.value else answer.body;
            && Effective(q.surface, answer.status) < 500
            && states[n + 1].recordings
               == states[n].recordings + {Recording(q.key, q.hash, Effective(q.surface, answer.status), c.decode(recorded))}
  {
    m := AnsweredBy(c, states, steps, n, steps[n].r);
    assert states[n + 1] == Do(c, states[n], steps[n]);
    var e := RecordingOf(c, states[n].requests[steps[n].r]);
    assert e in states[n].recordings ==> states[n].recordings == states[n].recordings + {e};
  }

  /** A row that a step writes is the fresh recording of its key, expiring a lifetime after it was made. */
  lemma RowIsRecording(c: Config, s: State, step: Step, k: Key)
    requires Enabled(c, s, step) && k in Do(c, s, step).rows && !(k in s.rows && Do(c, s, step).rows[k] == s.rows[k])
    ensures step.Record? && step.committed && step.occurredAt <= s.clock && step.r in s.requests && s.requests[step.r].key == k
    ensures var row := Do(c, s, step).rows[k];
            && row.expires == step.occurredAt + TTL
            && Recording(k, row.hash, row.status, row.body) in Do(c, s, step).recordings
            && Recording(k, row.hash, row.status, row.body) !in s.recordings
  {
  }

  /** No server error is ever recorded: every recording and row made in a run has a status below 500. */
  lemma {:induction false} NoServerErrorRecorded(c: Config, states: seq<State>, steps: seq<Step>, n: nat)
    requires IsRun(c, states, steps) && n < |states|
    ensures forall e :: e in states[n].recordings && e !in states[0].recordings ==> e.status < 500
    ensures forall k :: k in states[n].rows && !(k in states[0].rows && states[n].rows[k] == states[0].rows[k]) ==>
              states[n].rows[k].status < 500
  {
    if n > 0 {
      NoServerErrorRecorded(c, states, steps, n - 1);
      var s, step := states[n - 1], steps[n - 1];
      assert states[n] == Do(c, s, step);
      if step.Record? && step.committed {
        var m := AnsweredBy(c, states, steps, n - 1, step.r);
        RecordAdds(c, s, step);
      } else {
        OnlyRecordWrites(c, s, step);
      }
    }
  }

  /** A recording adds nothing but itself, with the status its request was answered with. */
  lemma RecordAdds(c: Config, s: State, step: Step)
    requires Enabled(c, s, step) && step.Record? && step.committed
    ensures var t, q := Do(c, s, step), s.requests[step.r];
            && (forall e :: e in t.recordings && e !in s.recordings ==> e.status == q.phase.status)
            && (forall k :: k in t.rows && !(k in s.rows && t.rows[k] == s.rows[k]) ==> t.rows[k].status == q.phase.status)
  {
  }

  // ------------------------------------------------------------------- locks

  /** Every lock is held by a request in the critical section of that lock. */
  ghost predicate LocksOwned(c: Config, s: State) {
    forall k :: k in s.locks ==>
      var r := s.locks[k];
      r in s.requests && HoldsLock(s.requests[r].phase) && c.lockKey(s.requests[r].key) == k
  }

  lemma LocksOwnedPreserved(c: Config, s: State, step: Step)
    requires LocksOwned(c, s) && LocksHeld(c, s) && Enabled(c, s, step)
    ensures LocksOwned(c, Do(c, s, step))
  {
  }

  /** So a finished request holds no lock, in any state of any run, crashed or not. */
  lemma {:induction false} FinishedHoldsNothing(c: Config, states: seq<State>, steps: seq<Step>, n: nat)
    requires IsRun(c, states, steps) && n < |states|
    ensures LocksOwned(c, states[n])
    ensures forall k :: k in states[n].locks ==> !states[n].requests[states[n].locks[k]].phase.Done?
  {
    if n > 0 {
      FinishedHoldsNothing(c, states, steps, n - 1);
      RunKeepsInv(c, states, steps, n - 1);
      assert states[n] == Do(c, states[n - 1], steps[n - 1]);
      LocksOwnedPreserved(c, states[n - 1], steps[n - 1]);
    }
  }

  // ---------------------------------------------------------- errors, failures

  /** A request that is on its way out with an answer, or has given it. */
  predicate AnswersWith(p: Phase, o: Outcome) {
    p == Leaving(o) || p == Done(o)
  }

  lemma LeavingStep(c: Config, s: State, step: Step, r: nat, o: Outcome)
    requires Enabled(c, s, step) && r in s.requests && AnswersWith(s.requests[r].phase, o)
    ensures !(step.Record? && step.r == r) && !(step.HandlerReturns? && step.r == r)
    ensures r in Do(c, s, step).requests
    ensures AnswersWith(Do(c, s, step).requests[r].phase, o) || (step == Crash(r) && Do(c, s, step).requests[r].phase == Done(Crashed))
    ensures step == Release(r) ==> Do(c, s, step).requests[r].phase == Done(o)
  {
  }

  lemma CrashedStays(c: Config, s: State, step: Step, r: nat)
    requires Enabled(c, s, step) && r in s.requests && s.requests[r].phase == Done(Crashed)
    ensures !(step.Record? && step.r == r) && r in Do(c, s, step).requests && Do(c, s, step).requests[r].phase == Done(Crashed)
  {
  }

  ghost predicate CrashesBetween(steps: seq<Step>, i: nat, j: nat, r: nat)
    requires j <= |steps|
  {
    exists m :: i < m < j && steps[m] == Crash(r)
  }

  /**
    A handler that answers with a server error, in any run: nothing is recorded
    then or later by that request, which ends with that very error unless it
    crashes; a finished one holds no lock, so a retry may run the handler again.
   */
  lemma {:induction false} ServerErrorEnds(c: Config, states: seq<State>, steps: seq<Step>, i: nat, j: nat, r: nat)
    requires IsRun(c, states, steps) && i < j < |states|
    requires steps[i].HandlerReturns? && steps[i].r == r && steps[i].status >= 500
    ensures states[i + 1].rows == states[i].rows && states[i + 1].recordings == states[i].recordings
    ensures forall m :: i < m < j ==> !(steps[m].Record? && steps[m].r == r)
    ensures r in states[j].requests
    ensures var p := states[j].requests[r].phase;
            AnswersWith(p, ServerError(steps[i].status)) || (p == Done(Crashed) && CrashesBetween(steps, i, j, r))
    ensures states[j].requests[r].phase.Done? ==> forall k :: k in states[j].locks ==> states[j].locks[k] != r
    decreases j
  {
    FinishedHoldsNothing(c, states, steps, j);
    var s, step := states[j - 1], steps[j - 1];
    assert states[j] == Do(c, s, step);
    if j == i + 1 {
      OnlyRecordWrites(c, s, step);
    } else {
      ServerErrorEnds(c, states, steps, i, j - 1, r);
      if AnswersWith(s.requests[r].phase, ServerError(steps[i].status)) {
        LeavingStep(c, s, step, r, ServerError(steps[i].status));
        if step == Crash(r) { assert CrashesBetween(steps, i, j, r); }
      } else {
        CrashedStays(c, s, step, r);
        var m :| i < m < j - 1 && steps[m] == Crash(r);
        assert CrashesBetween(steps, i, j, r);
      }
    }
  }

  /** The answer of a request to itself: HTTP gives the handler's bytes, the other surface what was to be recorded. */
  function OwnBody(q: Request): (body: string)
    requires q.phase.Recorded?
  {
    if q.surface == Execute && q.phase.override.Some? then q.phase.override.value else q.phase.body
  }

  /**
    What goes wrong outside the handler is answered as unavailable, a handler
    that fails as a failure, and a read-back that fails with the request's own
    answer; none of it writes a row.
   */
  lemma FailuresAnswered(c: Config, s: State, step: Step, r: nat)
    requires Enabled(c, s, step) && (Faults(step, r) || step == HandlerFails(r))
    ensures r in Do(c, s, step).requests
    ensures var t, p := Do(c, s, step), Do(c, s, step).requests[r].phase;
            && (step.HandlerFails? ==> p == Leaving(Failed))
            && (step.Crash? ==> p == Done(Crashed))
            && (step.FirstLookup? || step.LockFails? ==> p == Done(Unavailable))
            && (step.SecondLookup? || step.Record? ==> p == Leaving(Unavailable))
            && (step.FinalLookup? ==> p == Leaving(Own(s.requests[r].phase.status, OwnBody(s.requests[r]))))
            && (!step.Record? ==> t.rows == s.rows && t.recordings == s.recordings)
  {
  }

  // --------------------------------------------------------------- redaction

  /** What an HTTP request with a redacted response does from its handler on. */
  function Redacting(r: nat, status: int, body: string, redacted: string, at: int): (steps: seq<Step>) {
    [HandlerReturns(r, status, body, Some(redacted)), Record(r, at, true, true), Release(r)]
  }

  lemma ThreeLead(c: Config, s: State, steps: seq<Step>, s1: State, s2: State, t: State)
    requires |steps| == 3
    requires Enabled(c, s, steps[0]) && s1 == Do(c, s, steps[0])
    requires Enabled(c, s1, steps[1]) && s2 == Do(c, s1, steps[1])
    requires Enabled(c, s2, steps[2]) && t == Do(c, s2, steps[2])
    ensures Leads(c, s, steps, t)
  {
    assert Leads(c, s2, steps[1..][1..], t);
    assert Leads(c, s1, steps[1..], t);
  }

  lemma RedactedAnswer(c: Config, s: State, r: nat, k: Key, hash: seq<Byte>, status: int, body: string, redacted: string)
    returns (t: State)
    requires s.requests == map[r := Request(k, hash, Wrap, Running)] && s.locks == map[c.lockKey(k) := r]
    requires status < 500 && Recording(k, hash, status, c.decode(redacted)) !in s.recordings
    ensures Leads(c, s, Redacting(r, status, body, redacted, s.clock), t)
    ensures t.rows == s.rows[k := Row(hash, status, c.decode(redacted), s.clock + TTL)] && t.locks == map[]
    ensures t.requests == map[r := Request(k, hash, Wrap, Done(Own(status, body)))]
  {
    var steps := Redacting(r, status, body, redacted, s.clock);
    var s1 := Do(c, s, steps[0]);
    assert s1.requests == map[r := Request(k, hash, Wrap, Answered(status, body, Some(redacted)))];
    var s2 := Do(c, s1, steps[1]);
    assert s2.requests == map[r := Request(k, hash, Wrap, Leaving(Own(status, body)))];
    t := Do(c, s2, steps[2]);
    ThreeLead(c, s, steps, s1, s2, t);
  }

  /** The HTTP winner of a redacted response answers with its own bytes, and only the redacted ones are kept for replay. */
  lemma RedactedWinnerAnswers(c: Config, s: State, r: nat, k: Key, hash: seq<Byte>, status: int, body: string, redacted: string)
    returns (t: State)
    requires Initial(s) && !Live(s, k) && status < 500
    requires Recording(k, hash, status, c.decode(redacted)) !in s.recordings
    ensures Leads(c, s, ToHandler(r, k, hash, Wrap) + Redacting(r, status, body, redacted, s.clock), t)
    ensures t.rows == s.rows[k := Row(hash, status, c.decode(redacted), s.clock + TTL)] && t.locks == map[]
    ensures t.requests == map[r := Request(k, hash, Wrap, Done(Own(status, body)))]
  {
    var m := ReachesHandler(c, s, r, k, hash, Wrap);
    t := RedactedAnswer(c, m, r, k, hash, status, body, redacted);
    LeadsOn(c, s, ToHandler(r, k, hash, Wrap), m, Redacting(r, status, body, redacted, s.clock), t);
  }
}
