/**
  The leased job queue (internal/jobqueue/jobqueue.go) as an interleaving of
  claim transactions, terminal marks, enqueues and the passing of time.

  A claim transaction takes its time of day when it begins, locks the oldest
  ready row no other transaction has locked, and writes the lease when it
  commits.  Marking a job terminal waits for a locked row.
 */
module JobQueue {

  datatype JobState = Pending | Leased(until: int) | Done | Failed | Canceled

  datatype Job = Job(state: JobState, attempts: nat, createdAt: int)

  /** A committed claim and the window of its lease. */
  datatype Claim = Claim(job: nat, from: int, until: int)

  /** An open claim transaction: when it began and, once its statement ran, the row it holds. */
  datatype Transaction = Begun(at: int) | Holding(at: int, job: nat, lease: int)

  datatype State = State(clock: int, jobs: map<nat, Job>, open: map<nat, Transaction>, claims: seq<Claim>)

  datatype Step =
    | Enqueue(job: nat, createdAt: int)
    | Begin(w: nat)
    | Take(w: nat, job: nat, lease: int)
    | Commit(w: nat)
    | Rollback(w: nat)
    | Mark(job: nat, state: JobState)
    | Tick(elapsed: nat)

  predicate Terminal(s: JobState) {
    s.Done? || s.Failed? || s.Canceled?
  }

  /** `state = 'pending' OR (state = 'leased' AND lease_until <= now())`, with the transaction's now(). */
  predicate Ready(j: Job, now: int) {
    j.state.Pending? || (j.state.Leased? && j.state.until <= now)
  }

  predicate Locked(s: State, job: nat) {
    exists w :: w in s.open && s.open[w].Holding? && s.open[w].job == job
  }

  predicate Claimable(s: State, now: int, job: nat) {
    job in s.jobs && Ready(s.jobs[job], now) && !Locked(s, job)
  }

  /** `ORDER BY created_at ASC, id ASC`. */
  predicate NotLater(s: State, a: nat, b: nat)
    requires a in s.jobs && b in s.jobs
  {
    s.jobs[a].createdAt < s.jobs[b].createdAt || (s.jobs[a].createdAt == s.jobs[b].createdAt && a <= b)
  }

  predicate Enabled(s: State, step: Step) {
    match step
    case Enqueue(job, _) => job !in s.jobs
    case Begin(w) => w !in s.open
    case Take(w, job, lease) =>
      && w in s.open && s.open[w].Begun? && lease > 0
      && Claimable(s, s.open[w].at, job)
      && forall other :: other in s.jobs && Claimable(s, s.open[w].at, other) ==> NotLater(s, job, other)
    case Commit(w) => w in s.open && (s.open[w].Holding? ==> s.open[w].job in s.jobs)
    case Rollback(w) => w in s.open
    case Mark(job, state) => job in s.jobs && Terminal(state) && !Locked(s, job)
    case Tick(_) => true
  }

  function Do(s: State, step: Step): (t: State)
    requires Enabled(s, step)
  {
    match step
    case Enqueue(job, createdAt) => s.(jobs := s.jobs[job := Job(Pending, 0, createdAt)])
    case Begin(w) => s.(open := s.open[w := Begun(s.clock)])
    case Take(w, job, lease) => s.(open := s.open[w := Holding(s.open[w].at, job, lease)])
    case Commit(w) =>
      var tx := s.open[w];
      if tx.Begun? then s.(open := s.open - {w})
      else
        var j, until := s.jobs[tx.job], tx.at + tx.lease;
        s.(open := s.open - {w},
           jobs := s.jobs[tx.job := Job(Leased(until), j.attempts + 1, j.createdAt)],
           claims := s.claims + [Claim(tx.job, tx.at, until)])
    case Rollback(w) => s.(open := s.open - {w})
    case Mark(job, state) =>
      if s.jobs[job].state.Leased? then s.(jobs := s.jobs[job := s.jobs[job].(state := state)]) else s
    case Tick(elapsed) => s.(clock := s.clock + elapsed)
  }

  // -------------------------------------------------------------- invariant

  function ClaimsOf(claims: seq<Claim>, job: nat): (n: nat) {
    if claims == [] then 0
    else ClaimsOf(claims[..|claims| - 1], job) + (if claims[|claims| - 1].job == job then 1 else 0)
  }

  /** Two leases of one job never overlap: the earlier one has run out when the later one begins. */
  predicate Disjoint(claims: seq<Claim>) {
    forall i, j :: 0 <= i < j < |claims| && claims[i].job == claims[j].job ==> claims[i].until <= claims[j].from
  }

  /** What the claims so far leave of a job. */
  predicate Accounted(s: State, job: nat)
    requires job in s.jobs
  {
    && s.jobs[job].attempts == ClaimsOf(s.claims, job)
    && (s.jobs[job].state.Pending? ==> ClaimsOf(s.claims, job) == 0)
    && (s.jobs[job].state.Leased? ==>
          forall i :: 0 <= i < |s.claims| && s.claims[i].job == job ==> s.claims[i].until <= s.jobs[job].state.until)
  }

  /** A row that is held was ready when it was taken, still is, and is held once. */
  predicate HeldOnce(s: State, w: nat)
    requires w in s.open
  {
    s.open[w].Holding? ==>
      && s.open[w].job in s.jobs && Ready(s.jobs[s.open[w].job], s.open[w].at) && s.open[w].lease > 0
      && forall v :: v in s.open && s.open[v].Holding? && s.open[v].job == s.open[w].job ==> v == w
  }

  predicate Inv(s: State) {
    && Disjoint(s.claims)
    && (forall i :: 0 <= i < |s.claims| ==> s.claims[i].job in s.jobs && s.claims[i].from < s.claims[i].until)
    && (forall job :: job in s.jobs ==> Accounted(s, job))
    && (forall w :: w in s.open ==> HeldOnce(s, w))
  }

  lemma {:induction false} NoClaims(claims: seq<Claim>, job: nat)
    ensures ClaimsOf(claims, job) == 0 <==> forall i :: 0 <= i < |claims| ==> claims[i].job != job
  {
    if claims != [] {
      NoClaims(claims[..|claims| - 1], job);
    }
  }

  lemma ClaimsSnoc(claims: seq<Claim>, c: Claim, job: nat)
    ensures ClaimsOf(claims + [c], job) == ClaimsOf(claims, job) + (if c.job == job then 1 else 0)
  {
    assert (claims + [c])[..|claims|] == claims;
  }

  lemma EnqueueKeeps(s: State, step: Step)
    requires Inv(s) && Enabled(s, step) && step.Enqueue?
    ensures Inv(Do(s, step))
  {
    NoClaims(s.claims, step.job);
    var t := Do(s, step);
    forall job | job in t.jobs ensures Accounted(t, job) {
      if job != step.job { assert Accounted(s, job); }
    }
    forall w | w in t.open ensures HeldOnce(t, w) {
      assert HeldOnce(s, w);
    }
  }

  lemma CommitKeeps(s: State, step: Step)
    requires Inv(s) && Enabled(s, step) && step.Commit? && s.open[step.w].Holding?
    ensures Inv(Do(s, step))
  {
    var t, tx := Do(s, step), s.open[step.w];
    var c := Claim(tx.job, tx.at, tx.at + tx.lease);
    assert HeldOnce(s, step.w) && Accounted(s, tx.job);
    NoClaims(s.claims, tx.job);
    forall job | job in t.jobs ensures Accounted(t, job) {
      assert Accounted(s, job);
      ClaimsSnoc(s.claims, c, job);
    }
    forall w | w in t.open ensures HeldOnce(t, w) {
      assert HeldOnce(s, w);
    }
  }

  lemma HeldIsLocked(s: State, w: nat)
    requires w in s.open && s.open[w].Holding?
    ensures Locked(s, s.open[w].job)
  {
  }

  lemma OthersKeep(s: State, step: Step)
    requires Inv(s) && Enabled(s, step) && !step.Enqueue? && !(step.Commit? && s.open[step.w].Holding?)
    ensures Inv(Do(s, step))
  {
    var t := Do(s, step);
    forall job | job in t.jobs ensures Accounted(t, job) {
      assert Accounted(s, job);
    }
    forall w | w in t.open ensures HeldOnce(t, w) {
      if w in s.open { assert HeldOnce(s, w); }
      if w in s.open && s.open[w].Holding? { HeldIsLocked(s, w); }
    }
  }

  lemma InvPreserved(s: State, step: Step)
    requires Inv(s) && Enabled(s, step)
    ensures Inv(Do(s, step))
  {
    if step.Enqueue? {
      EnqueueKeeps(s, step);
    } else if step.Commit? && s.open[step.w].Holding? {
      CommitKeeps(s, step);
    } else {
      OthersKeep(s, step);
    }
  }

  // ------------------------------------------------------------- whole runs

  predicate Initial(s: State) {
    s.jobs == map[] && s.open == map[] && s.claims == []
  }

  ghost predicate Follows(states: seq<State>, steps: seq<Step>, n: nat)
    requires n < |steps| == |states| - 1
  {
    Enabled(states[n], steps[n]) && states[n + 1] == Do(states[n], steps[n])
  }

  ghost predicate IsRun(states: seq<State>, steps: seq<Step>) {
    && |states| == |steps| + 1 && Initial(states[0])
    && forall n :: 0 <= n < |steps| ==> Follows(states, steps, n)
  }

  lemma {:induction false} RunKeepsInv(states: seq<State>, steps: seq<Step>, n: nat)
    requires IsRun(states, steps) && n < |states|
    ensures Inv(states[n])
  {
    if n > 0 {
      assert Follows(states, steps, n - 1);
      RunKeepsInv(states, steps, n - 1);
      InvPreserved(states[n - 1], steps[n - 1]);
    }
  }

  /**
    In every run, the leases of one job never overlap and its attempts count its
    claims.
   */
  lemma LeasesDisjoint(states: seq<State>, steps: seq<Step>, n: nat, i: nat, j: nat)
    requires IsRun(states, steps) && n < |states| && i < j < |states[n].claims|
    requires states[n].claims[i].job == states[n].claims[j].job
    ensures var a, b := states[n].claims[i], states[n].claims[j];
            && a.from < a.until <= b.from < b.until
            && a.job in states[n].jobs && states[n].jobs[a.job].attempts == ClaimsOf(states[n].claims, a.job)
  {
    RunKeepsInv(states, steps, n);
  }

  /** A terminal job keeps its row, and nothing claims it. */
  lemma TerminalStep(s: State, step: Step, job: nat)
    requires Inv(s) && Enabled(s, step) && job in s.jobs && Terminal(s.jobs[job].state)
    ensures var t := Do(s, step);
            job in t.jobs && t.jobs[job] == s.jobs[job] && ClaimsOf(t.claims, job) == ClaimsOf(s.claims, job)
  {
    if step.Commit? && s.open[step.w].Holding? {
      assert HeldOnce(s, step.w);
      var tx := s.open[step.w];
      ClaimsSnoc(s.claims, Claim(tx.job, tx.at, tx.at + tx.lease), job);
    }
  }

  /** Once a job is terminal it is never claimed again, for the rest of the run. */
  lemma {:induction false} TerminalForever(states: seq<State>, steps: seq<Step>, m: nat, n: nat, job: nat)
    requires IsRun(states, steps) && m <= n < |states|
    requires job in states[m].jobs && Terminal(states[m].jobs[job].state)
    ensures job in states[n].jobs && states[n].jobs[job] == states[m].jobs[job]
    ensures ClaimsOf(states[n].claims, job) == ClaimsOf(states[m].claims, job)
    decreases n
  {
    if m < n {
      TerminalForever(states, steps, m, n - 1, job);
      RunKeepsInv(states, steps, n - 1);
      assert Follows(states, steps, n - 1);
      TerminalStep(states[n - 1], steps[n - 1], job);
    }
  }

  /** Two workers that hold rows at the same time hold different ones. */
  lemma ClaimsAreDisjoint(states: seq<State>, steps: seq<Step>, n: nat, v: nat, w: nat)
    requires IsRun(states, steps) && n < |states| && v in states[n].open && w in states[n].open && v != w
    requires states[n].open[v].Holding? && states[n].open[w].Holding?
    ensures states[n].open[v].job != states[n].open[w].job
  {
    RunKeepsInv(states, steps, n);
    assert HeldOnce(states[n], v);
  }

  /** A ready row is passed over for a later one only while another worker holds it. */
  lemma PassedOverIsHeld(states: seq<State>, steps: seq<Step>, n: nat, other: nat) returns (v: nat)
    requires IsRun(states, steps) && n < |steps| && steps[n].Take?
    requires other in states[n].jobs && other != steps[n].job && steps[n].w in states[n].open
    requires Ready(states[n].jobs[other], states[n].open[steps[n].w].at)
    requires steps[n].job in states[n].jobs && NotLater(states[n], other, steps[n].job)
    ensures v in states[n].open && v != steps[n].w && states[n].open[v].Holding? && states[n].open[v].job == other
  {
    assert Follows(states, steps, n);
    assert !Claimable(states[n], states[n].open[steps[n].w].at, other);
    v :| v in states[n].open && states[n].open[v].Holding? && states[n].open[v].job == other;
  }

  // -------------------------------------------------------------- progress

  /** A job that may be claimed now: never claimed, or its lease has run out, and no open transaction holds its row. */
  ghost predicate Waiting(s: State, job: nat) {
    && job in s.jobs
    && (s.jobs[job].state == Pending || exists until :: s.jobs[job].state == Leased(until) && until <= s.clock)
    && forall w :: w in s.open && s.open[w].Holding? ==> s.open[w].job != job
  }

  lemma WaitingIff(s: State, job: nat)
    ensures Waiting(s, job) <==> Claimable(s, s.clock, job)
  {
  }

  /** Some job of a set is the oldest. */
  lemma {:induction false} Oldest(s: State, jobs: set<nat>) returns (job: nat)
    requires jobs != {} && forall j :: j in jobs ==> j in s.jobs
    ensures job in jobs && forall other :: other in jobs ==> NotLater(s, job, other)
    decreases jobs
  {
    var j :| j in jobs;
    job := j;
    assert forall other :: other in jobs ==> other == j || other in jobs - {j};
    if jobs - {j} != {} {
      var oldest := Oldest(s, jobs - {j});
      if NotLater(s, oldest, j) {
        job := oldest;
      }
    }
  }

  /**
    As long as some job is waiting, a claim hands out the oldest one: begin, take
    and commit are enabled in turn, the row is leased from now for the lease asked
    for with one more attempt, and nothing else changes.
   */
  lemma ClaimHandsOut(s: State, w: nat, lease: int, some: nat) returns (job: nat)
    requires w !in s.open && lease > 0 && Waiting(s, some)
    ensures Waiting(s, job)
    ensures forall other :: Waiting(s, other) ==> s.jobs[job].createdAt < s.jobs[other].createdAt
                                                  || (s.jobs[job].createdAt == s.jobs[other].createdAt && job <= other)
    ensures Enabled(s, Begin(w)) && var begun := Do(s, Begin(w));
            Enabled(begun, Take(w, job, lease)) && var holding := Do(begun, Take(w, job, lease));
            Enabled(holding, Commit(w)) && var t := Do(holding, Commit(w));
            && t.jobs == s.jobs[job := Job(Leased(s.clock + lease), s.jobs[job].attempts + 1, s.jobs[job].createdAt)]
            && t.claims == s.claims + [Claim(job, s.clock, s.clock + lease)] && t.open == s.open && t.clock == s.clock
  {
    forall j ensures Waiting(s, j) <==> Claimable(s, s.clock, j) {
      WaitingIff(s, j);
    }
    var waiting := set j | j in s.jobs && Claimable(s, s.clock, j);
    assert some in waiting;
    job := Oldest(s, waiting);
    var begun := Do(s, Begin(w));
    forall j ensures Claimable(begun, s.clock, j) <==> Claimable(s, s.clock, j) {
      assert Locked(begun, j) <==> Locked(s, j) by {
        if v :| v in s.open && s.open[v].Holding? && s.open[v].job == j {
          assert v in begun.open && begun.open[v] == s.open[v];
        }
      }
    }
    assert forall other :: Waiting(s, other) ==> other in waiting;
    forall other | other in begun.jobs && Claimable(begun, s.clock, other) ensures NotLater(begun, job, other) {
      assert other in waiting && NotLater(s, job, other);
    }
    var holding := Do(begun, Take(w, job, lease));
    assert holding.open - {w} == s.open;
  }

  /** A transaction that is rolled back leaves the jobs alone and lets its row go. */
  lemma RollbackLetsGo(s: State, w: nat)
    requires Inv(s) && w in s.open
    ensures var t := Do(s, Rollback(w));
            && t.jobs == s.jobs && t.claims == s.claims && t.clock == s.clock && w !in t.open
            && (forall v :: v in s.open && v != w ==> v in t.open && t.open[v] == s.open[v])
            && (s.open[w].Holding? && Ready(s.jobs[s.open[w].job], s.clock) ==> Waiting(t, s.open[w].job))
  {
    assert HeldOnce(s, w);
    if s.open[w].Holding? {
      var t, job := Do(s, Rollback(w)), s.open[w].job;
      WaitingIff(t, job);
      forall v | v in t.open && t.open[v].Holding? ensures t.open[v].job != job {
        assert v in s.open && v != w;
      }
    }
  }

  /** A leased job waits again exactly from the moment its lease has run out. */
  lemma LeaseRunsOut(s: State, job: nat, until: int, elapsed: nat)
    requires job in s.jobs && s.jobs[job].state == Leased(until) && !Locked(s, job)
    ensures Waiting(Do(s, Tick(elapsed)), job) <==> until <= s.clock + elapsed
  {
    var t := Do(s, Tick(elapsed));
    forall v | v in t.open && t.open[v].Holding? ensures t.open[v].job != job {
      assert v in s.open;
    }
  }

  /** A new job waits, without an attempt. */
  lemma EnqueuedWaits(s: State, job: nat, createdAt: int)
    requires Inv(s) && job !in s.jobs
    ensures var t := Do(s, Enqueue(job, createdAt));
            Waiting(t, job) && t.jobs == s.jobs[job := Job(Pending, 0, createdAt)]
  {
    assert forall w :: w in s.open ==> HeldOnce(s, w);
  }

  /** Marking ends a leased job as asked, and leaves any other as it is. */
  lemma MarkEnds(s: State, job: nat, state: JobState)
    requires Enabled(s, Mark(job, state))
    ensures var t := Do(s, Mark(job, state));
            && t.open == s.open && t.claims == s.claims && t.clock == s.clock
            && t.jobs.Keys == s.jobs.Keys && (forall other :: other in s.jobs && other != job ==> t.jobs[other] == s.jobs[other])
            && t.jobs[job] == (if s.jobs[job].state.Leased? then Job(state, s.jobs[job].attempts, s.jobs[job].createdAt) else s.jobs[job])
  {
  }
}
