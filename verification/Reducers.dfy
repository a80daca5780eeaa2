/**
  Convergence reducers (internal/convergence/reducers.go): pure folds of signals
  into a verdict.

  Each loop is proved against a definition that does not mention its order, and
  each verdict, disposition and reason text alike, is the same for every
  permutation of the signals.
 */
module Reducers {
  import opened Options
  import opened Sequences
  import opened SortedStrings
  import Strings

  datatype Signal = Signal(kind: string, pass: Option<bool>, raw: string)

  datatype Disposition = Accept | Reject | Escalate

  datatype Verdict = Verdict(disposition: Disposition, reason: string)

  // ------------------------------------------------------------------- text

  function Digit(n: nat): (c: char)
    requires n < 10
  {
    (n + 48) as char
  }

  /** `%d` of a count. */
  function Decimal(n: nat): (s: string) {
    if n < 10 then [Digit(n)] else Decimal(n / 10) + [Digit(n % 10)]
  }

  // --------------------------------------------------------------- counting

  /** How many signals satisfy a predicate. */
  function Count(p: Signal -> bool, s: seq<Signal>): (n: nat) {
    if s == [] then 0 else Count(p, s[..|s| - 1]) + (if p(s[|s| - 1]) then 1 else 0)
  }

  lemma {:induction false} CountConcat(p: Signal -> bool, a: seq<Signal>, b: seq<Signal>)
    ensures Count(p, a + b) == Count(p, a) + Count(p, b)
    decreases |b|
  {
    if b == [] {
      assert a + b == a;
    } else {
      var front := b[..|b| - 1];
      assert (a + b)[..|a + b| - 1] == a + front;
      CountConcat(p, a, front);
    }
  }

  /** Counting forgets the order. */
  lemma {:induction false} CountPermuted(p: Signal -> bool, s: seq<Signal>, t: seq<Signal>)
    requires multiset(s) == multiset(t)
    ensures Count(p, s) == Count(p, t)
    decreases |s|
  {
    if s == [] {
      assert |multiset(t)| == 0;
    } else {
      var i := DropFromBoth(s, t);
      CountPermuted(p, s[..|s| - 1], t[..i] + t[i + 1..]);
      CountConcat(p, t[..i], t[i + 1..]);
      CountConcat(p, t[..i] + [t[i]], t[i + 1..]);
      CountConcat(p, t[..i], [t[i]]);
      assert [t[i]][..0] == [];
    }
  }

  lemma SameSignals(s: seq<Signal>, t: seq<Signal>)
    requires multiset(s) == multiset(t)
    ensures forall x :: x in s <==> x in t
  {
    forall x ensures x in s <==> x in t {
      assert x in s <==> x in multiset(s);
      assert x in t <==> x in multiset(t);
    }
  }

  /** A boolean signal of the configured kind; a blank kind takes every boolean signal. */
  predicate Votes(kind: string, s: Signal) {
    (kind == "" || s.kind == kind) && s.pass.Some?
  }

  function Passing(kind: string): (p: Signal -> bool) {
    (s: Signal) => Votes(kind, s) && s.pass.value
  }

  function Failing(kind: string): (p: Signal -> bool) {
    (s: Signal) => Votes(kind, s) && !s.pass.value
  }

  // ----------------------------------------------------------- majority vote

  /** The verdict for so many passing and failing votes. */
  function MajorityVerdict(pass: nat, fail: nat): (v: Verdict) {
    var total := pass + fail;
    if total == 0 then Verdict(Escalate, "no qualifying boolean signals to vote over")
    else if pass * 2 > total then Verdict(Accept, Decimal(pass) + "/" + Decimal(total) + " graders passed (majority)")
    else if fail * 2 > total then Verdict(Reject, Decimal(fail) + "/" + Decimal(total) + " graders failed (majority)")
    else Verdict(Escalate, "tie: " + Decimal(pass) + " pass, " + Decimal(fail) + " fail")
  }

  method MajorityVote(kind: string, signals: seq<Signal>) returns (v: Verdict)
    ensures v == MajorityVerdict(Count(Passing(kind), signals), Count(Failing(kind), signals))
  {
    var pass, fail := 0, 0;
    for i := 0 to |signals|
      invariant pass == Count(Passing(kind), signals[..i]) && fail == Count(Failing(kind), signals[..i])
    {
      assert signals[..i + 1][..i] == signals[..i];
      var s := signals[i];
      if Votes(kind, s) {
        if s.pass.value {
          pass := pass + 1;
        } else {
          fail := fail + 1;
        }
      }
    }
    assert signals[..|signals|] == signals;
    v := MajorityVerdict(pass, fail);
  }

  /** Accepted by a strict majority of passes, rejected by a strict majority of failures, escalated on a tie or silence. */
  lemma MajorityMeans(pass: nat, fail: nat)
    ensures var d := MajorityVerdict(pass, fail).disposition;
            && (d == Accept <==> pass > fail) && (d == Reject <==> fail > pass) && (d == Escalate <==> pass == fail)
  {
  }

  // --------------------------------------------------------------- unanimity

  function UnanimousVerdict(pass: nat, fail: nat): (v: Verdict) {
    var seen := pass + fail;
    if seen == 0 then Verdict(Escalate, "no qualifying boolean signals; cannot require unanimity")
    else if fail > 0 then Verdict(Reject, Decimal(fail) + "/" + Decimal(seen) + " graders failed; unanimity required")
    else Verdict(Accept, "all " + Decimal(seen) + " graders passed")
  }

  method Unanimous(kind: string, signals: seq<Signal>) returns (v: Verdict)
    ensures v == UnanimousVerdict(Count(Passing(kind), signals), Count(Failing(kind), signals))
  {
    var seen, failed := 0, 0;
    for i := 0 to |signals|
      invariant failed == Count(Failing(kind), signals[..i]) && seen == Count(Passing(kind), signals[..i]) + failed
    {
      assert signals[..i + 1][..i] == signals[..i];
      if Votes(kind, signals[i]) {
        seen := seen + 1;
        if !signals[i].pass.value {
          failed := failed + 1;
        }
      }
    }
    assert signals[..|signals|] == signals;
    v := UnanimousVerdict(seen - failed, failed);
  }

  lemma {:induction false} CountPositive(p: Signal -> bool, s: seq<Signal>)
    ensures Count(p, s) > 0 <==> exists x :: x in s && p(x)
  {
    if s != [] {
      var front, last := s[..|s| - 1], s[|s| - 1];
      assert s == front + [last];
      CountPositive(p, front);
    }
  }

  /** Accepted when somebody voted and nobody failed, rejected when somebody failed, escalated when nobody voted. */
  lemma UnanimousMeans(kind: string, signals: seq<Signal>)
    ensures var d := UnanimousVerdict(Count(Passing(kind), signals), Count(Failing(kind), signals)).disposition;
            && (d == Reject <==> exists s :: s in signals && Votes(kind, s) && !s.pass.value)
            && (d == Escalate <==> forall s :: s in signals ==> !Votes(kind, s))
            && (d == Accept <==> (exists s :: s in signals && Votes(kind, s))
                                 && forall s :: s in signals && Votes(kind, s) ==> s.pass.value)
  {
    CountPositive(Passing(kind), signals);
    CountPositive(Failing(kind), signals);
    assert forall s :: s in signals && Votes(kind, s) ==> Passing(kind)(s) || Failing(kind)(s);
  }

  /** Votes count the same in every order, so both verdicts do. */
  lemma VotesPermuted(kind: string, s: seq<Signal>, t: seq<Signal>)
    requires multiset(s) == multiset(t)
    ensures MajorityVerdict(Count(Passing(kind), s), Count(Failing(kind), s))
            == MajorityVerdict(Count(Passing(kind), t), Count(Failing(kind), t))
    ensures UnanimousVerdict(Count(Passing(kind), s), Count(Failing(kind), s))
            == UnanimousVerdict(Count(Passing(kind), t), Count(Failing(kind), t))
  {
    CountPermuted(Passing(kind), s, t);
    CountPermuted(Failing(kind), s, t);
  }

  // ---------------------------------------------------------------- checklist

  const ITEM_PREFIX: string := "checklist.item:"

  /** The signal reads the named check. */
  predicate Reads(s: Signal, name: string) {
    s.kind == ITEM_PREFIX + name && s.pass.Some?
  }

  ghost predicate Passes(signals: seq<Signal>, name: string) {
    exists i :: 0 <= i < |signals| && Reads(signals[i], name) && signals[i].pass.value
  }

  ghost predicate Fails(signals: seq<Signal>, name: string) {
    exists i :: 0 <= i < |signals| && Reads(signals[i], name) && !signals[i].pass.value
  }

  /** The required names in a set, in the order they are required. */
  function Among(required: seq<string>, names: set<string>): (s: seq<string>)
    ensures s == [] <==> forall i :: 0 <= i < |required| ==> required[i] !in names
  {
    if required == [] then []
    else
      var last := required[|required| - 1];
      var before := Among(required[..|required| - 1], names);
      if last in names then before + [last] else before
  }

  function ChecklistVerdict(required: seq<string>, failing: seq<string>, missing: seq<string>): (v: Verdict) {
    if required == [] then Verdict(Escalate, "no required checks declared; cannot claim convergence")
    else if missing == [] && failing == [] then Verdict(Accept, "all " + Decimal(|required|) + " required checks passed")
    else
      Verdict(Reject, Strings.Join((if failing != [] then ["failing: " + Strings.Join(Sort(failing), ", ")] else [])
                                   + (if missing != [] then ["missing: " + Strings.Join(Sort(missing), ", ")] else []), "; "))
  }

  /** The two maps of the checklist loop: a failure anywhere wins. */
  method Collapse(signals: seq<Signal>) returns (passed: set<string>, failed: set<string>)
    ensures forall name :: name in failed <==> Fails(signals, name)
    ensures forall name :: name in passed <==> Passes(signals, name) && !Fails(signals, name)
  {
    passed, failed := {}, {};
    for i := 0 to |signals|
      invariant forall name :: name in failed <==> Fails(signals[..i], name)
      invariant forall name :: name in passed <==> Passes(signals[..i], name) && !Fails(signals[..i], name)
    {
      var s := signals[i];
      forall name { SnocReads(signals, i, name); }
      if ITEM_PREFIX <= s.kind && s.pass.Some? {
        var name := s.kind[|ITEM_PREFIX|..];
        assert s.kind == ITEM_PREFIX + name;
        forall other | Reads(s, other) ensures other == name {
          assert s.kind[|ITEM_PREFIX|..] == other;
        }
        if s.pass.value {
          if name !in failed {
            passed := passed + {name};
          }
        } else {
          failed := failed + {name};
          passed := passed - {name};
        }
      }
    }
    assert signals[..|signals|] == signals;
  }

  lemma SnocReads(signals: seq<Signal>, i: nat, name: string)
    requires i < |signals|
    ensures Passes(signals[..i + 1], name) <==> Passes(signals[..i], name) || (Reads(signals[i], name) && signals[i].pass.value)
    ensures Fails(signals[..i + 1], name) <==> Fails(signals[..i], name) || (Reads(signals[i], name) && !signals[i].pass.value)
  {
    var before, upTo := signals[..i], signals[..i + 1];
    assert upTo[i] == signals[i];
    assert forall k :: 0 <= k < i ==> upTo[k] == before[k];
    if Passes(before, name) {
      var k :| 0 <= k < |before| && Reads(before[k], name) && before[k].pass.value;
      assert Reads(upTo[k], name) && upTo[k].pass.value;
    }
    if Fails(before, name) {
      var k :| 0 <= k < |before| && Reads(before[k], name) && !before[k].pass.value;
      assert Reads(upTo[k], name) && !upTo[k].pass.value;
    }
  }

  /** The required names that fail. */
  ghost function FailingNames(required: seq<string>, signals: seq<Signal>): (names: set<string>) {
    set name | name in required && Fails(signals, name)
  }

  /** The required names without any reading but those that fail. */
  ghost function MissingNames(required: seq<string>, signals: seq<Signal>): (names: set<string>) {
    set name | name in required && !Fails(signals, name) && !Passes(signals, name)
  }

  /** The verdict on a checklist. */
  ghost function ChecklistOf(required: seq<string>, signals: seq<Signal>): (v: Verdict) {
    ChecklistVerdict(required, Among(required, FailingNames(required, signals)), Among(required, MissingNames(required, signals)))
  }

  /** The two loops of the checklist reducer. */
  method AllPassChecklist(required: seq<string>, signals: seq<Signal>) returns (v: Verdict)
    ensures v == ChecklistOf(required, signals)
  {
    var passed, failed := Collapse(signals);
    var failing, missing := [], [];
    ghost var bad, absent := FailingNames(required, signals), MissingNames(required, signals);
    for i := 0 to |required|
      invariant failing == Among(required[..i], bad) && missing == Among(required[..i], absent)
    {
      assert required[..i + 1][..i] == required[..i];
      var name := required[i];
      if name in failed {
        failing := failing + [name];
      } else if name !in passed {
        missing := missing + [name];
      }
    }
    assert required[..|required|] == required;
    v := ChecklistVerdict(required, failing, missing);
  }

  /**
    Accepted exactly when something is required and every required name has a
    passing and no failing signal; escalated exactly when nothing is required.
   */
  lemma ChecklistMeans(required: seq<string>, signals: seq<Signal>)
    ensures ChecklistOf(required, signals).disposition == Accept <==>
              required != [] && forall name :: name in required ==> Passes(signals, name) && !Fails(signals, name)
    ensures ChecklistOf(required, signals).disposition == Escalate <==> required == []
  {
    var bad, absent := FailingNames(required, signals), MissingNames(required, signals);
    forall name | name in required ensures name in bad || name in absent || (Passes(signals, name) && !Fails(signals, name)) {
    }
    if forall name :: name in required ==> Passes(signals, name) && !Fails(signals, name) {
      assert forall i :: 0 <= i < |required| ==> required[i] in required;
    }
  }

  lemma ReadsPermuted(s: seq<Signal>, t: seq<Signal>, name: string)
    requires forall x :: x in s <==> x in t
    ensures Passes(s, name) <==> Passes(t, name)
    ensures Fails(s, name) <==> Fails(t, name)
  {
    if Passes(s, name) {
      var i :| 0 <= i < |s| && Reads(s[i], name) && s[i].pass.value;
      assert s[i] in t;
      var j :| 0 <= j < |t| && t[j] == s[i];
    }
    if Passes(t, name) {
      var i :| 0 <= i < |t| && Reads(t[i], name) && t[i].pass.value;
      assert t[i] in s;
      var j :| 0 <= j < |s| && s[j] == t[i];
    }
    if Fails(s, name) {
      var i :| 0 <= i < |s| && Reads(s[i], name) && !s[i].pass.value;
      assert s[i] in t;
      var j :| 0 <= j < |t| && t[j] == s[i];
    }
    if Fails(t, name) {
      var i :| 0 <= i < |t| && Reads(t[i], name) && !t[i].pass.value;
      assert t[i] in s;
      var j :| 0 <= j < |s| && s[j] == t[i];
    }
  }

  /** The checklist verdict is the same for every permutation of the signals. */
  lemma ChecklistPermuted(required: seq<string>, s: seq<Signal>, t: seq<Signal>)
    requires multiset(s) == multiset(t)
    ensures ChecklistOf(required, s) == ChecklistOf(required, t)
  {
    SameSignals(s, t);
    forall name ensures (Passes(s, name) <==> Passes(t, name)) && (Fails(s, name) <==> Fails(t, name)) {
      ReadsPermuted(s, t, name);
    }
    assert FailingNames(required, s) == FailingNames(required, t);
    assert MissingNames(required, s) == MissingNames(required, t);
  }

  // ----------------------------------------------------------- checks proposal

  const VALID_KIND: string := "checks_proposal.valid"

  predicate Validates(s: Signal) {
    s.kind == VALID_KIND && s.pass.Some?
  }

  function FailureReason(s: Signal): (r: string) {
    var reason := Strings.TrimSpace(s.raw);
    if reason == "" then "proposal validation failed" else reason
  }

  /** The reasons of the failing validations, in signal order. */
  function Failures(signals: seq<Signal>): (reasons: seq<string>) {
    if signals == [] then []
    else
      var last := signals[|signals| - 1];
      var before := Failures(signals[..|signals| - 1]);
      if Validates(last) && !last.pass.value then before + [FailureReason(last)] else before
  }

  ghost predicate SawPass(signals: seq<Signal>) {
    exists i :: 0 <= i < |signals| && Validates(signals[i]) && signals[i].pass.value
  }

  function ProposalVerdict(failures: seq<string>, sawPass: bool): (v: Verdict) {
    if failures != [] then Verdict(Reject, Strings.Join(Sort(failures), "; "))
    else if sawPass then Verdict(Accept, "checks proposal validated")
    else Verdict(Escalate, "no checks_proposal.valid signal")
  }

  method ChecksProposal(signals: seq<Signal>) returns (v: Verdict)
    ensures v == ProposalVerdict(Failures(signals), SawPass(signals))
  {
    var sawPass, failures := false, [];
    for i := 0 to |signals|
      invariant failures == Failures(signals[..i])
      invariant sawPass <==> exists k :: 0 <= k < i && Validates(signals[k]) && signals[k].pass.value
    {
      assert signals[..i + 1][..i] == signals[..i];
      if Validates(signals[i]) {
        if signals[i].pass.value {
          sawPass := true;
        } else {
          failures := failures + [FailureReason(signals[i])];
        }
      }
    }
    assert signals[..|signals|] == signals;
    v := ProposalVerdict(failures, sawPass);
  }

  lemma {:induction false} FailuresConcat(a: seq<Signal>, b: seq<Signal>)
    ensures Failures(a + b) == Failures(a) + Failures(b)
    decreases |b|
  {
    if b == [] {
      assert a + b == a;
    } else {
      var front := b[..|b| - 1];
      assert (a + b)[..|a + b| - 1] == a + front;
      FailuresConcat(a, front);
    }
  }

  lemma {:induction false} FailuresPermuted(s: seq<Signal>, t: seq<Signal>)
    requires multiset(s) == multiset(t)
    ensures multiset(Failures(s)) == multiset(Failures(t))
    decreases |s|
  {
    if s == [] {
      assert |multiset(t)| == 0;
    } else {
      var i := DropFromBoth(s, t);
      FailuresPermuted(s[..|s| - 1], t[..i] + t[i + 1..]);
      FailuresConcat(t[..i], t[i + 1..]);
      FailuresConcat(t[..i] + [t[i]], t[i + 1..]);
      FailuresConcat(t[..i], [t[i]]);
      assert [t[i]][..0] == [];
    }
  }

  lemma {:induction false} FailuresMean(signals: seq<Signal>)
    ensures Failures(signals) != [] <==> exists s :: s in signals && Validates(s) && !s.pass.value
  {
    if signals != [] {
      var front, last := signals[..|signals| - 1], signals[|signals| - 1];
      assert signals == front + [last];
      FailuresMean(front);
    }
  }

  /** Rejected exactly when some validity signal failed, accepted exactly when one passed and none failed. */
  lemma ProposalMeans(signals: seq<Signal>)
    ensures var d := ProposalVerdict(Failures(signals), SawPass(signals)).disposition;
            && (d == Reject <==> exists s :: s in signals && Validates(s) && !s.pass.value)
            && (d == Accept <==> (exists s :: s in signals && Validates(s))
                                 && forall s :: s in signals && Validates(s) ==> s.pass.value)
  {
    FailuresMean(signals);
    assert SawPass(signals) <==> exists s :: s in signals && Validates(s) && s.pass.value;
  }

  /** The proposal verdict is the same for every permutation of the signals. */
  lemma ProposalPermuted(s: seq<Signal>, t: seq<Signal>)
    requires multiset(s) == multiset(t)
    ensures ProposalVerdict(Failures(s), SawPass(s)) == ProposalVerdict(Failures(t), SawPass(t))
  {
    FailuresPermuted(s, t);
    SortUnique(Failures(s), Failures(t));
    assert |Failures(s)| == |multiset(Failures(s))| == |multiset(Failures(t))| == |Failures(t)|;
    SameSignals(s, t);
    SawPassPermuted(s, t);
  }

  lemma SawPassPermuted(s: seq<Signal>, t: seq<Signal>)
    requires forall x :: x in s <==> x in t
    ensures SawPass(s) <==> SawPass(t)
  {
    if SawPass(s) {
      var i :| 0 <= i < |s| && Validates(s[i]) && s[i].pass.value;
      assert s[i] in t;
      var j :| 0 <= j < |t| && t[j] == s[i];
    }
    if SawPass(t) {
      var i :| 0 <= i < |t| && Validates(t[i]) && t[i].pass.value;
      assert t[i] in s;
      var j :| 0 <= j < |s| && s[j] == t[i];
    }
  }
}
