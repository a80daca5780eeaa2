/**
  Proposing convergence checks (internal/convergence/checks_proposal.go): a
  scribe child proposes a checklist for its parent, the proposal is validated
  and reduced, and the verdict is recorded.

  `Board.Propose` is the transaction; `AttemptsCount`, `ChecksStick` and
  `RepeatRecordsNothing` say what every run of proposals on one parent keeps.
 */
module ChecksProposal {
  import opened Options
  import opened Reducers
  import opened WorkItems
  import Strings
  import Uuids

  datatype Classification = Classification(check: string, cls: string)

  /** What is proposed; proposalOf is the scribe child it claims to come from. */
  datatype Proposal = Proposal(
    proposalOf: Uuids.Uuid, checks: seq<string>, classified: seq<Classification>, rationale: string, cultivar: string)

  const MAX_ATTEMPTS: nat := 3

  const MACHINE: string := "machine"
  const HUMAN: string := "human"
  const COMMAND_PREFIX: string := "cmd:"
  const EVENT_PREFIX: string := "event:"
  const QUERY_PREFIX: string := "query:"
  const HUMAN_PREFIX: string := "human-ack:"
  const KNOWN_QUERY: string := "parent_checks_defined"

  // -------------------------------------------------------------- validation

  predicate MachineCheck(c: string) {
    COMMAND_PREFIX <= c || EVENT_PREFIX <= c || QUERY_PREFIX <= c
  }

  predicate KnownCheck(c: string) {
    MachineCheck(c) || HUMAN_PREFIX <= c
  }

  datatype Checked = Good(checks: seq<string>) | BadChecks(reason: string)

  /** The first loop: trimmed, not blank, not repeated. */
  function CheckAll(checks: seq<string>): (r: Checked)
    ensures r.Good? ==> |r.checks| == |checks|
  {
    if checks == [] then Good([])
    else
      var n := |checks| - 1;
      var before := CheckAll(checks[..n]);
      var trimmed := Strings.TrimSpace(checks[n]);
      if before.BadChecks? then before
      else if trimmed == "" then BadChecks("blank_check:" + Decimal(n))
      else if trimmed in before.checks then BadChecks("duplicate_check:" + trimmed)
      else Good(before.checks + [trimmed])
  }

  datatype Classified = Classes(of: map<string, string>) | BadClasses(reason: string)

  /** The second loop: a class that is not blank may not be given twice. */
  function ClassifyAll(entries: seq<Classification>): (r: Classified) {
    if entries == [] then Classes(map[])
    else
      var last := entries[|entries| - 1];
      var before := ClassifyAll(entries[..|entries| - 1]);
      var check, cls := Strings.TrimSpace(last.check), Strings.TrimSpace(last.cls);
      if before.BadClasses? then before
      else if check == "" then BadClasses("blank_classified_check")
      else if check in before.of && before.of[check] != "" then BadClasses("duplicate_classification:" + check)
      else Classes(before.of[check := cls])
  }

  function ClassOf(m: map<string, string>, check: string): (cls: string) {
    if check in m then m[check] else ""
  }

  /** What the last loop says of one check. */
  function CheckError(check: string, cls: string): (e: Option<string>) {
    if cls == "" then Some("missing_classification:" + check)
    else if !KnownCheck(check) then Some("unclassified_check:" + check)
    else if cls == MACHINE && !MachineCheck(check) then Some("classification_mismatch:" + check)
    else if cls == HUMAN && !(HUMAN_PREFIX <= check) then Some("classification_mismatch:" + check)
    else if cls != MACHINE && cls != HUMAN then Some("invalid_classification:" + check)
    else if QUERY_PREFIX <= check && check[|QUERY_PREFIX|..] != KNOWN_QUERY then Some("unknown_query_check:" + check[|QUERY_PREFIX|..])
    else None
  }

  /** The classes fit the checks: none is for an unknown check, and each check has one that suits it. */
  predicate Suits(checks: seq<string>, m: map<string, string>) {
    (forall c :: c in m ==> c in checks) && (forall i :: 0 <= i < |checks| ==> CheckError(checks[i], ClassOf(m, checks[i])).None?)
  }

  /** What `ValidateChecksProposal` accepts. */
  predicate Acceptable(p: Proposal, alreadyDefined: bool, childValid: bool) {
    && childValid && !alreadyDefined
    && CheckAll(p.checks).Good? && p.checks != []
    && ClassifyAll(p.classified).Classes?
    && Suits(CheckAll(p.checks).checks, ClassifyAll(p.classified).of)
  }

  datatype Validation = Validation(accept: bool, reason: string, checks: seq<string>)

  function Refused(reason: string): (v: Validation) {
    Validation(false, reason, [])
  }

  method CheckLoop(checks: seq<string>) returns (r: Checked)
    ensures r == CheckAll(checks)
  {
    r := Good([]);
    for i := 0 to |checks|
      invariant r == CheckAll(checks[..i])
    {
      assert checks[..i + 1][..i] == checks[..i];
      if r.Good? {
        var trimmed := Strings.TrimSpace(checks[i]);
        if trimmed == "" {
          r := BadChecks("blank_check:" + Decimal(i));
        } else if trimmed in r.checks {
          r := BadChecks("duplicate_check:" + trimmed);
        } else {
          r := Good(r.checks + [trimmed]);
        }
      }
    }
    assert checks[..|checks|] == checks;
  }

  method ClassifyLoop(entries: seq<Classification>) returns (r: Classified)
    ensures r == ClassifyAll(entries)
  {
    r := Classes(map[]);
    for i := 0 to |entries|
      invariant r == ClassifyAll(entries[..i])
    {
      assert entries[..i + 1][..i] == entries[..i];
      if r.Classes? {
        var check := Strings.TrimSpace(entries[i].check);
        if check == "" {
          r := BadClasses("blank_classified_check");
        } else if check in r.of && r.of[check] != "" {
          r := BadClasses("duplicate_classification:" + check);
        } else {
          r := Classes(r.of[check := Strings.TrimSpace(entries[i].cls)]);
        }
      }
    }
    assert entries[..|entries|] == entries;
  }

  /** What the first check from the i-th on whose class does not suit it is refused for. */
  function ErrorFrom(checks: seq<string>, m: map<string, string>, i: nat): (e: Option<string>)
    requires i <= |checks|
    ensures e.None? <==> forall k :: i <= k < |checks| ==> CheckError(checks[k], ClassOf(m, checks[k])).None?
    decreases |checks| - i
  {
    if i == |checks| then None
    else
      var error := CheckError(checks[i], ClassOf(m, checks[i]));
      if error.Some? then error else ErrorFrom(checks, m, i + 1)
  }

  /** The last loop. */
  method FirstError(checks: seq<string>, m: map<string, string>) returns (error: Option<string>)
    ensures error == ErrorFrom(checks, m, 0)
  {
    for i := 0 to |checks|
      invariant ErrorFrom(checks, m, 0) == ErrorFrom(checks, m, i)
    {
      error := CheckError(checks[i], ClassOf(m, checks[i]));
      if error.Some? {
        return;
      }
    }
    error := None;
  }

  /** A class is given for a check that is not proposed. */
  predicate NamesUnknown(p: Proposal)
    requires CheckAll(p.checks).Good? && ClassifyAll(p.classified).Classes?
  {
    exists c :: c in ClassifyAll(p.classified).of && c !in CheckAll(p.checks).checks
  }

  /**
    What a proposal that is not acceptable may be refused for.  It is one text,
    except that any unknown classified check may be named: which one follows the
    order of a Go map.
   */
  ghost predicate RefusedFor(p: Proposal, alreadyDefined: bool, childValid: bool, reason: string) {
    var checked, classes := CheckAll(p.checks), ClassifyAll(p.classified);
    if !childValid then reason == "invalid_scribe_child"
    else if alreadyDefined then reason == "checks_already_defined"
    else if checked.BadChecks? then reason == checked.reason
    else if p.checks == [] then reason == "empty_checks"
    else if classes.BadClasses? then reason == classes.reason
    else if NamesUnknown(p) then
      exists c :: c in classes.of && c !in checked.checks && reason == "classification_for_unknown_check:" + c
    else Some(reason) == ErrorFrom(checked.checks, classes.of, 0)
  }

  /** What validation may say of a proposal. */
  ghost predicate Outcome(p: Proposal, alreadyDefined: bool, childValid: bool, v: Validation) {
    if Acceptable(p, alreadyDefined, childValid)
    then v == Validation(true, "checks proposal validated", CheckAll(p.checks).checks)
    else v == Refused(v.reason) && RefusedFor(p, alreadyDefined, childValid, v.reason)
  }

  /** `ValidateChecksProposal`: accepted exactly when acceptable, with the trimmed checks, and refused for a reason of its own. */
  method Validate(p: Proposal, alreadyDefined: bool, childValid: bool) returns (v: Validation)
    ensures v.accept <==> Acceptable(p, alreadyDefined, childValid)
    ensures Outcome(p, alreadyDefined, childValid, v)
  {
    if !childValid {
      return Refused("invalid_scribe_child");
    }
    if alreadyDefined {
      return Refused("checks_already_defined");
    }
    var checked := CheckLoop(p.checks);
    if checked.BadChecks? {
      return Refused(checked.reason);
    }
    if checked.checks == [] {
      return Refused("empty_checks");
    }
    var classes := ClassifyLoop(p.classified);
    if classes.BadClasses? {
      return Refused(classes.reason);
    }
    var unknown := set c | c in classes.of && c !in checked.checks;
    if unknown != {} {
      var c :| c in unknown;
      return Refused("classification_for_unknown_check:" + c);
    }
    assert !NamesUnknown(p) by {
      assert forall c :: c in classes.of && c !in checked.checks ==> c in unknown;
    }
    var error := FirstError(checked.checks, classes.of);
    if error.Some? {
      return Refused(error.value);
    }
    v := Validation(true, "checks proposal validated", checked.checks);
  }

  /** Validation is a function of its input, unless an unknown check is classified. */
  lemma OutcomeUnique(p: Proposal, alreadyDefined: bool, childValid: bool, v: Validation, u: Validation)
    requires Outcome(p, alreadyDefined, childValid, v) && Outcome(p, alreadyDefined, childValid, u)
    requires CheckAll(p.checks).Good? && ClassifyAll(p.classified).Classes? ==> !NamesUnknown(p)
    ensures v == u
  {
  }

  /** What acceptance means for the checks: no blank, no repetition, and a class that suits each of them. */
  lemma {:induction false} CheckedShape(checks: seq<string>)
    requires CheckAll(checks).Good?
    ensures var cs := CheckAll(checks).checks;
            && |cs| == |checks|
            && (forall i :: 0 <= i < |cs| ==> cs[i] != "" && cs[i] == Strings.TrimSpace(checks[i]))
            && (forall i, j :: 0 <= i < j < |cs| ==> cs[i] != cs[j])
    decreases |checks|
  {
    if checks != [] {
      CheckedShape(checks[..|checks| - 1]);
    }
  }

  lemma AcceptedChecks(p: Proposal, alreadyDefined: bool, childValid: bool, checks: seq<string>, i: nat)
    requires Acceptable(p, alreadyDefined, childValid) && CheckAll(p.checks) == Good(checks) && i < |checks|
    ensures checks[i] != "" && forall j :: 0 <= j < |checks| && j != i ==> checks[j] != checks[i]
    ensures var cls := ClassOf(ClassifyAll(p.classified).of, checks[i]);
            || (cls == MACHINE && MachineCheck(checks[i]))
            || (cls == HUMAN && HUMAN_PREFIX <= checks[i])
    ensures QUERY_PREFIX <= checks[i] ==> checks[i] == QUERY_PREFIX + KNOWN_QUERY
  {
    CheckedShape(p.checks);
    SuitingClass(checks[i], ClassOf(ClassifyAll(p.classified).of, checks[i]));
  }

  lemma SuitingClass(check: string, cls: string)
    requires CheckError(check, cls).None?
    ensures (cls == MACHINE && MachineCheck(check)) || (cls == HUMAN && HUMAN_PREFIX <= check)
    ensures QUERY_PREFIX <= check ==> check == QUERY_PREFIX + KNOWN_QUERY
  {
    assert QUERY_PREFIX <= check ==> check == QUERY_PREFIX + check[|QUERY_PREFIX|..];
  }

  // ------------------------------------------------------ what is accepted

  ghost predicate Distinct(texts: seq<string>) {
    forall i, j :: 0 <= i < j < |texts| ==> Strings.TrimSpace(texts[i]) != Strings.TrimSpace(texts[j])
  }

  ghost predicate NoneBlank(texts: seq<string>) {
    forall i :: 0 <= i < |texts| ==> Strings.TrimSpace(texts[i]) != ""
  }

  /** Checks that are fine so far stay fine when another one is new and not blank. */
  lemma OneMoreCheck(checks: seq<string>, before: seq<string>)
    requires checks != [] && var n := |checks| - 1; |before| == n && forall i :: 0 <= i < n ==> before[i] == Strings.TrimSpace(checks[i])
    requires NoneBlank(checks[..|checks| - 1]) && Distinct(checks[..|checks| - 1])
    ensures var trimmed := Strings.TrimSpace(checks[|checks| - 1]);
            NoneBlank(checks) && Distinct(checks) <==> trimmed != "" && trimmed !in before
  {
    var n := |checks| - 1;
    var front, trimmed := checks[..n], Strings.TrimSpace(checks[n]);
    assert forall i :: 0 <= i < n ==> front[i] == checks[i];
    if trimmed in before {
      var i :| 0 <= i < n && before[i] == trimmed;
      assert !Distinct(checks);
    } else {
      forall i, j | 0 <= i < j < |checks| ensures Strings.TrimSpace(checks[i]) != Strings.TrimSpace(checks[j]) {
        if j < n {
          assert Strings.TrimSpace(front[i]) != Strings.TrimSpace(front[j]);
        } else {
          assert before[i] == Strings.TrimSpace(checks[i]);
        }
      }
    }
  }

  lemma FineBefore(checks: seq<string>, n: nat)
    requires n <= |checks| && NoneBlank(checks) && Distinct(checks)
    ensures NoneBlank(checks[..n]) && Distinct(checks[..n])
  {
    assert forall i :: 0 <= i < n ==> checks[..n][i] == checks[i];
  }

  lemma {:induction false} ChecksMean(checks: seq<string>)
    ensures CheckAll(checks).Good? <==> NoneBlank(checks) && Distinct(checks)
    decreases |checks|
  {
    if checks != [] {
      var n := |checks| - 1;
      ChecksMean(checks[..n]);
      if CheckAll(checks[..n]).Good? {
        CheckedShape(checks[..n]);
        OneMoreCheck(checks, CheckAll(checks[..n]).checks);
      } else if NoneBlank(checks) && Distinct(checks) {
        FineBefore(checks, n);
      }
    }
  }

  ghost function Key(e: Classification): (check: string) {
    Strings.TrimSpace(e.check)
  }

  ghost function Cls(e: Classification): (cls: string) {
    Strings.TrimSpace(e.cls)
  }

  /** No entry is for a blank check, and none follows one that gave its check a class. */
  ghost predicate ClassedOnce(entries: seq<Classification>) {
    && (forall k :: 0 <= k < |entries| ==> Key(entries[k]) != "")
    && (forall j, k :: 0 <= j < k < |entries| && Key(entries[j]) == Key(entries[k]) ==> Cls(entries[j]) == "")
  }

  /** The check has an entry that gives it this class. */
  ghost predicate Given(entries: seq<Classification>, check: string, cls: string) {
    exists k :: 0 <= k < |entries| && Key(entries[k]) == check && Cls(entries[k]) == cls
  }

  /** The map holds, for every check with an entry, one of its classes, and the one that is not blank. */
  ghost predicate Holds(entries: seq<Classification>, of: map<string, string>) {
    && (forall check :: check in of ==> Given(entries, check, of[check]))
    && (forall k :: 0 <= k < |entries| ==>
          Key(entries[k]) in of && (Cls(entries[k]) == "" || of[Key(entries[k])] == Cls(entries[k])))
  }

  lemma GivenOn(entries: seq<Classification>, e: Classification, check: string, cls: string)
    ensures Given(entries + [e], check, cls) <==> Given(entries, check, cls) || (Key(e) == check && Cls(e) == cls)
  {
    var more := entries + [e];
    assert more[|entries|] == e;
    if k :| 0 <= k < |entries| && Key(entries[k]) == check && Cls(entries[k]) == cls {
      assert more[k] == entries[k];
    }
  }

  /** No entry gives the check a class yet. */
  ghost predicate Unclassed(entries: seq<Classification>, check: string) {
    forall j :: 0 <= j < |entries| && Key(entries[j]) == check ==> Cls(entries[j]) == ""
  }

  lemma ClassedOn(entries: seq<Classification>, e: Classification)
    requires ClassedOnce(entries)
    ensures ClassedOnce(entries + [e]) <==> Key(e) != "" && Unclassed(entries, Key(e))
  {
    var more, n := entries + [e], |entries|;
    assert more[n] == e && forall k :: 0 <= k < n ==> more[k] == entries[k];
    if ClassedOnce(more) {
      forall j | 0 <= j < n && Key(entries[j]) == Key(e) ensures Cls(entries[j]) == "" {
        assert Key(more[j]) == Key(more[n]);
      }
    }
  }

  lemma UnclassedIff(entries: seq<Classification>, of: map<string, string>, check: string)
    requires Holds(entries, of)
    ensures Unclassed(entries, check) <==> check !in of || of[check] == ""
  {
    if check in of {
      assert Given(entries, check, of[check]);
      var k :| 0 <= k < |entries| && Key(entries[k]) == check && Cls(entries[k]) == of[check];
    }
  }

  lemma HoldsSnoc(entries: seq<Classification>, e: Classification, of: map<string, string>)
    requires ClassedOnce(entries + [e]) && Holds(entries, of)
    ensures Holds(entries + [e], of[Key(e) := Cls(e)])
  {
    var more, after, n := entries + [e], of[Key(e) := Cls(e)], |entries|;
    assert more[n] == e && forall k :: 0 <= k < n ==> more[k] == entries[k];
    forall c | c in after ensures Given(more, c, after[c]) {
      GivenOn(entries, e, c, after[c]);
    }
    forall k | 0 <= k < |more|
      ensures Key(more[k]) in after && (Cls(more[k]) == "" || after[Key(more[k])] == Cls(more[k]))
    {
      if k < n && Key(more[k]) == Key(e) {
        assert Key(more[k]) == Key(more[n]);
      }
    }
  }

  lemma ClassedBefore(entries: seq<Classification>, n: nat)
    requires n <= |entries| && ClassedOnce(entries)
    ensures ClassedOnce(entries[..n])
  {
    assert forall k :: 0 <= k < n ==> entries[..n][k] == entries[k];
  }

  lemma {:induction false} ClassesMean(entries: seq<Classification>)
    ensures ClassifyAll(entries).Classes? <==> ClassedOnce(entries)
    ensures ClassifyAll(entries).Classes? ==> Holds(entries, ClassifyAll(entries).of)
    decreases |entries|
  {
    if entries != [] {
      var front, last := entries[..|entries| - 1], entries[|entries| - 1];
      assert entries == front + [last];
      ClassesMean(front);
      if ClassifyAll(front).Classes? {
        ClassedOn(front, last);
        UnclassedIff(front, ClassifyAll(front).of, Key(last));
        if ClassedOnce(entries) {
          HoldsSnoc(front, last, ClassifyAll(front).of);
        }
      } else if ClassedOnce(entries) {
        ClassedBefore(entries, |entries| - 1);
      }
    }
  }

  /** A class suits a check by its prefix, and only one query is known. */
  ghost predicate Fits(check: string, cls: string) {
    || (cls == "machine" && ("cmd:" <= check || "event:" <= check || check == "query:parent_checks_defined"))
    || (cls == "human" && "human-ack:" <= check)
  }

  lemma FitsIff(check: string, cls: string)
    ensures CheckError(check, cls).None? <==> Fits(check, cls)
  {
    assert QUERY_PREFIX + KNOWN_QUERY == "query:parent_checks_defined";
    if QUERY_PREFIX <= check {
      assert check[0] == 'q' && check == QUERY_PREFIX + check[|QUERY_PREFIX|..];
    }
    if check == "query:parent_checks_defined" {
      assert check[|QUERY_PREFIX|..] == KNOWN_QUERY;
    }
  }

  ghost predicate Proposed(p: Proposal, check: string) {
    exists i :: 0 <= i < |p.checks| && Strings.TrimSpace(p.checks[i]) == check
  }

  /** The check has an entry whose class suits it. */
  ghost predicate Suited(p: Proposal, check: string) {
    exists cls :: Given(p.classified, check, cls) && Fits(check, cls)
  }

  /** Every entry is for a proposed check. */
  ghost predicate OnlyProposed(p: Proposal) {
    forall k :: 0 <= k < |p.classified| ==> Proposed(p, Key(p.classified[k]))
  }

  /** Every proposed check has an entry whose class suits it. */
  ghost predicate AllSuited(p: Proposal) {
    forall i :: 0 <= i < |p.checks| ==> Suited(p, Strings.TrimSpace(p.checks[i]))
  }

  lemma SuitedIff(p: Proposal, of: map<string, string>, check: string)
    requires Holds(p.classified, of)
    ensures CheckError(check, ClassOf(of, check)).None? <==> Suited(p, check)
  {
    FitsIff(check, ClassOf(of, check));
    if Suited(p, check) {
      var cls :| Given(p.classified, check, cls) && Fits(check, cls);
      var k :| 0 <= k < |p.classified| && Key(p.classified[k]) == check && Cls(p.classified[k]) == cls;
      assert of[check] == cls;
    }
    if Fits(check, ClassOf(of, check)) {
      assert Given(p.classified, check, of[check]);
    }
  }

  lemma EachSuited(p: Proposal, checks: seq<string>, of: map<string, string>)
    requires CheckAll(p.checks) == Good(checks) && Holds(p.classified, of)
    ensures (forall i :: 0 <= i < |checks| ==> CheckError(checks[i], ClassOf(of, checks[i])).None?)
            <==> AllSuited(p)
  {
    CheckedShape(p.checks);
    forall i | 0 <= i < |checks|
      ensures CheckError(checks[i], ClassOf(of, checks[i])).None? <==> Suited(p, Strings.TrimSpace(p.checks[i]))
    {
      SuitedIff(p, of, checks[i]);
    }
  }

  lemma ProposedIff(p: Proposal, checks: seq<string>, c: string)
    requires CheckAll(p.checks) == Good(checks)
    ensures c in checks <==> Proposed(p, c)
  {
    CheckedShape(p.checks);
    if c in checks {
      var i :| 0 <= i < |checks| && checks[i] == c;
      assert Strings.TrimSpace(p.checks[i]) == c;
    }
  }

  lemma KeysIff(p: Proposal, checks: seq<string>, of: map<string, string>)
    requires CheckAll(p.checks) == Good(checks) && Holds(p.classified, of)
    ensures (forall c :: c in of ==> c in checks) <==> OnlyProposed(p)
  {
    if forall c :: c in of ==> c in checks {
      forall k | 0 <= k < |p.classified| ensures Proposed(p, Key(p.classified[k])) {
        ProposedIff(p, checks, Key(p.classified[k]));
      }
    }
    if OnlyProposed(p) {
      forall c | c in of ensures c in checks {
        assert Given(p.classified, c, of[c]);
        var k :| 0 <= k < |p.classified| && Key(p.classified[k]) == c && Cls(p.classified[k]) == of[c];
        ProposedIff(p, checks, c);
      }
    }
  }

  lemma SuitsIff(p: Proposal, checks: seq<string>, of: map<string, string>)
    requires CheckAll(p.checks) == Good(checks) && Holds(p.classified, of)
    ensures Suits(checks, of) <==> OnlyProposed(p) && AllSuited(p)
  {
    EachSuited(p, checks, of);
    KeysIff(p, checks, of);
  }

  /**
    A proposal is accepted exactly when it comes from the valid scribe child of a
    parent without checks, proposes some checks, none of them blank or repeated,
    and classes them all once, suitably, and nothing else.
   */
  lemma AcceptedIff(p: Proposal, alreadyDefined: bool, childValid: bool)
    ensures Acceptable(p, alreadyDefined, childValid)
            <==> && childValid && !alreadyDefined && p.checks != [] && NoneBlank(p.checks) && Distinct(p.checks)
                 && ClassedOnce(p.classified) && OnlyProposed(p) && AllSuited(p)
  {
    ChecksMean(p.checks);
    ClassesMean(p.classified);
    if CheckAll(p.checks).Good? && ClassifyAll(p.classified).Classes? {
      SuitsIff(p, CheckAll(p.checks).checks, ClassifyAll(p.classified).of);
    }
  }

  // ---------------------------------------------------------------- verdicts

  /** What the inputs digest is a hash of: the proposal and what validation said of it. */
  datatype Inputs = Inputs(payload: Proposal, accept: bool, reason: string)

  datatype VerdictRow = VerdictRow(attempt: nat, inputs: Inputs, verdict: Verdict)

  datatype Child = Child(state: WorkItemState, reviewBlocked: bool)

  /** One parent with its scribe child and the verdicts recorded for it. */
  datatype View = View(checks: seq<string>, child: Child, verdicts: seq<VerdictRow>)

  function Payload(p: Proposal): (q: Proposal) {
    p.(rationale := Strings.TrimSpace(p.rationale), cultivar := Strings.TrimSpace(p.cultivar))
  }

  /** The verdict of the checks_proposal reducer on the two signals of a proposal. */
  function VerdictOn(i: Inputs): (v: Verdict) {
    if i.accept then ProposalVerdict([], true)
    else ProposalVerdict([FailureReason(Signal(VALID_KIND, Some(false), i.reason))], false)
  }

  /** `latestChecksProposalVerdict`. */
  predicate Stale(b: View, i: Inputs) {
    b.verdicts != [] && var last := b.verdicts[|b.verdicts| - 1];
    last.inputs == i && last.verdict.disposition == Reject
  }

  function NextAttempt(b: View): (n: nat) {
    if b.verdicts == [] then 1 else b.verdicts[|b.verdicts| - 1].attempt + 1
  }

  /** `appendTransitioned`: a move that is not allowed is skipped. */
  function Moved(c: Child, to: WorkItemState): (d: Child) {
    if c.state != to && CanTransition(c.state, to) then c.(state := to) else c
  }

  /** The child is done when its parent has checks, and blocked for review when its budget is spent. */
  function ChildAfter(c: Child, row: VerdictRow, childValid: bool): (d: Child) {
    if !childValid then c
    else if row.inputs.accept || row.inputs.reason == "checks_already_defined" then Moved(c, Done)
    else if row.verdict.disposition == Reject && row.attempt >= MAX_ATTEMPTS then Moved(c.(reviewBlocked := true), Blocked)
    else c
  }

  /** What a proposal does, given what validation said of it. */
  function Judged(b: View, i: Inputs, accepted: seq<string>, childValid: bool): (c: View) {
    if Stale(b, i) then b
    else
      var row := VerdictRow(NextAttempt(b), i, VerdictOn(i));
      var recorded := b.(verdicts := b.verdicts + [row]);
      recorded.(checks := if i.accept then accepted else b.checks, child := ChildAfter(b.child, row, childValid))
  }

  /** `scanScribeChild`: the proposal names the parent's scribe child, and that is one of its children. */
  predicate ChildValid(scribe: Uuids.Uuid, p: Proposal, linked: bool) {
    p.proposalOf != Uuids.NIL && p.proposalOf == scribe && linked
  }

  /** The rows of one parent, with the id its scribe child is to have. */
  class Board {
    const scribe: Uuids.Uuid
    var checks: seq<string>
    var child: Child
    var verdicts: seq<VerdictRow>

    function Rows(): (v: View)
      reads this
    {
      View(checks, child, verdicts)
    }

    constructor (scribe: Uuids.Uuid, checks: seq<string>, child: Child)
      ensures this.scribe == scribe && Rows() == View(checks, child, [])
    {
      this.scribe, this.checks, this.child, verdicts := scribe, checks, child, [];
    }

    /** `ProposeChecks`: one transaction over the locked parent and child. */
    method Propose(p: Proposal, linked: bool) returns (v: Validation)
      modifies this
      ensures v.accept <==> Acceptable(p, old(checks) != [], ChildValid(scribe, p, linked))
      ensures Genuine(scribe, old(Rows()), Submission(p, linked, v))
      ensures Rows() == Submitted(scribe, old(Rows()), Submission(p, linked, v))
      ensures old(checks) != [] ==> checks == old(checks)
      ensures v.accept ==> CheckAll(p.checks) == Good(v.checks) && v.checks != []
    {
      var childValid := ChildValid(scribe, p, linked);
      v := Validate(p, checks != [], childValid);
      var signals := [Signal(VALID_KIND, Some(v.accept), v.reason), Signal("checks_proposal.payload", None, "")];
      SignalsReduce(v.accept, v.reason, signals);
      var verdict := Reducers.ChecksProposal(signals);
      Record(Inputs(Payload(p), v.accept, v.reason), verdict, v.checks, childValid);
    }

    /** The part of `ProposeChecks` behind the reducer. */
    method Record(now: Inputs, verdict: Verdict, accepted: seq<string>, childValid: bool)
      requires verdict == VerdictOn(now)
      modifies this
      ensures Rows() == Judged(old(Rows()), now, accepted, childValid)
    {
      if verdicts != [] && verdicts[|verdicts| - 1].inputs == now && verdicts[|verdicts| - 1].verdict.disposition == Reject {
        return;
      }
      var attempt := if verdicts == [] then 1 else verdicts[|verdicts| - 1].attempt + 1;
      verdicts := verdicts + [VerdictRow(attempt, now, verdict)];
      if now.accept {
        checks := accepted;
      }
      child := ChildAfter(child, VerdictRow(attempt, now, verdict), childValid);
    }
  }

  lemma SignalsReduce(accept: bool, reason: string, signals: seq<Signal>)
    requires signals == [Signal(VALID_KIND, Some(accept), reason), Signal("checks_proposal.payload", None, "")]
    ensures ProposalVerdict(Failures(signals), SawPass(signals)) == VerdictOn(Inputs(Proposal(Uuids.NIL, [], [], "", ""), accept, reason))
  {
    var first := signals[..1];
    assert signals[..|signals| - 1] == first && first[..0] == [] && first[0] == signals[0];
    assert !Validates(signals[1]);
    assert Failures(first) == if accept then [] else [FailureReason(signals[0])];
    assert Failures(signals) == Failures(first);
    assert FailureReason(signals[0]) == FailureReason(Signal(VALID_KIND, Some(false), reason));
    assert SawPass(signals) <==> accept by {
      assert Validates(signals[0]) && signals[0].pass.value == accept;
    }
  }

  /** Where a move takes a child: nowhere once it has ended. */
  ghost predicate MovedTo(c: Child, to: WorkItemState, d: Child) {
    d.state == if c.state in {Done, Failed, Canceled} then c.state else to
  }

  /**
    What a proposal that is not stale leaves: one more verdict, the checks of an
    accepted one, and a valid child that is done once the parent has checks and
    blocked for review by a third rejection.
   */
  lemma ProposalLeaves(b: View, i: Inputs, accepted: seq<string>, childValid: bool)
    requires Counted(b) && (b.verdicts != [] ==> b.verdicts[|b.verdicts| - 1].inputs != i || b.verdicts[|b.verdicts| - 1].inputs.accept)
    ensures var c, n := Judged(b, i, accepted, childValid), |b.verdicts|;
            && |c.verdicts| == n + 1 && c.verdicts[..n] == b.verdicts && c.verdicts[n].attempt == n + 1 && c.verdicts[n].inputs == i
            && c.verdicts[n].verdict.disposition == (if i.accept then Accept else Reject)
            && c.checks == (if i.accept then accepted else b.checks)
            && (if !childValid then c.child == b.child
                else if i.accept || i.reason == "checks_already_defined" then
                  MovedTo(b.child, Done, c.child) && c.child.reviewBlocked == b.child.reviewBlocked
                else if n >= 2 then MovedTo(b.child, Blocked, c.child) && c.child.reviewBlocked
                else c.child == b.child)
  {
    assert b.verdicts != [] ==> b.verdicts[|b.verdicts| - 1].verdict == VerdictOn(b.verdicts[|b.verdicts| - 1].inputs);
  }

  // -------------------------------------------------------------------- runs

  /** One proposal of a run: whether its child is linked to the parent, and what validation said of it. */
  datatype Submission = Submission(p: Proposal, linked: bool, v: Validation)

  /** Validation said what it may say of this proposal in this state. */
  ghost predicate Genuine(scribe: Uuids.Uuid, b: View, s: Submission) {
    Outcome(s.p, b.checks != [], ChildValid(scribe, s.p, s.linked), s.v)
  }

  function Submitted(scribe: Uuids.Uuid, b: View, s: Submission): (c: View) {
    Judged(b, Inputs(Payload(s.p), s.v.accept, s.v.reason), s.v.checks, ChildValid(scribe, s.p, s.linked))
  }

  function After(scribe: Uuids.Uuid, b: View, run: seq<Submission>): (c: View)
    decreases |run|
  {
    if run == [] then b else After(scribe, Submitted(scribe, b, run[0]), run[1..])
  }

  ghost predicate IsRun(scribe: Uuids.Uuid, b: View, run: seq<Submission>)
    decreases |run|
  {
    run == [] || (Genuine(scribe, b, run[0]) && IsRun(scribe, Submitted(scribe, b, run[0]), run[1..]))
  }

  /** The recorded attempts are exactly 1 to n, each with the verdict on its inputs. */
  predicate Counted(b: View) {
    forall i :: 0 <= i < |b.verdicts| ==> b.verdicts[i].attempt == i + 1 && b.verdicts[i].verdict == VerdictOn(b.verdicts[i].inputs)
  }

  lemma {:induction false} AttemptsCount(scribe: Uuids.Uuid, b: View, run: seq<Submission>)
    requires Counted(b)
    ensures Counted(After(scribe, b, run)) && |After(scribe, b, run).verdicts| <= |b.verdicts| + |run|
    decreases |run|
  {
    if run != [] {
      AttemptsCount(scribe, Submitted(scribe, b, run[0]), run[1..]);
    }
  }

  /** Once a parent has checks, no later proposal changes them. */
  lemma {:induction false} ChecksStick(scribe: Uuids.Uuid, b: View, run: seq<Submission>)
    requires b.checks != [] && IsRun(scribe, b, run)
    ensures After(scribe, b, run).checks == b.checks
    decreases |run|
  {
    if run != [] {
      ChecksStick(scribe, Submitted(scribe, b, run[0]), run[1..]);
    }
  }

  lemma AcceptedIsFresh(b: View, i: Inputs)
    requires Counted(b) && i.accept
    ensures !Stale(b, i)
  {
    if b.verdicts != [] {
      var last := b.verdicts[|b.verdicts| - 1];
      assert last.verdict == VerdictOn(last.inputs);
    }
  }

  /**
    An accepted proposal is applied, and whatever is proposed after it the parent
    keeps exactly its trimmed checks.
   */
  lemma AppliedChecksStay(scribe: Uuids.Uuid, b: View, s: Submission, run: seq<Submission>)
    requires Counted(b) && s.v.accept && IsRun(scribe, b, [s] + run)
    ensures b.checks == [] && CheckAll(s.p.checks) == Good(After(scribe, b, [s] + run).checks)
    ensures After(scribe, b, [s] + run).checks != []
  {
    var whole := [s] + run;
    assert whole[0] == s && whole[1..] == run;
    AcceptedIsFresh(b, Inputs(Payload(s.p), s.v.accept, s.v.reason));
    ChecksStick(scribe, Submitted(scribe, b, s), run);
  }

  /** A rejected proposal with the same outcome records nothing the second time. */
  lemma StaleRecordsNothing(scribe: Uuids.Uuid, b: View, s: Submission)
    requires !s.v.accept
    ensures Submitted(scribe, Submitted(scribe, b, s), s) == Submitted(scribe, b, s)
  {
    var inputs := Inputs(Payload(s.p), false, s.v.reason);
    assert VerdictOn(inputs).disposition == Reject;
    assert Stale(Submitted(scribe, b, s), inputs);
  }

  /**
    Submitting the same rejected proposal again has the same outcome, so it
    records nothing, unless it classifies an unknown check, when another one may
    be named.
   */
  lemma RepeatRecordsNothing(scribe: Uuids.Uuid, b: View, s: Submission, v: Validation)
    requires Genuine(scribe, b, s) && !s.v.accept
    requires Genuine(scribe, Submitted(scribe, b, s), s.(v := v))
    requires CheckAll(s.p.checks).Good? && ClassifyAll(s.p.classified).Classes? ==> !NamesUnknown(s.p)
    ensures v == s.v && Submitted(scribe, Submitted(scribe, b, s), s.(v := v)) == Submitted(scribe, b, s)
  {
    OutcomeUnique(s.p, b.checks != [], ChildValid(scribe, s.p, s.linked), s.v, v);
    StaleRecordsNothing(scribe, b, s);
  }

  /** A proposal that names another child than the one before it is recorded, whatever else it repeats. */
  lemma OtherChildIsRecorded(scribe: Uuids.Uuid, b: View, s: Submission, u: Submission)
    requires s.p.proposalOf != u.p.proposalOf
    ensures var once := Submitted(scribe, b, s);
            var inputs := Inputs(Payload(u.p), u.v.accept, u.v.reason);
            Submitted(scribe, once, u).verdicts == once.verdicts + [VerdictRow(NextAttempt(once), inputs, VerdictOn(inputs))]
  {
    var once := Submitted(scribe, b, s);
    assert once.verdicts[|once.verdicts| - 1].inputs.payload.proposalOf == s.p.proposalOf;
  }
}
