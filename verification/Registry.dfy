/**
  Versioned definitions (internal/registry/service.go, internal/registry/store.go,
  internal/projectiondefs/service.go).

  A definition is appended as an event and projected as the current row of its
  name.  `VersionsInOrderIff` says what every serial run of define calls leaves
  in the log and the table, and exactly which runs number their definitions 1 to
  n; `RootstockFinal` exactly which runs leave a rootstock alone; and
  `GoMapsEqualIff` when the hand-written map comparison is equality.
 */
module Registry {
  import opened CanonicalJson

  /** A normalized definition; body stands for everything but name, version and the rootstock mark. */
  datatype Definition = Definition(name: string, version: int, rootstock: bool, body: Json)

  /** Tropisms may always be redefined; a rootstock cultivar or projection may not. */
  datatype Family = Tropisms | Guarded

  /** How a JSONB column writes a value back: equal values, but numbers in its own notation. */
  type Column = Json -> Json

  function Stored(store: Column, d: Definition): (row: Definition) {
    d.(body := store(d.body))
  }

  datatype Answer = Defined(novel: bool) | InvalidVersion | VersionConflict | RootstockImmutable

  /** The log of one registry, and the current row of each name. */
  datatype State = State(log: seq<Definition>, rows: map<string, Definition>)

  /** What the checks before the append decide. */
  function Checks(family: Family, s: State, d: Definition): (a: Answer) {
    if d.version < 1 then InvalidVersion
    else if d.name !in s.rows then if d.version != 1 then VersionConflict else Defined(d !in s.log)
    else
      var current := s.rows[d.name];
      if current == d || d in s.log then Defined(d !in s.log)
      else if family.Guarded? && current.rootstock then RootstockImmutable
      else if d.version != current.version + 1 then VersionConflict
      else Defined(true)
  }

  /** One define call: a definition already in the log collapses and is not projected again. */
  function Defining(store: Column, family: Family, s: State, d: Definition): (t: State) {
    var a := Checks(family, s, d);
    if a.Defined? && a.novel then State(s.log + [d], s.rows[d.name := Stored(store, d)]) else s
  }

  /** The registry tables with their define transaction. */
  class Store {
    const column: Column
    const family: Family
    var log: seq<Definition>
    var rows: map<string, Definition>

    constructor (column: Column, family: Family)
      ensures this.column == column && this.family == family && log == [] && rows == map[]
    {
      this.column, this.family := column, family;
      log, rows := [], map[];
    }

    /** `Append` and its projector: a definition that is in the log changes nothing. */
    method Append(d: Definition) returns (novel: bool)
      modifies this
      ensures novel <==> d !in old(log)
      ensures novel ==> log == old(log) + [d] && rows == old(rows)[d.name := Stored(column, d)]
      ensures !novel ==> log == old(log) && rows == old(rows)
    {
      novel := d !in log;
      if novel {
        log := log + [d];
        rows := rows[d.name := Stored(column, d)];
      }
    }

    /** `DefineTropism`, `DefineCultivarInTx` and `Define`, behind their normalizers. */
    method Define(d: Definition) returns (a: Answer)
      modifies this
      ensures a == Checks(family, old(State(log, rows)), d)
      ensures State(log, rows) == Defining(column, family, old(State(log, rows)), d)
    {
      if d.version < 1 {
        return InvalidVersion;
      }
      if d.name !in rows {
        if d.version != 1 {
          return VersionConflict;
        }
      } else {
        var current := rows[d.name];
        if current != d && d !in log {
          if family.Guarded? && current.rootstock {
            return RootstockImmutable;
          }
          if d.version != current.version + 1 {
            return VersionConflict;
          }
        }
      }
      var novel := Append(d);
      a := Defined(novel);
    }
  }

  // -------------------------------------------------------------------- runs

  function After(store: Column, family: Family, s: State, calls: seq<Definition>): (t: State) {
    if calls == [] then s
    else
      var n := |calls| - 1;
      Defining(store, family, After(store, family, s, calls[..n]), calls[n])
  }

  const EMPTY: State := State([], map[])

  /** The definitions of one name in the log, in log order. */
  function Of(log: seq<Definition>, name: string): (ds: seq<Definition>) {
    if log == [] then []
    else
      var last := log[|log| - 1];
      var before := Of(log[..|log| - 1], name);
      if last.name == name then before + [last] else before
  }

  lemma OfSnoc(log: seq<Definition>, d: Definition, name: string)
    ensures Of(log + [d], name) == if d.name == name then Of(log, name) + [d] else Of(log, name)
  {
    assert (log + [d])[..|log|] == log;
  }

  lemma {:induction false} OfMembers(log: seq<Definition>, d: Definition)
    ensures d in log <==> d in Of(log, d.name)
  {
    if log != [] {
      var front := log[..|log| - 1];
      OfMembers(front, d);
      assert log == front + [log[|log| - 1]];
    }
  }

  /** The row of a name is its last definition, as the column writes it back. */
  ghost predicate Projected(store: Column, s: State) {
    forall name :: RowIsLast(store, s, name)
  }

  ghost predicate RowIsLast(store: Column, s: State, name: string) {
    var ds := Of(s.log, name);
    && (name in s.rows <==> ds != [])
    && (ds != [] ==> s.rows[name] == Stored(store, ds[|ds| - 1]))
  }

  /** The definitions of every name carry the versions 1 to n in log order. */
  ghost predicate Numbered(log: seq<Definition>) {
    forall name, i :: 0 <= i < |Of(log, name)| ==> Of(log, name)[i].version == i + 1
  }

  ghost predicate InOrder(store: Column, s: State) {
    Projected(store, s) && Numbered(s.log)
  }

  /**
    A call that repeats the current row although the log does not hold it: the
    column wrote the logged definition back differently, and the caller sends
    what it read.
   */
  predicate OffSequence(s: State, d: Definition) {
    d.version >= 1 && d.name in s.rows && d == s.rows[d.name] && d !in s.log
  }

  /** No call of the run is off sequence in the state it meets. */
  predicate OnSequence(store: Column, family: Family, s: State, calls: seq<Definition>) {
    forall k :: 0 <= k < |calls| ==> !OffSequence(After(store, family, s, calls[..k]), calls[k])
  }

  lemma {:induction false} OfNamed(log: seq<Definition>, name: string)
    ensures forall i :: 0 <= i < |Of(log, name)| ==> Of(log, name)[i].name == name && Of(log, name)[i] in log
  {
    if log != [] {
      var front := log[..|log| - 1];
      OfNamed(front, name);
      assert forall d :: d in front ==> d in log;
    }
  }

  /** A call leaves the definitions of a name as they are, or adds its own. */
  lemma CallExtends(store: Column, family: Family, s: State, d: Definition, name: string)
    ensures var before, after := Of(s.log, name), Of(Defining(store, family, s, d).log, name);
            var a := Checks(family, s, d);
            after == if a.Defined? && a.novel && d.name == name then before + [d] else before
  {
    OfSnoc(s.log, d, name);
  }

  /** Whatever is called, the row of a name stays its last definition. */
  lemma CallProjects(store: Column, family: Family, s: State, d: Definition)
    requires Projected(store, s)
    ensures Projected(store, Defining(store, family, s, d))
  {
    var t := Defining(store, family, s, d);
    forall name ensures RowIsLast(store, t, name) {
      assert RowIsLast(store, s, name);
      CallExtends(store, family, s, d, name);
    }
  }

  /** What gets in on sequence is the next version of its name. */
  lemma NextVersion(store: Column, family: Family, s: State, d: Definition)
    requires InOrder(store, s) && !OffSequence(s, d) && Checks(family, s, d) == Defined(true)
    ensures d.version == |Of(s.log, d.name)| + 1
  {
    assert RowIsLast(store, s, d.name);
  }

  lemma OnSequenceNumbers(store: Column, family: Family, s: State, d: Definition)
    requires InOrder(store, s) && !OffSequence(s, d)
    ensures Numbered(Defining(store, family, s, d).log)
  {
    var t := Defining(store, family, s, d);
    if Checks(family, s, d) == Defined(true) {
      NextVersion(store, family, s, d);
    }
    forall name, i | 0 <= i < |Of(t.log, name)| ensures Of(t.log, name)[i].version == i + 1 {
      CallExtends(store, family, s, d, name);
    }
  }

  /** A call keeps the numbering exactly when it is not off sequence. */
  lemma CallNumbersIff(store: Column, family: Family, s: State, d: Definition)
    requires InOrder(store, s)
    ensures Numbered(Defining(store, family, s, d).log) <==> !OffSequence(s, d)
  {
    if OffSequence(s, d) {
      var t, before := Defining(store, family, s, d), Of(s.log, d.name);
      assert RowIsLast(store, s, d.name);
      CallExtends(store, family, s, d, d.name);
      assert Of(t.log, d.name)[|before|] == d;
    } else {
      OnSequenceNumbers(store, family, s, d);
    }
  }

  /** What was out of order stays out of order. */
  lemma NumberedBefore(store: Column, family: Family, s: State, d: Definition)
    requires Numbered(Defining(store, family, s, d).log)
    ensures Numbered(s.log)
  {
    forall name, i | 0 <= i < |Of(s.log, name)| ensures Of(s.log, name)[i].version == i + 1 {
      CallExtends(store, family, s, d, name);
      assert Of(Defining(store, family, s, d).log, name)[i].version == i + 1;
    }
  }

  lemma LastCall(store: Column, family: Family, s: State, calls: seq<Definition>)
    requires calls != []
    ensures var n := |calls| - 1;
            OnSequence(store, family, s, calls) <==>
              OnSequence(store, family, s, calls[..n]) && !OffSequence(After(store, family, s, calls[..n]), calls[n])
  {
    var n := |calls| - 1;
    assert forall k :: 0 <= k <= n ==> calls[..n][..k] == calls[..k];
  }

  /**
    After every serial run of define calls the row of each name is its last
    definition, and the definitions of each name carry the versions 1 to n in log
    order if and only if no call of the run was off sequence.
   */
  lemma {:induction false} VersionsInOrderIff(store: Column, family: Family, calls: seq<Definition>)
    ensures var s := After(store, family, EMPTY, calls);
            Projected(store, s) && (Numbered(s.log) <==> OnSequence(store, family, EMPTY, calls))
    decreases |calls|
  {
    if calls == [] {
      assert Projected(store, EMPTY) by {
        forall name ensures RowIsLast(store, EMPTY, name) {
        }
      }
    } else {
      var n := |calls| - 1;
      var before := After(store, family, EMPTY, calls[..n]);
      VersionsInOrderIff(store, family, calls[..n]);
      LastCall(store, family, EMPTY, calls);
      CallProjects(store, family, before, calls[n]);
      if Numbered(before.log) {
        CallNumbersIff(store, family, before, calls[n]);
      } else if Numbered(After(store, family, EMPTY, calls).log) {
        NumberedBefore(store, family, before, calls[n]);
      }
    }
  }

  /** A definition whose body the column writes back as it is. */
  predicate Kept(store: Column, d: Definition) {
    store(d.body) == d.body
  }

  predicate AllKept(store: Column, ds: seq<Definition>) {
    forall d :: d in ds ==> Kept(store, d)
  }

  lemma {:induction false} LoggedWasCalled(store: Column, family: Family, calls: seq<Definition>, d: Definition)
    requires d in After(store, family, EMPTY, calls).log
    ensures d in calls && d.version >= 1
    decreases |calls|
  {
    if calls != [] {
      var n := |calls| - 1;
      assert calls == calls[..n] + [calls[n]];
      if d in After(store, family, EMPTY, calls[..n]).log {
        LoggedWasCalled(store, family, calls[..n], d);
      }
    }
  }

  /** While the column keeps every logged body, the current row of a name is logged. */
  lemma KeptIsLogged(store: Column, s: State, d: Definition)
    requires Projected(store, s) && AllKept(store, s.log)
    ensures !OffSequence(s, d)
  {
    assert RowIsLast(store, s, d.name);
    if d.name in s.rows {
      OfNamed(s.log, d.name);
      var ds := Of(s.log, d.name);
      assert ds[|ds| - 1] in s.log;
    }
  }

  /** A run whose logged bodies the column keeps has no call that is off sequence. */
  lemma KeptIsOnSequence(store: Column, family: Family, calls: seq<Definition>)
    requires AllKept(store, calls)
    ensures OnSequence(store, family, EMPTY, calls)
  {
    forall k | 0 <= k < |calls| ensures !OffSequence(After(store, family, EMPTY, calls[..k]), calls[k]) {
      var s := After(store, family, EMPTY, calls[..k]);
      VersionsInOrderIff(store, family, calls[..k]);
      forall d | d in s.log ensures Kept(store, d) {
        LoggedWasCalled(store, family, calls[..k], d);
        assert d in calls;
      }
      KeptIsLogged(store, s, calls[k]);
    }
  }

  /** So versions are in order after every run whose bodies the column keeps. */
  lemma VersionsInOrder(store: Column, family: Family, calls: seq<Definition>)
    requires AllKept(store, calls)
    ensures InOrder(store, After(store, family, EMPTY, calls))
  {
    KeptIsOnSequence(store, family, calls);
    VersionsInOrderIff(store, family, calls);
  }

  /** Replaying any definition that is in the log is answered as defined and changes nothing. */
  lemma ReplayChangesNothing(store: Column, family: Family, calls: seq<Definition>, d: Definition)
    requires d in After(store, family, EMPTY, calls).log
    ensures var s := After(store, family, EMPTY, calls);
            Checks(family, s, d) == Defined(false) && Defining(store, family, s, d) == s
  {
    var s := After(store, family, EMPTY, calls);
    LoggedWasCalled(store, family, calls, d);
    VersionsInOrderIff(store, family, calls);
    assert RowIsLast(store, s, d.name);
    OfMembers(s.log, d);
  }

  /** No call of the run is off sequence and about the given name. */
  predicate OnSequenceFor(store: Column, s: State, calls: seq<Definition>, name: string) {
    forall k :: 0 <= k < |calls| && calls[k].name == name ==> !OffSequence(After(store, Guarded, s, calls[..k]), calls[k])
  }

  /** No definition is ever forgotten. */
  lemma {:induction false} RunExtends(store: Column, family: Family, s: State, calls: seq<Definition>, k: nat, name: string)
    requires k <= |calls|
    ensures |Of(After(store, family, s, calls[..k]).log, name)| <= |Of(After(store, family, s, calls).log, name)|
    decreases |calls|
  {
    if k == |calls| {
      assert calls[..k] == calls;
    } else {
      var n := |calls| - 1;
      assert calls[..n][..k] == calls[..k];
      RunExtends(store, family, s, calls[..n], k, name);
      CallExtends(store, family, After(store, family, s, calls[..n]), calls[n], name);
    }
  }

  /**
    Once a rootstock is the current row of a guarded name, a run appends nothing
    for that name and leaves its row alone if and only if no call about the name
    is off sequence.
   */
  lemma RootstockFinal(store: Column, s: State, calls: seq<Definition>, name: string)
    requires name in s.rows && s.rows[name].name == name && s.rows[name].rootstock
    ensures var t := After(store, Guarded, s, calls);
            (name in t.rows && t.rows[name] == s.rows[name] && Of(t.log, name) == Of(s.log, name))
              <==> OnSequenceFor(store, s, calls, name)
  {
    if OnSequenceFor(store, s, calls, name) {
      RootstockStays(store, s, calls, name);
    } else {
      var k :| 0 <= k < |calls| && calls[k].name == name && OffSequence(After(store, Guarded, s, calls[..k]), calls[k]);
      var before := After(store, Guarded, s, calls[..k]);
      assert calls[..0] == [];
      RunExtends(store, Guarded, s, calls[..k], 0, name);
      assert calls[..k + 1][..k] == calls[..k] && calls[..k][..0] == [];
      CallExtends(store, Guarded, before, calls[k], name);
      RunExtends(store, Guarded, s, calls, k + 1, name);
    }
  }

  lemma FrontOnSequenceFor(store: Column, s: State, calls: seq<Definition>, name: string)
    requires calls != [] && OnSequenceFor(store, s, calls, name)
    ensures var n := |calls| - 1;
            && OnSequenceFor(store, s, calls[..n], name)
            && (calls[n].name == name ==> !OffSequence(After(store, Guarded, s, calls[..n]), calls[n]))
  {
    var n := |calls| - 1;
    assert forall k :: 0 <= k < n ==> calls[..n][..k] == calls[..k];
  }

  lemma RootstockCall(store: Column, s: State, d: Definition, name: string)
    requires name in s.rows && s.rows[name].name == name && s.rows[name].rootstock
    requires d.name == name ==> !OffSequence(s, d)
    ensures var t := Defining(store, Guarded, s, d);
            name in t.rows && t.rows[name] == s.rows[name] && Of(t.log, name) == Of(s.log, name)
  {
    CallExtends(store, Guarded, s, d, name);
  }

  lemma {:induction false} RootstockStays(store: Column, s: State, calls: seq<Definition>, name: string)
    requires name in s.rows && s.rows[name].name == name && s.rows[name].rootstock
    requires OnSequenceFor(store, s, calls, name)
    ensures var t := After(store, Guarded, s, calls);
            name in t.rows && t.rows[name] == s.rows[name] && Of(t.log, name) == Of(s.log, name)
    decreases |calls|
  {
    if calls != [] {
      var n := |calls| - 1;
      FrontOnSequenceFor(store, s, calls, name);
      RootstockStays(store, s, calls[..n], name);
      RootstockCall(store, After(store, Guarded, s, calls[..n]), calls[n], name);
    }
  }

  /**
    A definition gets in although it is not the next version exactly when the
    call is off sequence.
   */
  lemma OffSequenceIff(family: Family, s: State, d: Definition)
    requires d.name in s.rows && d.version >= 1
    ensures Checks(family, s, d) == Defined(true) && d.version != s.rows[d.name].version + 1 <==> OffSequence(s, d)
  {
  }

  lemma TwoOf(first: Definition, second: Definition)
    requires first.name == second.name
    ensures Of([first, second], first.name) == [first, second]
  {
    assert [] + [first] == [first] && [first] + [second] == [first, second];
    OfSnoc([], first, first.name);
    OfSnoc([first], second, first.name);
  }

  lemma TwoCalls(store: Column, family: Family, first: Definition, second: Definition)
    ensures After(store, family, EMPTY, [first, second])
            == Defining(store, family, Defining(store, family, EMPTY, first), second)
  {
    var calls := [first, second];
    assert calls[..1] == [first] && [first][..0] == [];
    assert After(store, family, EMPTY, [first]) == Defining(store, family, EMPTY, first);
  }

  /** So a body the column rewrites lets one version be defined twice. */
  lemma RewrittenBodyRepeatsVersion(store: Column, family: Family, name: string, body: Json)
    requires store(body) != body
    ensures var first := Definition(name, 1, false, body);
            var s := After(store, family, EMPTY, [first, Stored(store, first)]);
            Of(s.log, name) == [first, Stored(store, first)] && Of(s.log, name)[1].version == 1 && !Numbered(s.log)
  {
    var first := Definition(name, 1, false, body);
    var second := Stored(store, first);
    TwoCalls(store, family, first, second);
    TwoOf(first, second);
    assert Defining(store, family, EMPTY, first) == State([first], map[name := second]);
    assert Checks(family, State([first], map[name := second]), second) == Defined(true);
    assert [first] + [second] == [first, second];
  }

  // ----------------------------------------------------------- what gets in

  /** A rootstock closes its name, but for tropisms. */
  ghost predicate Open(family: Family, ds: seq<Definition>) {
    family == Tropisms || ds == [] || !ds[|ds| - 1].rootstock
  }

  /** After a run whose bodies the column keeps, the row of a name is its last definition, with the version of their number. */
  lemma CurrentRow(store: Column, family: Family, calls: seq<Definition>, name: string)
    requires AllKept(store, calls)
    ensures var s := After(store, family, EMPTY, calls);
            var ds := Of(s.log, name);
            && (name in s.rows <==> ds != [])
            && (ds != [] ==> s.rows[name] == ds[|ds| - 1] && ds[|ds| - 1].version == |ds|)
  {
    var s := After(store, family, EMPTY, calls);
    var ds := Of(s.log, name);
    VersionsInOrder(store, family, calls);
    assert RowIsLast(store, s, name);
    if ds != [] {
      var last := ds[|ds| - 1];
      OfNamed(s.log, name);
      LoggedWasCalled(store, family, calls, last);
      assert Kept(store, last);
    }
  }

  /**
    The answer to a call after any run whose bodies the column keeps, with n
    definitions of the name in the log: what is logged is a repetition; anything
    else gets in exactly when it is version n + 1 of an open name.
   */
  lemma AnswerIs(store: Column, family: Family, calls: seq<Definition>, d: Definition)
    requires AllKept(store, calls)
    ensures var s := After(store, family, EMPTY, calls);
            var ds := Of(s.log, d.name);
            Checks(family, s, d)
              == if d.version < 1 then InvalidVersion
                 else if d in ds then Defined(false)
                 else if !Open(family, ds) then RootstockImmutable
                 else if d.version == |ds| + 1 then Defined(true) else VersionConflict
  {
    var s := After(store, family, EMPTY, calls);
    CurrentRow(store, family, calls, d.name);
    OfMembers(s.log, d);
    if d in s.log {
      LoggedWasCalled(store, family, calls, d);
    }
  }

  /** And what a call leaves: its definition in the log and as the row of its name, or everything as it was. */
  lemma CallLeaves(store: Column, family: Family, s: State, d: Definition)
    ensures var t := Defining(store, family, s, d);
            if Checks(family, s, d) == Defined(true)
            then t.log == s.log + [d] && t.rows == s.rows[d.name := Definition(d.name, d.version, d.rootstock, store(d.body))]
            else t == s
  {
  }

  // -------------------------------------------------------------- comparison

  /** `stringIntMapsEqual`: a missing key reads as zero. */
  method GoMapsEqual(a: map<string, int>, b: map<string, int>) returns (equal: bool)
    ensures equal <==> |a| == |b| && forall k :: k in a ==> (if k in b then b[k] else 0) == a[k]
  {
    if |a| != |b| {
      return false;
    }
    var left := a.Keys;
    while left != {}
      invariant left <= a.Keys
      invariant forall k :: k in a && k !in left ==> (if k in b then b[k] else 0) == a[k]
    {
      var k :| k in left;
      if (if k in b then b[k] else 0) != a[k] {
        return false;
      }
      left := left - {k};
    }
    return true;
  }

  /** The comparison is equality on maps without zero entries, which is what the normalizer leaves. */
  lemma GoMapsEqualIff(a: map<string, int>, b: map<string, int>)
    requires forall k :: k in a ==> a[k] != 0
    ensures (|a| == |b| && forall k :: k in a ==> (if k in b then b[k] else 0) == a[k]) <==> a == b
  {
    if |a| == |b| && forall k :: k in a ==> (if k in b then b[k] else 0) == a[k] {
      forall k | k in a.Keys ensures k in b.Keys {
        assert a[k] != 0;
      }
      SubsetOfSameSize(a.Keys, b.Keys);
      assert a.Keys == b.Keys;
      forall k | k in a ensures k in b && b[k] == a[k] {
        assert k in a.Keys;
      }
      forall k | k in b ensures k in a {
        assert k in b.Keys;
      }
    }
  }

  lemma SubsetOfSameSize<T>(s: set<T>, t: set<T>)
    requires s <= t && |s| == |t|
    ensures s == t
  {
    assert |t - s| == |t| - |s|;
    assert t == s + (t - s);
  }

  /** With a zero entry it is not. */
  lemma ZeroEntryMisleads()
    ensures var a, b := map["x" := 0], map["y" := 5];
            |a| == |b| && (forall k :: k in a ==> (if k in b then b[k] else 0) == a[k]) && a != b
  {
    var a, b := map["x" := 0], map["y" := 5];
    assert "x" in a && "x" !in b;
  }

  /** `normalizeXylemEventRateBudgets` on trimmed classes: zero budgets are dropped. */
  function WithoutZeros(m: map<string, int>): (n: map<string, int>)
    ensures forall k :: k in n ==> n[k] != 0
    ensures forall k :: k in n <==> k in m && m[k] != 0
    ensures forall k :: k in n ==> n[k] == m[k]
  {
    map k | k in m && m[k] != 0 :: m[k]
  }
}
