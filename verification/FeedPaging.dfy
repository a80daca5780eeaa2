/**
  Reading the feed in pages (internal/feed/feed.go).

  `QueryAfter` and `List` are the batched, kind-prefiltered scan loops; the log
  may grow between two of their queries.  Both are proved against the naive
  reading of the log: the rows the filter shows, in order.  `Page` adds cursors
  and bounded polling, and `PagesExact` says what a consumer who follows
  `next_cursor` has seen.
 */
module FeedPaging {
  import opened EventLog
  import opened Options
  import opened Sequences
  import opened Cursor
  import opened Taxonomy

  const MAX_LIMIT: nat := 200
  const DEFAULT_LIMIT: nat := 50
  const BATCH: nat := MAX_LIMIT + 1

  /** The prefilter of a query loses nothing the consumer is to see. */
  ghost predicate LosesNothing(scanned: Event -> bool, shown: Event -> bool) {
    forall e :: shown(e) ==> scanned(e)
  }

  /** A page, read naively: the first matches after the start, and where the next page starts. */
  ghost predicate PageOf(log: seq<Event>, len: nat, shown: Event -> bool, from: int, limit: nat,
                         items: seq<nat>, next: int, hasMore: bool) {
    && len <= |log|
    && var matches := Rows(shown, log, Cut(log, len, from), len);
    && items == Take(matches, limit)
    && (hasMore <==> |matches| > limit)
    && Cut(log, len, from) <= Cut(log, len, next)
    && Rows(shown, log, Cut(log, len, next), len) == matches[|items|..]
    && Next(log, len, from, next)
  }

  /** Cursors never go back, and name a visible row unless they stand still. */
  ghost predicate Next(log: seq<Event>, len: nat, from: int, next: int)
    requires len <= |log|
  {
    from <= next && (next == from || exists i :: 0 <= i < len && log[i].position == next)
  }

  /** The length of the log at the t-th query: it only grows, towards the eventual log. */
  ghost predicate Snapshots(log: seq<Event>, lens: nat -> nat) {
    forall i: nat, j: nat :: i <= j ==> lens(i) <= lens(j) <= |log|
  }

  /** `SELECT ... WHERE kind = ANY($1) AND seq > $2 ORDER BY seq ASC LIMIT $3`. */
  function Query(log: seq<Event>, len: nat, scanned: Event -> bool, from: int, limit: nat): (rows: seq<nat>)
    requires len <= |log|
  {
    Take(Rows(scanned, log, Cut(log, len, from), len), limit)
  }

  // -------------------------------------------------------------- QueryAfter

  /** The scan stands right behind row n - 1, or where it started. */
  predicate At(log: seq<Event>, start: nat, from: int, n: nat, position: int) {
    start <= n <= |log| && position == if n == start then from else log[n - 1].position
  }

  /** Between two scanned rows nothing is shown, so one more scanned row shows at most itself. */
  lemma ScanRow(scanned: Event -> bool, shown: Event -> bool, log: seq<Event>, a: nat, len: nat, k: nat)
    requires LosesNothing(scanned, shown) && a <= len <= |log| && k < |Rows(scanned, log, a, len)|
    ensures var rows := Rows(scanned, log, a, len);
            && a <= RowEnd(rows, a, k) <= rows[k] < len
            && var before := Rows(shown, log, a, RowEnd(rows, a, k));
            Rows(shown, log, a, rows[k] + 1) == if shown(log[rows[k]]) then before + [rows[k]] else before
  {
    var rows := Rows(scanned, log, a, len);
    NothingShown(scanned, shown, log, a, len, k);
    RowsSorted(scanned, log, a, len);
    ReadOn(shown, log, a, RowEnd(rows, a, k), rows[k]);
  }

  /** Reading on over rows of which only the last may be shown. */
  lemma ReadOn<T>(shown: T -> bool, log: seq<T>, a: nat, n: nat, row: nat)
    requires a <= n <= row < |log| && Rows(shown, log, n, row) == []
    ensures var before := Rows(shown, log, a, n);
            Rows(shown, log, a, row + 1) == if shown(log[row]) then before + [row] else before
  {
    RowsSplit(shown, log, a, n, row);
    assert Rows(shown, log, a, n) + [] == Rows(shown, log, a, n);
  }

  lemma NothingShown(scanned: Event -> bool, shown: Event -> bool, log: seq<Event>, a: nat, len: nat, k: nat)
    requires LosesNothing(scanned, shown) && a <= len <= |log| && k <= |Rows(scanned, log, a, len)|
    ensures var rows := Rows(scanned, log, a, len);
            var n, m := RowEnd(rows, a, k), if k < |rows| then rows[k] else len;
            a <= n <= m <= len && Rows(shown, log, n, m) == []
  {
    var rows := Rows(scanned, log, a, len);
    var n, m := RowEnd(rows, a, k), if k < |rows| then rows[k] else len;
    RowsSorted(scanned, log, a, len);
    forall i | n <= i < m ensures !shown(log[i]) {
      RowsGap(scanned, log, a, len, k, i);
    }
    NoRows(shown, log, n, m);
  }

  lemma ScanStep(scanned: Event -> bool, shown: Event -> bool, log: seq<Event>, a: nat, len: nat, rows: seq<nat>, k: nat,
                 found: seq<nat>, items: seq<nat>)
    requires LosesNothing(scanned, shown) && a <= len <= |log| && rows == Rows(scanned, log, a, len) && k < |rows|
    requires a <= RowEnd(rows, a, k) <= len && items == found + Rows(shown, log, a, RowEnd(rows, a, k))
    ensures a <= rows[k] < len
    ensures (if shown(log[rows[k]]) then items + [rows[k]] else items) == found + Rows(shown, log, a, rows[k] + 1)
  {
    ScanRow(scanned, shown, log, a, len, k);
    Assoc(found, Rows(shown, log, a, RowEnd(rows, a, k)), [rows[k]]);
  }

  /**
    One query and the row loop over its batch: it stops early one match past the
    limit.  `full` says the batch was as large as a query can return.
   */
  method ScanBatch(log: seq<Event>, len: nat, scanned: Event -> bool, shown: Event -> bool, limit: nat,
                   found: seq<nat>, position: int, ghost a: nat)
    returns (items: seq<nat>, scannedSeq: int, full: bool, ghost n: nat)
    requires LosesNothing(scanned, shown) && |found| <= limit
    requires len <= |log| && a == Cut(log, len, position)
    ensures |items| <= limit + 1
    ensures At(log, a, position, n, scannedSeq) && n <= len
    ensures items == found + Rows(shown, log, a, n)
    ensures full && |items| <= limit ==> a < n
    ensures !full && |items| <= limit ==> Rows(shown, log, n, len) == []
  {
    var rows := Query(log, len, scanned, position, BATCH);
    ghost var all := Rows(scanned, log, a, len);
    var k := 0;
    items, scannedSeq, n := found, position, a;
    while k < |rows| && |items| <= limit
      invariant 0 <= k <= |rows| && |items| <= limit + 1
      invariant n == RowEnd(all, a, k) && a <= n <= len
      invariant k > 0 ==> a < n
      invariant At(log, a, position, n, scannedSeq)
      invariant items == found + Rows(shown, log, a, n)
    {
      ScanStep(scanned, shown, log, a, len, all, k, found, items);
      var row := rows[k];
      k := k + 1;
      scannedSeq := log[row].position;
      if shown(log[row]) {
        items := items + [row];
      }
      n := row + 1;
    }
    full := k == BATCH;
    NothingShown(scanned, shown, log, a, len, k);
  }

  lemma AtCuts(log: seq<Event>, from: int, n: nat, len: nat, position: int)
    requires ValidLog(log) && At(log, Cut(log, |log|, from), from, n, position) && n <= len <= |log|
    ensures Cut(log, len, position) == n && Next(log, len, from, position)
  {
    var start := Cut(log, |log|, from);
    CutSplits(log, |log|, from);
    CutStable(log, len, |log|, from);
    if n > start {
      CutAtRow(log, n - 1, len);
      assert log[start].position <= log[n - 1].position;
    }
  }

  /** What a scan that kept found and stands behind row n - 1 of len leaves as the end of its page. */
  lemma ShortPage(log: seq<Event>, shown: Event -> bool, from: int, limit: nat, n: nat, len: nat, scannedSeq: int)
    requires ValidLog(log) && n <= len <= |log|
    requires At(log, Cut(log, |log|, from), from, n, scannedSeq)
    requires |Rows(shown, log, Cut(log, |log|, from), n)| <= limit && Rows(shown, log, n, len) == []
    ensures PageOf(log, len, shown, from, limit, Rows(shown, log, Cut(log, |log|, from), n), scannedSeq, false)
  {
    CutStable(log, len, |log|, from);
    RowsSplit(shown, log, Cut(log, |log|, from), n, len);
    AtCuts(log, from, n, len, scannedSeq);
  }

  /** The first k of the rows read so far are the first k of all rows. */
  lemma FirstRows<T>(shown: T -> bool, log: seq<T>, a: nat, n: nat, len: nat, k: nat)
    requires a <= n <= len <= |log| && 1 <= k < |Rows(shown, log, a, n)|
    ensures var found, matches := Rows(shown, log, a, n), Rows(shown, log, a, len);
            var row := found[k - 1];
            && k < |matches| && matches[..k] == found[..k]
            && a <= row < len && Rows(shown, log, a, row + 1) == found[..k] && Rows(shown, log, row + 1, len) == matches[k..]
  {
    RowsSplit(shown, log, a, n, len);
    assert Rows(shown, log, a, len)[k - 1] == Rows(shown, log, a, n)[k - 1];
    RowsAt(shown, log, a, len, k - 1);
    RowsUpTo(shown, log, a, len, k - 1);
  }

  lemma FullPage(log: seq<Event>, shown: Event -> bool, from: int, limit: nat, n: nat, len: nat, found: seq<nat>)
    requires ValidLog(log) && Cut(log, |log|, from) <= n <= len <= |log|
    requires found == Rows(shown, log, Cut(log, |log|, from), n) && 1 <= limit < |found|
    ensures found[limit - 1] < len
    ensures PageOf(log, len, shown, from, limit, found[..limit], log[found[limit - 1]].position, true)
  {
    var row := found[limit - 1];
    CutStable(log, len, |log|, from);
    FirstRows(shown, log, Cut(log, |log|, from), n, len, limit);
    AtCuts(log, from, row + 1, len, log[row].position);
  }

  /** What the scan loop has established: everything shown up to row n, and nothing left when it ran short. */
  ghost predicate ScanDone(log: seq<Event>, shown: Event -> bool, from: int, limit: nat, n: nat, len: nat,
                           scannedSeq: int, found: seq<nat>) {
    && n <= len <= |log|
    && At(log, Cut(log, |log|, from), from, n, scannedSeq)
    && found == Rows(shown, log, Cut(log, |log|, from), n)
    && (|found| <= limit ==> Rows(shown, log, n, len) == [])
  }

  /** `queryAfter` behind its scan loop: cut the extra match off and choose the next cursor. */
  method CutPage(log: seq<Event>, shown: Event -> bool, from: int, limit: nat, found: seq<nat>, scannedSeq: int,
                 ghost n: nat, ghost len: nat)
    returns (items: seq<nat>, next: int, hasMore: bool)
    requires ValidLog(log) && 1 <= limit && ScanDone(log, shown, from, limit, n, len, scannedSeq, found)
    ensures PageOf(log, len, shown, from, limit, items, next, hasMore)
  {
    hasMore := |found| > limit;
    if hasMore {
      FullPage(log, shown, from, limit, n, len, found);
      items := found[..limit];
      next := log[items[limit - 1]].position;
    } else {
      ShortPage(log, shown, from, limit, n, len, scannedSeq);
      items, next := found, scannedSeq;
    }
  }

  /**
    The scan loop of `queryAfter`: log is the eventual log and lens(t) the rows
    visible to the t-th query, so rows may be appended between two batches.
   */
  method ScanLoop(log: seq<Event>, lens: nat -> nat, t0: nat, scanned: Event -> bool, shown: Event -> bool,
                  from: int, limit: nat)
    returns (found: seq<nat>, scannedSeq: int, t: nat, ghost n: nat)
    requires ValidLog(log) && Snapshots(log, lens) && LosesNothing(scanned, shown)
    requires Cut(log, |log|, from) <= lens(t0)
    ensures t0 < t && ScanDone(log, shown, from, limit, n, lens(t - 1), scannedSeq, found)
  {
    ghost var a := Cut(log, |log|, from);
    n := a;
    found, scannedSeq, t := [], from, t0;
    var full := true;
    while full && |found| <= limit
      invariant t0 <= t && (t == t0 ==> full && |found| <= limit)
      invariant n <= lens(t) <= |log| && (t > t0 ==> n <= lens(t - 1) <= |log|)
      invariant At(log, a, from, n, scannedSeq)
      invariant found == Rows(shown, log, a, n)
      invariant !full && |found| <= limit ==> Rows(shown, log, n, lens(t - 1)) == []
      invariant |found| <= limit + 1
      decreases |log| - n, limit + 1 - |found|, full
    {
      AtCuts(log, from, n, lens(t), scannedSeq);
      ghost var m, before := n, scannedSeq;
      found, scannedSeq, full, n := ScanBatch(log, lens(t), scanned, shown, limit, found, scannedSeq, n);
      RowsSplit(shown, log, a, m, n);
      t := t + 1;
    }
  }

  /** `queryAfter`: the naive page of the last snapshot read, whatever was appended in between. */
  method QueryAfter(log: seq<Event>, lens: nat -> nat, t0: nat, scanned: Event -> bool, shown: Event -> bool,
                    from: int, limit: nat)
    returns (items: seq<nat>, next: int, hasMore: bool, t: nat)
    requires ValidLog(log) && Snapshots(log, lens) && LosesNothing(scanned, shown)
    requires 1 <= limit && Cut(log, |log|, from) <= lens(t0)
    ensures t0 < t && PageOf(log, lens(t - 1), shown, from, limit, items, next, hasMore)
  {
    var found, scannedSeq;
    ghost var n;
    found, scannedSeq, t, n := ScanLoop(log, lens, t0, scanned, shown, from, limit);
    items, next, hasMore := CutPage(log, shown, from, limit, found, scannedSeq, n, lens(t - 1));
  }

  // -------------------------------------------------------------------- List

  /** The last k elements, newest first. */
  function Newest(rows: seq<nat>, k: nat): (t: seq<nat>) {
    seq(if k <= |rows| then k else |rows|, i requires 0 <= i < |rows| => rows[|rows| - 1 - i])
  }

  /** `$2 = 0 OR seq < $2`: the visible rows a newest-first query may return. */
  function Below(log: seq<Event>, len: nat, beforeSeq: int): (n: nat)
    requires len <= |log|
    ensures n <= len
  {
    if beforeSeq == 0 then len else Cut(log, len, beforeSeq - 1)
  }

  /** Where a newest-first walk stands after k of the rows below len. */
  function RowAbove(rows: seq<nat>, len: nat, k: nat): (n: nat)
    requires k <= |rows|
  {
    if k == 0 then len else rows[|rows| - k]
  }

  lemma AboveRow(scanned: Event -> bool, shown: Event -> bool, log: seq<Event>, len: nat, k: nat)
    requires LosesNothing(scanned, shown) && len <= |log| && k < |Rows(scanned, log, 0, len)|
    ensures var rows := Rows(scanned, log, 0, len);
            var row, above := rows[|rows| - 1 - k], RowAbove(rows, len, k);
            row < above <= len && Rows(shown, log, row + 1, above) == []
  {
    NothingShown(scanned, shown, log, 0, len, |Rows(scanned, log, 0, len)| - k);
  }

  lemma ReadThrough<T>(shown: T -> bool, log: seq<T>, row: nat, above: nat)
    requires row < above <= |log| && Rows(shown, log, row + 1, above) == []
    ensures Rows(shown, log, 0, above) == if shown(log[row]) then Rows(shown, log, 0, row) + [row] else Rows(shown, log, 0, row)
  {
    RowsSplit(shown, log, 0, row + 1, above);
    assert Rows(shown, log, 0, row + 1) + [] == Rows(shown, log, 0, row + 1);
  }

  /** Walking back over one scanned row drops at most that row from what is shown below. */
  lemma ListRow(scanned: Event -> bool, shown: Event -> bool, log: seq<Event>, len: nat, k: nat)
    requires LosesNothing(scanned, shown) && len <= |log| && k < |Rows(scanned, log, 0, len)|
    ensures var rows := Rows(scanned, log, 0, len);
            var row, above := rows[|rows| - 1 - k], RowAbove(rows, len, k);
            && row < above <= len
            && Rows(shown, log, 0, above) == if shown(log[row]) then Rows(shown, log, 0, row) + [row] else Rows(shown, log, 0, row)
  {
    var rows := Rows(scanned, log, 0, len);
    var row, above := rows[|rows| - 1 - k], RowAbove(rows, len, k);
    AboveRow(scanned, shown, log, len, k);
    ReadThrough(shown, log, row, above);
  }

  lemma NewestOf(rows: seq<nat>, row: nat, k: nat)
    requires k > 0
    ensures Newest(rows + [row], k) == [row] + Newest(rows, k - 1)
  {
  }

  /** The walk keeps its goal: what is found so far, then the newest rows shown below. */
  ghost predicate Listing(shown: Event -> bool, log: seq<Event>, limit: nat, goal: seq<nat>, found: seq<nat>, n: nat) {
    n <= |log| && |found| <= limit && goal == found + Newest(Rows(shown, log, 0, n), limit - |found|)
  }

  lemma ListingRow(shown: Event -> bool, log: seq<Event>, limit: nat, goal: seq<nat>, found: seq<nat>, above: nat, row: nat)
    requires row < above <= |log| && |found| < limit && Listing(shown, log, limit, goal, found, above)
    requires Rows(shown, log, 0, above) == if shown(log[row]) then Rows(shown, log, 0, row) + [row] else Rows(shown, log, 0, row)
    ensures Listing(shown, log, limit, goal, if shown(log[row]) then found + [row] else found, row)
  {
    ListingStep(Rows(shown, log, 0, above), Rows(shown, log, 0, row), row, shown(log[row]), limit, goal, found);
  }

  lemma ListStep(scanned: Event -> bool, shown: Event -> bool, log: seq<Event>, len: nat, rows: seq<nat>, k: nat,
                 limit: nat, goal: seq<nat>, found: seq<nat>)
    requires LosesNothing(scanned, shown) && len <= |log| && rows == Rows(scanned, log, 0, len) && k < |rows|
    requires |found| < limit && Listing(shown, log, limit, goal, found, RowAbove(rows, len, k))
    ensures var row := rows[|rows| - 1 - k];
            && row < RowAbove(rows, len, k) <= len
            && Listing(shown, log, limit, goal, if shown(log[row]) then found + [row] else found, row)
  {
    ListRow(scanned, shown, log, len, k);
    ListingRow(shown, log, limit, goal, found, RowAbove(rows, len, k), rows[|rows| - 1 - k]);
  }

  lemma ListingStep(above: seq<nat>, below: seq<nat>, row: nat, isShown: bool, limit: nat, goal: seq<nat>, found: seq<nat>)
    requires |found| < limit && above == if isShown then below + [row] else below
    requires goal == found + Newest(above, limit - |found|)
    ensures isShown ==> goal == found + [row] + Newest(below, limit - |found| - 1)
    ensures !isShown ==> goal == found + Newest(below, limit - |found|)
  {
    if isShown {
      NewestOf(below, row, limit - |found|);
      Assoc(found, [row], Newest(below, limit - |found| - 1));
    }
  }

  lemma NothingBelow(scanned: Event -> bool, shown: Event -> bool, log: seq<Event>, len: nat)
    requires LosesNothing(scanned, shown) && len <= |log|
    ensures var rows := Rows(scanned, log, 0, len);
            var n := RowAbove(rows, len, |rows|);
            n <= len && Rows(shown, log, 0, n) == []
  {
    NothingShown(scanned, shown, log, 0, len, 0);
  }

  /** One newest-first query and its row loop. */
  method ListBatch(log: seq<Event>, len: nat, scanned: Event -> bool, shown: Event -> bool, limit: nat,
                   found: seq<nat>, beforeSeq: int, ghost goal: seq<nat>)
    returns (out: seq<nat>, before: int, full: bool, n: nat)
    requires LosesNothing(scanned, shown) && |found| < limit && len <= |log|
    requires Listing(shown, log, limit, goal, found, Below(log, len, beforeSeq))
    ensures Listing(shown, log, limit, goal, out, n) && n <= Below(log, len, beforeSeq)
    ensures !full && |out| < limit ==> Rows(shown, log, 0, n) == []
    ensures full && |out| < limit ==> n < Below(log, len, beforeSeq) && before == log[n].position
  {
    var m := Below(log, len, beforeSeq);
    ghost var all := Rows(scanned, log, 0, m);
    var rows := Newest(Rows(scanned, log, 0, m), MAX_LIMIT);
    var k := 0;
    out, before, n := found, beforeSeq, m;
    while k < |rows| && |out| < limit
      invariant 0 <= k <= |rows| && n == RowAbove(all, m, k) && n <= m
      invariant k > 0 ==> n < m && before == log[n].position
      invariant Listing(shown, log, limit, goal, out, n)
    {
      var row := rows[k];
      assert row == all[|all| - 1 - k];
      ListStep(scanned, shown, log, m, all, k, limit, goal, out);
      before := log[row].position;
      if shown(log[row]) {
        out := out + [row];
      }
      n := row;
      k := k + 1;
    }
    full := k == MAX_LIMIT;
    NothingBelow(scanned, shown, log, m);
  }

  lemma BelowRow(log: seq<Event>, n: nat, len: nat)
    requires ValidLog(log) && n < len <= |log|
    ensures Below(log, len, log[n].position) == n
  {
    CutIs(log, len, log[n].position - 1, n);
  }

  /** `list`: the last matches of the snapshot the first query read, newest first. */
  method List(log: seq<Event>, lens: nat -> nat, t0: nat, scanned: Event -> bool, shown: Event -> bool, limit: int)
    returns (out: seq<nat>)
    requires ValidLog(log) && Snapshots(log, lens) && LosesNothing(scanned, shown)
    ensures out == Newest(Rows(shown, log, 0, lens(t0)), Limit(limit))
  {
    ghost var goal := Newest(Rows(shown, log, 0, lens(t0)), Limit(limit));
    ghost var n := lens(t0);
    var t, beforeSeq, full := t0, 0, true;
    out := [];
    while |out| < Limit(limit) && full
      invariant t0 <= t && 0 <= n <= lens(t0) && Listing(shown, log, Limit(limit), goal, out, n)
      invariant full && |out| < Limit(limit) ==> Below(log, lens(t), beforeSeq) == n
      invariant !full && |out| < Limit(limit) ==> Rows(shown, log, 0, n) == []
      decreases n, Limit(limit) - |out|, full
    {
      out, beforeSeq, full, n := ListBatch(log, lens(t), scanned, shown, Limit(limit), out, beforeSeq, goal);
      t := t + 1;
      if full && |out| < Limit(limit) {
        BelowRow(log, n, lens(t));
      }
    }
  }

  function Limit(limit: int): (l: nat)
    ensures 1 <= l <= MAX_LIMIT
  {
    if limit <= 0 || limit > MAX_LIMIT then DEFAULT_LIMIT else limit
  }

  // -------------------------------------------------------------------- Page

  datatype PageError = InvalidCursor | CursorProjectionMismatch

  datatype Start = Resolved(position: int) | Rejected(error: PageError)

  /** A position is accepted when it is 0 or some visible row has it. */
  predicate CursorExists(log: seq<Event>, len: nat, position: int)
    requires len <= |log|
  {
    position == 0 || exists i :: 0 <= i < len && log[i].position == position
  }

  /** `ResolveStreamStartForProjection`; `Page` starts the same way. */
  function StreamStart(j: EnvelopeCodec, log: seq<Event>, len: nat, cursor: string, projection: string, version: int): (s: Start)
    requires len <= |log|
  {
    if cursor == "" then Resolved(Head(log, len))
    else
      match DecodeFor(j, cursor, projection, version)
      case Invalid => Rejected(InvalidCursor)
      case Mismatch => Rejected(CursorProjectionMismatch)
      case Accepted(position, _, _) =>
        if CursorExists(log, len, position) then Resolved(position) else Rejected(InvalidCursor)
  }

  /** A start the server accepts never lies behind what is visible. */
  lemma StartVisible(j: EnvelopeCodec, log: seq<Event>, len: nat, cursor: string, projection: string, version: int)
    requires ValidLog(log) && len <= |log|
    requires StreamStart(j, log, len, cursor, projection, version).Resolved?
    ensures var from := StreamStart(j, log, len, cursor, projection, version).position;
            0 <= from < TWO_63 && Cut(log, |log|, from) <= len
  {
    var from := StreamStart(j, log, len, cursor, projection, version).position;
    if cursor == "" {
      CutAtHead(log, len);
    } else if from == 0 {
      CutIs(log, |log|, 0, 0);
    } else {
      var i :| 0 <= i < len && log[i].position == from;
      CutAtRow(log, i, |log|);
    }
  }

  /** Every cursor issued for a visible row, or for the start, is accepted again for the same feed. */
  lemma IssuedCursorResumes(j: EnvelopeCodec, log: seq<Event>, len: nat, s: Int64, projection: string, version: int)
    requires Lawful(j) && len <= |log| && s >= 0 && ValidFeed(projection, version) && CursorExists(log, len, s)
    ensures StreamStart(j, log, len, EncodeFor(j, s, projection, version), projection, version) == Resolved(s)
  {
    IssuedCursor(j, s, projection, version, projection, version);
    CursorIsOneWord(j, s, projection, version);
  }

  /**
    Where a reader starts: without a cursor behind the last visible row; with one
    that was issued, at its position when that is 0 or of a visible row, and
    refused as a mismatch by every other feed.
   */
  lemma StartIs(j: EnvelopeCodec, log: seq<Event>, len: nat, s: Int64, projection: string, version: int,
                projection': string, version': int)
    requires Lawful(j) && len <= |log| && s >= 0 && ValidFeed(projection, version) && ValidFeed(projection', version')
    ensures StreamStart(j, log, len, "", projection', version') == Resolved(if len == 0 then 0 else log[len - 1].position)
    ensures StreamStart(j, log, len, EncodeFor(j, s, projection, version), projection', version')
            == if !SameFeed(projection, version, projection', version') then Rejected(CursorProjectionMismatch)
               else if s == 0 || exists i :: 0 <= i < len && log[i].position == s then Resolved(s)
               else Rejected(InvalidCursor)
  {
    IssuedCursor(j, s, projection, version, projection', version');
    CursorIsOneWord(j, s, projection, version);
  }

  datatype Response = Page(items: seq<nat>, nextCursor: string, hasMore: bool) | Error(error: PageError)

  /** What the SQL prefilter lets through: the kinds named by the filter or by its classes. */
  function Scanned(filter: Option<Filter>): (p: Event -> bool) {
    (e: Event) => if filter.None? then Included(e.kind) else QueriesKind(filter.value, e.kind)
  }

  /** What the consumer is to see. */
  function Shown(filter: Option<Filter>): (p: Event -> bool) {
    (e: Event) => if filter.None? then Included(e.kind) else Taxonomy.Matches(filter.value, e.kind, e.payload)
  }

  /** Stored projection filters are normalized, so their prefilter is complete. */
  ghost predicate UsableFilter(filter: Option<Filter>) {
    filter.Some? ==> PrefilterComplete(filter.value)
  }

  lemma PrefilterLosesNothing(filter: Option<Filter>)
    requires UsableFilter(filter)
    ensures LosesNothing(Scanned(filter), Shown(filter))
  {
  }

  /** A filter is used only together with a projection name. */
  function UsedFilter(filter: Option<Filter>, projection: string): (f: Option<Filter>) {
    if projection != "" then filter else None
  }

  /** An empty page can be skipped: the page behind it is the page. */
  lemma EmptyPageSkipped(log: seq<Event>, len: nat, len': nat, shown: Event -> bool, from: int, mid: int, limit: nat,
                         items: seq<nat>, next: int, hasMore: bool)
    requires ValidLog(log) && Cut(log, |log|, from) <= len <= len' <= |log| && 1 <= limit
    requires PageOf(log, len, shown, from, limit, [], mid, false)
    requires PageOf(log, len', shown, mid, limit, items, next, hasMore)
    ensures PageOf(log, len', shown, from, limit, items, next, hasMore)
  {
    NextVisible(log, len, from, mid);
    CutStable(log, len, len', from);
    CutStable(log, len, len', mid);
    PageItems(log, len, shown, from, limit, [], mid, false);
    RowsSplit(shown, log, Cut(log, len', from), Cut(log, len', mid), len');
    if next == mid && next != from {
      var i :| 0 <= i < len && log[i].position == mid;
      assert log[i].position == next;
    }
  }

  lemma NextVisible(log: seq<Event>, len: nat, from: int, next: int)
    requires ValidLog(log) && Cut(log, |log|, from) <= len <= |log| && Next(log, len, from, next)
    ensures Cut(log, |log|, next) <= len
  {
    if next != from {
      var i :| 0 <= i < len && log[i].position == next;
      CutAtRow(log, i, |log|);
    }
  }

  /** The items of a page are what the filter shows between its two cursors. */
  lemma PageItems(log: seq<Event>, len: nat, shown: Event -> bool, from: int, limit: nat,
                  items: seq<nat>, next: int, hasMore: bool)
    requires ValidLog(log) && PageOf(log, len, shown, from, limit, items, next, hasMore)
    ensures items == Rows(shown, log, Cut(log, len, from), Cut(log, len, next))
  {
    var a, b := Cut(log, len, from), Cut(log, len, next);
    RowsSplit(shown, log, a, b, len);
    var matches := Rows(shown, log, a, len);
    assert |Rows(shown, log, a, b)| == |items|;
    assert matches[..|items|] == items;
  }

  /**
    `Page`: polls is how often the wait allows an empty page to be read again.
    Refused exactly as the start is; otherwise the naive page after that start,
    of a snapshot no older than the request, with a cursor for where it ends.
   */
  method ReadPage(j: EnvelopeCodec, log: seq<Event>, lens: nat -> nat, t0: nat, cursor: string, projection: string,
                  version: int, filter: Option<Filter>, limit: int, polls: nat)
    returns (r: Response, t: nat, next: int)
    requires Lawful(j) && ValidLog(log) && Snapshots(log, lens) && UsableFilter(filter) && ValidFeed(projection, version)
    ensures var start := StreamStart(j, log, lens(t0), cursor, projection, version);
            if start.Rejected? then r == Error(start.error)
            else && r.Page? && t0 < t && 0 <= next < TWO_63 && (r.items == [] ==> t0 + polls < t)
                 && r.nextCursor == EncodeFor(j, next, projection, version)
                 && PageOf(log, lens(t), Shown(UsedFilter(filter, projection)), start.position, Limit(limit), r.items, next, r.hasMore)
  {
    var start := StreamStart(j, log, lens(t0), cursor, projection, version);
    t, next := t0, 0;
    if start.Rejected? {
      return Error(start.error), t, next;
    }
    StartVisible(j, log, lens(t0), cursor, projection, version);
    PrefilterLosesNothing(UsedFilter(filter, projection));
    var scanned, shown := Scanned(UsedFilter(filter, projection)), Shown(UsedFilter(filter, projection));
    var items, cur, hasMore;
    items, cur, hasMore, t := PollPages(log, lens, t0 + 1, scanned, shown, start.position, Limit(limit), polls);
    next := cur;
    NextInRange(log, lens(t), start.position, cur);
    r := Page(items, EncodeFor(j, cur, projection, version), hasMore);
  }

  lemma NextInRange(log: seq<Event>, len: nat, from: int, next: int)
    requires ValidLog(log) && len <= |log| && 0 <= from < TWO_63 && Next(log, len, from, next)
    ensures 0 <= next < TWO_63
  {
    if next != from {
      var i :| 0 <= i < len && log[i].position == next;
    }
  }

  /** The poll loop of `Page`: an empty page moves the start forward and is read again. */
  method PollPages(log: seq<Event>, lens: nat -> nat, t0: nat, scanned: Event -> bool, shown: Event -> bool,
                   from: int, limit: nat, polls: nat)
    returns (items: seq<nat>, next: int, hasMore: bool, t: nat)
    requires ValidLog(log) && Snapshots(log, lens) && LosesNothing(scanned, shown)
    requires 1 <= limit && Cut(log, |log|, from) <= lens(t0)
    ensures t0 <= t && PageOf(log, lens(t), shown, from, limit, items, next, hasMore)
    ensures items == [] ==> t0 + polls <= t
  {
    var s, left := t0, polls;
    items, next, hasMore, s := QueryAfter(log, lens, s, scanned, shown, from, limit);
    while items == [] && left > 0
      invariant t0 < s && 0 <= left && t0 + polls < s + left
      invariant PageOf(log, lens(s - 1), shown, from, limit, items, next, hasMore)
    {
      ghost var mid, len := next, lens(s - 1);
      NextVisible(log, len, from, next);
      items, next, hasMore, s := QueryAfter(log, lens, s, scanned, shown, next, limit);
      EmptyPageSkipped(log, len, lens(s - 1), shown, from, mid, limit, items, next, hasMore);
      left := left - 1;
    }
    t := s - 1;
  }

  // ------------------------------------------------------- following cursors

  /** One page of a consumer's walk: the snapshot it was cut from, what it held and where it ended. */
  datatype Visit = Visit(len: nat, limit: nat, items: seq<nat>, next: int, hasMore: bool)

  /** Successive pages, each starting where the last one ended, over a log that only grows. */
  ghost predicate Walk(log: seq<Event>, shown: Event -> bool, from: int, len: nat, visits: seq<Visit>)
    decreases |visits|
  {
    visits == [] ||
    var v := visits[0];
    && len <= v.len && 1 <= v.limit
    && PageOf(log, v.len, shown, from, v.limit, v.items, v.next, v.hasMore)
    && Walk(log, shown, v.next, v.len, visits[1..])
  }

  function AllItems(visits: seq<Visit>): (items: seq<nat>)
    decreases |visits|
  {
    if visits == [] then [] else visits[0].items + AllItems(visits[1..])
  }

  function EndsAt(from: int, visits: seq<Visit>): (next: int) {
    if visits == [] then from else visits[|visits| - 1].next
  }

  /**
    Following `next_cursor` from any start, with appends between the calls, the
    pages concatenate to exactly the rows the filter shows after the start, up
    to where the walk stands.
   */
  lemma {:induction false} PagesExact(log: seq<Event>, shown: Event -> bool, from: int, len: nat, visits: seq<Visit>)
    requires ValidLog(log) && Cut(log, |log|, from) <= len <= |log| && Walk(log, shown, from, len, visits)
    ensures var a, b := Cut(log, |log|, from), Cut(log, |log|, EndsAt(from, visits));
            a <= b && AllItems(visits) == Rows(shown, log, a, b)
    decreases |visits|
  {
    if visits != [] {
      var v, rest := visits[0], visits[1..];
      VisitItems(log, shown, from, v);
      PagesExact(log, shown, v.next, v.len, rest);
      assert EndsAt(from, visits) == EndsAt(v.next, rest);
      var a, b, c := Cut(log, |log|, from), Cut(log, |log|, v.next), Cut(log, |log|, EndsAt(from, visits));
      RowsSplit(shown, log, a, b, c);
    }
  }

  lemma VisitItems(log: seq<Event>, shown: Event -> bool, from: int, v: Visit)
    requires ValidLog(log) && Cut(log, |log|, from) <= v.len <= |log|
    requires PageOf(log, v.len, shown, from, v.limit, v.items, v.next, v.hasMore)
    ensures var a, b := Cut(log, |log|, from), Cut(log, |log|, v.next);
            && a <= b <= v.len && v.items == Rows(shown, log, a, b)
            && (1 <= v.limit ==> (v.hasMore <==> Rows(shown, log, b, v.len) != []))
  {
    NextVisible(log, v.len, from, v.next);
    CutStable(log, v.len, |log|, from);
    CutStable(log, v.len, |log|, v.next);
    PageItems(log, v.len, shown, from, v.limit, v.items, v.next, v.hasMore);
  }

  lemma {:induction false} LastVisit(log: seq<Event>, shown: Event -> bool, from: int, len: nat, visits: seq<Visit>)
    requires ValidLog(log) && Cut(log, |log|, from) <= len <= |log| && Walk(log, shown, from, len, visits) && visits != []
    ensures var v := visits[|visits| - 1];
            && Cut(log, |log|, v.next) <= v.len <= |log|
            && (v.hasMore <==> Rows(shown, log, Cut(log, |log|, v.next), v.len) != [])
    decreases |visits|
  {
    VisitItems(log, shown, from, visits[0]);
    if |visits| > 1 {
      LastVisit(log, shown, visits[0].next, visits[0].len, visits[1..]);
    }
  }

  /**
    `has_more` is exact: the walk has seen everything visible to its last page
    exactly when that page says there is no more.
   */
  lemma PagesComplete(log: seq<Event>, shown: Event -> bool, from: int, len: nat, visits: seq<Visit>)
    requires ValidLog(log) && Cut(log, |log|, from) <= len <= |log| && Walk(log, shown, from, len, visits) && visits != []
    ensures var v := visits[|visits| - 1];
            v.len <= |log| && (!v.hasMore <==> AllItems(visits) == Rows(shown, log, Cut(log, |log|, from), v.len))
  {
    var v := visits[|visits| - 1];
    PagesExact(log, shown, from, len, visits);
    LastVisit(log, shown, from, len, visits);
    RowsSplit(shown, log, Cut(log, |log|, from), Cut(log, |log|, v.next), v.len);
  }
}
