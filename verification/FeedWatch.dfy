/**
  Watching the feed over server-sent events: the server loop of
  internal/api/sse.go and the reconnecting client of cmd/meristem/feed.go, run
  against each other.

  An attempt may fail before it streams, or stream for any number of polls with
  keepalives in between and be cut after any number of bytes, while rows are
  appended to the log all along.  `Watch` says what the client has been handed
  at any point of such a run: the visible events in log order, none twice, and
  none missing from the first one on, as long as no error is taken for a refused
  cursor.  `WatchGapIff` says exactly which runs leave something out.
 */
module FeedWatch {
  import opened EventLog
  import opened FeedPaging
  import opened Options
  import opened Sequences
  import Cursor
  import SseWire
  import Strings

  /** `sseBatchSize`; above the page limit, so a query falls back to the default limit. */
  const SSE_BATCH: int := 256

  /** What a run does not change: the codec, the item encoding and the actor's access. */
  datatype Setting = Setting(
    j: Cursor.EnvelopeCodec,
    item: Event -> string,
    decodes: string -> bool,
    visible: Event -> bool)

  /** Items marshal to one line that the client can decode. */
  ghost predicate ValidSetting(w: Setting) {
    && Cursor.Lawful(w.j)
    && forall e :: w.item(e) != "" && SseWire.OneLine(w.item(e)) && w.decodes(w.item(e))
  }

  /** The events the watcher is to be handed: of a feed kind, and visible to the actor. */
  function Seen(w: Setting): (p: Event -> bool) {
    (e: Event) => Shown(None)(e) && w.visible(e)
  }

  function IdOf(w: Setting, position: Cursor.Int64): (id: string) {
    Cursor.EncodeFor(w.j, position, "", 0)
  }

  function FrameOf(w: Setting, e: Event): (c: SseWire.Chunk)
    requires 0 <= e.position < Cursor.TWO_63
  {
    SseWire.Frame(IdOf(w, e.position), w.item(e))
  }

  ghost predicate Within(log: seq<Event>, rows: seq<nat>) {
    forall i :: 0 <= i < |rows| ==> rows[i] < |log|
  }

  /** The deliveries of the given rows. */
  ghost function Handed(w: Setting, log: seq<Event>, rows: seq<nat>): (ds: seq<SseWire.Delivery>)
    requires ValidLog(log) && Within(log, rows)
    ensures |ds| == |rows|
  {
    seq(|rows|, i requires 0 <= i < |rows| => SseWire.Delivery(IdOf(w, log[rows[i]].position), w.item(log[rows[i]])))
  }

  // ----------------------------------------------------------------- server

  /** Keeping the visible items of a stretch is reading the stretch for visible items. */
  lemma {:induction false} RowsRefine(w: Setting, shown: Event -> bool, seen: Event -> bool, log: seq<Event>, a: nat, b: nat)
    requires a <= b <= |log|
    requires forall e :: seen(e) <==> shown(e) && w.visible(e)
    ensures KeepVisible(w, log, Rows(shown, log, a, b)) == Rows(seen, log, a, b)
    decreases b
  {
    if a < b {
      RowsRefine(w, shown, seen, log, a, b - 1);
      var before := Rows(shown, log, a, b - 1);
      assert (before + [b - 1])[..|before|] == before;
    }
  }

  /** `filterFeedItems` with a fixed visibility. */
  function KeepVisible(w: Setting, log: seq<Event>, rows: seq<nat>): (kept: seq<nat>) {
    if rows == [] then []
    else
      var last := rows[|rows| - 1];
      var kept := KeepVisible(w, log, rows[..|rows| - 1]);
      if last < |log| && w.visible(log[last]) then kept + [last] else kept
  }

  lemma HandedSnoc(w: Setting, log: seq<Event>, rows: seq<nat>, row: nat)
    requires ValidLog(log) && Within(log, rows) && row < |log|
    ensures Within(log, rows + [row])
    ensures Handed(w, log, rows + [row])
            == Handed(w, log, rows) + [SseWire.Delivery(IdOf(w, log[row].position), w.item(log[row]))]
  {
  }

  lemma HandedConcat(w: Setting, log: seq<Event>, rows: seq<nat>, more: seq<nat>)
    requires ValidLog(log) && Within(log, rows) && Within(log, more)
    ensures Within(log, rows + more)
    ensures Handed(w, log, rows + more) == Handed(w, log, rows) + Handed(w, log, more)
  {
  }

  lemma {:induction false} DeliveriesConcat(a: seq<SseWire.Chunk>, b: seq<SseWire.Chunk>)
    ensures SseWire.Deliveries(a + b) == SseWire.Deliveries(a) + SseWire.Deliveries(b)
    decreases |a|
  {
    if a == [] {
      assert a + b == b;
    } else {
      var head := if a[0].Frame? then [SseWire.Delivery(a[0].id, a[0].data)] else [];
      assert (a + b)[1..] == a[1..] + b && (a + b)[0] == a[0];
      DeliveriesConcat(a[1..], b);
      Assoc(head, SseWire.Deliveries(a[1..]), SseWire.Deliveries(b));
    }
  }

  lemma DeliveriesSnoc(a: seq<SseWire.Chunk>, c: SseWire.Chunk)
    ensures SseWire.Deliveries(a + [c])
            == if c.Frame? then SseWire.Deliveries(a) + [SseWire.Delivery(c.id, c.data)] else SseWire.Deliveries(a)
  {
    DeliveriesConcat(a, [c]);
    assert [c][1..] == [];
  }

  lemma FrameIsValid(w: Setting, e: Event)
    requires ValidSetting(w) && 0 <= e.position < Cursor.TWO_63
    ensures SseWire.ValidChunk(FrameOf(w, e))
  {
    Cursor.CursorIsOneWord(w.j, e.position, "", 0);
  }

  /** The chunks are well formed and hand over exactly the given rows. */
  ghost predicate HandsOver(w: Setting, log: seq<Event>, chunks: seq<SseWire.Chunk>, rows: seq<nat>)
    requires ValidLog(log)
  {
    && SseWire.ValidChunks(w.decodes, chunks)
    && Within(log, rows)
    && SseWire.Deliveries(chunks) == Handed(w, log, rows)
  }

  lemma FrameStep(w: Setting, log: seq<Event>, chunks: seq<SseWire.Chunk>, rows: seq<nat>, row: nat)
    requires ValidSetting(w) && ValidLog(log) && HandsOver(w, log, chunks, rows) && row < |log|
    ensures HandsOver(w, log, chunks + [FrameOf(w, log[row])], rows + [row])
  {
    FrameIsValid(w, log[row]);
    DeliveriesSnoc(chunks, FrameOf(w, log[row]));
    HandedSnoc(w, log, rows, row);
  }

  lemma KeptSnoc(w: Setting, log: seq<Event>, items: seq<nat>, k: nat)
    requires k < |items| && items[k] < |log|
    ensures var kept := KeepVisible(w, log, items[..k]);
            KeepVisible(w, log, items[..k + 1]) == if w.visible(log[items[k]]) then kept + [items[k]] else kept
  {
    assert items[..k + 1][..k] == items[..k];
  }

  /** The frames of one batch, for the items the actor may see. */
  method WriteFrames(w: Setting, log: seq<Event>, items: seq<nat>) returns (chunks: seq<SseWire.Chunk>)
    requires ValidSetting(w) && ValidLog(log) && Within(log, items)
    ensures HandsOver(w, log, chunks, KeepVisible(w, log, items))
  {
    chunks := [];
    for k := 0 to |items|
      invariant HandsOver(w, log, chunks, KeepVisible(w, log, items[..k]))
    {
      KeptSnoc(w, log, items, k);
      if w.visible(log[items[k]]) {
        FrameStep(w, log, chunks, KeepVisible(w, log, items[..k]), items[k]);
        chunks := chunks + [FrameOf(w, log[items[k]])];
      }
    }
    assert items[..|items|] == items;
  }

  /** A non-empty batch starts where the last one ended and ends with its last item. */
  lemma BatchItems(log: seq<Event>, shown: Event -> bool, start: nat, from: int, n: nat, fromSeq: int, len: nat,
                   limit: nat, items: seq<nat>, next: int, hasMore: bool)
    requires ValidLog(log) && start == Cut(log, |log|, from) && At(log, start, from, n, fromSeq) && n <= len <= |log|
    requires PageOf(log, len, shown, fromSeq, limit, items, next, hasMore) && items != []
    ensures Within(log, items) && n <= items[|items| - 1] < len
    ensures items == Rows(shown, log, n, items[|items| - 1] + 1)
    ensures At(log, start, from, items[|items| - 1] + 1, log[items[|items| - 1]].position)
  {
    AtCuts(log, from, n, len, fromSeq);
    var matches := Rows(shown, log, n, len);
    RowsSorted(shown, log, n, len);
    RowsUpTo(shown, log, n, len, |items| - 1);
    assert forall i :: 0 <= i < |items| ==> items[i] == matches[i];
  }

  /** The chunks hand over exactly the visible rows of a stretch. */
  ghost predicate Sent(w: Setting, log: seq<Event>, a: nat, n: nat, chunks: seq<SseWire.Chunk>)
    requires ValidLog(log)
  {
    a <= n <= |log| && HandsOver(w, log, chunks, Rows(Seen(w), log, a, n))
  }

  lemma SentBatch(w: Setting, log: seq<Event>, a: nat, n: nat, end: nat, items: seq<nat>,
                  chunks: seq<SseWire.Chunk>, frames: seq<SseWire.Chunk>)
    requires ValidLog(log) && Sent(w, log, a, n, chunks) && n <= end <= |log|
    requires items == Rows(Shown(None), log, n, end)
    requires HandsOver(w, log, frames, KeepVisible(w, log, items))
    ensures Sent(w, log, a, end, chunks + frames)
  {
    RowsRefine(w, Shown(None), Seen(w), log, n, end);
    RowsSplit(Seen(w), log, a, n, end);
    DeliveriesConcat(chunks, frames);
    HandedConcat(w, log, Rows(Seen(w), log, a, n), Rows(Seen(w), log, n, end));
  }

  lemma SentNothing(w: Setting, log: seq<Event>, a: nat)
    requires ValidLog(log) && a <= |log|
    ensures Sent(w, log, a, a, [])
  {
  }

  lemma SentKeepalive(w: Setting, log: seq<Event>, a: nat, n: nat, chunks: seq<SseWire.Chunk>)
    requires ValidLog(log) && Sent(w, log, a, n, chunks)
    ensures Sent(w, log, a, n, chunks + [SseWire.Keepalive])
  {
    DeliveriesSnoc(chunks, SseWire.Keepalive);
  }

  /** How many rows one poll reads at most: a limit above the maximum falls back to the default. */
  const POLL_ROWS: nat := 50

  function Least(a: int, b: int): (m: int) {
    if a < b then a else b
  }

  /** A poll reads as many rows as are there, up to its limit. */
  ghost predicate Advances(log: seq<Event>, n0: nat, len: nat, n: nat) {
    n0 <= n <= |log| && len <= |log| && |Rows(Shown(None), log, n0, n)| >= Least(POLL_ROWS, |Rows(Shown(None), log, n0, len)|)
  }

  /** A page that was cut from a later snapshot advances over what an earlier one showed. */
  lemma PageAdvances<T>(shown: T -> bool, log: seq<T>, n0: nat, len: nat, later: nat, items: seq<nat>)
    requires n0 <= len <= later <= |log| && items == Take(Rows(shown, log, n0, later), POLL_ROWS)
    ensures |items| >= Least(POLL_ROWS, |Rows(shown, log, n0, len)|)
  {
    RowsSplit(shown, log, n0, len, later);
  }

  /**
    After k of the polls are left to go, everything that was visible k polls
    before the end has been read, as far as the polls reach.
   */
  ghost predicate CatchesUp(log: seq<Event>, lens: nat -> nat, t0: nat, polls: nat, a: nat, n: nat)
    requires Snapshots(log, lens)
  {
    n <= |log| && forall k :: 0 <= k <= polls ==> ReadsAfter(log, lens, t0, polls, a, n, k)
  }

  ghost predicate ReadsAfter(log: seq<Event>, lens: nat -> nat, t0: nat, polls: nat, a: nat, n: nat, k: nat)
    requires Snapshots(log, lens) && n <= |log| && k <= polls
  {
    ReadsUpTo(log, a, n, lens(t0 + k), polls - k)
  }

  ghost predicate ReadsUpTo(log: seq<Event>, a: nat, n: nat, len: nat, polls: nat)
    requires n <= |log| && len <= |log|
  {
    |Rows(Shown(None), log, a, n)| >= Least(POLL_ROWS * polls, |Rows(Shown(None), log, a, len)|)
  }

  lemma OnePollMore(log: seq<Event>, a: nat, n0: nat, n: nat, len: nat, now: nat, polls: nat)
    requires a <= n0 <= n <= |log| && a <= len <= now <= |log|
    requires ReadsUpTo(log, a, n0, len, polls) && Advances(log, n0, now, n)
    ensures ReadsUpTo(log, a, n, len, polls + 1)
  {
    RowsSplit(Shown(None), log, a, n0, n);
    if n0 <= len {
      RowsSplit(Shown(None), log, a, n0, len);
      RowsSplit(Shown(None), log, n0, len, now);
    } else {
      RowsSplit(Shown(None), log, a, len, n0);
    }
  }

  lemma CatchesUpOn(log: seq<Event>, lens: nat -> nat, t0: nat, polls: nat, a: nat, n0: nat, n: nat, t: nat)
    requires Snapshots(log, lens) && CatchesUp(log, lens, t0, polls, a, n0)
    requires a <= lens(t0) && a <= n0 <= n && t0 + polls <= t && n0 <= lens(t) && Advances(log, n0, lens(t), n)
    ensures CatchesUp(log, lens, t0, polls + 1, a, n)
  {
    var more := polls + 1;
    forall k | 0 <= k <= more ensures ReadsAfter(log, lens, t0, more, a, n, k) {
      if k <= polls {
        assert ReadsAfter(log, lens, t0, polls, a, n0, k);
        OnePollMore(log, a, n0, n, lens(t0 + k), lens(t), polls - k);
      }
    }
  }

  /** Enough polls send every row that was visible before them. */
  lemma CaughtUp(w: Setting, log: seq<Event>, lens: nat -> nat, t0: nat, polls: nat, a: nat, n: nat, k: nat)
    requires ValidLog(log) && Snapshots(log, lens) && CatchesUp(log, lens, t0, polls, a, n) && k <= polls && a <= n && a <= lens(t0)
    requires |Rows(Shown(None), log, a, lens(t0 + k))| <= POLL_ROWS * (polls - k)
    ensures n <= |log| && Rows(Seen(w), log, a, lens(t0 + k)) <= Rows(Seen(w), log, a, n)
  {
    var len := lens(t0 + k);
    assert ReadsAfter(log, lens, t0, polls, a, n, k);
    if len <= n {
      RowsSplit(Seen(w), log, a, len, n);
    } else {
      RowsSplit(Shown(None), log, a, n, len);
      RowsSplit(Seen(w), log, a, n, len);
      RowsRefine(w, Shown(None), Seen(w), log, n, len);
    }
  }

  /**
    The loop of `handleFeedStream` from a resolved start: one poll per entry of
    beats, which says whether an idle poll is due a keepalive.
   */
  method Serve(w: Setting, log: seq<Event>, lens: nat -> nat, t0: nat, from: int, beats: seq<bool>)
    returns (chunks: seq<SseWire.Chunk>, t: nat, ghost n: nat)
    requires ValidSetting(w) && ValidLog(log) && Snapshots(log, lens)
    requires Cut(log, |log|, from) <= lens(t0)
    ensures t0 + |beats| <= t && n <= lens(t)
    ensures Sent(w, log, Cut(log, |log|, from), n, chunks)
    ensures CatchesUp(log, lens, t0, |beats|, Cut(log, |log|, from), n)
  {
    ghost var a := Cut(log, |log|, from);
    var fromSeq := from;
    chunks, t, n := [], t0, a;
    SentNothing(w, log, a);
    for i := 0 to |beats|
      invariant t0 + i <= t && n <= lens(t)
      invariant At(log, a, from, n, fromSeq)
      invariant Sent(w, log, a, n, chunks)
      invariant CatchesUp(log, lens, t0, i, a, n)
    {
      ghost var t', n' := t, n;
      chunks, fromSeq, t, n := Poll(w, log, lens, t, from, fromSeq, beats[i], chunks, n);
      CatchesUpOn(log, lens, t0, i, a, n', n, t');
    }
  }

  /** One turn of the loop: a batch of frames, a keepalive or nothing. */
  method Poll(w: Setting, log: seq<Event>, lens: nat -> nat, t0: nat, ghost from: int, position: int, beat: bool,
              sent: seq<SseWire.Chunk>, ghost n0: nat)
    returns (chunks: seq<SseWire.Chunk>, fromSeq: int, t: nat, ghost n: nat)
    requires ValidSetting(w) && ValidLog(log) && Snapshots(log, lens)
    requires n0 <= lens(t0) && At(log, Cut(log, |log|, from), from, n0, position)
    requires Sent(w, log, Cut(log, |log|, from), n0, sent)
    ensures t0 < t && n <= lens(t) && At(log, Cut(log, |log|, from), from, n, fromSeq)
    ensures Sent(w, log, Cut(log, |log|, from), n, chunks)
    ensures n0 <= n && Advances(log, n0, lens(t0), n)
    ensures n == n0 ==> chunks == if beat then sent + [SseWire.Keepalive] else sent
  {
    chunks, fromSeq, n := sent, position, n0;
    PrefilterLosesNothing(None);
    AtCuts(log, from, n, |log|, fromSeq);
    var items, next, hasMore;
    items, next, hasMore, t := QueryAfter(log, lens, t0, Scanned(None), Shown(None), fromSeq, Limit(SSE_BATCH));
    AtCuts(log, from, n, lens(t - 1), fromSeq);
    PageAdvances(Shown(None), log, n0, lens(t0), lens(t - 1), items);
    if items != [] {
      BatchItems(log, Shown(None), Cut(log, |log|, from), from, n, fromSeq, lens(t - 1), Limit(SSE_BATCH), items, next, hasMore);
      var frames := WriteFrames(w, log, items);
      n := items[|items| - 1] + 1;
      SentBatch(w, log, Cut(log, |log|, from), n0, n, items, chunks, frames);
      chunks := chunks + frames;
      fromSeq := log[items[|items| - 1]].position;
    } else if beat {
      SentKeepalive(w, log, Cut(log, |log|, from), n, chunks);
      chunks := chunks + [SseWire.Keepalive];
    }
  }

  // ----------------------------------------------------------------- client

  /** `isInvalidCursorErr`. */
  predicate IsInvalidCursorError(text: string) {
    Strings.Contains(text, "invalid_cursor") || Strings.Contains(text, "400")
  }

  /** One connection attempt: it fails with an error, or streams, may be cut after some characters, and ends with an error. */
  datatype Attempt = Fails(error: string) | Streams(beats: seq<bool>, cut: Option<nat>, error: string)

  const REFUSED: string := "feed: stream 400 Bad Request: invalid_cursor"

  /** The error `consumeStream` returns for a refused start. */
  function ErrorOf(a: Attempt, refused: bool): (text: string) {
    if refused then REFUSED else a.error
  }

  /** Nothing visible is missing from the first row handed over to the last. */
  ghost predicate Gapless(w: Setting, log: seq<Event>, rows: seq<nat>) {
    rows != [] ==> Within(log, rows) && rows == Rows(Seen(w), log, rows[0], rows[|rows| - 1] + 1)
  }

  predicate Increasing(rows: seq<nat>) {
    forall i, j :: 0 <= i < j < |rows| ==> rows[i] < rows[j]
  }

  /** Handed over so far, and the resume id that goes with it. */
  ghost predicate Watched(w: Setting, log: seq<Event>, len: nat, rows: seq<nat>, lastId: string, delivered: seq<SseWire.Delivery>)
    requires ValidLog(log)
  {
    && len <= |log|
    && (forall i :: 0 <= i < |rows| ==> rows[i] < len && Seen(w)(log[rows[i]]))
    && Increasing(rows)
    && delivered == Handed(w, log, rows)
    && (lastId != "" ==> rows != [] && lastId == IdOf(w, log[rows[|rows| - 1]].position))
  }

  /**
    What another connection adds: rows handed over so far, the row its stream
    starts at, and how far it got.  Together they have a gap exactly when there
    was one before or something visible lies between the last row and the start.
   */
  lemma GapIff(w: Setting, log: seq<Event>, rows: seq<nat>, a: nat, b: nat)
    requires rows != [] && Within(log, rows) && Increasing(rows) && rows[|rows| - 1] < a <= b <= |log|
    requires Seen(w)(log[rows[|rows| - 1]])
    requires Rows(Seen(w), log, a, b) != []
    ensures Gapless(w, log, rows + Rows(Seen(w), log, a, b)) <==>
              Gapless(w, log, rows) && Rows(Seen(w), log, rows[|rows| - 1] + 1, a) == []
  {
    var r := rows[|rows| - 1];
    assert rows[0] <= r;
    JoinIff(Seen(w), log, rows, r, a, b);
    Ends(Seen(w), log, rows, a, b);
  }

  lemma Ends(seen: Event -> bool, log: seq<Event>, rows: seq<nat>, a: nat, b: nat)
    requires rows != [] && Within(log, rows) && a <= b <= |log| && Rows(seen, log, a, b) != []
    ensures var both := rows + Rows(seen, log, a, b);
            && Within(log, both) && both[0] == rows[0]
            && both[|both| - 1] == Rows(seen, log, a, b)[|Rows(seen, log, a, b)| - 1]
  {
    RowsSorted(seen, log, a, b);
  }

  lemma JoinIff(seen: Event -> bool, log: seq<Event>, rows: seq<nat>, r: nat, a: nat, b: nat)
    requires rows != [] && rows[0] <= r == rows[|rows| - 1] && r < a <= b <= |log| && Rows(seen, log, a, b) != []
    ensures var more := Rows(seen, log, a, b);
            var last := more[|more| - 1];
            && last < |log|
            && (rows + more == Rows(seen, log, rows[0], last + 1)
                <==> rows == Rows(seen, log, rows[0], r + 1) && Rows(seen, log, r + 1, a) == [])
  {
    var more := Rows(seen, log, a, b);
    var last := more[|more| - 1];
    RowsUpTo(seen, log, a, b, |more| - 1);
    assert more[..|more|] == more;
    var upTo, between := Rows(seen, log, rows[0], r + 1), Rows(seen, log, r + 1, a);
    RowsSplit(seen, log, rows[0], r + 1, last + 1);
    RowsSplit(seen, log, r + 1, a, last + 1);
    RowsSorted(seen, log, r + 1, a);
    SplitUnique(upTo, between, more, rows, r);
  }

  /** rows + more is the whole reading exactly when rows is its part up to r and nothing lies in between. */
  lemma SplitUnique(upTo: seq<nat>, between: seq<nat>, more: seq<nat>, rows: seq<nat>, r: nat)
    requires rows != [] && rows[|rows| - 1] == r
    requires forall i :: 0 <= i < |between| ==> between[i] > r
    ensures upTo + (between + more) == rows + more <==> upTo == rows && between == []
  {
    Assoc(upTo, between, more);
    LastOfBoth(upTo, between);
    if upTo + (between + more) == rows + more {
      assert |upTo + between| == |rows|;
      assert upTo + between == (upTo + between + more)[..|rows|] == (rows + more)[..|rows|] == rows;
      assert between == [] ==> upTo + between == upTo;
    } else {
      assert upTo == rows && between == [] ==> between + more == more;
    }
  }

  lemma LastOfBoth(x: seq<nat>, y: seq<nat>)
    ensures y != [] ==> (x + y)[|x + y| - 1] == y[|y| - 1]
  {
  }

  lemma DeliveredPrefix(w: Setting, log: seq<Event>, all: seq<nat>, chunks: seq<SseWire.Chunk>, k: nat)
    requires ValidLog(log) && Within(log, all) && SseWire.Deliveries(chunks) == Handed(w, log, all) && k <= |chunks|
    ensures var m := |SseWire.Deliveries(chunks[..k])|;
            m <= |all| && Within(log, all[..m]) && SseWire.Deliveries(chunks[..k]) == Handed(w, log, all[..m])
  {
    DeliveriesConcat(chunks[..k], chunks[k..]);
    assert chunks == chunks[..k] + chunks[k..];
    var m := |SseWire.Deliveries(chunks[..k])|;
    assert SseWire.Deliveries(chunks[..k]) == Handed(w, log, all)[..m];
  }

  lemma RowsPrefix(seen: Event -> bool, log: seq<Event>, a: nat, n: nat, m: nat) returns (b: nat)
    requires a <= n <= |log| && m <= |Rows(seen, log, a, n)|
    ensures a <= b <= n && Rows(seen, log, a, b) == Rows(seen, log, a, n)[..m]
    ensures m > 0 ==> b == Rows(seen, log, a, n)[m - 1] + 1
  {
    if m == 0 {
      b := a;
    } else {
      b := Rows(seen, log, a, n)[m - 1] + 1;
      RowsUpTo(seen, log, a, n, m - 1);
    }
  }

  /**
    Cut after c characters, the stream hands over the visible rows of a shorter
    stretch from the same start: as many as frames arrived whole.
   */
  lemma CutDelivers(w: Setting, log: seq<Event>, a: nat, n: nat, chunks: seq<SseWire.Chunk>, lastId: string, c: nat)
    returns (b: nat)
    requires ValidLog(log) && Sent(w, log, a, n, chunks) && c <= |SseWire.Stream(chunks)|
    ensures a <= b <= n
    ensures var r := SseWire.Consume(w.decodes, lastId, SseWire.Stream(chunks)[..c]);
            var rows := Rows(Seen(w), log, a, b);
            Within(log, rows) && r.out == Handed(w, log, rows) && r.lastId == NewId(w, log, rows, lastId)
    ensures |Rows(Seen(w), log, a, b)| == |SseWire.Deliveries(chunks[..SseWire.Whole(chunks, c)])|
  {
    var all, k := Rows(Seen(w), log, a, n), SseWire.Whole(chunks, c);
    SseWire.ReadCut(w.decodes, SseWire.Open(lastId), chunks, c);
    DeliveredPrefix(w, log, all, chunks, k);
    b := RowsPrefix(Seen(w), log, a, n, |SseWire.Deliveries(chunks[..k])|);
  }

  /** Nothing cut off, everything arrives. */
  lemma UncutDelivers(w: Setting, log: seq<Event>, a: nat, b: nat, n: nat, chunks: seq<SseWire.Chunk>)
    requires ValidLog(log) && Sent(w, log, a, n, chunks) && a <= b <= n
    requires |Rows(Seen(w), log, a, b)| == |SseWire.Deliveries(chunks[..SseWire.Whole(chunks, |SseWire.Stream(chunks)|)])|
    ensures Rows(Seen(w), log, a, b) == Rows(Seen(w), log, a, n)
  {
    SseWire.AllWhole(chunks);
    assert chunks[..|chunks|] == chunks;
    RowsSplit(Seen(w), log, a, b, n);
  }

  /** The resume id after some more rows. */
  ghost function NewId(w: Setting, log: seq<Event>, rows: seq<nat>, lastId: string): (id: string)
    requires ValidLog(log) && Within(log, rows)
  {
    if rows == [] then lastId else IdOf(w, log[rows[|rows| - 1]].position)
  }

  /** Where a connection starts: right behind the last row handed over, or at the head when there is no resume id. */
  lemma ConnectsAt(w: Setting, log: seq<Event>, len: nat, rows: seq<nat>, lastId: string, delivered: seq<SseWire.Delivery>)
    requires ValidSetting(w) && ValidLog(log) && Watched(w, log, len, rows, lastId, delivered)
    ensures var start := StreamStart(w.j, log, len, lastId, "", 0);
            && start.Resolved?
            && Cut(log, |log|, start.position) == if lastId == "" then len else rows[|rows| - 1] + 1
  {
    if lastId == "" {
      CutAtHead(log, len);
    } else {
      var r := rows[|rows| - 1];
      assert log[r].position == log[r].position;
      IssuedCursorResumes(w.j, log, len, log[r].position, "", 0);
      CutAtRow(log, r, |log|);
    }
  }

  lemma IncreasingConcat(seen: Event -> bool, log: seq<Event>, rows: seq<nat>, a: nat, b: nat, len: nat)
    requires Increasing(rows) && a <= b <= len <= |log| && (rows != [] ==> rows[|rows| - 1] < a)
    requires forall i :: 0 <= i < |rows| ==> rows[i] < len && seen(log[rows[i]])
    ensures var both := rows + Rows(seen, log, a, b);
            Increasing(both) && forall i :: 0 <= i < |both| ==> both[i] < len && seen(log[both[i]])
  {
    RowsSorted(seen, log, a, b);
    assert forall i :: 0 <= i < |rows| ==> rows[i] < a;
  }

  lemma WatchedMore(w: Setting, log: seq<Event>, len: nat, len': nat, rows: seq<nat>, lastId: string,
                    delivered: seq<SseWire.Delivery>, a: nat, b: nat, out: seq<SseWire.Delivery>)
    requires ValidSetting(w) && ValidLog(log) && Watched(w, log, len, rows, lastId, delivered) && len <= len' <= |log|
    requires a <= b <= len' && (rows != [] ==> rows[|rows| - 1] < a)
    requires Within(log, Rows(Seen(w), log, a, b)) && out == Handed(w, log, Rows(Seen(w), log, a, b))
    ensures var more := Rows(Seen(w), log, a, b);
            Watched(w, log, len', rows + more, NewId(w, log, more, lastId), delivered + out)
  {
    var more := Rows(Seen(w), log, a, b);
    IncreasingConcat(Seen(w), log, rows, a, b, len');
    HandedConcat(w, log, rows, more);
    assert more == [] ==> rows + more == rows;
  }

  lemma FromFirst<T>(seen: T -> bool, log: seq<T>, a: nat, b: nat)
    requires a <= b <= |log| && Rows(seen, log, a, b) != []
    ensures var rows := Rows(seen, log, a, b);
            a <= rows[0] < b && Rows(seen, log, rows[0], b) == rows
  {
    var rows := Rows(seen, log, a, b);
    RowsAt(seen, log, a, b, 0);
    RowsSplit(seen, log, a, rows[0], b);
    assert Rows(seen, log, a, rows[0]) == [];
  }

  lemma UpToLast<T>(seen: T -> bool, log: seq<T>, a: nat, b: nat)
    requires a <= b <= |log| && Rows(seen, log, a, b) != []
    ensures var rows := Rows(seen, log, a, b);
            a <= rows[|rows| - 1] < b && Rows(seen, log, a, rows[|rows| - 1] + 1) == rows
  {
    var rows := Rows(seen, log, a, b);
    RowsUpTo(seen, log, a, b, |rows| - 1);
    assert rows[..|rows|] == rows;
  }

  lemma FirstStretch<T>(seen: T -> bool, log: seq<T>, a: nat, b: nat)
    requires a <= b <= |log| && Rows(seen, log, a, b) != []
    ensures var rows := Rows(seen, log, a, b);
            rows[0] <= rows[|rows| - 1] < b && rows == Rows(seen, log, rows[0], rows[|rows| - 1] + 1)
  {
    var last := Rows(seen, log, a, b)[|Rows(seen, log, a, b)| - 1];
    UpToLast(seen, log, a, b);
    FromFirst(seen, log, a, last + 1);
  }

  lemma GaplessMore(w: Setting, log: seq<Event>, rows: seq<nat>, a: nat, b: nat)
    requires Within(log, rows) && Increasing(rows) && a <= b <= |log|
    requires rows != [] ==> rows[|rows| - 1] + 1 == a && Seen(w)(log[rows[|rows| - 1]])
    requires Gapless(w, log, rows)
    ensures Gapless(w, log, rows + Rows(Seen(w), log, a, b))
  {
    var more := Rows(Seen(w), log, a, b);
    if more == [] {
      assert rows + more == rows;
    } else if rows == [] {
      FirstStretch(Seen(w), log, a, b);
      RowsSorted(Seen(w), log, a, b);
      assert rows + more == more;
    } else {
      GapIff(w, log, rows, a, b);
    }
  }

  // ------------------------------------------------------------- whole watches

  /** The stretch of the log one connection handed over: where it started and how far it got. */
  datatype Span = Span(from: nat, to: nat)

  /** What a sequence of connections handed over. */
  ghost function HandedRows(w: Setting, log: seq<Event>, spans: seq<Span>): (rows: seq<nat>) {
    if spans == [] then []
    else
      var last := spans[|spans| - 1];
      HandedRows(w, log, spans[..|spans| - 1]) + if last.to <= |log| then Rows(Seen(w), log, last.from, last.to) else []
  }

  /** Connection i starts behind everything handed over before it. */
  ghost predicate StartsBehind(w: Setting, log: seq<Event>, spans: seq<Span>, i: nat)
    requires i < |spans|
  {
    var before := HandedRows(w, log, spans[..i]);
    spans[i].from <= spans[i].to <= |log| && (before != [] ==> before[|before| - 1] < spans[i].from)
  }

  ghost predicate Successive(w: Setting, log: seq<Event>, spans: seq<Span>) {
    forall i :: 0 <= i < |spans| ==> StartsBehind(w, log, spans, i)
  }

  /** Connection i hands something over and passes over something visible to get there. */
  ghost predicate PassesOver(w: Setting, log: seq<Event>, spans: seq<Span>, i: nat)
    requires i < |spans|
  {
    var before := HandedRows(w, log, spans[..i]);
    && before != [] && spans[i].from <= spans[i].to <= |log| && Rows(Seen(w), log, spans[i].from, spans[i].to) != []
    && Rows(Seen(w), log, before[|before| - 1] + 1, spans[i].from) != []
  }

  lemma SpansBefore(w: Setting, log: seq<Event>, spans: seq<Span>, i: nat)
    requires spans != [] && i < |spans| - 1
    ensures var front := spans[..|spans| - 1];
            && (StartsBehind(w, log, front, i) <==> StartsBehind(w, log, spans, i))
            && (PassesOver(w, log, front, i) <==> PassesOver(w, log, spans, i))
  {
    assert spans[..|spans| - 1][..i] == spans[..i];
  }

  lemma {:induction false} HandedShape(w: Setting, log: seq<Event>, spans: seq<Span>)
    requires Successive(w, log, spans)
    ensures var rows := HandedRows(w, log, spans);
            Increasing(rows) && forall i :: 0 <= i < |rows| ==> rows[i] < |log| && Seen(w)(log[rows[i]])
  {
    if spans != [] {
      var n := |spans| - 1;
      LastStarts(w, log, spans);
      HandedShape(w, log, spans[..n]);
      IncreasingConcat(Seen(w), log, HandedRows(w, log, spans[..n]), spans[n].from, spans[n].to, |log|);
    }
  }

  ghost predicate NonePassesOver(w: Setting, log: seq<Event>, spans: seq<Span>) {
    forall i :: 0 <= i < |spans| ==> !PassesOver(w, log, spans, i)
  }

  lemma LastPasses(w: Setting, log: seq<Event>, spans: seq<Span>)
    requires spans != []
    ensures var n := |spans| - 1;
            NonePassesOver(w, log, spans) <==> NonePassesOver(w, log, spans[..n]) && !PassesOver(w, log, spans, n)
  {
    var n := |spans| - 1;
    forall i | 0 <= i < n ensures PassesOver(w, log, spans[..n], i) <==> PassesOver(w, log, spans, i) {
      SpansBefore(w, log, spans, i);
    }
  }

  lemma LastStarts(w: Setting, log: seq<Event>, spans: seq<Span>)
    requires spans != [] && Successive(w, log, spans)
    ensures var n := |spans| - 1; Successive(w, log, spans[..n]) && StartsBehind(w, log, spans, n)
  {
    var n := |spans| - 1;
    forall i | 0 <= i < n ensures StartsBehind(w, log, spans[..n], i) {
      SpansBefore(w, log, spans, i);
      assert StartsBehind(w, log, spans, i);
    }
  }

  /**
    Over a whole watch something visible is missing between the first row handed
    over and the last exactly when some connection passed over it.
   */
  lemma {:induction false} WatchGapIff(w: Setting, log: seq<Event>, spans: seq<Span>)
    requires Successive(w, log, spans)
    ensures Gapless(w, log, HandedRows(w, log, spans)) <==> NonePassesOver(w, log, spans)
  {
    if spans != [] {
      var n := |spans| - 1;
      var front, last := spans[..n], spans[n];
      var rows := HandedRows(w, log, front);
      LastStarts(w, log, spans);
      LastPasses(w, log, spans);
      WatchGapIff(w, log, front);
      HandedShape(w, log, front);
      LastSpan(w, log, rows, last.from, last.to);
      assert HandedRows(w, log, spans) == rows + Rows(Seen(w), log, last.from, last.to);
    }
  }

  lemma LastSpan(w: Setting, log: seq<Event>, rows: seq<nat>, a: nat, b: nat)
    requires Increasing(rows) && (forall i :: 0 <= i < |rows| ==> rows[i] < |log| && Seen(w)(log[rows[i]]))
    requires a <= b <= |log| && (rows != [] ==> rows[|rows| - 1] < a)
    ensures Gapless(w, log, rows + Rows(Seen(w), log, a, b)) <==>
              Gapless(w, log, rows)
              && !(rows != [] && Rows(Seen(w), log, a, b) != [] && Rows(Seen(w), log, rows[|rows| - 1] + 1, a) != [])
  {
    var more := Rows(Seen(w), log, a, b);
    if more == [] {
      assert rows + more == rows;
    } else if rows == [] {
      FirstStretch(Seen(w), log, a, b);
      RowsSorted(Seen(w), log, a, b);
      assert rows + more == more;
    } else {
      GapIff(w, log, rows, a, b);
    }
  }

  lemma SpanAdded(w: Setting, log: seq<Event>, spans: seq<Span>, a: nat, b: nat)
    requires Successive(w, log, spans) && a <= b <= |log|
    requires HandedRows(w, log, spans) != [] ==> HandedRows(w, log, spans)[|HandedRows(w, log, spans)| - 1] < a
    ensures var more := spans + [Span(a, b)];
            Successive(w, log, more) && HandedRows(w, log, more) == HandedRows(w, log, spans) + Rows(Seen(w), log, a, b)
  {
    var more := spans + [Span(a, b)];
    assert more[..|spans|] == spans;
    forall i | 0 <= i < |more| ensures StartsBehind(w, log, more, i) {
      if i < |spans| {
        assert StartsBehind(w, log, spans, i);
        SpansBefore(w, log, more, i);
      }
    }
  }

  /** A watch that restarts behind a waiting visible event loses that event. */
  lemma RestartLoses(w: Setting, log: seq<Event>, spans: seq<Span>, waiting: nat, from: nat, to: nat)
    requires Successive(w, log, spans) && HandedRows(w, log, spans) != []
    requires HandedRows(w, log, spans)[|HandedRows(w, log, spans)| - 1] < waiting < from <= to <= |log|
    requires Seen(w)(log[waiting]) && Rows(Seen(w), log, from, to) != []
    ensures !Gapless(w, log, HandedRows(w, log, spans + [Span(from, to)]))
  {
    var before, more := HandedRows(w, log, spans), spans + [Span(from, to)];
    SpanAdded(w, log, spans, from, to);
    var i := RowsComplete(Seen(w), log, before[|before| - 1] + 1, from, waiting);
    assert more[..|spans|] == spans;
    assert PassesOver(w, log, more, |spans|);
    WatchGapIff(w, log, more);
  }

  /**
    A stream of so many polls from row a hands over every visible row that was
    there while enough polls were still to come.
   */
  ghost predicate Delivers(w: Setting, log: seq<Event>, lens: nat -> nat, t0: nat, polls: nat, a: nat, b: nat)
    requires Snapshots(log, lens)
  {
    b <= |log| && forall k :: 0 <= k <= polls ==> DeliversAfter(w, log, lens, t0, polls, a, b, k)
  }

  ghost predicate DeliversAfter(w: Setting, log: seq<Event>, lens: nat -> nat, t0: nat, polls: nat, a: nat, b: nat, k: nat)
    requires Snapshots(log, lens) && b <= |log| && k <= polls
  {
    var len := lens(t0 + k);
    |Rows(Shown(None), log, a, len)| <= POLL_ROWS * (polls - k) ==> Rows(Seen(w), log, a, len) <= Rows(Seen(w), log, a, b)
  }

  lemma DeliversAll(w: Setting, log: seq<Event>, lens: nat -> nat, t0: nat, polls: nat, a: nat, n: nat, b: nat)
    requires ValidLog(log) && Snapshots(log, lens) && CatchesUp(log, lens, t0, polls, a, n) && a <= n <= |log| && a <= lens(t0)
    requires b <= |log| && Rows(Seen(w), log, a, b) == Rows(Seen(w), log, a, n)
    ensures Delivers(w, log, lens, t0, polls, a, b)
  {
    forall k | 0 <= k <= polls ensures DeliversAfter(w, log, lens, t0, polls, a, b, k) {
      if |Rows(Shown(None), log, a, lens(t0 + k))| <= POLL_ROWS * (polls - k) {
        CaughtUp(w, log, lens, t0, polls, a, n, k);
      }
    }
  }

  /** One streamed attempt: both sides of the connection, and what the client has afterwards. */
  method Connect(w: Setting, log: seq<Event>, lens: nat -> nat, t0: nat, lastId: string, beats: seq<bool>, cut: Option<nat>,
                 ghost rows: seq<nat>, ghost delivered: seq<SseWire.Delivery>)
    returns (refused: bool, newLastId: string, out: seq<SseWire.Delivery>, t: nat, ghost a: nat, ghost b: nat)
    requires ValidSetting(w) && ValidLog(log) && Snapshots(log, lens)
    requires Watched(w, log, lens(t0), rows, lastId, delivered)
    ensures !refused && t0 <= t && a <= b <= lens(t) <= |log|
    ensures a == if lastId == "" then lens(t0) else rows[|rows| - 1] + 1
    ensures Watched(w, log, lens(t), rows + Rows(Seen(w), log, a, b), newLastId, delivered + out)
    ensures newLastId == "" ==> lastId == "" && Rows(Seen(w), log, a, b) == []
    ensures Within(log, Rows(Seen(w), log, a, b)) && newLastId == NewId(w, log, Rows(Seen(w), log, a, b), lastId)
    ensures cut.None? ==> Delivers(w, log, lens, t0, |beats|, a, b)
  {
    var start := StreamStart(w.j, log, lens(t0), lastId, "", 0);
    ConnectsAt(w, log, lens(t0), rows, lastId, delivered);
    refused := start.Rejected?;
    a := Cut(log, |log|, start.position);
    var chunks;
    ghost var n;
    chunks, t, n := Serve(w, log, lens, t0, start.position, beats);
    var body := SseWire.Stream(chunks);
    var arrived := body[..if cut.Some? && cut.value < |body| then cut.value else |body|];
    b := CutDelivers(w, log, a, n, chunks, lastId, |arrived|);
    newLastId, out := SseWire.ConsumeStream(w.decodes, lastId, arrived);
    WatchedMore(w, log, lens(t0), lens(t), rows, lastId, delivered, a, b, out);
    NewIdNotBlank(w, log, Rows(Seen(w), log, a, b), lastId);
    if cut.None? {
      UncutDelivers(w, log, a, b, n, chunks);
      DeliversAll(w, log, lens, t0, |beats|, a, n, b);
    }
  }

  lemma NewIdNotBlank(w: Setting, log: seq<Event>, rows: seq<nat>, lastId: string)
    requires ValidSetting(w) && ValidLog(log) && Within(log, rows)
    ensures NewId(w, log, rows, lastId) == "" <==> rows == [] && lastId == ""
  {
    if rows != [] {
      Cursor.CursorIsOneWord(w.j, log[rows[|rows| - 1]].position, "", 0);
    }
  }

  /** Nothing is missing so far, and the next connection will resume behind the last row. */
  ghost predicate Resumable(w: Setting, log: seq<Event>, rows: seq<nat>, lastId: string) {
    Gapless(w, log, rows) && (rows != [] ==> lastId != "")
  }

  /** What the client has at one point of a watch. */
  datatype Client = Client(time: nat, lastId: string, rows: seq<nat>, spans: seq<Span>)

  /** The resume id after an error: none when the error is taken for a refused cursor. */
  function Remembered(error: string, lastId: string): (id: string) {
    if IsInvalidCursorError(error) then "" else lastId
  }

  /**
    What one attempt changes.  A failed one leaves everything but the resume id;
    a streamed one starts behind the last row, or at the head without a resume
    id, hands over the visible rows of one stretch, and, when it is not cut, all
    of them that its polls had time for.
   */
  ghost predicate Turn(w: Setting, log: seq<Event>, lens: nat -> nat, attempt: Attempt, c: Client, d: Client)
    requires ValidLog(log) && Snapshots(log, lens)
  {
    match attempt
    case Fails(error) => d == c.(lastId := Remembered(error, c.lastId))
    case Streams(beats, cut, error) =>
      && c.time <= d.time && |d.spans| == |c.spans| + 1 && d.spans[..|c.spans|] == c.spans
      && var x := d.spans[|c.spans|];
      && (c.lastId != "" ==> c.rows != [])
      && x.from == (if c.lastId == "" then lens(c.time) else c.rows[|c.rows| - 1] + 1)
      && x.from <= x.to <= lens(d.time)
      && d.rows == c.rows + Rows(Seen(w), log, x.from, x.to)
      && Within(log, Rows(Seen(w), log, x.from, x.to))
      && d.lastId == Remembered(error, NewId(w, log, Rows(Seen(w), log, x.from, x.to), c.lastId))
      && (cut.None? ==> Delivers(w, log, lens, c.time, |beats|, x.from, x.to))
  }

  lemma StreamTurn(w: Setting, log: seq<Event>, lens: nat -> nat, attempt: Attempt, c: Client, t: nat, a: nat, b: nat, lastId: string)
    requires ValidLog(log) && Snapshots(log, lens) && attempt.Streams? && c.time <= t && (c.lastId != "" ==> c.rows != [])
    requires a <= b <= lens(t) && a == if c.lastId == "" then lens(c.time) else c.rows[|c.rows| - 1] + 1
    requires Within(log, Rows(Seen(w), log, a, b))
    requires lastId == Remembered(attempt.error, NewId(w, log, Rows(Seen(w), log, a, b), c.lastId))
    requires attempt.cut.None? ==> Delivers(w, log, lens, c.time, |attempt.beats|, a, b)
    ensures Turn(w, log, lens, attempt, c, Client(t, lastId, c.rows + Rows(Seen(w), log, a, b), c.spans + [Span(a, b)]))
  {
    var spans := c.spans + [Span(a, b)];
    assert spans[..|c.spans|] == c.spans && spans[|c.spans|] == Span(a, b);
  }

  /** One stream that was opened, up to its end: the client keeps its resume id when it gets no new one. */
  method Stream(w: Setting, log: seq<Event>, lens: nat -> nat, t0: nat, beats: seq<bool>, cut: Option<nat>, id: string,
                handed: seq<SseWire.Delivery>, ghost rows0: seq<nat>, ghost spans0: seq<Span>)
    returns (refused: bool, lastId: string, delivered: seq<SseWire.Delivery>, t: nat, ghost a: nat, ghost b: nat)
    requires ValidSetting(w) && ValidLog(log) && Snapshots(log, lens)
    requires Watched(w, log, lens(t0), rows0, id, handed)
    requires Successive(w, log, spans0) && rows0 == HandedRows(w, log, spans0)
    ensures !refused && t0 <= t && a <= b <= lens(t) && a == if id == "" then lens(t0) else rows0[|rows0| - 1] + 1
    ensures Successive(w, log, spans0 + [Span(a, b)])
    ensures rows0 + Rows(Seen(w), log, a, b) == HandedRows(w, log, spans0 + [Span(a, b)])
    ensures Within(log, Rows(Seen(w), log, a, b)) && lastId == NewId(w, log, Rows(Seen(w), log, a, b), id)
    ensures Watched(w, log, lens(t), rows0 + Rows(Seen(w), log, a, b), lastId, delivered)
    ensures Resumable(w, log, rows0, id) ==> Resumable(w, log, rows0 + Rows(Seen(w), log, a, b), lastId)
    ensures cut.None? ==> Delivers(w, log, lens, t0, |beats|, a, b)
  {
    var newLastId, out;
    refused, newLastId, out, t, a, b := Connect(w, log, lens, t0, id, beats, cut, rows0, handed);
    if Resumable(w, log, rows0, id) {
      GaplessMore(w, log, rows0, a, b);
    }
    SpanAdded(w, log, spans0, a, b);
    lastId, delivered := id, handed + out;
    if newLastId != "" {
      lastId := newLastId;
    }
  }

  /** The error branch of the client loop. */
  method Forgetful(error: string, id: string) returns (lastId: string)
    ensures lastId == Remembered(error, id)
  {
    lastId := id;
    if IsInvalidCursorError(error) {
      lastId := "";
    }
  }

  /** One turn with a stream: an error taken for a refused cursor makes the client forget its resume id. */
  method TryStream(w: Setting, log: seq<Event>, lens: nat -> nat, t0: nat, attempt: Attempt, id: string,
                   handed: seq<SseWire.Delivery>, ghost rows0: seq<nat>, ghost spans0: seq<Span>)
    returns (refused: bool, lastId: string, delivered: seq<SseWire.Delivery>, t: nat, ghost rows: seq<nat>, ghost spans: seq<Span>)
    requires ValidSetting(w) && ValidLog(log) && Snapshots(log, lens) && attempt.Streams?
    requires Watched(w, log, lens(t0), rows0, id, handed)
    requires Successive(w, log, spans0) && rows0 == HandedRows(w, log, spans0)
    ensures Successive(w, log, spans) && rows == HandedRows(w, log, spans)
    ensures !refused && t0 <= t && Watched(w, log, lens(t), rows, lastId, delivered)
    ensures Resumable(w, log, rows0, id) && !IsInvalidCursorError(attempt.error) ==> Resumable(w, log, rows, lastId)
    ensures Turn(w, log, lens, attempt, Client(t0, id, rows0, spans0), Client(t, lastId, rows, spans))
  {
    ghost var a, b;
    refused, lastId, delivered, t, a, b := Stream(w, log, lens, t0, attempt.beats, attempt.cut, id, handed, rows0, spans0);
    rows, spans := rows0 + Rows(Seen(w), log, a, b), spans0 + [Span(a, b)];
    var error := ErrorOf(attempt, refused);
    assert error == attempt.error;
    lastId := Forgetful(error, lastId);
    StreamTurn(w, log, lens, attempt, Client(t0, id, rows0, spans0), t, a, b, lastId);
  }

  /** One turn of the client loop. */
  method Try(w: Setting, log: seq<Event>, lens: nat -> nat, t0: nat, attempt: Attempt, id: string,
             handed: seq<SseWire.Delivery>, ghost rows0: seq<nat>, ghost spans0: seq<Span>)
    returns (refused: bool, lastId: string, delivered: seq<SseWire.Delivery>, t: nat, ghost rows: seq<nat>, ghost spans: seq<Span>)
    requires ValidSetting(w) && ValidLog(log) && Snapshots(log, lens)
    requires Watched(w, log, lens(t0), rows0, id, handed)
    requires Successive(w, log, spans0) && rows0 == HandedRows(w, log, spans0)
    ensures Successive(w, log, spans) && rows == HandedRows(w, log, spans)
    ensures !refused && t0 <= t && Watched(w, log, lens(t), rows, lastId, delivered)
    ensures Resumable(w, log, rows0, id) && !IsInvalidCursorError(attempt.error) ==> Resumable(w, log, rows, lastId)
    ensures Turn(w, log, lens, attempt, Client(t0, id, rows0, spans0), Client(t, lastId, rows, spans))
  {
    if attempt.Streams? {
      refused, lastId, delivered, t, rows, spans := TryStream(w, log, lens, t0, attempt, id, handed, rows0, spans0);
    } else {
      refused, delivered, t, rows, spans := false, handed, t0, rows0, spans0;
      lastId := Forgetful(ErrorOf(attempt, refused), id);
    }
  }

  /** The client started with nothing, and each attempt took its turn. */
  ghost predicate Turns(w: Setting, log: seq<Event>, lens: nat -> nat, attempts: seq<Attempt>, history: seq<Client>)
    requires ValidLog(log) && Snapshots(log, lens)
  {
    && |history| == |attempts| + 1 && history[0] == Client(0, "", [], [])
    && forall i :: 0 <= i < |attempts| ==> Turn(w, log, lens, attempts[i], history[i], history[i + 1])
  }

  /**
    `runFeedWatch` against the server, over any attempts.  At every point the
    client has been handed visible events in log order, none twice; its resume
    id is never refused; when no error was taken for a refused cursor, nothing
    visible is missing from the first event handed over to the last; and in any
    case something is missing exactly when a connection passed over it.  Every
    attempt took its turn.
   */
  method Watch(w: Setting, log: seq<Event>, lens: nat -> nat, attempts: seq<Attempt>)
    returns (delivered: seq<SseWire.Delivery>, lastId: string, everRefused: bool, ghost rows: seq<nat>, ghost history: seq<Client>)
    requires ValidSetting(w) && ValidLog(log) && Snapshots(log, lens)
    ensures Watched(w, log, |log|, rows, lastId, delivered)
    ensures !everRefused
    ensures (forall i :: 0 <= i < |attempts| ==> !IsInvalidCursorError(attempts[i].error)) ==> Gapless(w, log, rows)
    ensures Turns(w, log, lens, attempts, history)
    ensures history[|attempts|].rows == rows && history[|attempts|].lastId == lastId
    ensures var spans := history[|attempts|].spans;
            && Successive(w, log, spans) && rows == HandedRows(w, log, spans)
            && (Gapless(w, log, rows) <==> NonePassesOver(w, log, spans))
  {
    delivered, lastId, everRefused, rows := [], "", false, [];
    ghost var spans: seq<Span> := [];
    history := [Client(0, "", [], [])];
    var t := 0;
    assert attempts[..0] == [];
    for i := 0 to |attempts|
      invariant !everRefused && Underway(w, log, lens, attempts[..i], history, delivered)
      invariant history[i] == Client(t, lastId, rows, spans)
    {
      var refused;
      ghost var before := history;
      assert attempts[..i + 1] == attempts[..i] + [attempts[i]];
      refused, lastId, delivered, t, rows, spans := Try(w, log, lens, t, attempts[i], lastId, delivered, rows, spans);
      everRefused := everRefused || refused;
      history := before + [Client(t, lastId, rows, spans)];
      UnderwayOn(w, log, lens, attempts[..i], attempts[i], before, Client(t, lastId, rows, spans), delivered);
    }
    assert attempts[..|attempts|] == attempts;
    WatchGapIff(w, log, spans);
  }

  /** No error was taken for a refused cursor. */
  ghost predicate NoneTaken(attempts: seq<Attempt>) {
    forall i :: 0 <= i < |attempts| ==> !IsInvalidCursorError(attempts[i].error)
  }

  /** How a watch stands after its attempts so far. */
  ghost predicate Underway(w: Setting, log: seq<Event>, lens: nat -> nat, attempts: seq<Attempt>, history: seq<Client>,
                           delivered: seq<SseWire.Delivery>)
    requires ValidLog(log) && Snapshots(log, lens)
  {
    && Turns(w, log, lens, attempts, history)
    && var c := history[|attempts|];
    && Watched(w, log, lens(c.time), c.rows, c.lastId, delivered)
    && Successive(w, log, c.spans) && c.rows == HandedRows(w, log, c.spans)
    && (NoneTaken(attempts) ==> Resumable(w, log, c.rows, c.lastId))
  }

  lemma UnderwayOn(w: Setting, log: seq<Event>, lens: nat -> nat, attempts: seq<Attempt>, attempt: Attempt, history: seq<Client>,
                   d: Client, delivered: seq<SseWire.Delivery>)
    requires ValidLog(log) && Snapshots(log, lens) && Turns(w, log, lens, attempts, history)
    requires NoneTaken(attempts) ==> Resumable(w, log, history[|attempts|].rows, history[|attempts|].lastId)
    requires Turn(w, log, lens, attempt, history[|attempts|], d)
    requires Watched(w, log, lens(d.time), d.rows, d.lastId, delivered)
    requires Successive(w, log, d.spans) && d.rows == HandedRows(w, log, d.spans)
    requires var c := history[|attempts|];
             Resumable(w, log, c.rows, c.lastId) && !IsInvalidCursorError(attempt.error) ==> Resumable(w, log, d.rows, d.lastId)
    ensures Underway(w, log, lens, attempts + [attempt], history + [d], delivered)
  {
    var more := attempts + [attempt];
    assert more[..|attempts|] == attempts && more[..|more|] == more;
    TurnsOn(w, log, lens, more, |attempts|, history, d);
    if NoneTaken(more) {
      assert more[|attempts|] == attempt && forall i :: 0 <= i < |attempts| ==> more[i] == attempts[i];
    }
  }

  lemma TurnsOn(w: Setting, log: seq<Event>, lens: nat -> nat, attempts: seq<Attempt>, i: nat, history: seq<Client>, c: Client)
    requires ValidLog(log) && Snapshots(log, lens) && i < |attempts| && Turns(w, log, lens, attempts[..i], history)
    requires Turn(w, log, lens, attempts[i], history[i], c)
    ensures Turns(w, log, lens, attempts[..i + 1], history + [c])
  {
    var more := history + [c];
    forall k | 0 <= k < i + 1 ensures Turn(w, log, lens, attempts[..i + 1][k], more[k], more[k + 1]) {
      if k < i {
        assert Turn(w, log, lens, attempts[..i][k], history[k], history[k + 1]);
      }
    }
  }

  predicate OccursAt(text: string, sub: string, i: nat) {
    i + |sub| <= |text| && text[i..i + |sub|] == sub
  }

  predicate Occurs(text: string, sub: string) {
    exists i :: 0 <= i <= |text| && OccursAt(text, sub, i)
  }

  lemma {:induction false} OccursIff(text: string, sub: string)
    requires sub != ""
    ensures Strings.Contains(text, sub) <==> Occurs(text, sub)
  {
    if sub <= text {
      assert OccursAt(text, sub, 0);
    } else if text != "" {
      OccursIff(text[1..], sub);
      OccursFront(text, sub);
    }
  }

  lemma OccursFront(text: string, sub: string)
    requires text != "" && !(sub <= text)
    ensures Occurs(text, sub) <==> Occurs(text[1..], sub)
  {
    if Occurs(text[1..], sub) {
      var i :| 0 <= i <= |text[1..]| && OccursAt(text[1..], sub, i);
      assert text[i + 1..i + 1 + |sub|] == text[1..][i..i + |sub|];
      assert OccursAt(text, sub, i + 1);
    }
    if Occurs(text, sub) {
      var i :| 0 <= i <= |text| && OccursAt(text, sub, i);
      assert i > 0 by {
        assert text[0..|sub|] == text[..|sub|];
      }
      assert text[1..][i - 1..i - 1 + |sub|] == text[i..i + |sub|];
      assert OccursAt(text[1..], sub, i - 1);
    }
  }

  /** The classification is about these two texts and nothing else. */
  lemma InvalidCursorErrorIff(text: string)
    ensures IsInvalidCursorError(text) <==> Occurs(text, "invalid_cursor") || Occurs(text, "400")
  {
    OccursIff(text, "invalid_cursor");
    OccursIff(text, "400");
  }

  /** An answer with status 400 is recognized as a refusal, whatever else it says. */
  lemma RefusalRecognized(rest: string)
    ensures IsInvalidCursorError("feed: stream " + ("400" + rest))
  {
    assert Strings.Contains("400" + rest, "400");
    ContainsBehind("feed: stream ", "400" + rest, "400");
  }

  /** What the client reports when nobody accepts its connection. */
  function Refusal(url: string, address: string): (text: string) {
    "feed: stream connect: Get \"" + url + "\": dial tcp " + address + ": connect: connection refused"
  }

  /**
    The classification is by substring: when the address dialled contains 400,
    as every port from 4000 to 4009 makes it, a refused connection restarts the
    watch from the head.
   */
  lemma ConnectionErrorTakenForRefusal(url: string, address: string)
    requires Strings.Contains(address, "400")
    ensures IsInvalidCursorError(Refusal(url, address))
  {
    var head, tail := "feed: stream connect: Get \"" + url + "\": dial tcp ", ": connect: connection refused";
    ContainsBefore(address, tail, "400");
    ContainsBehind(head, address + tail, "400");
    Assoc(head, address, tail);
  }

  lemma {:induction false} ContainsBefore(head: string, tail: string, sub: string)
    requires Strings.Contains(head, sub)
    ensures Strings.Contains(head + tail, sub)
  {
    if !(sub <= head) {
      ContainsBefore(head[1..], tail, sub);
      assert (head + tail)[1..] == head[1..] + tail;
    }
  }

  lemma {:induction false} ContainsBehind(head: string, tail: string, sub: string)
    requires Strings.Contains(tail, sub)
    ensures Strings.Contains(head + tail, sub)
  {
    if head == "" {
      assert head + tail == tail;
    } else {
      ContainsBehind(head[1..], tail, sub);
      assert (head + tail)[1..] == head[1..] + tail;
    }
  }
}
