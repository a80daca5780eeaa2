/**
  The event log as its readers see it: rows in increasing `seq` order, read
  through growing snapshots.  Rows become visible in seq order, so a snapshot is
  a length: the rows before that index are visible.  Rows are named by their
  index in the log.
 */
module EventLog {
  import opened CanonicalJson
  import Taxonomy

  /** One row of `events`, as far as the feed reads it. */
  datatype Event = Event(position: int, id: nat, kind: Taxonomy.Kind, payload: Json)

  /** Positions are a BIGSERIAL: positive, increasing, and inside int64. */
  ghost predicate ValidLog(log: seq<Event>) {
    && (forall i :: 0 <= i < |log| ==> 0 < log[i].position < 0x8000_0000_0000_0000)
    && (forall i, j :: 0 <= i < j < |log| ==> log[i].position < log[j].position)
  }

  /** How many of the first len rows are at or before a position: where `seq > $1` starts. */
  function Cut(log: seq<Event>, len: nat, position: int): (n: nat)
    requires len <= |log|
    ensures n <= len
  {
    if len == 0 then 0
    else if log[len - 1].position <= position then len
    else Cut(log, len - 1, position)
  }

  lemma {:induction false} CutIs(log: seq<Event>, len: nat, position: int, n: nat)
    requires ValidLog(log) && n <= len <= |log|
    requires n > 0 ==> log[n - 1].position <= position
    requires n < len ==> log[n].position > position
    ensures Cut(log, len, position) == n
  {
    if n < len {
      assert log[n].position <= log[len - 1].position;
      CutIs(log, len - 1, position, n);
    }
  }

  lemma {:induction false} CutSplits(log: seq<Event>, len: nat, position: int)
    requires ValidLog(log) && len <= |log|
    ensures var n := Cut(log, len, position);
            (n > 0 ==> log[n - 1].position <= position) && (n < len ==> log[n].position > position)
  {
    if len > 0 && log[len - 1].position > position {
      CutSplits(log, len - 1, position);
    }
  }

  /** A later snapshot cuts at the same row, as long as the cut was visible. */
  lemma CutStable(log: seq<Event>, len: nat, later: nat, position: int)
    requires ValidLog(log) && len <= |log| && later <= |log|
    requires Cut(log, |log|, position) <= len && Cut(log, |log|, position) <= later
    ensures Cut(log, len, position) == Cut(log, later, position) == Cut(log, |log|, position)
  {
    CutSplits(log, |log|, position);
    CutIs(log, len, position, Cut(log, |log|, position));
    CutIs(log, later, position, Cut(log, |log|, position));
  }

  /** The position of a row cuts the log right after that row. */
  lemma CutAtRow(log: seq<Event>, n: nat, len: nat)
    requires ValidLog(log) && n < len <= |log|
    ensures Cut(log, len, log[n].position) == n + 1
  {
    CutIs(log, len, log[n].position, n + 1);
  }

  /** The highest visible position, or 0 when there is none: `COALESCE(MAX(seq), 0)`. */
  function Head(log: seq<Event>, len: nat): (position: int)
    requires len <= |log|
  {
    if len == 0 then 0 else log[len - 1].position
  }

  lemma CutAtHead(log: seq<Event>, len: nat)
    requires ValidLog(log) && len <= |log|
    ensures Cut(log, |log|, Head(log, len)) == len
  {
    CutIs(log, |log|, Head(log, len), len);
  }

  // -------------------------------------------------------------- selection

  /** The rows of log[a..b] satisfying p, in order: the naive reading of the log. */
  function Rows<T>(p: T -> bool, log: seq<T>, a: nat, b: nat): (rows: seq<nat>)
    requires b <= |log|
    ensures |rows| <= if a <= b then b - a else 0
    decreases b
  {
    if b <= a then []
    else if p(log[b - 1]) then Rows(p, log, a, b - 1) + [b - 1]
    else Rows(p, log, a, b - 1)
  }

  /** No row of the stretch that satisfies p is left out. */
  lemma {:induction false} RowsComplete<T>(p: T -> bool, log: seq<T>, a: nat, b: nat, n: nat) returns (i: nat)
    requires a <= n < b <= |log| && p(log[n])
    ensures i < |Rows(p, log, a, b)| && Rows(p, log, a, b)[i] == n
    decreases b
  {
    if n == b - 1 {
      i := |Rows(p, log, a, n)|;
    } else {
      i := RowsComplete(p, log, a, b - 1, n);
    }
  }

  lemma {:induction false} RowsSplit<T>(p: T -> bool, log: seq<T>, a: nat, b: nat, c: nat)
    requires a <= b <= c <= |log|
    ensures Rows(p, log, a, c) == Rows(p, log, a, b) + Rows(p, log, b, c)
    decreases c
  {
    if b < c {
      RowsSplit(p, log, a, b, c - 1);
    }
  }

  lemma {:induction false} NoRows<T>(p: T -> bool, log: seq<T>, a: nat, b: nat)
    requires a <= b <= |log|
    requires forall n :: a <= n < b ==> !p(log[n])
    ensures Rows(p, log, a, b) == []
    decreases b
  {
    if a < b {
      NoRows(p, log, a, b - 1);
    }
  }

  /** The k-th row read splits the stretch: the earlier ones lie before it and the later ones behind it. */
  lemma {:induction false} RowsAt<T>(p: T -> bool, log: seq<T>, a: nat, b: nat, k: nat)
    requires a <= b <= |log| && k < |Rows(p, log, a, b)|
    ensures var rows := Rows(p, log, a, b);
            && a <= rows[k] < b && p(log[rows[k]])
            && Rows(p, log, a, rows[k]) == rows[..k]
            && Rows(p, log, rows[k] + 1, b) == rows[k + 1..]
    decreases b
  {
    var before, rows := Rows(p, log, a, b - 1), Rows(p, log, a, b);
    if k < |before| {
      RowsAt(p, log, a, b - 1, k);
      assert rows[k] == before[k] && rows[..k] == before[..k];
      if p(log[b - 1]) {
        assert rows[k + 1..] == before[k + 1..] + [b - 1];
      }
    }
  }

  /** The rows read lie in the stretch, satisfy p and increase. */
  lemma RowsSorted<T>(p: T -> bool, log: seq<T>, a: nat, b: nat)
    requires a <= b <= |log|
    ensures var rows := Rows(p, log, a, b);
            && (forall i :: 0 <= i < |rows| ==> a <= rows[i] < b && p(log[rows[i]]))
            && (forall i, j :: 0 <= i < j < |rows| ==> rows[i] < rows[j])
  {
    var rows := Rows(p, log, a, b);
    forall j | 0 <= j < |rows| ensures a <= rows[j] < b && p(log[rows[j]]) {
      RowsAt(p, log, a, b, j);
    }
    forall i, j | 0 <= i < j < |rows| ensures rows[i] < rows[j] {
      RowsAt(p, log, a, b, j);
      RowsAt(p, log, a, rows[j], i);
      assert rows[i] == rows[..j][i];
    }
  }

  /** Up to and including the k-th row read. */
  lemma RowsUpTo<T>(p: T -> bool, log: seq<T>, a: nat, b: nat, k: nat)
    requires a <= b <= |log| && k < |Rows(p, log, a, b)|
    ensures var rows := Rows(p, log, a, b);
            a <= rows[k] < b && Rows(p, log, a, rows[k] + 1) == rows[..k + 1]
  {
    RowsAt(p, log, a, b, k);
  }

  /** Nothing satisfying p lies strictly between two rows read, before the first or behind the last. */
  lemma RowsGap<T>(p: T -> bool, log: seq<T>, a: nat, b: nat, k: nat, n: nat)
    requires a <= n < b <= |log| && k <= |Rows(p, log, a, b)|
    requires RowEnd(Rows(p, log, a, b), a, k) <= n < if k < |Rows(p, log, a, b)| then Rows(p, log, a, b)[k] else b
    ensures !p(log[n])
  {
    RowsSorted(p, log, a, b);
    if p(log[n]) {
      var i := RowsComplete(p, log, a, b, n);
      assert false;
    }
  }

  /** Where a scan stands after k of the rows read from a. */
  function RowEnd(rows: seq<nat>, a: nat, k: nat): (n: nat)
    requires k <= |rows|
  {
    if k == 0 then a else rows[k - 1] + 1
  }

  function Take<T>(s: seq<T>, k: nat): (t: seq<T>) {
    if k <= |s| then s[..k] else s
  }
}
