/**
  The event-stream wire format between internal/api/sse.go and
  cmd/meristem/feed.go, following section 9.2 "Server-sent events" of the WHATWG
  HTML Living Standard as far as the two sides use it.

  The server writes frames and keepalive comments; the client reads lines,
  accumulates fields and dispatches on a blank line.  `ReadCut` says what the
  client has dispatched when the connection is cut after any number of
  characters: exactly the frames that arrived whole, and nothing of the rest.
 */
module SseWire {
  import opened Sequences

  datatype Chunk = Frame(id: string, data: string) | Keepalive

  datatype Delivery = Delivery(id: string, data: string)

  /** A value that fits on one line of the stream. */
  predicate OneLine(s: string) {
    forall i :: 0 <= i < |s| ==> s[i] != '\n' && s[i] != '\r'
  }

  predicate ValidChunk(c: Chunk) {
    c.Frame? ==> c.id != "" && c.data != "" && OneLine(c.id) && OneLine(c.data)
  }

  function IdLine(c: Chunk): (l: string)
    requires c.Frame?
  {
    "id: " + c.id
  }

  function DataLine(c: Chunk): (l: string)
    requires c.Frame?
  {
    "data: " + c.data
  }

  /** The lines of a chunk; the blank one ends it. */
  function ChunkLines(c: Chunk): (ls: seq<string>) {
    match c
    case Frame(_, _) => [IdLine(c), "event: feed", DataLine(c), ""]
    case Keepalive => [": keepalive", ""]
  }

  function Unlines(ls: seq<string>): (t: string)
    ensures ls != [] ==> t != ""
  {
    if ls == [] then "" else ls[0] + "\n" + Unlines(ls[1..])
  }

  function Text(c: Chunk): (t: string)
    ensures t != ""
  {
    Unlines(ChunkLines(c))
  }

  /** The text is what `writeSSEFrame` and the heartbeat print. */
  lemma TextIsFormat(c: Chunk)
    ensures c.Frame? ==> Text(c) == "id: " + c.id + "\n" + ("event: feed" + "\n" + ("data: " + c.data + "\n" + "\n"))
    ensures c.Keepalive? ==> Text(c) == ": keepalive\n\n"
  {
    UnlinesCons("", []);
    if c.Frame? {
      UnlinesCons(DataLine(c), [""]);
      UnlinesCons("event: feed", [DataLine(c), ""]);
      UnlinesCons(IdLine(c), ["event: feed", DataLine(c), ""]);
    } else {
      UnlinesCons(": keepalive", [""]);
    }
  }

  lemma UnlinesCons(l: string, ls: seq<string>)
    ensures Unlines([l] + ls) == l + "\n" + Unlines(ls)
  {
    TailOfCons(l, ls);
  }

  function Stream(chunks: seq<Chunk>): (t: string) {
    if chunks == [] then "" else Text(chunks[0]) + Stream(chunks[1..])
  }

  // --------------------------------------------------- the client, by lines

  function DropCR(line: string): (l: string) {
    if line != "" && line[|line| - 1] == '\r' then line[..|line| - 1] else line
  }

  /** bufio.ScanLines: an unterminated last line is still a line. */
  function Lines(text: string): (ls: seq<string>) {
    if text == "" then []
    else
      var n := FirstAt(text, '\n');
      if n == |text| then [DropCR(text)] else [DropCR(text[..n])] + Lines(text[n + 1..])
  }

  datatype Reader = Reader(curId: string, curEvent: string, curData: string, lastId: string, out: seq<Delivery>)

  function Open(lastId: string): (r: Reader) {
    Reader("", "", "", lastId, [])
  }

  function FieldValue(line: string): (v: string) {
    var n := FirstAt(line, ':');
    var v := if n == |line| then "" else line[n + 1..];
    if v != "" && v[0] == ' ' then v[1..] else v
  }

  /** Blank line: dispatch what was accumulated; `decodes` is the JSON decoding of the envelope. */
  function Dispatch(decodes: string -> bool, r: Reader): (r': Reader) {
    if r.curData == "" then r.(curEvent := "")
    else
      var cleared := r.(curData := "", curEvent := "");
      if !decodes(r.curData) then cleared
      else cleared.(lastId := if r.curId != "" then r.curId else r.lastId,
                    out := r.out + [Delivery(r.curId, r.curData)])
  }

  function OnLine(decodes: string -> bool, r: Reader, line: string): (r': Reader) {
    if line == "" then Dispatch(decodes, r)
    else if line[0] == ':' then r
    else
      var field, value := line[..FirstAt(line, ':')], FieldValue(line);
      if field == "id" then r.(curId := value)
      else if field == "event" then r.(curEvent := value)
      else if field == "data" then r.(curData := if r.curData != "" then r.curData + "\n" + value else value)
      else r
  }

  function OnLines(decodes: string -> bool, r: Reader, lines: seq<string>): (r': Reader)
    decreases |lines|
  {
    if lines == [] then r else OnLines(decodes, OnLine(decodes, r, lines[0]), lines[1..])
  }

  /** `consumeStream` over the characters that arrived before the connection ended. */
  function Consume(decodes: string -> bool, lastId: string, body: string): (r: Reader) {
    OnLines(decodes, Open(lastId), Lines(body))
  }

  /** The scanner loop of `consumeStream`. */
  method ConsumeStream(decodes: string -> bool, lastId: string, body: string) returns (newLastId: string, out: seq<Delivery>)
    ensures newLastId == Consume(decodes, lastId, body).lastId
    ensures out == Consume(decodes, lastId, body).out
  {
    var r := Open(lastId);
    var at := 0;
    assert body[0..] == body;
    while at < |body|
      invariant 0 <= at <= |body|
      invariant OnLines(decodes, r, Lines(body[at..])) == Consume(decodes, lastId, body)
    {
      var line, next := ScanLine(body, at);
      TailOfCons(line, Lines(body[next..]));
      r := OnLine(decodes, r, line);
      at := next;
    }
    return r.lastId, r.out;
  }

  /** One step of the scanner: the next line and where the one behind it starts. */
  method ScanLine(body: string, at: nat) returns (line: string, next: nat)
    requires at < |body|
    ensures at < next <= |body| && Lines(body[at..]) == [line] + Lines(body[next..])
  {
    var end := at;
    while end < |body| && body[end] != '\n'
      invariant at <= end <= |body|
      invariant forall i :: at <= i < end ==> body[i] != '\n'
    {
      end := end + 1;
    }
    NextLine(body, at, end);
    line, next := DropCR(body[at..end]), if end < |body| then end + 1 else end;
  }

  lemma NextLine(body: string, at: nat, end: nat)
    requires at < |body| && at <= end <= |body|
    requires (forall i :: at <= i < end ==> body[i] != '\n') && (end < |body| ==> body[end] == '\n')
    ensures Lines(body[at..]) == [DropCR(body[at..end])] + Lines(body[if end < |body| then end + 1 else end..])
  {
    var text := body[at..];
    FirstAtIs(text, '\n', end - at);
    assert text[..end - at] == body[at..end];
    if end < |body| {
      assert text[end - at + 1..] == body[end + 1..];
    } else {
      assert text == body[at..end] && body[end..] == "";
    }
  }

  // -------------------------------------------------------------- the proof

  lemma LineThen(line: string, rest: string)
    requires OneLine(line)
    ensures Lines(line + "\n" + rest) == [line] + Lines(rest)
  {
    var text := line + "\n" + rest;
    FirstAtIs(text, '\n', |line|);
    assert text[..|line|] == line && text[|line| + 1..] == rest;
  }

  /** Reading back a list of lines, followed by anything. */
  lemma {:induction false} LinesOfUnlines(ls: seq<string>, rest: string)
    requires forall i :: 0 <= i < |ls| ==> OneLine(ls[i])
    ensures Lines(Unlines(ls) + rest) == ls + Lines(rest)
  {
    if ls == [] {
      assert Unlines(ls) + rest == rest;
    } else {
      Assoc(ls[0] + "\n", Unlines(ls[1..]), rest);
      LineThen(ls[0], Unlines(ls[1..]) + rest);
      LinesOfUnlines(ls[1..], rest);
      HeadTail(ls);
      Assoc([ls[0]], ls[1..], Lines(rest));
    }
  }

  /** Only the last of these lines is blank. */
  predicate BlankTerminated(ls: seq<string>) {
    && ls != [] && ls[|ls| - 1] == ""
    && forall i :: 0 <= i < |ls| ==> OneLine(ls[i]) && (i < |ls| - 1 ==> ls[i] != "")
  }

  lemma ChunkLinesShape(c: Chunk)
    requires ValidChunk(c)
    ensures BlankTerminated(ChunkLines(c))
  {
  }

  predicate NoBlank(lines: seq<string>) {
    forall i :: 0 <= i < |lines| ==> lines[i] != ""
  }

  lemma PartialLine(line: string, n: nat)
    requires OneLine(line) && n <= |line|
    ensures NoBlank(Lines(line[..n]))
  {
    if n > 0 {
      FirstAtIs(line[..n], '\n', n);
    }
  }

  lemma CutBehindLine(line: string, rest: string, n: nat)
    requires OneLine(line) && |line| < n <= |line + "\n" + rest|
    ensures n - |line| - 1 <= |rest|
    ensures Lines((line + "\n" + rest)[..n]) == [line] + Lines(rest[..n - |line| - 1])
  {
    PrefixBeyond(line + "\n", rest, n);
    LineThen(line, rest[..n - |line| - 1]);
  }

  lemma NoBlankCons(line: string, lines: seq<string>)
    requires line != "" && NoBlank(lines)
    ensures NoBlank([line] + lines)
  {
  }

  lemma CutWithin(line: string, rest: string, n: nat)
    requires OneLine(line) && n <= |line|
    ensures NoBlank(Lines((line + "\n" + rest)[..n]))
  {
    Assoc(line, "\n", rest);
    PrefixWithin(line, "\n" + rest, n);
    PartialLine(line, n);
  }

  lemma CutBeyond(line: string, rest: string, n: nat)
    requires OneLine(line) && line != "" && |line| < n <= |line + "\n" + rest|
    requires n - |line| - 1 <= |rest| ==> NoBlank(Lines(rest[..n - |line| - 1]))
    ensures NoBlank(Lines((line + "\n" + rest)[..n]))
  {
    CutBehindLine(line, rest, n);
    NoBlankCons(line, Lines(rest[..n - |line| - 1]));
  }

  lemma BlankTerminatedRest(ls: seq<string>)
    requires BlankTerminated(ls)
    ensures OneLine(ls[0]) && (|ls| > 1 ==> ls[0] != "" && BlankTerminated(ls[1..]))
    ensures |ls| == 1 ==> ls[0] == "" && Unlines(ls[1..]) == ""
  {
  }

  /** A chunk cut short anywhere contains no blank line, so it dispatches nothing. */
  lemma {:induction false} CutHasNoBlank(ls: seq<string>, n: nat)
    requires BlankTerminated(ls) && n < |Unlines(ls)|
    ensures NoBlank(Lines(Unlines(ls)[..n]))
    decreases |ls|
  {
    var rest := Unlines(ls[1..]);
    assert Unlines(ls) == ls[0] + "\n" + rest;
    BlankTerminatedRest(ls);
    if n <= |ls[0]| {
      CutWithin(ls[0], rest, n);
    } else {
      CutHasNoBlank(ls[1..], n - |ls[0]| - 1);
      CutBeyond(ls[0], rest, n);
    }
  }

  lemma {:induction false} NoBlankNoDispatch(decodes: string -> bool, r: Reader, lines: seq<string>)
    requires NoBlank(lines)
    ensures var r' := OnLines(decodes, r, lines); r'.out == r.out && r'.lastId == r.lastId
    decreases |lines|
  {
    if lines != [] {
      NoBlankNoDispatch(decodes, OnLine(decodes, r, lines[0]), lines[1..]);
    }
  }

  lemma FieldOfLine(name: string, value: string)
    requires name != "" && (forall i :: 0 <= i < |name| ==> name[i] != ':')
    ensures var line := name + ": " + value;
            line != "" && line[0] != ':' && line[..FirstAt(line, ':')] == name && FieldValue(line) == value
  {
    var line := name + ": " + value;
    FirstAtIs(line, ':', |name|);
    assert line[|name| + 1..] == " " + value;
    assert (" " + value)[1..] == value;
  }

  lemma {:induction false} OnLinesConcat(decodes: string -> bool, r: Reader, a: seq<string>, b: seq<string>)
    ensures OnLines(decodes, r, a + b) == OnLines(decodes, OnLines(decodes, r, a), b)
    decreases |a|
  {
    if a == [] {
      assert a + b == b;
    } else {
      assert (a + b)[1..] == a[1..] + b;
      OnLinesConcat(decodes, OnLine(decodes, r, a[0]), a[1..], b);
    }
  }

  lemma IdLineRead(decodes: string -> bool, r: Reader, c: Chunk)
    requires c.Frame?
    ensures OnLine(decodes, r, IdLine(c)) == r.(curId := c.id)
  {
    FieldOfLine("id", c.id);
    assert "id" + ": " + c.id == IdLine(c);
  }

  lemma DataLineRead(decodes: string -> bool, r: Reader, c: Chunk)
    requires c.Frame? && r.curData == ""
    ensures OnLine(decodes, r, DataLine(c)) == r.(curData := c.data)
  {
    FieldOfLine("data", c.data);
    assert "data" + ": " + c.data == DataLine(c);
  }

  lemma EventLineRead(decodes: string -> bool, r: Reader)
    ensures OnLine(decodes, r, "event: feed") == r.(curEvent := "feed")
  {
    FieldOfLine("event", "feed");
    assert "event" + ": " + "feed" == "event: feed";
  }

  lemma OnFourLines(decodes: string -> bool, r: Reader, a: string, b: string, c: string, d: string)
    ensures OnLines(decodes, r, [a, b, c, d])
            == OnLine(decodes, OnLine(decodes, OnLine(decodes, OnLine(decodes, r, a), b), c), d)
  {
    var r1 := OnLine(decodes, r, a);
    var r2 := OnLine(decodes, r1, b);
    var r3 := OnLine(decodes, r2, c);
    assert [a, b, c, d][1..] == [b, c, d] && [b, c, d][1..] == [c, d] && [c, d][1..] == [d] && [d][1..] == [];
    assert OnLines(decodes, r3, [d]) == OnLine(decodes, r3, d);
    assert OnLines(decodes, r2, [c, d]) == OnLines(decodes, r3, [d]);
    assert OnLines(decodes, r1, [b, c, d]) == OnLines(decodes, r2, [c, d]);
  }

  /** What a whole chunk does to the reader. */
  function AfterChunk(r: Reader, c: Chunk): (r': Reader) {
    match c
    case Frame(id, data) => Reader(id, "", "", id, r.out + [Delivery(id, data)])
    case Keepalive => r.(curEvent := "")
  }

  /** A whole frame hands over exactly its id and data; a keepalive hands over nothing. */
  lemma ChunkRead(decodes: string -> bool, r: Reader, c: Chunk)
    requires ValidChunk(c) && (c.Frame? ==> decodes(c.data)) && r.curData == ""
    ensures OnLines(decodes, r, ChunkLines(c)) == AfterChunk(r, c)
  {
    if c.Frame? {
      OnFourLines(decodes, r, IdLine(c), "event: feed", DataLine(c), "");
      IdLineRead(decodes, r, c);
      EventLineRead(decodes, r.(curId := c.id));
      DataLineRead(decodes, r.(curId := c.id, curEvent := "feed"), c);
    } else {
      assert OnLine(decodes, r, ": keepalive") == r;
      assert [": keepalive", ""][1..] == [""];
      assert [""][1..] == [];
      assert OnLines(decodes, r, [""]) == OnLine(decodes, r, "");
    }
  }

  /** How many chunks arrive whole when n characters arrive. */
  function Whole(chunks: seq<Chunk>, n: nat): (k: nat)
    ensures k <= |chunks|
  {
    if chunks == [] || n < |Text(chunks[0])| then 0 else 1 + Whole(chunks[1..], n - |Text(chunks[0])|)
  }

  /** All chunks arrive whole when the whole stream does. */
  lemma {:induction false} AllWhole(chunks: seq<Chunk>)
    ensures Whole(chunks, |Stream(chunks)|) == |chunks|
  {
    if chunks != [] {
      AllWhole(chunks[1..]);
    }
  }

  function Deliveries(chunks: seq<Chunk>): (ds: seq<Delivery>) {
    if chunks == [] then []
    else (if chunks[0].Frame? then [Delivery(chunks[0].id, chunks[0].data)] else []) + Deliveries(chunks[1..])
  }

  function LastId(lastId: string, ds: seq<Delivery>): (id: string) {
    if ds == [] then lastId else ds[|ds| - 1].id
  }

  predicate ValidChunks(decodes: string -> bool, chunks: seq<Chunk>) {
    forall i :: 0 <= i < |chunks| ==> ValidChunk(chunks[i]) && (chunks[i].Frame? ==> decodes(chunks[i].data))
  }

  /**
    Cut anywhere, the stream delivers exactly the frames that arrived whole, in
    order, and the resume id is the id of the last of them.
   */
  lemma {:induction false} ReadCut(decodes: string -> bool, r: Reader, chunks: seq<Chunk>, n: nat)
    requires ValidChunks(decodes, chunks) && r.curData == "" && n <= |Stream(chunks)|
    ensures var r' := OnLines(decodes, r, Lines(Stream(chunks)[..n]));
            var ds := Deliveries(chunks[..Whole(chunks, n)]);
            r'.out == r.out + ds && r'.lastId == LastId(r.lastId, ds)
    decreases |chunks|
  {
    if chunks == [] {
    } else if n < |Text(chunks[0])| {
      assert Whole(chunks, n) == 0 && Deliveries(chunks[..0]) == [];
      ChunkLinesShape(chunks[0]);
      PrefixWithin(Text(chunks[0]), Stream(chunks[1..]), n);
      CutHasNoBlank(ChunkLines(chunks[0]), n);
      NoBlankNoDispatch(decodes, r, Lines(Text(chunks[0])[..n]));
    } else {
      var m := n - |Text(chunks[0])|;
      FirstChunkRead(decodes, r, chunks, n);
      ReadCut(decodes, AfterChunk(r, chunks[0]), chunks[1..], m);
      ChunkThenRest(r, chunks, Whole(chunks[1..], m));
    }
  }

  lemma FirstChunkRead(decodes: string -> bool, r: Reader, chunks: seq<Chunk>, n: nat)
    requires chunks != [] && ValidChunk(chunks[0]) && (chunks[0].Frame? ==> decodes(chunks[0].data))
    requires r.curData == "" && |Text(chunks[0])| <= n <= |Stream(chunks)|
    ensures OnLines(decodes, r, Lines(Stream(chunks)[..n]))
            == OnLines(decodes, AfterChunk(r, chunks[0]), Lines(Stream(chunks[1..])[..n - |Text(chunks[0])|]))
  {
    var c, rest := chunks[0], Stream(chunks[1..])[..n - |Text(chunks[0])|];
    ChunkLinesShape(c);
    PrefixBeyond(Text(c), Stream(chunks[1..]), n);
    LinesOfUnlines(ChunkLines(c), rest);
    OnLinesConcat(decodes, r, ChunkLines(c), Lines(rest));
    ChunkRead(decodes, r, c);
  }

  lemma DeliveriesHead(chunks: seq<Chunk>, k: nat)
    requires k < |chunks|
    ensures Deliveries(chunks[..k + 1])
            == (if chunks[0].Frame? then [Delivery(chunks[0].id, chunks[0].data)] else []) + Deliveries(chunks[1..][..k])
  {
    assert chunks[..k + 1][1..] == chunks[1..][..k];
  }

  lemma ChunkThenRest(r: Reader, chunks: seq<Chunk>, k: nat)
    requires k < |chunks|
    ensures var ds, rest := Deliveries(chunks[..k + 1]), Deliveries(chunks[1..][..k]);
            var r' := AfterChunk(r, chunks[0]);
            r'.out + rest == r.out + ds && LastId(r'.lastId, rest) == LastId(r.lastId, ds)
  {
    DeliveriesHead(chunks, k);
    var rest := Deliveries(chunks[1..][..k]);
    if chunks[0].Frame? {
      var d := Delivery(chunks[0].id, chunks[0].data);
      assert r.out + [d] + rest == r.out + ([d] + rest);
      assert rest == [] ==> [d] + rest == [d];
    } else {
      assert [] + rest == rest;
    }
  }
}
