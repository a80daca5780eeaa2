/**
  Resume cursors (internal/feed/cursor.go): an opaque string that carries a log
  position and, for a named projection, the projection it belongs to.

  Plain cursors are eight big-endian bytes in unpadded base64url (section 5 of
  RFC 4648); projection cursors are a JSON envelope in the same alphabet.
 */
module Cursor {
  import opened CanonicalJson
  import opened Options
  import opened Sequences

  // ------------------------------------------------------ unpadded base64url

  function CharOf(n: int): (c: char)
    requires 0 <= n < 64
    ensures ValueOf(c) == n
  {
    if n < 26 then (n + 65) as char
    else if n < 52 then (n + 71) as char
    else if n < 62 then (n - 4) as char
    else if n == 62 then '-'
    else '_'
  }

  function ValueOf(c: char): (n: int)
    ensures -1 <= n < 64
  {
    if 'A' <= c <= 'Z' then c as int - 65
    else if 'a' <= c <= 'z' then c as int - 71
    else if '0' <= c <= '9' then c as int + 4
    else if c == '-' then 62
    else if c == '_' then 63
    else -1
  }

  type Sextet = x: int | 0 <= x < 64

  /** The bits of a byte string in groups of six; a short last group is padded with zeros. */
  function Sextets(b: seq<Byte>): (v: seq<Sextet>) {
    if |b| == 0 then []
    else if |b| == 1 then [b[0] / 4, b[0] % 4 * 16]
    else if |b| == 2 then [b[0] / 4, b[0] % 4 * 16 + b[1] / 16, b[1] % 16 * 4]
    else [b[0] / 4, b[0] % 4 * 16 + b[1] / 16, b[1] % 16 * 4 + b[2] / 64, b[2] % 64] + Sextets(b[3..])
  }

  /** The way back: trailing bits of a short last group are dropped. */
  function Octets(v: seq<Sextet>): (b: seq<Byte>) {
    if |v| < 2 then []
    else if |v| == 2 then [First(v[0], v[1])]
    else if |v| == 3 then [First(v[0], v[1]), Second(v[1], v[2])]
    else [First(v[0], v[1]), Second(v[1], v[2]), Third(v[2], v[3])] + Octets(v[4..])
  }

  function First(x: int, y: int): (b: Byte)
    requires 0 <= x < 64 && 0 <= y < 64
  {
    x * 4 + y / 16
  }

  function Second(x: int, y: int): (b: Byte)
    requires 0 <= x < 64 && 0 <= y < 64
  {
    x % 16 * 16 + y / 4
  }

  function Third(x: int, y: int): (b: Byte)
    requires 0 <= x < 64 && 0 <= y < 64
  {
    x % 4 * 64 + y
  }

  function Chars(v: seq<Sextet>): (s: string)
    ensures |s| == |v|
  {
    seq(|v|, i requires 0 <= i < |v| => CharOf(v[i]))
  }

  predicate AllInAlphabet(s: string) {
    forall i :: 0 <= i < |s| ==> ValueOf(s[i]) >= 0
  }

  function Values(s: string): (v: seq<Sextet>)
    requires AllInAlphabet(s)
    ensures |v| == |s|
  {
    seq(|s|, i requires 0 <= i < |s| => ValueOf(s[i]))
  }

  /** base64.RawURLEncoding.EncodeToString. */
  function Encode(b: seq<Byte>): (s: string) {
    Chars(Sextets(b))
  }

  /** Go's decoder skips line breaks before grouping. */
  function WithoutBreaks(s: string): (t: string) {
    if s == "" then ""
    else if s[0] == '\n' || s[0] == '\r' then WithoutBreaks(s[1..])
    else [s[0]] + WithoutBreaks(s[1..])
  }

  function Decode(s: string): (r: Option<seq<Byte>>) {
    var t := WithoutBreaks(s);
    if !AllInAlphabet(t) || |t| % 4 == 1 then None else Some(Octets(Values(t)))
  }

  const UPPER: string := "ABCDEFGHIJKLMNOPQRSTUVWXYZ"
  const LOWER: string := "abcdefghijklmnopqrstuvwxyz"

  /** The alphabet of section 5 of RFC 4648. */
  lemma AlphabetIs(n: int)
    requires 0 <= n < 64
    ensures |UPPER| == |LOWER| == 26
    ensures CharOf(n) == if n < 26 then UPPER[n] else if n < 52 then LOWER[n - 26] else if n < 62 then "0123456789"[n - 52] else "-_"[n - 62]
  {
  }

  /** A number written in base 64, most significant digit first. */
  function Number(v: seq<Sextet>): (n: int) {
    if v == [] then 0 else Number(v[..|v| - 1]) * 64 + v[|v| - 1]
  }

  /** Three bytes and the four digits they are written in are one number; shorter groups are padded with zero bits. */
  lemma GroupIsNumber(x: Byte, y: Byte, z: Byte)
    ensures |Sextets([x, y, z])| == 4 && Number(Sextets([x, y, z])) == (x * 256 + y) * 256 + z
    ensures |Sextets([x, y])| == 3 && Number(Sextets([x, y])) == (x * 256 + y) * 4
    ensures |Sextets([x])| == 2 && Number(Sextets([x])) == x * 16
  {
    assert [x, y, z][3..] == [] && Sextets([x, y, z][3..]) == [];
    var v := Sextets([x, y, z]);
    NumberOf(v[0], v[1], v[2], v[3]);
    assert v == [v[0], v[1], v[2], v[3]];
    var w := Sextets([x, y]);
    NumberOf(w[0], w[1], w[2], 0);
    assert w == [w[0], w[1], w[2]];
    var u := Sextets([x]);
    NumberOf(u[0], u[1], 0, 0);
    assert u == [u[0], u[1]];
  }

  lemma NumberOf(a: Sextet, b: Sextet, c: Sextet, d: Sextet)
    ensures Number([a, b]) == a * 64 + b
    ensures Number([a, b, c]) == (a * 64 + b) * 64 + c
    ensures Number([a, b, c, d]) == ((a * 64 + b) * 64 + c) * 64 + d
  {
    assert [a, b, c, d][..3] == [a, b, c] && [a, b, c][..2] == [a, b] && [a, b][..1] == [a] && [a][..0] == [];
    assert Number([a]) == a;
  }

  lemma ValuesOfChars(v: seq<Sextet>)
    ensures AllInAlphabet(Chars(v)) && Values(Chars(v)) == v
  {
    forall i | 0 <= i < |v| ensures ValueOf(Chars(v)[i]) == v[i] {
    }
  }

  lemma {:induction false} SextetsShape(b: seq<Byte>)
    ensures |Sextets(b)| % 4 != 1 && (b != [] ==> Sextets(b) != [])
  {
    if |b| >= 3 {
      SextetsShape(b[3..]);
    }
  }

  /** An encoding is one word: nothing in it can end a line, so nothing is skipped. */
  lemma EncodeShape(b: seq<Byte>)
    ensures AllInAlphabet(Encode(b)) && |Encode(b)| % 4 != 1
    ensures WithoutBreaks(Encode(b)) == Encode(b)
    ensures b != [] ==> Encode(b) != ""
    ensures forall i :: 0 <= i < |Encode(b)| ==> Encode(b)[i] != '\n' && Encode(b)[i] != '\r'
  {
    SextetsShape(b);
    ValuesOfChars(Sextets(b));
    NoBreaks(Encode(b));
  }

  lemma {:induction false} NoBreaks(s: string)
    requires forall i :: 0 <= i < |s| ==> s[i] != '\n' && s[i] != '\r'
    ensures WithoutBreaks(s) == s
  {
    if s != "" {
      NoBreaks(s[1..]);
      assert s == [s[0]] + s[1..];
    }
  }

  lemma Regrouped(x: Byte, y: Byte, z: Byte)
    ensures First(x / 4, x % 4 * 16 + y / 16) == x
    ensures Second(x % 4 * 16 + y / 16, y % 16 * 4 + z / 64) == y
    ensures Third(y % 16 * 4 + z / 64, z % 64) == z
  {
  }

  lemma OctetsGroup(v0: Sextet, v1: Sextet, v2: Sextet, v3: Sextet, rest: seq<Sextet>)
    ensures Octets([v0, v1, v2, v3] + rest) == [First(v0, v1), Second(v1, v2), Third(v2, v3)] + Octets(rest)
  {
    assert ([v0, v1, v2, v3] + rest)[4..] == rest;
  }

  lemma {:induction false} OctetsOfSextets(b: seq<Byte>)
    ensures Octets(Sextets(b)) == b
  {
    if |b| >= 3 {
      OctetsOfSextets(b[3..]);
      LongGroup(b[0], b[1], b[2], Sextets(b[3..]));
      assert b == [b[0], b[1], b[2]] + b[3..];
    } else if |b| == 2 {
      Regrouped(b[0], b[1], 0);
    } else if |b| == 1 {
      Regrouped(b[0], 0, 0);
    }
  }

  lemma LongGroup(x: Byte, y: Byte, z: Byte, rest: seq<Sextet>)
    ensures Octets([x / 4, x % 4 * 16 + y / 16, y % 16 * 4 + z / 64, z % 64] + rest) == [x, y, z] + Octets(rest)
  {
    Regrouped(x, y, z);
    OctetsGroup(x / 4, x % 4 * 16 + y / 16, y % 16 * 4 + z / 64, z % 64, rest);
  }

  /** Decoding inverts encoding, for byte strings of every length. */
  lemma DecodeEncode(b: seq<Byte>)
    ensures Decode(Encode(b)) == Some(b)
  {
    EncodeShape(b);
    ValuesOfChars(Sextets(b));
    OctetsOfSextets(b);
  }

  // ---------------------------------------------------------- plain cursors

  const TWO_63: int := 0x8000_0000_0000_0000
  const TWO_64: int := 0x1_0000_0000_0000_0000

  type Int64 = n: int | -TWO_63 <= n < TWO_63

  function Pow256(k: nat): (p: int)
    ensures p > 0
  {
    if k == 0 then 1 else 256 * Pow256(k - 1)
  }

  /** The low k bytes of n, most significant first. */
  function BigEndian(n: int, k: nat): (b: seq<Byte>)
    requires n >= 0
    ensures |b| == k
  {
    if k == 0 then [] else BigEndian(n / 256, k - 1) + [n % 256]
  }

  function FromBigEndian(b: seq<Byte>): (n: int)
    ensures n >= 0
  {
    if b == [] then 0 else 256 * FromBigEndian(b[..|b| - 1]) + b[|b| - 1]
  }

  lemma {:induction false} BigEndianRoundTrip(n: int, k: nat)
    requires 0 <= n < Pow256(k)
    ensures FromBigEndian(BigEndian(n, k)) == n
  {
    if k > 0 {
      BigEndianRoundTrip(n / 256, k - 1);
      var b := BigEndian(n, k);
      assert b[..|b| - 1] == BigEndian(n / 256, k - 1);
    }
  }

  lemma Pow256Eight()
    ensures Pow256(8) == TWO_64
  {
    assert Pow256(2) == 0x1_0000;
    assert Pow256(4) == 0x1_0000_0000;
    assert Pow256(6) == 0x1_0000_0000_0000;
  }

  function EncodeCursor(s: Int64): (c: string) {
    Encode(BigEndian(if s < 0 then s + TWO_64 else s, 8))
  }

  datatype Decoded = Accepted(position: int, projection: string, version: int) | Invalid | Mismatch

  function DecodeCursor(s: string): (d: Decoded) {
    if s == "" then Invalid
    else
      match Decode(s)
      case None => Invalid
      case Some(raw) =>
        if |raw| != 8 then Invalid
        else
          var u := FromBigEndian(raw);
          if u >= TWO_63 then Invalid else Accepted(u, "", 0)
  }

  /** A plain cursor carries exactly the non-negative positions of an int64. */
  lemma PlainRoundTrip(s: Int64)
    ensures DecodeCursor(EncodeCursor(s)) == if s < 0 then Invalid else Accepted(s, "", 0)
  {
    var u := if s < 0 then s + TWO_64 else s;
    Pow256Eight();
    BigEndianRoundTrip(u, 8);
    DecodeEncode(BigEndian(u, 8));
    EncodeShape(BigEndian(u, 8));
  }

  // ----------------------------------------------------- projection cursors

  datatype Envelope = Envelope(v: int, position: int, projection: string, definition: int)

  /** encoding/json on the envelope, as two functions. */
  datatype EnvelopeCodec = EnvelopeCodec(marshal: Envelope -> seq<Byte>, unmarshal: seq<Byte> -> Option<Envelope>)

  /**
    What is used of the JSON library: unmarshalling inverts marshalling, an
    envelope is longer than eight bytes, and eight bytes are too few to name a
    projection.
   */
  ghost predicate Lawful(j: EnvelopeCodec) {
    && (forall e :: j.unmarshal(j.marshal(e)) == Some(e))
    && (forall e :: |j.marshal(e)| > 8)
    && (forall raw :: |raw| == 8 && j.unmarshal(raw).Some? ==> j.unmarshal(raw).value.projection == "")
  }

  function EncodeProjectionCursor(j: EnvelopeCodec, s: Int64, projection: string, version: int): (c: string) {
    Encode(j.marshal(Envelope(1, s, projection, version)))
  }

  function DecodeProjectionCursor(j: EnvelopeCodec, s: string): (d: Decoded) {
    if s == "" then Invalid
    else
      match Decode(s)
      case None => Invalid
      case Some(raw) =>
        match j.unmarshal(raw)
        case None => Invalid
        case Some(e) =>
          if e.v != 1 || e.position < 0 || e.projection == "" || e.definition < 1 then Invalid
          else Accepted(e.position, e.projection, e.definition)
  }

  /** `encodeCursorFor`: an empty projection name means the unprojected feed. */
  function EncodeFor(j: EnvelopeCodec, s: Int64, projection: string, version: int): (c: string) {
    if projection == "" then EncodeCursor(s) else EncodeProjectionCursor(j, s, projection, version)
  }

  /** `decodeCursorForProjection`. */
  function DecodeFor(j: EnvelopeCodec, s: string, projection: string, version: int): (d: Decoded) {
    if projection == "" then
      var plain := DecodeCursor(s);
      if plain.Accepted? then plain
      else
        var scoped := DecodeProjectionCursor(j, s);
        if scoped.Accepted? && scoped.projection != "" then Mismatch else Invalid
    else
      var scoped := DecodeProjectionCursor(j, s);
      if !scoped.Accepted? then
        if DecodeCursor(s).Accepted? then Mismatch else Invalid
      else if scoped.projection != projection || scoped.version != version then Mismatch
      else scoped
  }

  /** The feed a cursor is issued for: the plain feed, or one version of a projection. */
  predicate ValidFeed(projection: string, version: int) {
    projection != "" ==> version >= 1
  }

  predicate SameFeed(p: string, v: int, p': string, v': int) {
    p == p' && (p == "" || v == v')
  }

  lemma ProjectionRoundTrip(j: EnvelopeCodec, s: Int64, projection: string, version: int)
    requires Lawful(j) && s >= 0 && projection != "" && version >= 1
    ensures var c := EncodeProjectionCursor(j, s, projection, version);
            DecodeProjectionCursor(j, c) == Accepted(s, projection, version) && DecodeCursor(c) == Invalid
  {
    var raw := j.marshal(Envelope(1, s, projection, version));
    assert |raw| > 8;
    DecodeEncode(raw);
    EncodeShape(raw);
  }

  lemma PlainIsNoProjectionCursor(j: EnvelopeCodec, s: Int64)
    requires Lawful(j)
    ensures DecodeProjectionCursor(j, EncodeCursor(s)) == Invalid
  {
    DecodeEncode(BigEndian(if s < 0 then s + TWO_64 else s, 8));
  }

  /**
    Every cursor the server issues is accepted back by the feed it was issued
    for, with the position it was issued at, and is refused as a mismatch by
    every other feed: the plain feed, another projection, or another version.
   */
  lemma IssuedCursor(j: EnvelopeCodec, s: Int64, projection: string, version: int, projection': string, version': int)
    requires Lawful(j) && s >= 0 && ValidFeed(projection, version) && ValidFeed(projection', version')
    ensures var d := DecodeFor(j, EncodeFor(j, s, projection, version), projection', version');
            if SameFeed(projection, version, projection', version')
            then d.Accepted? && d.position == s
            else d == Mismatch
  {
    PlainRoundTrip(s);
    PlainIsNoProjectionCursor(j, s);
    if projection != "" {
      ProjectionRoundTrip(j, s, projection, version);
    }
  }

  /** Cursors are single words, so they can be sent as one line of a stream. */
  lemma CursorIsOneWord(j: EnvelopeCodec, s: Int64, projection: string, version: int)
    requires Lawful(j)
    ensures var c := EncodeFor(j, s, projection, version);
            c != "" && forall i :: 0 <= i < |c| ==> c[i] != '\n' && c[i] != '\r'
  {
    EncodeShape(BigEndian(if s < 0 then s + TWO_64 else s, 8));
    var raw := j.marshal(Envelope(1, s, projection, version));
    assert |raw| > 8;
    EncodeShape(raw);
  }
}
