/**
  UUIDs and their text, as github.com/google/uuid writes and reads them: written
  in lower case with dashes, read in either case, with or without dashes, in
  braces or behind `urn:uuid:`.
 */
module Uuids {
  import opened CanonicalJson
  import opened Options
  import opened Sequences

  type Uuid = b: seq<Byte> | |b| == 16 witness [0, 0, 0, 0, 0, 0, 0, 0, 0, 0, 0, 0, 0, 0, 0, 0]

  const NIL: Uuid := [0, 0, 0, 0, 0, 0, 0, 0, 0, 0, 0, 0, 0, 0, 0, 0]

  function HexChar(n: int): (c: char)
    requires 0 <= n < 16
    ensures HexValue(c) == n && !('A' <= c <= 'F')
  {
    if n < 10 then (n + 48) as char else (n + 87) as char
  }

  function HexValue(c: char): (n: int)
    ensures -1 <= n < 16
  {
    if '0' <= c <= '9' then c as int - 48
    else if 'a' <= c <= 'f' then c as int - 87
    else if 'A' <= c <= 'F' then c as int - 55
    else -1
  }

  function HexText(b: seq<Byte>): (s: string)
    ensures |s| == 2 * |b|
  {
    if b == [] then "" else [HexChar(b[0] / 16), HexChar(b[0] % 16)] + HexText(b[1..])
  }

  function ParseHex(s: string): (b: Option<seq<Byte>>)
    requires |s| % 2 == 0
    ensures b.Some? ==> 2 * |b.value| == |s|
  {
    if s == "" then Some([])
    else if HexValue(s[0]) < 0 || HexValue(s[1]) < 0 then None
    else
      match ParseHex(s[2..])
      case None => None
      case Some(rest) => Some([HexValue(s[0]) * 16 + HexValue(s[1])] + rest)
  }

  predicate LowerCase(s: string) {
    forall i :: 0 <= i < |s| ==> !('A' <= s[i] <= 'F')
  }

  lemma {:induction false} ParseHexText(b: seq<Byte>)
    ensures ParseHex(HexText(b)) == Some(b) && LowerCase(HexText(b))
  {
    if b != [] {
      var s := HexText(b);
      assert s[2..] == HexText(b[1..]);
      ParseHexText(b[1..]);
      assert forall i :: 2 <= i < |s| ==> s[i] == s[2..][i - 2];
      HeadTail(b);
    }
  }

  lemma HexCharValue(c: char)
    requires HexValue(c) >= 0
    ensures HexChar(HexValue(c)) == c <==> !('A' <= c <= 'F')
  {
  }

  lemma LowerCasePair(s: string)
    requires |s| >= 2
    ensures LowerCase(s) <==> !('A' <= s[0] <= 'F') && !('A' <= s[1] <= 'F') && LowerCase(s[2..])
  {
    assert forall i :: 2 <= i < |s| ==> s[i] == s[2..][i - 2];
  }

  lemma PairThen(s: string, a: char, b: char, t: string)
    requires |s| >= 2
    ensures [a, b] + t == s <==> a == s[0] && b == s[1] && t == s[2..]
  {
    var x := [a, b] + t;
    assert x[0] == a && x[1] == b && x[2..] == t;
    assert s == [s[0], s[1]] + s[2..];
  }

  lemma HexTextFront(n: Byte, rest: seq<Byte>)
    ensures HexText([n] + rest) == [HexChar(n / 16), HexChar(n % 16)] + HexText(rest)
  {
    TailOfCons(n, rest);
  }

  lemma HexPair(c: char, d: char)
    requires HexValue(c) >= 0 && HexValue(d) >= 0
    ensures var n := HexValue(c) * 16 + HexValue(d);
            && n / 16 == HexValue(c) && n % 16 == HexValue(d)
            && (HexChar(n / 16) == c && HexChar(n % 16) == d <==> !('A' <= c <= 'F') && !('A' <= d <= 'F'))
  {
    HexCharValue(c);
    HexCharValue(d);
  }

  /** Digits are written back as they were read exactly when they were in lower case. */
  lemma {:induction false} HexTextParsed(s: string)
    requires |s| % 2 == 0 && ParseHex(s).Some?
    ensures HexText(ParseHex(s).value) == s <==> LowerCase(s)
  {
    if s != "" {
      var rest := ParseHex(s[2..]).value;
      var n: Byte := HexValue(s[0]) * 16 + HexValue(s[1]);
      HexTextParsed(s[2..]);
      HexPair(s[0], s[1]);
      HexTextFront(n, rest);
      PairThen(s, HexChar(n / 16), HexChar(n % 16), HexText(rest));
      LowerCasePair(s);
    }
  }

  // ----------------------------------------------------------------- dashes

  predicate Dashed(s: string) {
    |s| == 36 && s[8] == '-' && s[13] == '-' && s[18] == '-' && s[23] == '-'
  }

  function Dash(h: string): (s: string)
    requires |h| == 32
    ensures Dashed(s)
  {
    h[..8] + "-" + h[8..12] + "-" + h[12..16] + "-" + h[16..20] + "-" + h[20..]
  }

  function Undash(s: string): (h: string)
    requires |s| == 36
    ensures |h| == 32
  {
    s[..8] + s[9..13] + s[14..18] + s[19..23] + s[24..]
  }

  lemma UndashDash(h: string)
    requires |h| == 32
    ensures Undash(Dash(h)) == h
  {
    var s := Dash(h);
    assert s[..8] == h[..8] && s[9..13] == h[8..12] && s[14..18] == h[12..16] && s[19..23] == h[16..20] && s[24..] == h[20..];
    assert h == h[..8] + h[8..12] + h[12..16] + h[16..20] + h[20..];
  }

  lemma DashUndash(s: string)
    requires Dashed(s)
    ensures Dash(Undash(s)) == s
    ensures LowerCase(Undash(s)) <==> LowerCase(s)
  {
    var h := Undash(s);
    assert h[..8] == s[..8] && h[8..12] == s[9..13] && h[12..16] == s[14..18] && h[16..20] == s[19..23] && h[20..] == s[24..];
    UndashedChars(s);
  }

  lemma UndashedChars(s: string)
    requires Dashed(s)
    ensures LowerCase(Undash(s)) <==> LowerCase(s)
  {
    var h := Undash(s);
    forall i | 0 <= i < 36 && i != 8 && i != 13 && i != 18 && i != 23
      ensures s[i] == h[if i < 8 then i else if i < 13 then i - 1 else if i < 18 then i - 2 else if i < 23 then i - 3 else i - 4]
    {
    }
    forall j | 0 <= j < 32
      ensures h[j] == s[if j < 8 then j else if j < 12 then j + 1 else if j < 16 then j + 2 else if j < 20 then j + 3 else j + 4]
    {
    }
  }

  // ----------------------------------------------------------- text of a UUID

  /** UUID.String. */
  function Format(id: Uuid): (s: string)
    ensures |s| == 36
  {
    Dash(HexText(id))
  }

  function ParseDashed(s: string): (id: Option<seq<Byte>>)
    requires |s| >= 36
    ensures id.Some? ==> |id.value| == 16
  {
    if Dashed(s[..36]) then ParseHex(Undash(s[..36])) else None
  }

  function LowerAscii(c: char): (d: char) {
    if 'A' <= c <= 'Z' then (c as int + 32) as char else c
  }

  predicate EqualFold(s: string, t: string) {
    |s| == |t| && forall i :: 0 <= i < |s| ==> LowerAscii(s[i]) == LowerAscii(t[i])
  }

  /** uuid.Parse. */
  function Parse(s: string): (id: Option<seq<Byte>>)
    ensures id.Some? ==> |id.value| == 16
  {
    if |s| == 36 then ParseDashed(s)
    else if |s| == 45 then if EqualFold(s[..9], "urn:uuid:") then ParseDashed(s[9..]) else None
    else if |s| == 38 then ParseDashed(s[1..])
    else if |s| == 32 then ParseHex(s)
    else None
  }

  /** Reading inverts writing. */
  lemma ParseFormat(id: Uuid)
    ensures Parse(Format(id)) == Some(id)
  {
    ParseHexText(id);
    UndashDash(HexText(id));
    var s := Format(id);
    assert s[..36] == s;
  }

  /** The other forms that are read: any character around it, behind `urn:uuid:`, and without dashes. */
  lemma ParseForms(id: Uuid, first: char, last: char)
    ensures Parse([first] + Format(id) + [last]) == Some(id)
    ensures Parse("urn:uuid:" + Format(id)) == Some(id)
    ensures Parse(HexText(id)) == Some(id)
  {
    ParseHexText(id);
    UndashDash(HexText(id));
    var s := Format(id);
    var braced, urn := [first] + s + [last], "urn:uuid:" + s;
    assert braced[1..][..36] == s;
    assert |"urn:uuid:"| == 9 && urn[..9] == "urn:uuid:" && urn[9..] == s && s[..36] == s;
  }

  /** Writing inverts reading exactly for the 36-character lower-case form. */
  lemma FormatParsed(s: string)
    requires Parse(s).Some?
    ensures Format(Parse(s).value) == s <==> |s| == 36 && LowerCase(s)
  {
    if |s| == 36 {
      assert s[..36] == s;
      HexTextParsed(Undash(s));
      DashUndash(s);
      UndashDash(HexText(Parse(s).value));
    }
  }

  /** The text has a fixed length and a small alphabet. */
  lemma FormatChars(id: Uuid)
    ensures forall i :: 0 <= i < 36 ==> HexValue(Format(id)[i]) >= 0 || Format(id)[i] == '-'
  {
    ParseHexText(id);
    HexDigitsOnly(id);
    var s, h := Format(id), HexText(id);
    UndashDash(h);
    forall i | 0 <= i < 36 && i != 8 && i != 13 && i != 18 && i != 23
      ensures s[i] == h[if i < 8 then i else if i < 13 then i - 1 else if i < 18 then i - 2 else if i < 23 then i - 3 else i - 4]
    {
    }
  }

  lemma {:induction false} HexDigitsOnly(b: seq<Byte>)
    ensures forall i :: 0 <= i < |HexText(b)| ==> HexValue(HexText(b)[i]) >= 0
  {
    if b != [] {
      HexDigitsOnly(b[1..]);
    }
  }

  lemma FormatInjective(a: Uuid, b: Uuid)
    requires Format(a) == Format(b)
    ensures a == b
  {
    ParseFormat(a);
    ParseFormat(b);
  }
}
