/**
  Canonical JSON (internal/events/canonical.go) and the byte string that an
  event id is the hash of (internal/events/events.go).

  The writer below produces real bytes: strings are escaped the way
  encoding/json escapes them (HTML characters, control characters and the two
  line separators included) and every other code point is UTF-8 encoded.  The
  results of the module are

    - `WriteUnambiguous`: the encoding of a value, followed by anything that
      cannot extend a number, determines the value and what follows it;
    - `Buffer.WriteCanonical`: the imperative writer, which collects the keys of
      an object in an arbitrary order and sorts them, appends exactly `Write(v)`.
 */
module CanonicalJson {
  import opened Sequences

  type Byte = x: int | 0 <= x < 256

  // The bytes the encoders name.
  const QUOTE: Byte := 34
  const COMMA: Byte := 44
  const COLON: Byte := 58
  const BACKSLASH: Byte := 92
  const LBRACKET: Byte := 91
  const RBRACKET: Byte := 93
  const LBRACE: Byte := 123
  const RBRACE: Byte := 125

  /** A byte that may occur in a JSON number: a digit or one of `+ - . E e`. */
  predicate NumberByte(b: Byte) {
    48 <= b <= 57 || b == 43 || b == 45 || b == 46 || b == 69 || b == 101
  }

  /** Every JSON number literal has this shape, so what is proved for it holds for the JSON grammar. */
  predicate NumberLiteral(s: seq<Byte>) {
    && s != []
    && (48 <= s[0] <= 57 || s[0] == 45)
    && forall i :: 0 <= i < |s| ==> NumberByte(s[i])
  }

  type NumLit = s: seq<Byte> | NumberLiteral(s) witness [48]

  /**
    A decoded JSON value.  Numbers keep their literal (the decoder runs with
    UseNumber) and objects are maps, so key order is not part of a value.
   */
  datatype Json =
    | Null
    | Bool(b: bool)
    | Num(lit: NumLit)
    | Str(s: string)
    | Arr(items: seq<Json>)
    | Obj(fields: map<string, Json>)

  // ---------------------------------------------------------------- strings

  function HexDigit(n: int): (b: Byte)
    requires 0 <= n < 16
  {
    if n < 10 then 48 + n else 87 + n
  }

  function UnicodeEscape(n: int): (e: seq<Byte>)
    requires 0 <= n < 0x1_0000
    ensures |e| == 6
  {
    [BACKSLASH, 117, HexDigit(n / 16 / 16 / 16), HexDigit(n / 16 / 16 % 16), HexDigit(n / 16 % 16), HexDigit(n % 16)]
  }

  /** The letter of the two-character escape for a code point, or 0 when there is none. */
  function ShortEscape(n: int): (b: Byte) {
    if n == 34 then 34
    else if n == 92 then 92
    else if n == 8 then 98
    else if n == 12 then 102
    else if n == 10 then 110
    else if n == 13 then 114
    else if n == 9 then 116
    else 0
  }

  predicate LongEscaped(n: int) {
    n < 32 || n == 38 || n == 60 || n == 62 || n == 0x2028 || n == 0x2029
  }

  function Utf8(n: int): (e: seq<Byte>)
    requires 0 <= n < 0x11_0000
    ensures 1 <= |e| <= 4
  {
    if n < 0x80 then [n]
    else if n < 0x800 then [0xC0 + n / 64, 0x80 + n % 64]
    else if n < 0x1_0000 then [0xE0 + n / 64 / 64, 0x80 + n / 64 % 64, 0x80 + n % 64]
    else [0xF0 + n / 64 / 64 / 64, 0x80 + n / 64 / 64 % 64, 0x80 + n / 64 % 64, 0x80 + n % 64]
  }

  function EncodeChar(c: char): (e: seq<Byte>)
    ensures 1 <= |e| <= 6
  {
    var n := c as int;
    if ShortEscape(n) != 0 then [BACKSLASH, ShortEscape(n)]
    else if LongEscaped(n) then UnicodeEscape(n)
    else Utf8(n)
  }

  function EncodeChars(s: string): (e: seq<Byte>) {
    if s == "" then [] else EncodeChar(s[0]) + EncodeChars(s[1..])
  }

  /** json.Marshal of a string. */
  function Quote(s: string): (e: seq<Byte>) {
    [QUOTE] + EncodeChars(s) + [QUOTE]
  }

  /** A number is its last digit plus the base times the rest. */
  lemma LastDigit(m: int, n: int, base: int)
    requires base > 0 && m % base == n % base && m / base == n / base
    ensures m == n
  {
  }

  lemma UnicodeEscapeInjective(m: int, n: int)
    requires 0 <= m < 0x1_0000 && 0 <= n < 0x1_0000
    requires UnicodeEscape(m) == UnicodeEscape(n)
    ensures m == n
  {
    var e, f := UnicodeEscape(m), UnicodeEscape(n);
    assert e[2] == f[2] && e[3] == f[3] && e[4] == f[4] && e[5] == f[5];
    LastDigit(m / 16 / 16, n / 16 / 16, 16);
    LastDigit(m / 16, n / 16, 16);
    LastDigit(m, n, 16);
  }

  /** The bits of continuation bytes, six each, behind those of the lead byte. */
  function Bits(lead: int, rest: seq<Byte>): (n: int) {
    if rest == [] then lead else Bits(lead, rest[..|rest| - 1]) * 64 + rest[|rest| - 1] % 64
  }

  lemma LowBits(a: nat)
    ensures a < 32 ==> (0xC0 + a) % 32 == a
    ensures a < 16 ==> (0xE0 + a) % 16 == a
    ensures a < 8 ==> (0xF0 + a) % 8 == a
    ensures a < 64 ==> (0x80 + a) % 64 == a
  {
  }

  lemma Utf8Two(n: int)
    requires 0x80 <= n < 0x800
    ensures Bits(Utf8(n)[0] % 32, Utf8(n)[1..]) == n
  {
    var e := Utf8(n);
    assert e[1..] == [e[1]];
    BitsOf(e[0] % 32, e[1], 0, 0);
    LowBits(n / 64);
    LowBits(n % 64);
  }

  lemma Utf8Three(n: int)
    requires 0x800 <= n < 0x1_0000
    ensures Bits(Utf8(n)[0] % 16, Utf8(n)[1..]) == n
  {
    var e := Utf8(n);
    assert e[1..] == [e[1], e[2]];
    BitsOf(e[0] % 16, e[1], e[2], 0);
    LowBits(n / 64 / 64);
    LowBits(n / 64 % 64);
    LowBits(n % 64);
  }

  lemma Utf8Four(n: int)
    requires 0x1_0000 <= n < 0x11_0000
    ensures Bits(Utf8(n)[0] % 8, Utf8(n)[1..]) == n
  {
    var e := Utf8(n);
    assert e[1..] == [e[1], e[2], e[3]];
    BitsOf(e[0] % 8, e[1], e[2], e[3]);
    LowBits(n / 64 / 64 / 64);
    LowBits(n / 64 / 64 % 64);
    LowBits(n / 64 % 64);
    LowBits(n % 64);
  }

  /** The shortest form of section 3 of RFC 3629: the lead byte tells the length, the others continue, and the bits are the code point. */
  lemma Utf8Means(n: int)
    requires 0 <= n < 0x11_0000
    ensures var e := Utf8(n);
            && |e| == (if n < 0x80 then 1 else if n < 0x800 then 2 else if n < 0x1_0000 then 3 else 4)
            && (forall i :: 1 <= i < |e| ==> 0x80 <= e[i] < 0xC0)
            && (|e| == 1 ==> e[0] == n)
            && (|e| == 2 ==> 0xC0 <= e[0] < 0xE0 && n == Bits(e[0] % 32, e[1..]))
            && (|e| == 3 ==> 0xE0 <= e[0] < 0xF0 && n == Bits(e[0] % 16, e[1..]))
            && (|e| == 4 ==> 0xF0 <= e[0] < 0xF8 && n == Bits(e[0] % 8, e[1..]))
  {
    if 0x80 <= n < 0x800 {
      Utf8Two(n);
    } else if 0x800 <= n < 0x1_0000 {
      Utf8Three(n);
    } else if 0x1_0000 <= n {
      Utf8Four(n);
    }
  }

  lemma BitsOf(lead: int, x: Byte, y: Byte, z: Byte)
    ensures Bits(lead, [x]) == lead * 64 + x % 64
    ensures Bits(lead, [x, y]) == (lead * 64 + x % 64) * 64 + y % 64
    ensures Bits(lead, [x, y, z]) == ((lead * 64 + x % 64) * 64 + y % 64) * 64 + z % 64
  {
    assert [x, y, z][..2] == [x, y] && [x, y][..1] == [x] && [x][..0] == [];
  }

  /** Control characters, quotes, backslashes, angle brackets, ampersands and the two line separators are escaped; nothing else is. */
  lemma EscapedIff(c: char)
    ensures EncodeChar(c)[0] == BACKSLASH
            <==> c < ' ' || c in ['<', '>', '&'] || c as int in [34, 92, 0x2028, 0x2029]
    ensures EncodeChar(c)[0] != BACKSLASH ==> EncodeChar(c) == Utf8(c as int)
  {
    Utf8Means(c as int);
  }

  /** UTF-8 is a prefix code: two encodings that start the same bytes are the same. */
  lemma Utf8Prefix(m: int, n: int, r: seq<Byte>, q: seq<Byte>)
    requires 0 <= m < 0x11_0000 && 0 <= n < 0x11_0000
    requires Utf8(m) + r == Utf8(n) + q
    ensures m == n
  {
    var e, f := Utf8(m), Utf8(n);
    var x := e + r;
    assert e[0] == x[0] == f[0];
    assert |e| == |f|;
    assert |e| > 1 ==> e[1] == x[1] == f[1];
    assert |e| > 2 ==> e[2] == x[2] == f[2];
    assert |e| > 3 ==> e[3] == x[3] == f[3];
    if |e| == 4 { LastDigit(m / 64 / 64, n / 64 / 64, 64); }
    if |e| >= 3 { LastDigit(m / 64, n / 64, 64); }
    if |e| >= 2 { LastDigit(m, n, 64); }
  }

  /** No encoded character starts with a quote, and the encodings form a prefix code. */
  lemma EncodeCharPrefix(c: char, d: char, r: seq<Byte>, q: seq<Byte>)
    requires EncodeChar(c) + r == EncodeChar(d) + q
    ensures c == d && r == q
  {
    var e, f := EncodeChar(c), EncodeChar(d);
    var x := e + r;
    assert e[0] == x[0] == f[0];
    assert |e| > 1 && |f| > 1 ==> e[1] == x[1] == f[1];
    var m, n := c as int, d as int;
    if ShortEscape(m) == 0 && ShortEscape(n) == 0 {
      if LongEscaped(m) && LongEscaped(n) {
        assert forall i :: 0 <= i < 6 ==> e[i] == x[i] == f[i];
        UnicodeEscapeInjective(m, n);
      } else if !LongEscaped(m) && !LongEscaped(n) {
        Utf8Prefix(m, n, r, q);
      }
    }
    assert c == d;
    assert r == x[|e|..] == q;
  }

  lemma EncodeCharHead(c: char)
    ensures EncodeChar(c)[0] != QUOTE
  {
  }

  /** Inside a string literal only the closing quote is a bare quote. */
  lemma CharsHead(s: string, r: seq<Byte>)
    ensures var x := EncodeChars(s) + [QUOTE] + r;
            && (s == "" <==> x[0] == QUOTE)
            && (s == "" ==> x[1..] == r)
            && (s != "" ==> x == EncodeChar(s[0]) + (EncodeChars(s[1..]) + [QUOTE] + r))
  {
    if s == "" {
      SplitLeft([QUOTE], r);
    } else {
      EncodeCharHead(s[0]);
      Assoc(EncodeChar(s[0]), EncodeChars(s[1..]), [QUOTE]);
      Assoc(EncodeChar(s[0]), EncodeChars(s[1..]) + [QUOTE], r);
    }
  }

  /** A quoted string ends where its closing quote is, and its content is recoverable. */
  lemma {:induction false} EncodeCharsUnambiguous(s: string, t: string, r: seq<Byte>, q: seq<Byte>)
    requires EncodeChars(s) + [QUOTE] + r == EncodeChars(t) + [QUOTE] + q
    ensures s == t && r == q
  {
    CharsHead(s, r);
    CharsHead(t, q);
    if s != "" {
      EncodeCharPrefix(s[0], t[0], EncodeChars(s[1..]) + [QUOTE] + r, EncodeChars(t[1..]) + [QUOTE] + q);
      EncodeCharsUnambiguous(s[1..], t[1..], r, q);
      assert s == [s[0]] + s[1..] && t == [t[0]] + t[1..];
    }
  }

  lemma QuoteUnambiguous(s: string, t: string, r: seq<Byte>, q: seq<Byte>)
    requires Quote(s) + r == Quote(t) + q
    ensures s == t && r == q
  {
    var x := Quote(s) + r;
    assert x[1..] == EncodeChars(s) + [QUOTE] + r;
    assert x[1..] == EncodeChars(t) + [QUOTE] + q;
    EncodeCharsUnambiguous(s, t, r, q);
  }

  // ------------------------------------------------------------- key order

  /** sort.Strings compares lexicographically; UTF-8 keeps code point order. */
  predicate Leq(s: string, t: string) {
    s == "" || (t != "" && (s[0] < t[0] || (s[0] == t[0] && Leq(s[1..], t[1..]))))
  }

  lemma {:induction false} LeqTotal(s: string, t: string)
    ensures Leq(s, t) || Leq(t, s)
  {
    if s != "" && t != "" && s[0] == t[0] {
      LeqTotal(s[1..], t[1..]);
    }
  }

  lemma {:induction false} LeqAntisymmetric(s: string, t: string)
    requires Leq(s, t) && Leq(t, s)
    ensures s == t
  {
    if s != "" && t != "" {
      LeqAntisymmetric(s[1..], t[1..]);
      assert s == [s[0]] + s[1..] && t == [t[0]] + t[1..];
    }
  }

  lemma {:induction false} LeqTransitive(s: string, t: string, u: string)
    requires Leq(s, t) && Leq(t, u)
    ensures Leq(s, u)
  {
    if s != "" && s[0] == t[0] == u[0] {
      LeqTransitive(s[1..], t[1..], u[1..]);
    }
  }

  ghost predicate Sorted(keys: seq<string>) {
    forall i, j :: 0 <= i < j < |keys| ==> Leq(keys[i], keys[j])
  }

  ghost predicate Distinct(keys: seq<string>) {
    forall i, j :: 0 <= i < j < |keys| ==> keys[i] != keys[j]
  }

  ghost predicate Least(k: string, s: set<string>) {
    k in s && forall j :: j in s ==> Leq(k, j)
  }

  lemma LeastKey(s: set<string>)
    requires s != {}
    ensures exists k :: Least(k, s)
  {
    var x :| x in s;
    LeqTotal(x, x);
    if s == {x} {
      assert Least(x, s);
    } else {
      LeastKey(s - {x});
      var y :| Least(y, s - {x});
      LeqTotal(x, y);
      var k := if Leq(x, y) then x else y;
      forall j | j in s ensures Leq(k, j) {
        if j != x {
          LeqTransitive(k, y, j);
        }
      }
      assert Least(k, s);
    }
  }

  ghost function Elements(keys: seq<string>): (s: set<string>) {
    set k | k in keys
  }

  /** The keys of an object in sorted order. */
  ghost function SortedKeys(s: set<string>): (keys: seq<string>)
    ensures Elements(keys) == s
    ensures Sorted(keys) && Distinct(keys)
  {
    if s == {} then []
    else
      LeastKey(s);
      var k :| Least(k, s);
      var rest := SortedKeys(s - {k});
      assert forall i :: 0 <= i < |rest| ==> rest[i] in Elements(rest);
      assert Elements([k] + rest) == {k} + Elements(rest);
      [k] + rest
  }

  lemma HeadIsLeast(keys: seq<string>)
    requires keys != [] && Sorted(keys)
    ensures Least(keys[0], Elements(keys))
  {
    LeqTotal(keys[0], keys[0]);
  }

  /** Sorting is deterministic: a sorted duplicate-free listing of a set is the listing. */
  lemma {:induction false} SortedListingUnique(keys: seq<string>, other: seq<string>)
    requires Elements(keys) == Elements(other)
    requires Sorted(keys) && Distinct(keys) && Sorted(other) && Distinct(other)
    ensures keys == other
  {
    assert keys != [] ==> keys[0] in Elements(keys);
    assert other != [] ==> other[0] in Elements(other);
    if keys != [] && other != [] {
      HeadIsLeast(keys);
      HeadIsLeast(other);
      LeqAntisymmetric(keys[0], other[0]);
      TailSet(keys);
      TailSet(other);
      SortedListingUnique(keys[1..], other[1..]);
      assert keys == [keys[0]] + keys[1..] && other == [other[0]] + other[1..];
    }
  }

  lemma TailSet(keys: seq<string>)
    requires keys != [] && Distinct(keys)
    ensures Elements(keys[1..]) == Elements(keys) - {keys[0]}
  {
    forall k | k in keys && k != keys[0] ensures k in keys[1..] {
      var i :| 0 <= i < |keys| && keys[i] == k;
      assert keys[1..][i - 1] == k;
    }
    forall k | k in keys[1..] ensures k in keys && k != keys[0] {
      var i :| 0 <= i < |keys[1..]| && keys[1..][i] == k;
      assert keys[i + 1] == k;
    }
  }

  // ---------------------------------------------------------------- values

  /** `writeCanonical`: the bytes appended for a value. */
  ghost function Write(v: Json): (e: seq<Byte>)
    ensures e != []
    decreases v, 1
  {
    match v
    case Null => [110, 117, 108, 108]
    case Bool(b) => if b then [116, 114, 117, 101] else [102, 97, 108, 115, 101]
    case Num(lit) => lit
    case Str(s) => Quote(s)
    case Arr(items) => [LBRACKET] + WriteItems(items) + [RBRACKET]
    case Obj(m) => [LBRACE] + WriteFields(v, SortedKeys(m.Keys)) + [RBRACE]
  }

  ghost function WriteItems(items: seq<Json>): (e: seq<Byte>)
    decreases items, 0
  {
    if items == [] then []
    else if |items| == 1 then Write(items[0])
    else Write(items[0]) + [COMMA] + WriteItems(items[1..])
  }

  ghost function WriteField(v: Json, k: string): (e: seq<Byte>)
    requires v.Obj? && k in v.fields
    decreases v, 0, 0
  {
    Quote(k) + [COLON] + Write(v.fields[k])
  }

  ghost function WriteFields(v: Json, keys: seq<string>): (e: seq<Byte>)
    requires v.Obj? && forall k :: k in keys ==> k in v.fields
    decreases v, 0, 1, |keys|
  {
    if keys == [] then []
    else if |keys| == 1 then WriteField(v, keys[0])
    else WriteField(v, keys[0]) + [COMMA] + WriteFields(v, keys[1..])
  }

  /** `CanonicalJSON`: nil and JSON null canonicalize to the empty object. */
  function Normalize(v: Json): (n: Json) {
    if v.Null? then Obj(map[]) else v
  }

  ghost function Canonical(v: Json): (e: seq<Byte>) {
    Write(Normalize(v))
  }

  /** What may follow a value: nothing, or a byte that cannot extend a number. */
  predicate Delimits(r: seq<Byte>) {
    r == [] || !NumberByte(r[0])
  }

  /** The first byte of an encoding tells the kinds of value apart. */
  lemma FirstByte(v: Json)
    ensures var b := Write(v)[0];
            && (v.Null? <==> b == 110)
            && (v.Bool? <==> b == 116 || b == 102)
            && (v.Num? <==> NumberByte(b))
            && (v.Str? <==> b == QUOTE)
            && (v.Arr? <==> b == LBRACKET)
            && (v.Obj? <==> b == LBRACE)
  {
  }

  lemma DigitsFirst(s: seq<Byte>, r: seq<Byte>)
    requires Delimits(r) && forall i :: 0 <= i < |s| ==> NumberByte(s[i])
    ensures s == [] <==> Delimits(s + r)
  {
    if s == [] { assert s + r == r; }
  }

  lemma {:induction false} NumberUnambiguous(s: seq<Byte>, t: seq<Byte>, r: seq<Byte>, q: seq<Byte>)
    requires forall i :: 0 <= i < |s| ==> NumberByte(s[i])
    requires forall i :: 0 <= i < |t| ==> NumberByte(t[i])
    requires Delimits(r) && Delimits(q)
    requires s + r == t + q
    ensures s == t && r == q
  {
    if s != [] && t != [] {
      assert s[0] == (s + r)[0] == (t + q)[0] == t[0];
      assert s[1..] + r == (s + r)[1..] == (t + q)[1..] == t[1..] + q;
      NumberUnambiguous(s[1..], t[1..], r, q);
      assert s == [s[0]] + s[1..] && t == [t[0]] + t[1..];
    } else {
      DigitsFirst(s, r);
      DigitsFirst(t, q);
      assert s + r == r && t + q == q;
    }
  }

  lemma SameKind(v: Json, w: Json, r: seq<Byte>, q: seq<Byte>)
    requires Write(v) + r == Write(w) + q
    ensures Write(v)[0] == Write(w)[0]
    ensures (v.Null? <==> w.Null?) && (v.Bool? <==> w.Bool?) && (v.Num? <==> w.Num?)
    ensures (v.Str? <==> w.Str?) && (v.Arr? <==> w.Arr?) && (v.Obj? <==> w.Obj?)
  {
    FirstByte(v);
    FirstByte(w);
    assert Write(v)[0] == (Write(v) + r)[0] == (Write(w) + q)[0] == Write(w)[0];
  }

  /**
    The canonical encoding is uniquely decodable: a value followed by a
    delimiting remainder determines both.  (Without the delimiter it is not:
    the encoding of 1 is a prefix of the encoding of 12.)
   */
  lemma {:induction false} WriteUnambiguous(v: Json, w: Json, r: seq<Byte>, q: seq<Byte>)
    requires Delimits(r) && Delimits(q)
    requires Write(v) + r == Write(w) + q
    ensures v == w && r == q
    decreases v, 1
  {
    SameKind(v, w, r, q);
    match v
    case Null => EqualPrefix(Write(v), Write(w), r, q);
    case Bool(_) => EqualPrefix(Write(v), Write(w), r, q);
    case Num(lit) => NumberUnambiguous(lit, w.lit, r, q);
    case Str(s) => QuoteUnambiguous(s, w.s, r, q);
    case Arr(items) =>
      Unwrap(LBRACKET, WriteItems(items), WriteItems(w.items), RBRACKET, r, q);
      ItemsUnambiguous(items, w.items, r, q);
    case Obj(m) =>
      var ks, ls := SortedKeys(m.Keys), SortedKeys(w.fields.Keys);
      Unwrap(LBRACE, WriteFields(v, ks), WriteFields(w, ls), RBRACE, r, q);
      FieldsUnambiguous(v, w, ks, ls, r, q);
      FieldsCover(m, w.fields, ks);
  }

  lemma Unwrap(open: Byte, e: seq<Byte>, f: seq<Byte>, close: Byte, r: seq<Byte>, q: seq<Byte>)
    requires [open] + e + [close] + r == [open] + f + [close] + q
    ensures e + ([close] + r) == f + ([close] + q)
  {
    assert [open] + e + [close] + r == [open] + (e + ([close] + r));
    assert [open] + f + [close] + q == [open] + (f + ([close] + q));
    EqualPrefix([open], [open], e + ([close] + r), f + ([close] + q));
  }

  /** What follows the first item of an array: the end, or a comma and the other items. */
  ghost function AfterItem(s: seq<Json>, r: seq<Byte>): (e: seq<Byte>)
    requires s != []
    ensures e != [] && !NumberByte(e[0]) && (e[0] == RBRACKET <==> |s| == 1)
  {
    if |s| == 1 then [RBRACKET] + r else [COMMA] + (WriteItems(s[1..]) + ([RBRACKET] + r))
  }

  lemma ItemsHead(s: seq<Json>, r: seq<Byte>)
    ensures var x := WriteItems(s) + ([RBRACKET] + r);
            && (s == [] <==> x[0] == RBRACKET)
            && (s == [] ==> x[1..] == r)
            && (s != [] ==> x == Write(s[0]) + AfterItem(s, r))
  {
    if s != [] {
      FirstByte(s[0]);
      if |s| > 1 {
        Assoc(Write(s[0]) + [COMMA], WriteItems(s[1..]), [RBRACKET] + r);
        Assoc(Write(s[0]), [COMMA], WriteItems(s[1..]) + ([RBRACKET] + r));
      }
    }
  }

  lemma {:induction false} ItemsUnambiguous(s: seq<Json>, t: seq<Json>, r: seq<Byte>, q: seq<Byte>)
    requires WriteItems(s) + ([RBRACKET] + r) == WriteItems(t) + ([RBRACKET] + q)
    ensures s == t && r == q
    decreases s, 0
  {
    ItemsHead(s, r);
    ItemsHead(t, q);
    if s != [] {
      var sr, tq := AfterItem(s, r), AfterItem(t, q);
      WriteUnambiguous(s[0], t[0], sr, tq);
      if |s| == 1 {
        EqualPrefix([RBRACKET], [RBRACKET], r, q);
        assert s == [s[0]] && t == [t[0]];
      } else {
        EqualPrefix([COMMA], [COMMA], WriteItems(s[1..]) + ([RBRACKET] + r), WriteItems(t[1..]) + ([RBRACKET] + q));
        ItemsUnambiguous(s[1..], t[1..], r, q);
        assert s == [s[0]] + s[1..] && t == [t[0]] + t[1..];
      }
    }
  }

  lemma FieldSplit(v: Json, k: string, r: seq<Byte>)
    requires v.Obj? && k in v.fields
    ensures WriteField(v, k) + r == Quote(k) + ([COLON] + (Write(v.fields[k]) + r))
  {
    Assoc(Quote(k) + [COLON], Write(v.fields[k]), r);
    Assoc(Quote(k), [COLON], Write(v.fields[k]) + r);
  }

  lemma {:induction false} FieldUnambiguous(v: Json, w: Json, k: string, l: string, r: seq<Byte>, q: seq<Byte>)
    requires v.Obj? && w.Obj? && k in v.fields && l in w.fields
    requires Delimits(r) && Delimits(q)
    requires WriteField(v, k) + r == WriteField(w, l) + q
    ensures k == l && v.fields[k] == w.fields[l] && r == q
    decreases v, 0, 0
  {
    var kr, lq := [COLON] + (Write(v.fields[k]) + r), [COLON] + (Write(w.fields[l]) + q);
    FieldSplit(v, k, r);
    FieldSplit(w, l, q);
    QuoteUnambiguous(k, l, kr, lq);
    EqualPrefix([COLON], [COLON], Write(v.fields[k]) + r, Write(w.fields[l]) + q);
    WriteUnambiguous(v.fields[k], w.fields[l], r, q);
  }

  ghost function AfterField(v: Json, ks: seq<string>, r: seq<Byte>): (e: seq<Byte>)
    requires v.Obj? && ks != [] && forall k :: k in ks ==> k in v.fields
    ensures e != [] && !NumberByte(e[0]) && (e[0] == RBRACE <==> |ks| == 1)
  {
    if |ks| == 1 then [RBRACE] + r else [COMMA] + (WriteFields(v, ks[1..]) + ([RBRACE] + r))
  }

  lemma FieldsHead(v: Json, ks: seq<string>, r: seq<Byte>)
    requires v.Obj? && forall k :: k in ks ==> k in v.fields
    ensures var x := WriteFields(v, ks) + ([RBRACE] + r);
            && (ks == [] <==> x[0] == RBRACE)
            && (ks == [] ==> x[1..] == r)
            && (ks != [] ==> x == WriteField(v, ks[0]) + AfterField(v, ks, r))
  {
    if ks != [] {
      assert WriteField(v, ks[0])[0] == QUOTE;
      if |ks| > 1 {
        Assoc(WriteField(v, ks[0]) + [COMMA], WriteFields(v, ks[1..]), [RBRACE] + r);
        Assoc(WriteField(v, ks[0]), [COMMA], WriteFields(v, ks[1..]) + ([RBRACE] + r));
      }
    }
  }

  lemma {:induction false} FieldsUnambiguous(v: Json, w: Json, ks: seq<string>, ls: seq<string>, r: seq<Byte>, q: seq<Byte>)
    requires v.Obj? && (forall k :: k in ks ==> k in v.fields)
    requires w.Obj? && (forall k :: k in ls ==> k in w.fields)
    requires WriteFields(v, ks) + ([RBRACE] + r) == WriteFields(w, ls) + ([RBRACE] + q)
    ensures ks == ls && (forall k :: k in ks ==> v.fields[k] == w.fields[k]) && r == q
    decreases v, 0, 1, |ks|
  {
    FieldsHead(v, ks, r);
    FieldsHead(w, ls, q);
    if ks != [] {
      FieldUnambiguous(v, w, ks[0], ls[0], AfterField(v, ks, r), AfterField(w, ls, q));
      if |ks| == 1 {
        EqualPrefix([RBRACE], [RBRACE], r, q);
        assert ks == [ks[0]] && ls == [ls[0]];
      } else {
        EqualPrefix([COMMA], [COMMA], WriteFields(v, ks[1..]) + ([RBRACE] + r), WriteFields(w, ls[1..]) + ([RBRACE] + q));
        FieldsUnambiguous(v, w, ks[1..], ls[1..], r, q);
        assert ks == [ks[0]] + ks[1..] && ls == [ls[0]] + ls[1..];
      }
    }
  }

  lemma FieldsCover(m: map<string, Json>, n: map<string, Json>, keys: seq<string>)
    requires Elements(keys) == m.Keys == n.Keys
    requires forall k :: k in keys ==> m[k] == n[k]
    ensures m == n
  {
    forall k | k in m ensures m[k] == n[k] {
      assert k in Elements(keys);
    }
  }

  /** The encoder is injective on all values, numbers included. */
  lemma WriteInjective(v: Json, w: Json)
    requires Write(v) == Write(w)
    ensures v == w
  {
    assert Write(v) + [] == Write(w) + [];
    WriteUnambiguous(v, w, [], []);
  }

  // ------------------------------------------------- the imperative writer

  lemma AppendElements(keys: seq<string>, k: string)
    ensures Elements(keys + [k]) == Elements(keys) + {k}
  {
  }

  method SortStrings(keys: seq<string>) returns (sorted: seq<string>)
    requires Distinct(keys)
    ensures sorted == SortedKeys(Elements(keys))
  {
    sorted := [];
    for n := 0 to |keys|
      invariant Sorted(sorted) && Distinct(sorted) && Elements(sorted) == Elements(keys[..n])
    {
      var k := keys[n];
      assert keys[..n + 1] == keys[..n] + [k];
      assert k !in Elements(keys[..n]);
      var i := 0;
      while i < |sorted| && Leq(sorted[i], k)
        invariant 0 <= i <= |sorted|
        invariant forall j :: 0 <= j < i ==> Leq(sorted[j], k)
      {
        i := i + 1;
      }
      assert k !in sorted by { assert k in sorted ==> k in Elements(sorted); }
      InsertKeepsSorted(sorted, i, k);
      InsertElements(sorted, i, k);
      AppendElements(keys[..n], k);
      sorted := Insert(sorted, i, k);
    }
    assert keys[..|keys|] == keys;
    SortedListingUnique(sorted, SortedKeys(Elements(keys)));
  }

  function Insert(s: seq<string>, i: nat, k: string): (t: seq<string>)
    requires i <= |s|
    ensures |t| == |s| + 1 && t[i] == k
    ensures forall j :: 0 <= j < i ==> t[j] == s[j]
    ensures forall j :: i < j < |t| ==> t[j] == s[j - 1]
  {
    s[..i] + [k] + s[i..]
  }

  lemma InsertElements(s: seq<string>, i: nat, k: string)
    requires i <= |s|
    ensures Elements(Insert(s, i, k)) == Elements(s) + {k}
  {
    var t := Insert(s, i, k);
    forall x | x in s ensures x in t {
      var j :| 0 <= j < |s| && s[j] == x;
      assert t[if j < i then j else j + 1] == x;
    }
    assert t[i] in t;
  }

  lemma InsertKeepsSorted(s: seq<string>, i: nat, k: string)
    requires i <= |s| && Sorted(s) && Distinct(s) && k !in s
    requires forall j :: 0 <= j < i ==> Leq(s[j], k)
    requires i < |s| ==> !Leq(s[i], k)
    ensures Sorted(Insert(s, i, k)) && Distinct(Insert(s, i, k))
  {
    forall j | i <= j < |s| ensures Leq(k, s[j]) {
      LeqTotal(s[i], k);
      if j > i { LeqTransitive(k, s[i], s[j]); }
    }
  }

  lemma Wrapped(before: seq<Byte>, open: Byte, e: seq<Byte>, close: Byte)
    ensures before + [open] + e + [close] == before + ([open] + e + [close])
  {
    Assoc(before, [open], e);
    Assoc(before, [open] + e, [close]);
  }

  /** Items are written left to right, a comma before every one but the first. */
  lemma {:induction false} ItemsSnoc(s: seq<Json>, x: Json)
    ensures WriteItems(s + [x]) == WriteItems(s) + (if s == [] then [] else [COMMA]) + Write(x)
  {
    if |s| == 1 {
      assert (s + [x])[1..] == [x] && (s + [x])[0] == s[0];
    } else if |s| > 1 {
      assert (s + [x])[1..] == s[1..] + [x] && (s + [x])[0] == s[0];
      ItemsSnoc(s[1..], x);
      Assoc(Write(s[0]) + [COMMA], WriteItems(s[1..]) + [COMMA], Write(x));
      Assoc(Write(s[0]) + [COMMA], WriteItems(s[1..]), [COMMA]);
    }
  }

  lemma {:induction false} FieldsSnoc(v: Json, ks: seq<string>, k: string)
    requires v.Obj? && k in v.fields && forall l :: l in ks ==> l in v.fields
    ensures WriteFields(v, ks + [k]) == WriteFields(v, ks) + (if ks == [] then [] else [COMMA]) + WriteField(v, k)
  {
    if |ks| == 1 {
      assert (ks + [k])[1..] == [k] && (ks + [k])[0] == ks[0];
    } else if |ks| > 1 {
      assert (ks + [k])[1..] == ks[1..] + [k] && (ks + [k])[0] == ks[0];
      FieldsSnoc(v, ks[1..], k);
      Assoc(WriteField(v, ks[0]) + [COMMA], WriteFields(v, ks[1..]) + [COMMA], WriteField(v, k));
      Assoc(WriteField(v, ks[0]) + [COMMA], WriteFields(v, ks[1..]), [COMMA]);
    }
  }

  /** bytes.Buffer, as far as `writeCanonical` uses it. */
  class Buffer {
    var bytes: seq<Byte>

    constructor ()
      ensures bytes == []
    {
      bytes := [];
    }

    /** `writeCanonical`: whatever order the map is iterated in, exactly `Write(v)` is appended. */
    method WriteCanonical(v: Json)
      modifies this
      ensures bytes == old(bytes) + Write(v)
      decreases v, 1
    {
      match v
      case Obj(m) =>
        var keys := Keys(m);
        var sorted := SortStrings(keys);
        bytes := bytes + [LBRACE];
        WriteMembers(v, sorted);
        Wrapped(old(bytes), LBRACE, WriteFields(v, sorted), RBRACE);
        bytes := bytes + [RBRACE];
      case Arr(items) =>
        bytes := bytes + [LBRACKET];
        WriteElements(v);
        Wrapped(old(bytes), LBRACKET, WriteItems(items), RBRACKET);
        bytes := bytes + [RBRACKET];
      case Num(lit) => bytes := bytes + lit;
      case Str(s) => bytes := bytes + Quote(s);
      case Bool(b) => bytes := bytes + (if b then [116, 114, 117, 101] else [102, 97, 108, 115, 101]);
      case Null => bytes := bytes + [110, 117, 108, 108];
    }

    method WriteElements(v: Json)
      requires v.Arr?
      modifies this
      ensures bytes == old(bytes) + WriteItems(v.items)
      decreases v, 0
    {
      var items := v.items;
      for i := 0 to |items|
        invariant bytes == old(bytes) + WriteItems(items[..i])
      {
        ghost var before := WriteItems(items[..i]);
        assert items[..i + 1] == items[..i] + [items[i]];
        ItemsSnoc(items[..i], items[i]);
        ghost var comma := if i == 0 then [] else [COMMA];
        Assoc(old(bytes), before, comma);
        Assoc(old(bytes), before + comma, Write(items[i]));
        if i > 0 {
          bytes := bytes + [COMMA];
        }
        WriteCanonical(items[i]);
      }
      assert items[..|items|] == items;
    }

    method WriteMembers(v: Json, keys: seq<string>)
      requires v.Obj? && forall k :: k in keys ==> k in v.fields
      modifies this
      ensures bytes == old(bytes) + WriteFields(v, keys)
      decreases v, 0
    {
      for i := 0 to |keys|
        invariant bytes == old(bytes) + WriteFields(v, keys[..i])
      {
        var k := keys[i];
        ghost var before := WriteFields(v, keys[..i]);
        assert keys[..i + 1] == keys[..i] + [k];
        FieldsSnoc(v, keys[..i], k);
        ghost var comma := if i == 0 then [] else [COMMA];
        Assoc(old(bytes), before, comma);
        Assoc(old(bytes), before + comma, WriteField(v, k));
        if i > 0 {
          bytes := bytes + [COMMA];
        }
        WriteMember(v, k);
      }
      assert keys[..|keys|] == keys;
    }

    method WriteMember(v: Json, k: string)
      requires v.Obj? && k in v.fields
      modifies this
      ensures bytes == old(bytes) + WriteField(v, k)
      decreases v, 0, 0
    {
      bytes := bytes + Quote(k);
      bytes := bytes + [COLON];
      WriteCanonical(v.fields[k]);
      Assoc(old(bytes), Quote(k), [COLON]);
      Assoc(old(bytes), Quote(k) + [COLON], Write(v.fields[k]));
    }
  }

  /** Ranging over a Go map yields its keys once each, in no particular order. */
  method Keys(m: map<string, Json>) returns (keys: seq<string>)
    ensures Distinct(keys) && Elements(keys) == m.Keys
  {
    keys := [];
    var left := m.Keys;
    while left != {}
      invariant Distinct(keys) && left <= m.Keys
      invariant Elements(keys) == m.Keys - left
      decreases left
    {
      var k :| k in left;
      assert k !in Elements(keys);
      AppendElements(keys, k);
      keys := keys + [k];
      left := left - {k};
    }
  }
}
