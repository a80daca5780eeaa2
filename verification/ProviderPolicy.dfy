/**
  Path policies of the external-agent boundary
  (internal/providercontext/policy.go): which paths an allow or deny entry
  covers, and what covering the built-in secret entries keeps out.
 */
module ProviderPolicy {
  import opened Sequences
  import opened Strings

  // ------------------------------------------------------------------ globs

  /** path.Match on patterns of literals, `*` and `?`; neither wildcard matches a slash. */
  predicate StarMatch(p: string, s: string)
    decreases |p| + |s|
  {
    if p == "" then s == ""
    else if p[0] == '*' then StarMatch(p[1..], s) || (s != "" && s[0] != '/' && StarMatch(p, s[1..]))
    else if p[0] == '?' then s != "" && s[0] != '/' && StarMatch(p[1..], s[1..])
    else s != "" && s[0] == p[0] && StarMatch(p[1..], s[1..])
  }

  /** Patterns without character classes or escapes. */
  predicate PlainPattern(p: string) {
    forall i :: 0 <= i < |p| ==> p[i] != '[' && p[i] != '\\'
  }

  /** path.Match, where malformed patterns match nothing; other is its reading of classes and escapes. */
  predicate Glob(other: (string, string) -> bool, p: string, s: string) {
    if PlainPattern(p) then StarMatch(p, s) else other(p, s)
  }

  predicate HasWildcard(p: string) {
    exists i :: 0 <= i < |p| && (p[i] == '*' || p[i] == '?')
  }

  predicate NoSlash(s: string) {
    forall i :: 0 <= i < |s| ==> s[i] != '/'
  }

  predicate Literal(s: string) {
    forall i :: 0 <= i < |s| ==> s[i] != '*' && s[i] != '?'
  }

  predicate EndsWith(s: string, suffix: string) {
    |suffix| <= |s| && s[|s| - |suffix|..] == suffix
  }

  lemma {:induction false} MatchLiteral(p: string, s: string)
    requires Literal(p)
    ensures StarMatch(p, s) <==> p == s
  {
    if p != "" {
      assert p == [p[0]] + p[1..];
      if s != "" {
        assert s == [s[0]] + s[1..];
        MatchLiteral(p[1..], s[1..]);
      }
    }
  }

  lemma {:induction false} MatchStar(s: string)
    requires NoSlash(s)
    ensures StarMatch("*", s)
  {
    assert "*"[1..] == "";
    if s != "" {
      MatchStar(s[1..]);
    }
  }

  /** `lit*` matches what starts with the literal. */
  lemma {:induction false} MatchPrefix(lit: string, s: string)
    requires Literal(lit) && NoSlash(s)
    ensures StarMatch(lit + "*", s) <==> lit <= s
    decreases |lit|
  {
    if lit == "" {
      assert lit + "*" == "*";
      MatchStar(s);
    } else {
      assert (lit + "*")[1..] == lit[1..] + "*";
      if s != "" {
        MatchPrefix(lit[1..], s[1..]);
        assert lit <= s <==> lit[0] == s[0] && lit[1..] <= s[1..] by {
          assert lit == [lit[0]] + lit[1..] && s == [s[0]] + s[1..];
        }
      }
    }
  }

  /** `*lit` matches what ends with the literal. */
  lemma {:induction false} MatchSuffix(lit: string, s: string)
    requires Literal(lit) && NoSlash(s)
    ensures StarMatch("*" + lit, s) <==> EndsWith(s, lit)
    decreases |s|
  {
    assert ("*" + lit)[1..] == lit;
    MatchLiteral(lit, s);
    if s != "" {
      MatchSuffix(lit, s[1..]);
      if |lit| < |s| {
        assert s[|s| - |lit|..] == s[1..][|s[1..]| - |lit|..];
      }
    }
  }

  /** `*lit*` matches what contains the literal. */
  lemma {:induction false} MatchInfix(lit: string, s: string)
    requires Literal(lit) && NoSlash(s)
    ensures StarMatch("*" + lit + "*", s) <==> Contains(s, lit)
    decreases |s|
  {
    Assoc("*", lit, "*");
    assert ("*" + (lit + "*"))[1..] == lit + "*";
    MatchPrefix(lit, s);
    if s != "" {
      MatchInfix(lit, s[1..]);
    }
  }

  /** Two patterns in a row match what splits between them. */
  ghost predicate Splits(p: string, q: string, s: string) {
    exists k :: 0 <= k <= |s| && SplitAt(p, q, s, k)
  }

  ghost predicate SplitAt(p: string, q: string, s: string, k: nat)
    requires k <= |s|
  {
    StarMatch(p, s[..k]) && StarMatch(q, s[k..])
  }

  lemma {:induction false} MatchSplits(p: string, q: string, s: string)
    requires StarMatch(p + q, s)
    ensures Splits(p, q, s)
    decreases |p| + |s|
  {
    if p == "" {
      assert p + q == q && s[0..] == s;
      assert SplitAt(p, q, s, 0);
    } else {
      var rest := p[1..];
      assert (p + q)[1..] == rest + q;
      if p[0] == '*' && StarMatch(rest + q, s) {
        MatchSplits(rest, q, s);
        var k :| 0 <= k <= |s| && SplitAt(rest, q, s, k);
        assert SplitAt(p, q, s, k);
      } else {
        var on := if p[0] == '*' then p else rest;
        MatchSplits(on, q, s[1..]);
        var k :| 0 <= k <= |s[1..]| && SplitAt(on, q, s[1..], k);
        assert s[..k + 1][1..] == s[1..][..k] && s[k + 1..] == s[1..][k..];
        assert SplitAt(p, q, s, k + 1);
      }
    }
  }

  lemma {:induction false} SplitMatches(p: string, q: string, s: string, k: nat)
    requires k <= |s| && SplitAt(p, q, s, k)
    ensures StarMatch(p + q, s)
    decreases |p| + k
  {
    if p == "" {
      assert p + q == q && s[k..] == s;
    } else {
      var rest := p[1..];
      assert (p + q)[1..] == rest + q;
      if p[0] == '*' && StarMatch(rest, s[..k]) {
        SplitMatches(rest, q, s, k);
      } else {
        var on := if p[0] == '*' then p else rest;
        assert s[..k][1..] == s[1..][..k - 1] && s[k..] == s[1..][k - 1..];
        SplitMatches(on, q, s[1..], k - 1);
      }
    }
  }

  /**
    What a pattern matches: a pattern of one character matches that character, a
    question mark any but a slash, a star any text without one, and a pattern of
    two parts what splits into texts for both.
   */
  lemma MatchMeans(c: char, p: string, q: string, s: string)
    ensures StarMatch("", s) <==> s == ""
    ensures c != '*' && c != '?' ==> (StarMatch([c], s) <==> s == [c])
    ensures StarMatch("?", s) <==> |s| == 1 && s[0] != '/'
    ensures StarMatch("*", s) <==> NoSlash(s)
    ensures StarMatch(p + q, s) <==> Splits(p, q, s)
  {
    if s != "" {
      assert [c][1..] == "" && s == [s[0]] + s[1..];
      assert "?"[1..] == "";
    }
    StarMatches(s);
    if StarMatch(p + q, s) {
      MatchSplits(p, q, s);
    }
    if k :| 0 <= k <= |s| && SplitAt(p, q, s, k) {
      SplitMatches(p, q, s, k);
    }
  }

  lemma {:induction false} StarMatches(s: string)
    ensures StarMatch("*", s) <==> NoSlash(s)
  {
    assert "*"[1..] == "";
    if s != "" {
      StarMatches(s[1..]);
      assert NoSlash(s) <==> s[0] != '/' && NoSlash(s[1..]) by {
        assert forall i :: 0 < i < |s| ==> s[i] == s[1..][i - 1];
      }
    }
  }

  // --------------------------------------------------------------- entries

  /** strings.Split on a slash. */
  function Segments(p: string): (parts: seq<string>)
    ensures forall i :: 0 <= i < |parts| ==> NoSlash(parts[i])
  {
    var n := FirstAt(p, '/');
    if n == |p| then [p] else [p[..n]] + Segments(p[n + 1..])
  }

  /** strings.LastIndex of a slash, plus one. */
  function BehindLastSlash(p: string): (n: nat)
    ensures n <= |p| && (n > 0 ==> p[n - 1] == '/')
    ensures forall k :: n <= k < |p| ==> p[k] != '/'
  {
    if p == "" || p[|p| - 1] == '/' then |p| else BehindLastSlash(p[..|p| - 1])
  }

  function BaseName(p: string): (b: string) {
    p[BehindLastSlash(p)..]
  }

  function Unslashed(s: string): (t: string)
    requires s != ""
  {
    s[..|s| - 1]
  }

  predicate IsDirectory(entry: string) {
    entry != "" && entry[|entry| - 1] == '/'
  }

  /** `matchesPattern`: what an allow entry covers, from the root of the repository. */
  predicate Matches(other: (string, string) -> bool, path: string, raw: string) {
    var entry := TrimSpace(raw);
    if entry == "" then false
    else if IsDirectory(entry) then entry <= path || path == Unslashed(entry)
    else if HasWildcard(entry) then Glob(other, entry, BaseName(path)) || Glob(other, entry, path)
    else path == entry || entry + "/" <= path
  }

  /** `matchesDenyPattern`: also any segment at any depth. */
  predicate MatchesDeny(other: (string, string) -> bool, path: string, raw: string) {
    var entry := TrimSpace(raw);
    || Matches(other, path, raw)
    || (entry != "" && IsDirectory(entry) && Unslashed(entry) in Segments(path))
    || (entry != "" && !IsDirectory(entry) && NoSlash(entry) && SomeSegment(other, Segments(path), entry))
  }

  predicate SomeSegment(other: (string, string) -> bool, parts: seq<string>, entry: string) {
    exists i :: 0 <= i < |parts| && (parts[i] == entry || (HasWildcard(entry) && Glob(other, entry, parts[i])))
  }

  predicate MatchesAny(other: (string, string) -> bool, path: string, entries: seq<string>) {
    exists i :: 0 <= i < |entries| && Matches(other, path, entries[i])
  }

  predicate MatchesAnyDeny(other: (string, string) -> bool, path: string, entries: seq<string>) {
    exists i :: 0 <= i < |entries| && MatchesDeny(other, path, entries[i])
  }

  /** Everything an entry covers on the allow side it covers on the deny side. */
  lemma DenyIsWider(other: (string, string) -> bool, path: string, entries: seq<string>)
    ensures MatchesAny(other, path, entries) ==> MatchesAnyDeny(other, path, entries)
  {
    if MatchesAny(other, path, entries) {
      var i :| 0 <= i < |entries| && Matches(other, path, entries[i]);
      assert MatchesDeny(other, path, entries[i]);
    }
  }

  /** `pathEntryClean`: no root, absolute or traversing entry. */
  predicate CleanEntry(raw: string) {
    var entry := TrimSpace(raw);
    && entry != "" && entry != "." && entry != "/" && entry != "./"
    && entry[0] != '/'
    && ".." !in Segments(Forward(entry))
  }

  /** Backslashes read as slashes. */
  function Forward(s: string): (t: string) {
    if s == "" then "" else [if s[0] == '\\' then '/' else s[0]] + Forward(s[1..])
  }

  // --------------------------------------------------- what the parts mean

  /** Texts without slashes that make up the path when slashes are put between them. */
  ghost predicate PartsOf(parts: seq<string>, p: string) {
    parts != [] && (forall i :: 0 <= i < |parts| ==> NoSlash(parts[i])) && Join(parts, "/") == p
  }

  lemma JoinCons(x: string, rest: seq<string>)
    requires rest != []
    ensures Join([x] + rest, "/") == x + "/" + Join(rest, "/")
  {
    assert ([x] + rest)[1..] == rest;
  }

  lemma {:induction false} SegmentsArePartsOf(p: string)
    ensures PartsOf(Segments(p), p)
    decreases |p|
  {
    var n := FirstAt(p, '/');
    if n < |p| {
      SegmentsArePartsOf(p[n + 1..]);
      JoinCons(p[..n], Segments(p[n + 1..]));
      assert p == p[..n] + "/" + p[n + 1..];
    }
  }

  /** The segments of a path are its only parts. */
  lemma {:induction false} SegmentsIff(p: string, parts: seq<string>)
    ensures PartsOf(parts, p) <==> parts == Segments(p)
    decreases |parts|
  {
    SegmentsArePartsOf(p);
    if PartsOf(parts, p) {
      var x, rest := parts[0], parts[1..];
      assert parts == [x] + rest;
      if rest == [] {
        FirstAtIs(p, '/', |p|);
      } else {
        JoinCons(x, rest);
        FirstBehind(x, '/', Join(rest, "/"));
        assert p[..|x|] == x && p[|x| + 1..] == Join(rest, "/");
        SegmentsIff(Join(rest, "/"), rest);
      }
    }
  }

  lemma {:induction false} ForwardIs(s: string)
    ensures |Forward(s)| == |s|
    ensures forall i :: 0 <= i < |s| ==> Forward(s)[i] == if s[i] == '/' || s[i] == '\\' then '/' else s[i]
  {
    if s != "" {
      ForwardIs(s[1..]);
    }
  }

  /** Two dots are one of the parts, whichever way the slashes lean. */
  ghost predicate LeadsUp(t: string) {
    exists parts :: PartsOf(parts, Forward(t)) && ".." in parts
  }

  /** A clean entry is a relative path below the root that never leads upwards. */
  lemma CleanMeans(raw: string)
    ensures var t := TrimSpace(raw);
            CleanEntry(raw) <==> t !in ["", ".", "./"] && t[0] != '/' && !LeadsUp(t)
  {
    var f := Forward(TrimSpace(raw));
    SegmentsArePartsOf(f);
    forall parts | PartsOf(parts, f) ensures parts == Segments(f) {
      SegmentsIff(f, parts);
    }
  }

  /** The path is the named one, or lies below it. */
  ghost predicate Under(path: string, name: string) {
    path == name || exists rest :: path == name + "/" + rest
  }

  lemma UnderIff(path: string, name: string)
    ensures Under(path, name) <==> path == name || name + "/" <= path
  {
    if name + "/" <= path {
      assert path == name + "/" + path[|name| + 1..];
    }
  }

  /**
    What an allow entry covers: a directory entry what is at or below it, one
    without wildcards likewise, and one with wildcards what matches as a whole or
    by its last piece.
   */
  lemma AllowMeans(other: (string, string) -> bool, path: string, raw: string, name: string)
    ensures TrimSpace(raw) == "" ==> !Matches(other, path, raw)
    ensures TrimSpace(raw) == name + "/" ==> (Matches(other, path, raw) <==> Under(path, name))
    ensures TrimSpace(raw) == name != "" && !IsDirectory(name) && Literal(name) ==> (Matches(other, path, raw) <==> Under(path, name))
    ensures TrimSpace(raw) == name != "" && !IsDirectory(name) && !Literal(name) ==>
              (Matches(other, path, raw) <==> Glob(other, name, path) || Glob(other, name, BaseName(path)))
  {
    UnderIff(path, name);
    assert Unslashed(name + "/") == name;
  }

  /** Some part of the path is the named one, or matches the name as a pattern. */
  ghost predicate PartMatches(other: (string, string) -> bool, path: string, name: string) {
    exists s :: s in Segments(path) && (s == name || (!Literal(name) && Glob(other, name, s)))
  }

  lemma PartMatchesIff(other: (string, string) -> bool, path: string, name: string)
    ensures SomeSegment(other, Segments(path), name) <==> PartMatches(other, path, name)
  {
    var parts := Segments(path);
    if i :| 0 <= i < |parts| && (parts[i] == name || (HasWildcard(name) && Glob(other, name, parts[i]))) {
      assert parts[i] in parts;
    }
    if s :| s in parts && (s == name || (!Literal(name) && Glob(other, name, s))) {
      var k :| 0 <= k < |parts| && parts[k] == s;
    }
  }

  /** What a deny entry covers besides: any part of the path that is the named directory, or that a bare entry names or matches. */
  lemma DenyMeans(other: (string, string) -> bool, path: string, raw: string, name: string)
    ensures TrimSpace(raw) == "" ==> !MatchesDeny(other, path, raw)
    ensures TrimSpace(raw) == name + "/" ==> (MatchesDeny(other, path, raw) <==> Under(path, name) || name in Segments(path))
    ensures TrimSpace(raw) == name != "" && !IsDirectory(name) ==>
              (MatchesDeny(other, path, raw)
               <==> Matches(other, path, raw) || (NoSlash(name) && PartMatches(other, path, name)))
  {
    AllowMeans(other, path, raw, name);
    assert Unslashed(name + "/") == name;
    PartMatchesIff(other, path, name);
  }

  // -------------------------------------------------------- built-in secrets

  const SECRETS: seq<string> := [".meristem/", ".env", ".env.*", "*.env", "*.env.*", "*.token"]

  /** `denyCovers` and `denyListCovers`: the entry itself, or a directory entry that is a prefix of it. */
  predicate Covers(denied: seq<string>, builtin: string) {
    exists i :: 0 <= i < |denied| && (denied[i] == builtin || (IsDirectory(denied[i]) && denied[i] <= builtin))
  }

  /** A segment no exported path may have. */
  predicate SecretSegment(s: string) {
    || s == ".meristem" || s == ".env"
    || ".env." <= s || EndsWith(s, ".env") || Contains(s, ".env.") || EndsWith(s, ".token")
  }

  /** No directory entry but the entry itself is a prefix of a built-in secret. */
  lemma CoveredIsListed(denied: seq<string>, builtin: string)
    requires builtin in SECRETS && Covers(denied, builtin)
    ensures builtin in denied
  {
    var i :| 0 <= i < |denied| && (denied[i] == builtin || (IsDirectory(denied[i]) && denied[i] <= builtin));
    var entry := denied[i];
    if entry != builtin {
      assert builtin[|entry| - 1] == '/';
      OnlySlash(builtin, |entry| - 1);
    }
  }

  lemma OnlySlash(builtin: string, i: nat)
    requires builtin in SECRETS && i < |builtin| && builtin[i] == '/'
    ensures i == |builtin| - 1
  {
    SecretsAre(builtin);
    assert ".meristem/" == ".meristem" + "/";
    assert NoSlash(".meristem") && NoSlash(".env") && NoSlash(".env.*") && NoSlash("*.env") && NoSlash("*.env.*") && NoSlash("*.token");
    assert ".meristem/"[..9] == ".meristem";
  }

  lemma SecretsAre(builtin: string)
    requires builtin in SECRETS
    ensures builtin == ".meristem/" || builtin == ".env" || builtin == ".env.*" || builtin == "*.env"
            || builtin == "*.env.*" || builtin == "*.token"
  {
  }

  lemma SecretsListed()
    ensures ".meristem/" in SECRETS && ".env" in SECRETS && ".env.*" in SECRETS
    ensures "*.env" in SECRETS && "*.env.*" in SECRETS && "*.token" in SECRETS
  {
    assert SECRETS[0] == ".meristem/" && SECRETS[1] == ".env" && SECRETS[2] == ".env.*";
    assert SECRETS[3] == "*.env" && SECRETS[4] == "*.env.*" && SECRETS[5] == "*.token";
  }

  lemma DeniedSegment(other: (string, string) -> bool, path: string, denied: seq<string>, builtin: string, i: nat)
    requires builtin in denied && TrimSpace(builtin) == builtin && builtin != "" && !IsDirectory(builtin) && NoSlash(builtin)
    requires i < |Segments(path)|
    requires Segments(path)[i] == builtin || (HasWildcard(builtin) && Glob(other, builtin, Segments(path)[i]))
    ensures MatchesAnyDeny(other, path, denied)
  {
    var k :| 0 <= k < |denied| && denied[k] == builtin;
    assert SomeSegment(other, Segments(path), builtin);
    assert MatchesDeny(other, path, denied[k]);
  }

  lemma DeniedDirectory(other: (string, string) -> bool, path: string, denied: seq<string>, i: nat)
    requires ".meristem/" in denied && i < |Segments(path)| && Segments(path)[i] == ".meristem"
    ensures MatchesAnyDeny(other, path, denied)
  {
    var entry := ".meristem/";
    var k :| 0 <= k < |denied| && denied[k] == entry;
    TrimmedStays(entry);
    assert Unslashed(entry) == ".meristem";
    assert MatchesDeny(other, path, denied[k]);
  }

  lemma SecretShapes()
    ensures ".env.*" == ".env." + "*" && "*.env" == "*" + ".env" && "*.env.*" == "*" + ".env." + "*" && "*.token" == "*" + ".token"
    ensures Literal(".env.") && Literal(".env") && Literal(".token")
    ensures PlainPattern(".env.*") && PlainPattern("*.env") && PlainPattern("*.env.*") && PlainPattern("*.token")
    ensures HasWildcard(".env.*") && HasWildcard("*.env") && HasWildcard("*.env.*") && HasWildcard("*.token")
  {
    assert ".env.*"[5] == '*' && "*.env"[0] == '*' && "*.env.*"[0] == '*' && "*.token"[0] == '*';
  }

  /** With the built-in secrets covered, every path with a secret segment at any depth is denied. */
  lemma SecretsDenied(other: (string, string) -> bool, path: string, denied: seq<string>, i: nat)
    requires forall b :: b in SECRETS ==> Covers(denied, b)
    requires i < |Segments(path)| && SecretSegment(Segments(path)[i])
    ensures MatchesAnyDeny(other, path, denied)
  {
    var s := Segments(path)[i];
    SecretsListed();
    SecretShapes();
    if s == ".meristem" {
      CoveredIsListed(denied, ".meristem/");
      DeniedDirectory(other, path, denied, i);
    } else if s == ".env" {
      SecretDenied(other, path, denied, ".env", i);
    } else if ".env." <= s {
      MatchPrefix(".env.", s);
      SecretDenied(other, path, denied, ".env.*", i);
    } else if EndsWith(s, ".env") {
      MatchSuffix(".env", s);
      SecretDenied(other, path, denied, "*.env", i);
    } else if Contains(s, ".env.") {
      MatchInfix(".env.", s);
      SecretDenied(other, path, denied, "*.env.*", i);
    } else {
      MatchSuffix(".token", s);
      SecretDenied(other, path, denied, "*.token", i);
    }
  }

  lemma SecretDenied(other: (string, string) -> bool, path: string, denied: seq<string>, builtin: string, i: nat)
    requires builtin in SECRETS && builtin != ".meristem/" && Covers(denied, builtin)
    requires i < |Segments(path)|
    requires Segments(path)[i] == builtin || (HasWildcard(builtin) && Glob(other, builtin, Segments(path)[i]))
    ensures MatchesAnyDeny(other, path, denied)
  {
    CoveredIsListed(denied, builtin);
    PlainSecret(builtin);
    DeniedSegment(other, path, denied, builtin, i);
  }

  lemma PlainSecret(builtin: string)
    requires builtin in SECRETS && builtin != ".meristem/"
    ensures TrimSpace(builtin) == builtin && builtin != "" && !IsDirectory(builtin) && NoSlash(builtin)
  {
    SecretsAre(builtin);
    TrimmedStays(builtin);
  }
}
