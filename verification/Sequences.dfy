/** Facts about concatenation and slicing that several modules use. */
module Sequences {

  lemma Assoc<T>(a: seq<T>, b: seq<T>, c: seq<T>)
    ensures a + b + c == a + (b + c)
  {
  }

  /** A concatenation splits where its left part ends. */
  lemma SplitLeft<T>(a: seq<T>, b: seq<T>)
    ensures (a + b)[..|a|] == a && (a + b)[|a|..] == b
  {
  }

  /** Prefixes of one length agree when the whole sequences do. */
  lemma EqualPrefix<T>(p: seq<T>, p': seq<T>, r: seq<T>, q: seq<T>)
    requires p + r == p' + q && |p| == |p'|
    ensures p == p' && r == q
  {
    SplitLeft(p, r);
    SplitLeft(p', q);
  }

  lemma HeadTail<T>(s: seq<T>)
    requires s != []
    ensures s == [s[0]] + s[1..]
  {
  }

  lemma TailOfCons<T>(x: T, s: seq<T>)
    ensures ([x] + s)[1..] == s && ([x] + s)[0] == x
  {
  }

  /** A prefix that reaches beyond the left part of a concatenation. */
  lemma PrefixBeyond<T>(a: seq<T>, b: seq<T>, n: nat)
    requires |a| <= n <= |a + b|
    ensures (a + b)[..n] == a + b[..n - |a|]
  {
  }

  lemma PrefixWithin<T>(a: seq<T>, b: seq<T>, n: nat)
    requires n <= |a|
    ensures (a + b)[..n] == a[..n]
  {
  }

  /** The last element of a sequence, found in a permutation of it: what is left on both sides is a permutation again. */
  lemma DropFromBoth<T>(s: seq<T>, t: seq<T>) returns (i: nat)
    requires s != [] && multiset(s) == multiset(t)
    ensures i < |t| && t[i] == s[|s| - 1] && t == t[..i] + [t[i]] + t[i + 1..]
    ensures multiset(s[..|s| - 1]) == multiset(t[..i] + t[i + 1..])
  {
    var front, last := s[..|s| - 1], s[|s| - 1];
    assert s == front + [last];
    assert last in multiset(t);
    i :| 0 <= i < |t| && t[i] == last;
    assert t == t[..i] + [last] + t[i + 1..];
    assert multiset(s) == multiset(front) + multiset{last};
    var rest := t[..i] + t[i + 1..];
    assert multiset(t) == multiset(rest) + multiset{last};
    assert multiset(front) == multiset(s) - multiset{last};
    assert multiset(rest) == multiset(t) - multiset{last};
  }

  // -------------------------------------------------------------- filtering

  /** The elements that satisfy a predicate, in order. */
  function Sift<T>(p: T -> bool, s: seq<T>): (t: seq<T>) {
    if s == [] then [] else (if p(s[0]) then [s[0]] else []) + Sift(p, s[1..])
  }

  lemma {:induction false} SiftSnoc<T>(p: T -> bool, s: seq<T>, x: T)
    ensures Sift(p, s + [x]) == Sift(p, s) + (if p(x) then [x] else [])
  {
    if s == [] {
      assert s + [x] == [x] && [x][1..] == [];
    } else {
      assert (s + [x])[1..] == s[1..] + [x];
      SiftSnoc(p, s[1..], x);
    }
  }

  /** Filtering keeps exactly what satisfies the predicate. */
  lemma {:induction false} SiftMembers<T>(p: T -> bool, s: seq<T>, x: T)
    ensures x in Sift(p, s) <==> x in s && p(x)
  {
    if s != [] {
      HeadTail(s);
      SiftMembers(p, s[1..], x);
    }
  }

  // ------------------------------------------------------------- separators

  /** Where the first separator is, or the length when there is none. */
  function FirstAt<T(==)>(s: seq<T>, sep: T): (n: nat)
    ensures n <= |s|
    ensures forall i :: 0 <= i < n ==> s[i] != sep
    ensures n < |s| ==> s[n] == sep
  {
    if s == [] || s[0] == sep then 0 else 1 + FirstAt(s[1..], sep)
  }

  predicate Free<T(==)>(s: seq<T>, sep: T) {
    forall i :: 0 <= i < |s| ==> s[i] != sep
  }

  lemma FirstAtIs<T>(s: seq<T>, sep: T, n: nat)
    requires n <= |s| && (forall i :: 0 <= i < n ==> s[i] != sep) && (n < |s| ==> s[n] == sep)
    ensures FirstAt(s, sep) == n
  {
    var m := FirstAt(s, sep);
    assert !(m < n) && !(n < m);
  }

  lemma FirstBehind<T>(head: seq<T>, sep: T, tail: seq<T>)
    requires Free(head, sep)
    ensures FirstAt(head + [sep] + tail, sep) == |head|
  {
    var s := head + [sep] + tail;
    assert s[|head|] == sep;
    assert forall i :: 0 <= i < |head| ==> s[i] == head[i];
    FirstAtIs(s, sep, |head|);
  }

  /** A part without separators and what follows its separator are recoverable. */
  lemma Apart<T>(a: seq<T>, x: seq<T>, b: seq<T>, y: seq<T>, sep: T)
    requires Free(a, sep) && Free(b, sep) && a + [sep] + x == b + [sep] + y
    ensures a == b && x == y
  {
    FirstBehind(a, sep, x);
    FirstBehind(b, sep, y);
    Assoc(a, [sep], x);
    Assoc(b, [sep], y);
    EqualPrefix(a, b, [sep] + x, [sep] + y);
    EqualPrefix([sep], [sep], x, y);
  }
}
