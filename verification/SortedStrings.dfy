/** sort.Strings on a copy, as a function: the result depends only on which strings there are. */
module SortedStrings {
  import opened CanonicalJson

  /** x put where it belongs in an ordered listing. */
  function Placed(x: string, s: seq<string>): (t: seq<string>) {
    if s == [] || Leq(x, s[0]) then [x] + s else [s[0]] + Placed(x, s[1..])
  }

  function Sort(s: seq<string>): (t: seq<string>) {
    if s == [] then [] else Placed(s[0], Sort(s[1..]))
  }

  lemma {:induction false} PlacedStrings(x: string, s: seq<string>)
    ensures multiset(Placed(x, s)) == multiset(s) + multiset{x}
  {
    if s != [] {
      PlacedStrings(x, s[1..]);
      assert s == [s[0]] + s[1..];
    }
  }

  /** Sorting keeps every string as often as it occurred. */
  lemma {:induction false} SortStrings(s: seq<string>)
    ensures multiset(Sort(s)) == multiset(s)
  {
    if s != [] {
      SortStrings(s[1..]);
      PlacedStrings(s[0], Sort(s[1..]));
      assert s == [s[0]] + s[1..];
    }
  }

  /** Every element of s is in t and the other way round. */
  lemma SameMembers(s: seq<string>, t: seq<string>)
    requires multiset(s) == multiset(t)
    ensures forall x :: x in s <==> x in t
  {
    forall x ensures x in s <==> x in t {
      assert x in s <==> x in multiset(s);
      assert x in t <==> x in multiset(t);
    }
  }

  lemma SortMembers(s: seq<string>)
    ensures forall x :: x in Sort(s) <==> x in s
  {
    SortStrings(s);
    SameMembers(Sort(s), s);
  }

  predicate Below(x: string, s: seq<string>) {
    forall i :: 0 <= i < |s| ==> Leq(x, s[i])
  }

  /** In order, by heads. */
  predicate Ordered(s: seq<string>) {
    s == [] || (Below(s[0], s[1..]) && Ordered(s[1..]))
  }

  lemma BelowPlaced(y: string, x: string, s: seq<string>)
    requires Below(y, s) && Leq(y, x)
    ensures Below(y, Placed(x, s))
  {
    var t := Placed(x, s);
    PlacedStrings(x, s);
    forall i | 0 <= i < |t| ensures Leq(y, t[i]) {
      assert t[i] in multiset(t);
      if t[i] != x {
        assert t[i] in multiset(s);
        var k :| 0 <= k < |s| && s[k] == t[i];
      }
    }
  }

  lemma LeqSelf(x: string)
    ensures Leq(x, x)
  {
    LeqTotal(x, x);
  }

  lemma BelowAll(x: string, s: seq<string>)
    requires Ordered(s) && s != [] && Leq(x, s[0])
    ensures Below(x, s)
  {
    forall i | 0 <= i < |s| ensures Leq(x, s[i]) {
      if i > 0 {
        assert Leq(s[0], s[1..][i - 1]);
        LeqTransitive(x, s[0], s[i]);
      }
    }
  }

  lemma {:induction false} PlacedOrdered(x: string, s: seq<string>)
    requires Ordered(s)
    ensures Ordered(Placed(x, s))
  {
    var t := Placed(x, s);
    if s == [] {
      assert t[1..] == [];
    } else if Leq(x, s[0]) {
      assert t[1..] == s;
      BelowAll(x, s);
    } else {
      LeqTotal(x, s[0]);
      PlacedOrdered(x, s[1..]);
      BelowPlaced(s[0], x, s[1..]);
      assert t[1..] == Placed(x, s[1..]);
    }
  }

  lemma {:induction false} SortOrdered(s: seq<string>)
    ensures Ordered(Sort(s))
  {
    if s != [] {
      SortOrdered(s[1..]);
      PlacedOrdered(s[0], Sort(s[1..]));
    }
  }

  /** Two ordered listings of the same strings are the same listing. */
  lemma {:induction false} OrderedUnique(s: seq<string>, t: seq<string>)
    requires Ordered(s) && Ordered(t) && multiset(s) == multiset(t)
    ensures s == t
  {
    if s == [] {
      assert |multiset(t)| == 0;
    } else {
      assert |multiset(s)| == |multiset(t)|;
      SameMembers(s, t);
      LeastFirst(s, t);
      LeastFirst(t, s);
      LeqAntisymmetric(s[0], t[0]);
      TailMembers(s);
      TailMembers(t);
      OrderedUnique(s[1..], t[1..]);
      assert s == [s[0]] + s[1..] && t == [t[0]] + t[1..];
    }
  }

  lemma TailMembers(s: seq<string>)
    requires s != []
    ensures multiset(s[1..]) == multiset(s) - multiset{s[0]}
  {
    assert s == [s[0]] + s[1..];
  }

  lemma LeastFirst(s: seq<string>, t: seq<string>)
    requires Ordered(s) && s != [] && t != [] && forall x :: x in t ==> x in s
    ensures Leq(s[0], t[0])
  {
    assert t[0] in s;
    var k :| 0 <= k < |s| && s[k] == t[0];
    LeqSelf(s[0]);
    if k > 0 {
      assert s[1..][k - 1] == s[k];
    }
  }

  /** Sorting forgets the order it was given. */
  lemma SortUnique(s: seq<string>, t: seq<string>)
    requires multiset(s) == multiset(t)
    ensures Sort(s) == Sort(t)
  {
    SortStrings(s);
    SortStrings(t);
    SortOrdered(s);
    SortOrdered(t);
    OrderedUnique(Sort(s), Sort(t));
  }
}
