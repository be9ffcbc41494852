/** The result of sorting byte strings and dropping repetitions. */
module Sorting {
  import opened Bytes

  function Insert(x: Bytes, s: seq<Bytes>): (r: seq<Bytes>)
    requires Ascending(s)
    ensures Ascending(r)
    ensures forall y :: y in r <==> y == x || y in s
    ensures |r| <= |s| + 1
  {
    if s == [] then [x]
    else if x == s[0] then s
    else if Less(x, s[0]) then [x] + s
    else
      LessTotal(x, s[0]);
      var rest := Insert(x, s[1..]);
      assert forall y :: y in rest ==> Less(s[0], y) by { FirstIsLeast(s); }
      assert Less(s[0], rest[0]) by { assert rest[0] in rest; }
      [s[0]] + rest
  }

  lemma FirstIsLeast(s: seq<Bytes>)
    requires Ascending(s) && s != []
    ensures forall y :: y in s[1..] ==> Less(s[0], y)
  {
    forall y | y in s[1..]
      ensures Less(s[0], y)
    {
      var i :| 0 <= i < |s[1..]| && s[1..][i] == y;
      AscendingPairs(s, 0, i + 1);
    }
  }

  /** A strictly sorted sequence is determined by its elements. */
  lemma {:induction false} SameElementsSameSequence(a: seq<Bytes>, b: seq<Bytes>)
    requires Ascending(a) && Ascending(b) && forall y :: y in a <==> y in b
    ensures a == b
  {
    assert b != [] ==> b[0] in b;
    assert a != [] ==> a[0] in a;
    if a != [] {
      FirstIsLeast(a);
      FirstIsLeast(b);
      if a[0] != b[0] {
        LessTransitive(a[0], b[0], a[0]);
        LessIrreflexive(a[0]);
        assert false;
      }
      LessIrreflexive(a[0]);
      assert a == [a[0]] + a[1..] && b == [b[0]] + b[1..];
      assert forall y :: y in a[1..] <==> y in a && y != a[0];
      assert forall y :: y in b[1..] <==> y in b && y != b[0];
      SameElementsSameSequence(a[1..], b[1..]);
    }
  }

  function SortedUnique(s: seq<Bytes>): (r: seq<Bytes>)
    ensures Ascending(r)
    ensures forall y :: y in r <==> y in s
    ensures |r| <= |s|
  {
    if s == [] then [] else Insert(s[0], SortedUnique(s[1..]))
  }

  /** Sorting forgets the order and the repetitions of its input, and nothing else. */
  lemma SortingIsCanonical(s: seq<Bytes>, t: seq<Bytes>)
    ensures SortedUnique(s) == SortedUnique(t) <==> forall y :: y in s <==> y in t
  {
    if forall y :: y in s <==> y in t {
      SameElementsSameSequence(SortedUnique(s), SortedUnique(t));
    }
  }
}
