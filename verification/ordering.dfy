/** Python's ordering of strings, character by character with a proper
    prefix first, and `sorted(set(xs))` over strings. */
module Ordering {
  import Seqs

  /** `a < b` on Python strings. */
  predicate Less(a: string, b: string)
  {
    if a == [] then b != []
    else if b == [] then false
    else if a[0] != b[0] then a[0] < b[0]
    else Less(a[1..], b[1..])
  }

  lemma {:induction false} LessIrreflexive(a: string)
    ensures !Less(a, a)
  {
    if a != [] {
      LessIrreflexive(a[1..]);
    }
  }

  lemma {:induction false} LessTotal(a: string, b: string)
    ensures a == b || Less(a, b) || Less(b, a)
  {
    if a != [] && b != [] && a[0] == b[0] {
      LessTotal(a[1..], b[1..]);
      if a[1..] == b[1..] {
        assert a == [a[0]] + a[1..] && b == [b[0]] + b[1..];
      }
    }
  }

  lemma {:induction false} LessTransitive(a: string, b: string, c: string)
    requires Less(a, b) && Less(b, c)
    ensures Less(a, c)
  {
    if a != [] && a[0] == b[0] && b[0] == c[0] {
      LessTransitive(a[1..], b[1..], c[1..]);
    }
  }

  /** Strictly increasing, hence also free of duplicates. */
  predicate Sorted(s: seq<string>)
  {
    forall i, j :: 0 <= i < j < |s| ==> Less(s[i], s[j])
  }

  lemma SortedNoDup(s: seq<string>)
    requires Sorted(s)
    ensures Seqs.NoDup(s)
  {
    forall i, j | 0 <= i < j < |s|
      ensures s[i] != s[j]
    {
      LessIrreflexive(s[i]);
    }
  }

  /** `x` put in its place in a strictly increasing list, unless present. */
  function Insert(x: string, s: seq<string>): (r: seq<string>)
    requires Sorted(s)
    ensures Sorted(r)
    ensures forall y :: y in r <==> y == x || y in s
  {
    if s == [] then [x]
    else if x == s[0] then s
    else if Less(x, s[0]) then
      assert forall j :: 0 <= j < |s| ==> Less(x, s[j]) by {
        forall j | 0 < j < |s| {
          LessTransitive(x, s[0], s[j]);
        }
      }
      [x] + s
    else
      LessTotal(x, s[0]);
      var t := Insert(x, s[1..]);
      assert forall y :: y in t ==> Less(s[0], y) by {
        forall y | y in s[1..] ensures Less(s[0], y) {
          var j :| 0 <= j < |s[1..]| && s[1..][j] == y;
          assert s[j + 1] == y;
        }
      }
      [s[0]] + t
  }

  /** `sorted(set(xs))`: the distinct strings of `xs` in increasing order. */
  function SortedSet(xs: seq<string>): (r: seq<string>)
    ensures Sorted(r) && Seqs.NoDup(r)
    ensures forall y :: y in r <==> y in xs
  {
    if xs == [] then []
    else
      var r := Insert(xs[|xs| - 1], SortedSet(xs[..|xs| - 1]));
      SortedNoDup(r);
      assert xs == xs[..|xs| - 1] + [xs[|xs| - 1]];
      r
  }
}
