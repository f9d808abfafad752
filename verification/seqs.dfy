/** Facts about finite sequences shared by the collection, selection and check
    modules: in-order subsequences, duplicate freedom, first occurrences and the
    size of the set of a sequence's elements (Python's `len(set(xs))`). */
module Seqs {

  /** `a` can be obtained from `b` by deleting elements, keeping the order. */
  predicate IsSubseq<T(==)>(a: seq<T>, b: seq<T>)
    decreases |b|
  {
    if a == [] then true
    else if b == [] then false
    else if a[0] == b[0] then IsSubseq(a[1..], b[1..])
    else IsSubseq(a, b[1..])
  }

  lemma {:induction false} SubseqCons<T>(x: T, a: seq<T>, b: seq<T>)
    requires IsSubseq(a, b)
    ensures IsSubseq([x] + a, [x] + b)
  {
    assert ([x] + a)[1..] == a;
    assert ([x] + b)[1..] == b;
  }

  lemma {:induction false} SubseqSkip<T>(x: T, a: seq<T>, b: seq<T>)
    requires IsSubseq(a, b)
    ensures IsSubseq(a, [x] + b)
    decreases |b|, 1
  {
    if a != [] {
      assert ([x] + b)[1..] == b;
      if a[0] == x {
        // Matching `x` first leaves `a[1..]`, a subsequence of `b` as well.
        SubseqDrop(a, b);
      }
    }
  }

  /** Dropping the first element of a subsequence keeps it a subsequence. */
  lemma {:induction false} SubseqDrop<T>(a: seq<T>, b: seq<T>)
    requires a != [] && IsSubseq(a, b)
    ensures IsSubseq(a[1..], b)
    decreases |b|, 0
  {
    if a[0] == b[0] {
      SubseqSkip(b[0], a[1..], b[1..]);
      assert [b[0]] + b[1..] == b;
    } else {
      SubseqDrop(a, b[1..]);
      SubseqSkip(b[0], a[1..], b[1..]);
      assert [b[0]] + b[1..] == b;
    }
  }

  /** A subsequence contains only elements of the sequence, and never more
      copies of one than the sequence has. */
  lemma {:induction false} SubseqMultiset<T>(a: seq<T>, b: seq<T>)
    requires IsSubseq(a, b)
    ensures multiset(a) <= multiset(b)
    decreases |b|
  {
    if a != [] {
      assert a == [a[0]] + a[1..];
      assert b == [b[0]] + b[1..];
      if a[0] == b[0] {
        SubseqMultiset(a[1..], b[1..]);
      } else {
        SubseqMultiset(a, b[1..]);
      }
    }
  }

  predicate NoDup<T(==)>(s: seq<T>)
  {
    forall i, j :: 0 <= i < j < |s| ==> s[i] != s[j]
  }

  function ToSet<T>(s: seq<T>): set<T>
  {
    set x | x in s
  }

  /** Python's `len(set(xs))` never exceeds `len(xs)`. */
  lemma {:induction false} CardToSet<T>(s: seq<T>)
    ensures |ToSet(s)| <= |s|
    ensures NoDup(s) ==> |ToSet(s)| == |s|
  {
    if s != [] {
      CardToSet(s[1..]);
      assert ToSet(s) == ToSet(s[1..]) + {s[0]};
      if NoDup(s) {
        assert NoDup(s[1..]);
        assert forall k :: 0 <= k < |s[1..]| ==> s[1..][k] == s[k + 1] != s[0];
        assert s[0] !in ToSet(s[1..]);
      }
    }
  }

  /** Index of the first occurrence of `x` in `s`. */
  function FirstIndex<T(==)>(s: seq<T>, x: T): (k: nat)
    requires x in s
    ensures k < |s| && s[k] == x
    ensures forall j :: 0 <= j < k ==> s[j] != x
  {
    if s[0] == x then 0 else 1 + FirstIndex(s[1..], x)
  }

  lemma {:induction false} FirstIndexAppend<T>(s: seq<T>, t: seq<T>, x: T)
    requires x in s
    ensures x in s + t && FirstIndex(s + t, x) == FirstIndex(s, x)
  {
    if s[0] != x {
      assert (s + t)[1..] == s[1..] + t;
      FirstIndexAppend(s[1..], t, x);
    }
  }

  /** Past a different head, the first index moves up by one. */
  lemma FirstIndexCons<T>(a: T, t: seq<T>, x: T)
    requires x in t && x != a
    ensures x in [a] + t && FirstIndex([a] + t, x) == 1 + FirstIndex(t, x)
  {
    assert ([a] + t)[1..] == t;
  }

  /** `[x for x in xs if p(x)]`. */
  function Filter<T>(xs: seq<T>, p: T -> bool): seq<T>
  {
    if xs == [] then [] else (if p(xs[0]) then [xs[0]] else []) + Filter(xs[1..], p)
  }

  /** What makes a list comprehension with a condition what it is: the result
      is an in-order subsequence of `xs`, every element satisfies `p`, and
      every value satisfying `p` occurs in it exactly as often as in `xs`. */
  lemma FilterSpec<T>(xs: seq<T>, p: T -> bool)
    ensures IsSubseq(Filter(xs, p), xs)
    ensures forall i :: 0 <= i < |Filter(xs, p)| ==> p(Filter(xs, p)[i])
    ensures forall x :: multiset(Filter(xs, p))[x] == if p(x) then multiset(xs)[x] else 0
    ensures |Filter(xs, p)| <= |xs|
  {
    FilterSubseq(xs, p);
    FilterKeeps(xs, p);
    FilterCounts(xs, p);
  }

  /** One step of `Filter`: the head is kept exactly when it satisfies `p`. */
  lemma FilterCons<T>(xs: seq<T>, p: T -> bool)
    requires xs != []
    ensures Filter(xs, p) == (if p(xs[0]) then [xs[0]] else []) + Filter(xs[1..], p)
  {
  }

  lemma {:induction false} FilterSubseq<T>(xs: seq<T>, p: T -> bool)
    ensures IsSubseq(Filter(xs, p), xs) && |Filter(xs, p)| <= |xs|
  {
    if xs != [] {
      FilterSubseq(xs[1..], p);
      var rest := Filter(xs[1..], p);
      FilterCons(xs, p);
      assert xs == [xs[0]] + xs[1..];
      if p(xs[0]) {
        assert Filter(xs, p) == [xs[0]] + rest;
        SubseqCons(xs[0], rest, xs[1..]);
      } else {
        assert Filter(xs, p) == rest;
        SubseqSkip(xs[0], rest, xs[1..]);
      }
    }
  }

  lemma {:induction false} FilterKeeps<T>(xs: seq<T>, p: T -> bool)
    ensures forall i :: 0 <= i < |Filter(xs, p)| ==> p(Filter(xs, p)[i])
  {
    if xs != [] {
      FilterKeeps(xs[1..], p);
      FilterCons(xs, p);
    }
  }

  lemma {:induction false} FilterCounts<T>(xs: seq<T>, p: T -> bool)
    ensures forall x :: multiset(Filter(xs, p))[x] == if p(x) then multiset(xs)[x] else 0
  {
    if xs != [] {
      FilterCounts(xs[1..], p);
      FilterCons(xs, p);
      var head := if p(xs[0]) then [xs[0]] else [];
      assert xs == [xs[0]] + xs[1..];
      assert multiset(xs) == multiset([xs[0]]) + multiset(xs[1..]);
      assert multiset(Filter(xs, p)) == multiset(head) + multiset(Filter(xs[1..], p));
    }
  }

  lemma {:induction false} FilterAppend<T>(a: seq<T>, b: seq<T>, p: T -> bool)
    ensures Filter(a + b, p) == Filter(a, p) + Filter(b, p)
  {
    if a == [] {
      assert a + b == b;
    } else {
      var ab := a + b;
      var head := if p(a[0]) then [a[0]] else [];
      assert ab != [] && ab[0] == a[0] && ab[1..] == a[1..] + b;
      assert Filter(ab, p) == head + Filter(a[1..] + b, p);
      FilterAppend(a[1..], b, p);
      assert Filter(a, p) == head + Filter(a[1..], p);
      ConcatAssoc(head, Filter(a[1..], p), Filter(b, p));
    }
  }

  lemma ConcatAssoc<T>(x: seq<T>, y: seq<T>, z: seq<T>)
    ensures x + (y + z) == (x + y) + z
  {
  }

  lemma FilterSnoc<T>(a: seq<T>, x: T, p: T -> bool)
    ensures Filter(a + [x], p) == Filter(a, p) + (if p(x) then [x] else [])
  {
    FilterAppend(a, [x], p);
    assert Filter([x], p) == (if p(x) then [x] else []) + Filter([x][1..], p);
  }

  /** The distinct elements of `s`, each where it first occurs. */
  function Dedup<T(==,!new)>(s: seq<T>): (r: seq<T>)
    ensures forall x :: x in r <==> x in s
    ensures NoDup(r)
  {
    if s == [] then []
    else
      var d := Dedup(s[..|s| - 1]);
      var x := s[|s| - 1];
      assert forall y :: y in s <==> y in s[..|s| - 1] || y == x by {
        assert s == s[..|s| - 1] + [x];
      }
      if x in d then d else d + [x]
  }
}
