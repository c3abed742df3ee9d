/** Order-preserving filtering of sequences, as `Array.prototype.filter` does it. */
module Seqs {

  /** The elements of `s` that satisfy `p`, in their original order. */
  function Filter<T(==,!new)>(s: seq<T>, p: T -> bool): (r: seq<T>)
    ensures |r| <= |s|
    ensures forall x :: x in r <==> x in s && p(x)
  {
    if s == [] then []
    else (if p(s[0]) then [s[0]] else []) + Filter(s[1..], p)
  }

  /** `a` can be obtained from `b` by deleting elements (order is kept). */
  predicate IsSubseq<T(==,!new)>(a: seq<T>, b: seq<T>)
    decreases |b|
  {
    a == [] || (b != [] && ((a[0] == b[0] && IsSubseq(a[1..], b[1..])) || IsSubseq(a, b[1..])))
  }

  lemma {:induction false} FilterIsSubseq<T(!new)>(s: seq<T>, p: T -> bool)
    ensures IsSubseq(Filter(s, p), s)
  {
    if s != [] {
      FilterIsSubseq(s[1..], p);
      if p(s[0]) {
        assert Filter(s, p) == [s[0]] + Filter(s[1..], p);
        assert Filter(s, p)[1..] == Filter(s[1..], p);
      } else {
        assert Filter(s, p) == Filter(s[1..], p);
      }
    }
  }

  /** A sequence in which exactly one occurrence satisfies `p` filters to that element. */
  lemma {:induction false} FilterSingle<T(!new)>(s: seq<T>, p: T -> bool, x: T)
    requires multiset(s)[x] == 1 && p(x)
    requires forall y :: y in s && y != x ==> !p(y)
    ensures Filter(s, p) == [x]
  {
    assert s != [];
    assert s == [s[0]] + s[1..];
    if s[0] == x {
      assert multiset(s[1..])[x] == 0;
      FilterNone(s[1..], p);
    } else {
      FilterSingle(s[1..], p, x);
    }
  }

  /** Filtering a sequence grown at the end, as a `for` loop that pushes does. */
  lemma {:induction false} FilterAppend<T(!new)>(s: seq<T>, x: T, p: T -> bool)
    ensures Filter(s + [x], p) == Filter(s, p) + (if p(x) then [x] else [])
  {
    if s == [] {
      assert s + [x] == [x];
      assert [x][1..] == [];
    } else {
      assert (s + [x])[0] == s[0];
      assert (s + [x])[1..] == s[1..] + [x];
      FilterAppend(s[1..], x, p);
    }
  }

  /** Filtering keeps everything exactly when every element satisfies the predicate. */
  lemma {:induction false} FilterAll<T(!new)>(s: seq<T>, p: T -> bool)
    ensures (forall x :: x in s ==> p(x)) <==> Filter(s, p) == s
  {
    if s != [] {
      FilterAll(s[1..], p);
      if p(s[0]) {
        assert Filter(s, p) == [s[0]] + Filter(s[1..], p);
        assert s == [s[0]] + s[1..];
      } else {
        assert |Filter(s, p)| <= |s[1..]| < |s|;
      }
    }
  }

  /** Filtering keeps nothing exactly when no element satisfies the predicate. */
  lemma {:induction false} FilterNone<T(!new)>(s: seq<T>, p: T -> bool)
    ensures (forall x :: x in s ==> !p(x)) <==> Filter(s, p) == []
  {
    if s != [] {
      FilterNone(s[1..], p);
      assert s[0] in s;
      assert forall x :: x in s[1..] ==> x in s;
    }
  }

  /** No element occurs twice. */
  predicate NoDuplicates<T(==,!new)>(s: seq<T>) {
    forall i, j :: 0 <= i < j < |s| ==> s[i] != s[j]
  }
}
