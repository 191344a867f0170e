/** JavaScript's `Array.prototype.filter` over a sequence, with the facts the page
    relies on: the result is the order-preserving selection of exactly the
    elements that pass the predicate. */
module ArrayFilter {

  /** `s` can be obtained from `t` by deleting elements (relative order kept). */
  predicate IsSubsequence<T(==)>(s: seq<T>, t: seq<T>)
    decreases |t|
  {
    s == [] ||
    (t != [] &&
     ((s[0] == t[0] && IsSubsequence(s[1..], t[1..])) || IsSubsequence(s, t[1..])))
  }

  /** `s.filter(p)`: the elements of `s` for which `p` holds, front to back. */
  function Filter<T(==)>(s: seq<T>, p: T -> bool): (r: seq<T>)
    ensures |r| <= |s|
    ensures forall i :: 0 <= i < |r| ==> r[i] in s && p(r[i])
    ensures forall i :: 0 <= i < |s| && p(s[i]) ==> s[i] in r
  {
    if s == [] then []
    else if p(s[0]) then [s[0]] + Filter(s[1..], p)
    else Filter(s[1..], p)
  }

  lemma {:induction false} SubsequenceMultiset<T>(s: seq<T>, t: seq<T>)
    requires IsSubsequence(s, t)
    ensures multiset(s) <= multiset(t)
    decreases |t|
  {
    if s != [] {
      assert t == [t[0]] + t[1..];
      if s[0] == t[0] && IsSubsequence(s[1..], t[1..]) {
        SubsequenceMultiset(s[1..], t[1..]);
        assert s == [s[0]] + s[1..];
      } else {
        SubsequenceMultiset(s, t[1..]);
      }
    }
  }

  /** The filtered array keeps the relative order of the original. */
  lemma {:induction false} FilterIsSubsequence<T>(s: seq<T>, p: T -> bool)
    ensures IsSubsequence(Filter(s, p), s)
    decreases |s|
  {
    if s != [] {
      FilterIsSubsequence(s[1..], p);
      var r := Filter(s, p);
      if p(s[0]) {
        assert r[0] == s[0] && r[1..] == Filter(s[1..], p);
      }
    }
  }

  /** Every passing element occurs in the result as often as in the input;
      no failing element occurs at all. */
  lemma {:induction false} FilterMultiplicity<T>(s: seq<T>, p: T -> bool, x: T)
    ensures multiset(Filter(s, p))[x] == if p(x) then multiset(s)[x] else 0
    decreases |s|
  {
    if s != [] {
      FilterMultiplicity(s[1..], p, x);
      assert s == [s[0]] + s[1..];
    }
  }

  /** Order preservation plus the multiplicities of FilterMultiplicity pin the
      result down completely: `Filter` is the only such selection. */
  lemma {:induction false} FilterUnique<T>(s: seq<T>, p: T -> bool, r: seq<T>)
    requires IsSubsequence(r, s)
    requires forall x :: multiset(r)[x] == if p(x) then multiset(s)[x] else 0
    ensures r == Filter(s, p)
    decreases |s|
  {
    if s == [] {
      assert r == [];
    } else {
      var h := s[0];
      assert s == [h] + s[1..];
      if r != [] && r[0] == h && IsSubsequence(r[1..], s[1..]) {
        assert r == [h] + r[1..];
        forall x ensures multiset(r[1..])[x] == if p(x) then multiset(s[1..])[x] else 0 {
        }
        FilterUnique(s[1..], p, r[1..]);
      } else {
        // `r` skips the first element, so it cannot be a passing one.
        assert r != [] ==> IsSubsequence(r, s[1..]);
        SubsequenceMultiset(r, s[1..]);
        assert multiset(r)[h] <= multiset(s[1..])[h] < multiset(s)[h];
        assert !p(h);
        FilterUnique(s[1..], p, r);
      }
    }
  }

  /** Filtering by a stronger predicate after a weaker one is the same as
      filtering by the stronger one alone. */
  lemma {:induction false} FilterOfFilter<T>(s: seq<T>, p: T -> bool, q: T -> bool)
    requires forall x :: p(x) ==> q(x)
    ensures Filter(Filter(s, q), p) == Filter(s, p)
    decreases |s|
  {
    if s != [] {
      FilterOfFilter(s[1..], p, q);
    }
  }

  /** Applying the same filter twice gives the same result as once. */
  lemma FilterIdempotent<T>(s: seq<T>, p: T -> bool)
    ensures Filter(Filter(s, p), p) == Filter(s, p)
  {
    FilterOfFilter(s, p, p);
  }

  /** What passes a stronger predicate is an order-preserving selection of
      what passes a weaker one. */
  lemma FilterMonotone<T>(s: seq<T>, p: T -> bool, q: T -> bool)
    requires forall x :: p(x) ==> q(x)
    ensures IsSubsequence(Filter(s, p), Filter(s, q))
  {
    FilterOfFilter(s, p, q);
    FilterIsSubsequence(Filter(s, q), p);
  }

  /** A predicate every element passes keeps the whole array. */
  lemma {:induction false} FilterAll<T>(s: seq<T>, p: T -> bool)
    requires forall i :: 0 <= i < |s| ==> p(s[i])
    ensures Filter(s, p) == s
    decreases |s|
  {
    if s != [] {
      FilterAll(s[1..], p);
    }
  }

  /** A predicate no element passes leaves the empty array. */
  lemma {:induction false} FilterNone<T>(s: seq<T>, p: T -> bool)
    requires forall i :: 0 <= i < |s| ==> !p(s[i])
    ensures Filter(s, p) == []
    decreases |s|
  {
    if s != [] {
      FilterNone(s[1..], p);
    }
  }
}
