/** Sequence operations that stand for the queryset and array operations of
    the source: filter, slice from the front, order-preserving subsequence. */
module Seqs {

  /** Keeps the elements that satisfy `p`, in their original order
      (QuerySet.filter, Array.prototype.filter). */
  function Filter<T>(s: seq<T>, p: T -> bool): (r: seq<T>)
    ensures |r| <= |s|
    ensures forall i :: 0 <= i < |r| ==> r[i] in s && p(r[i])
    ensures forall i :: 0 <= i < |s| && p(s[i]) ==> s[i] in r
    decreases |s|
  {
    if s == [] then []
    else (if p(s[0]) then [s[0]] else []) + Filter(s[1..], p)
  }

  /** `a` is `b` with some elements left out, the rest in the same order. */
  predicate SubsequenceOf<T(==)>(a: seq<T>, b: seq<T>)
    decreases |b|
  {
    if a == [] then true
    else if b == [] then false
    else (a[0] == b[0] && SubsequenceOf(a[1..], b[1..])) || SubsequenceOf(a, b[1..])
  }

  lemma {:induction false} SubsequenceOfSelf<T>(s: seq<T>)
    ensures SubsequenceOf(s, s)
    decreases |s|
  {
    if s != [] {
      SubsequenceOfSelf(s[1..]);
    }
  }

  /** A filter keeps the order of what it keeps. */
  lemma {:induction false} FilterIsSubsequence<T>(s: seq<T>, p: T -> bool)
    ensures SubsequenceOf(Filter(s, p), s)
    decreases |s|
  {
    if s != [] {
      FilterIsSubsequence(s[1..], p);
      var r := Filter(s, p);
      if p(s[0]) {
        assert r[0] == s[0] && r[1..] == Filter(s[1..], p);
      } else {
        assert r == Filter(s[1..], p);
      }
    }
  }

  /** A filter whose predicate holds everywhere keeps everything. */
  lemma {:induction false} FilterAll<T>(s: seq<T>, p: T -> bool)
    requires forall i :: 0 <= i < |s| ==> p(s[i])
    ensures Filter(s, p) == s
    decreases |s|
  {
    if s != [] {
      FilterAll(s[1..], p);
    }
  }

  /** When every element satisfies exactly one of `p` and `q`, the two
      filters split the sequence: their lengths add up to its length. */
  lemma {:induction false} FilterPartition<T>(s: seq<T>, p: T -> bool, q: T -> bool)
    requires forall i :: 0 <= i < |s| ==> (p(s[i]) <==> !q(s[i]))
    ensures |Filter(s, p)| + |Filter(s, q)| == |s|
    decreases |s|
  {
    if s != [] {
      FilterPartition(s[1..], p, q);
    }
  }

  /** When no element satisfies both `p` and `q`, the two filters together
      are no longer than the sequence. */
  lemma {:induction false} FilterDisjoint<T>(s: seq<T>, p: T -> bool, q: T -> bool)
    requires forall i :: 0 <= i < |s| ==> !(p(s[i]) && q(s[i]))
    ensures |Filter(s, p)| + |Filter(s, q)| <= |s|
    decreases |s|
  {
    if s != [] {
      FilterDisjoint(s[1..], p, q);
    }
  }

  /** Filtering a sequence with one more element at the end. */
  lemma {:induction false} FilterAppend<T>(s: seq<T>, x: T, p: T -> bool)
    ensures Filter(s + [x], p) == Filter(s, p) + (if p(x) then [x] else [])
    decreases |s|
  {
    if s == [] {
      assert s + [x] == [x];
    } else {
      assert (s + [x])[1..] == s[1..] + [x];
      FilterAppend(s[1..], x, p);
    }
  }

  /** Filtering twice is filtering once by both predicates. */
  lemma {:induction false} FilterFilter<T>(s: seq<T>, p: T -> bool, q: T -> bool, pq: T -> bool)
    requires forall x :: pq(x) == (p(x) && q(x))
    ensures Filter(Filter(s, p), q) == Filter(s, pq)
    decreases |s|
  {
    if s != [] {
      FilterFilter(s[1..], p, q, pq);
      if p(s[0]) {
        assert Filter(s, p) == [s[0]] + Filter(s[1..], p);
        assert Filter(s, p)[1..] == Filter(s[1..], p);
      } else {
        assert Filter(s, p) == Filter(s[1..], p);
      }
    }
  }

  /** A filter applied only when `active`, as in `if param: qs = qs.filter(...)`. */
  function Narrow<T>(s: seq<T>, active: bool, p: T -> bool): seq<T> {
    if active then Filter(s, p) else s
  }

  /** Narrowing a filtered sequence is filtering once by the conjunction. */
  lemma NarrowFilter<T>(s: seq<T>, m: T -> bool, active: bool, p: T -> bool, m': T -> bool)
    requires forall x :: m'(x) == (m(x) && (!active || p(x)))
    ensures Narrow(Filter(s, m), active, p) == Filter(s, m')
  {
    if active {
      FilterFilter(s, m, p, m');
    } else {
      FilterSame(s, m, m');
    }
  }

  /** Filters by two predicates that agree everywhere are equal. */
  lemma {:induction false} FilterSame<T>(s: seq<T>, p: T -> bool, q: T -> bool)
    requires forall x :: p(x) == q(x)
    ensures Filter(s, p) == Filter(s, q)
    decreases |s|
  {
    if s != [] {
      FilterSame(s[1..], p, q);
    }
  }

  /** A filter that drops exactly the element at index k removes that
      element and nothing else. */
  lemma {:induction false} FilterRemoveAt<T>(s: seq<T>, p: T -> bool, k: nat)
    requires k < |s| && !p(s[k])
    requires forall i :: 0 <= i < |s| && i != k ==> p(s[i])
    ensures Filter(s, p) == s[..k] + s[k + 1..]
    decreases |s|
  {
    var tail := s[1..];
    if k == 0 {
      assert Filter(tail, p) == tail by {
        forall i | 0 <= i < |tail| ensures p(tail[i]) {
          assert tail[i] == s[i + 1];
        }
        FilterAll(tail, p);
      }
      assert s[..k] + s[k + 1..] == tail;
    } else {
      assert Filter(tail, p) == tail[..k - 1] + tail[k..] by {
        forall i | 0 <= i < |tail| && i != k - 1 ensures p(tail[i]) {
          assert tail[i] == s[i + 1];
        }
        FilterRemoveAt(tail, p, k - 1);
      }
      assert Filter(s, p) == [s[0]] + Filter(tail, p);
      DropAtFront(s, k);
    }
  }

  /** Dropping index k > 0 keeps the head in front of the tail with index
      k - 1 dropped. */
  lemma DropAtFront<T>(s: seq<T>, k: nat)
    requires 0 < k < |s|
    ensures s[..k] + s[k + 1..] == [s[0]] + (s[1..][..k - 1] + s[1..][k..])
  {
    assert s[..k] == [s[0]] + s[1..][..k - 1];
    assert s[k + 1..] == s[1..][k..];
  }

  /** One step of the filter: the head if it is kept, then the filtered
      tail. */
  lemma FilterStep<T>(s: seq<T>, p: T -> bool)
    requires s != []
    ensures p(s[0]) ==> Filter(s, p) == [s[0]] + Filter(s[1..], p)
    ensures !p(s[0]) ==> Filter(s, p) == Filter(s[1..], p)
  {
  }

  /** Each element of a filter comes from some position of the sequence;
      the lemma names it. */
  lemma {:induction false} FilterSource<T>(s: seq<T>, p: T -> bool, j: nat) returns (b: nat)
    requires j < |Filter(s, p)|
    ensures b < |s| && s[b] == Filter(s, p)[j]
    decreases |s|
  {
    var tail := s[1..];
    var rest := Filter(tail, p);
    var f := Filter(s, p);
    FilterStep(s, p);
    if p(s[0]) && j == 0 {
      b := 0;
    } else {
      var k := if p(s[0]) then j - 1 else j;
      assert f[j] == rest[k];
      var b' := FilterSource(tail, p, k);
      assert s[b' + 1] == tail[b'];
      b := b' + 1;
    }
  }

  /** A relation that holds between every two elements in order still holds
      after filtering. */
  lemma {:induction false} FilterPairwise<T>(s: seq<T>, p: T -> bool, rel: (T, T) -> bool)
    requires forall a, b :: 0 <= a < b < |s| ==> rel(s[a], s[b])
    ensures forall i, j :: 0 <= i < j < |Filter(s, p)| ==> rel(Filter(s, p)[i], Filter(s, p)[j])
    decreases |s|
  {
    if s != [] {
      var tail := s[1..];
      forall a, b | 0 <= a < b < |tail| ensures rel(tail[a], tail[b]) {
        assert tail[a] == s[a + 1] && tail[b] == s[b + 1];
      }
      FilterPairwise(tail, p, rel);
      FilterStep(s, p);
      if p(s[0]) {
        HeadBeforeFiltered(s, p, rel);
        ConsPairwise(s[0], Filter(tail, p), rel);
      }
    }
  }

  /** The head of `s` is related to every element of the filtered tail. */
  lemma HeadBeforeFiltered<T>(s: seq<T>, p: T -> bool, rel: (T, T) -> bool)
    requires s != []
    requires forall b :: 0 < b < |s| ==> rel(s[0], s[b])
    ensures forall j :: 0 <= j < |Filter(s[1..], p)| ==> rel(s[0], Filter(s[1..], p)[j])
  {
    forall j | 0 <= j < |Filter(s[1..], p)| ensures rel(s[0], Filter(s[1..], p)[j]) {
      var b := FilterSource(s[1..], p, j);
      assert s[1..][b] == s[b + 1];
    }
  }

  /** Prepending an element related to all of a pairwise-related sequence
      keeps it pairwise related. */
  lemma ConsPairwise<T>(x: T, r: seq<T>, rel: (T, T) -> bool)
    requires forall j :: 0 <= j < |r| ==> rel(x, r[j])
    requires forall i, j :: 0 <= i < j < |r| ==> rel(r[i], r[j])
    ensures forall i, j :: 0 <= i < j < |[x] + r| ==> rel(([x] + r)[i], ([x] + r)[j])
  {
    forall i, j | 0 <= i < j < |[x] + r| ensures rel(([x] + r)[i], ([x] + r)[j]) {
      assert ([x] + r)[j] == r[j - 1];
      if i > 0 {
        assert ([x] + r)[i] == r[i - 1];
      }
    }
  }

  /** A filter by `p` and a filter by `q` that select disjoint parts of
      what `d` selects are together no longer than the filter by `d`. */
  lemma {:induction false} FilterDisjointWithin<T>(s: seq<T>, p: T -> bool, q: T -> bool, d: T -> bool)
    requires forall i :: 0 <= i < |s| ==> !(p(s[i]) && q(s[i]))
    requires forall i :: 0 <= i < |s| && (p(s[i]) || q(s[i])) ==> d(s[i])
    ensures |Filter(s, p)| + |Filter(s, q)| <= |Filter(s, d)|
    decreases |s|
  {
    if s != [] {
      FilterDisjointWithin(s[1..], p, q, d);
    }
  }

  /** A sequence has no more distinct elements than its length, and
      exactly as many when no element repeats. */
  lemma {:induction false} ElementsCount<T>(s: seq<T>)
    ensures |set x | x in s| <= |s|
    ensures (forall i, j :: 0 <= i < j < |s| ==> s[i] != s[j]) ==> |set x | x in s| == |s|
    decreases |s|
  {
    if s != [] {
      var init := s[..|s| - 1];
      var last := s[|s| - 1];
      ElementsCount(init);
      assert s == init + [last];
      assert (set x | x in s) == (set x | x in init) + {last};
      if forall i, j :: 0 <= i < j < |s| ==> s[i] != s[j] {
        assert forall i, j :: 0 <= i < j < |init| ==> init[i] != init[j] by {
          forall i, j | 0 <= i < j < |init| ensures init[i] != init[j] {
            assert init[i] == s[i] && init[j] == s[j];
          }
        }
        assert last !in init by {
          forall i | 0 <= i < |init| ensures init[i] != last {
            assert init[i] == s[i];
          }
        }
      }
    }
  }

  /** A subset is no larger than its superset. */
  lemma {:induction false} SubsetCount<T>(a: set<T>, b: set<T>)
    requires a <= b
    ensures |a| <= |b|
    decreases |a|
  {
    if a != {} {
      var x :| x in a;
      SubsetCount(a - {x}, b - {x});
    }
  }

  /** The first min(n, |s|) elements (Array.prototype.slice(0, n)). */
  function Take<T>(s: seq<T>, n: nat): (r: seq<T>)
    ensures |r| == if n < |s| then n else |s|
    ensures r <= s
  {
    if n < |s| then s[..n] else s
  }
}
