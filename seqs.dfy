/**
 * The two array combinators the dashboard is built from: `filter`, and a
 * `map` whose callback may throw (a TypeError on a `null` element), in which
 * case the whole call throws and no array is produced.
 */
module Seqs {
  import opened Optional

  /** `s.filter(p)`: the elements of `s` that satisfy `p`, in their original order. */
  function Filter<T>(p: T -> bool, s: seq<T>): (r: seq<T>)
    ensures |r| <= |s|
    ensures forall i :: 0 <= i < |r| ==> p(r[i])
    ensures forall i :: 0 <= i < |s| && p(s[i]) ==> s[i] in r
    ensures forall i :: 0 <= i < |r| ==> r[i] in s
  {
    if s == [] then [] else (if p(s[0]) then [s[0]] else []) + Filter(p, s[1..])
  }

  /** `sub` can be obtained from `s` by deleting elements, without reordering the rest. */
  ghost predicate IsSubsequence<T>(sub: seq<T>, s: seq<T>)
    decreases |s|
  {
    sub == [] ||
    (s != [] && ((sub[0] == s[0] && IsSubsequence(sub[1..], s[1..])) || IsSubsequence(sub, s[1..])))
  }

  /**
   * `s.map(f)` where the callback gets each element with its index, as
   * JavaScript passes them, and fails (returns `None`) on some elements: the
   * whole map fails then.
   */
  function MapAll<A, B>(f: (A, nat) -> Option<B>, s: seq<A>): (r: Option<seq<B>>)
    ensures r.Some? <==> forall i :: 0 <= i < |s| ==> f(s[i], i).Some?
    ensures r.Some? ==> |r.value| == |s| && forall i :: 0 <= i < |s| ==> f(s[i], i) == Some(r.value[i])
  {
    MapFrom(f, s, 0)
  }

  /** The map over `s` when its first element sits at index `k` of the whole array. */
  function MapFrom<A, B>(f: (A, nat) -> Option<B>, s: seq<A>, k: nat): (r: Option<seq<B>>)
    ensures r.Some? <==> forall i :: 0 <= i < |s| ==> f(s[i], k + i).Some?
    ensures r.Some? ==> |r.value| == |s| && forall i :: 0 <= i < |s| ==> f(s[i], k + i) == Some(r.value[i])
  {
    if s == [] then Some([])
    else
      match f(s[0], k)
      case None => None
      case Some(y) =>
        match MapFrom(f, s[1..], k + 1)
        case None => None
        case Some(ys) => Some([y] + ys)
  }

  /** Filtering keeps order: the result is a subsequence of the input. */
  lemma {:induction false} FilterIsSubsequence<T>(p: T -> bool, s: seq<T>)
    ensures IsSubsequence(Filter(p, s), s)
  {
    if s != [] {
      FilterIsSubsequence(p, s[1..]);
      var r := Filter(p, s);
      if p(s[0]) {
        assert r == [s[0]] + Filter(p, s[1..]);
        assert r[1..] == Filter(p, s[1..]);
      } else {
        assert r == Filter(p, s[1..]);
      }
    }
  }

  /** Filtering keeps every occurrence of a satisfying element and no occurrence of any other. */
  lemma {:induction false} FilterCounts<T>(p: T -> bool, s: seq<T>)
    ensures forall x :: multiset(Filter(p, s))[x] == if p(x) then multiset(s)[x] else 0
  {
    if s != [] {
      FilterCounts(p, s[1..]);
      assert s == [s[0]] + s[1..];
      assert multiset(s) == multiset([s[0]]) + multiset(s[1..]);
      assert multiset(Filter(p, s)) ==
        multiset(if p(s[0]) then [s[0]] else []) + multiset(Filter(p, s[1..]));
    }
  }

  /** Filtering distributes over concatenation. */
  lemma {:induction false} FilterAppend<T>(p: T -> bool, s: seq<T>, t: seq<T>)
    ensures Filter(p, s + t) == Filter(p, s) + Filter(p, t)
  {
    if s == [] {
      assert s + t == t;
    } else {
      assert (s + t)[1..] == s[1..] + t;
      FilterAppend(p, s[1..], t);
    }
  }

  /**
   * Two complementary filters split a sequence: between them they hold every
   * element exactly as often as the sequence does.
   */
  lemma FilterPartition<T>(p: T -> bool, q: T -> bool, s: seq<T>)
    requires forall x :: q(x) == !p(x)
    ensures multiset(Filter(p, s)) + multiset(Filter(q, s)) == multiset(s)
    ensures |Filter(p, s)| + |Filter(q, s)| == |s|
  {
    FilterCounts(p, s);
    FilterCounts(q, s);
    assert multiset(Filter(p, s)) + multiset(Filter(q, s)) == multiset(s);
    assert |multiset(Filter(p, s)) + multiset(Filter(q, s))| == |multiset(s)|;
  }
}
