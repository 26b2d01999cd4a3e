/** Order-preserving filtering and mapping over sequences (Rust's `iter().filter(..)`
    and `iter().map(..)` followed by `collect`). */
module Seqs {

  /** The elements of `s` that satisfy `p`, in their original order. */
  function Filter<T>(s: seq<T>, p: T -> bool): (r: seq<T>)
    ensures |r| <= |s|
    decreases |s|
  {
    if s == [] then []
    else if p(s[0]) then [s[0]] + Filter(s[1..], p)
    else Filter(s[1..], p)
  }

  /** Filtering keeps exactly the elements that satisfy the predicate. */
  lemma {:induction false} FilterMembers<T>(s: seq<T>, p: T -> bool)
    ensures forall i :: 0 <= i < |Filter(s, p)| ==> Filter(s, p)[i] in s && p(Filter(s, p)[i])
    ensures forall i :: 0 <= i < |s| && p(s[i]) ==> s[i] in Filter(s, p)
    decreases |s|
  {
    if s != [] {
      FilterMembers(s[1..], p);
      assert s == [s[0]] + s[1..];
    }
  }

  /** Apply `f` to every element, keeping the order. */
  function Map<T, U>(s: seq<T>, f: T -> U): (r: seq<U>)
    ensures |r| == |s|
    ensures forall i :: 0 <= i < |s| ==> r[i] == f(s[i])
  {
    seq(|s|, i requires 0 <= i < |s| => f(s[i]))
  }

  /** A filter that every element passes changes nothing. */
  lemma {:induction false} FilterKeepsAll<T>(s: seq<T>, p: T -> bool)
    requires forall i :: 0 <= i < |s| ==> p(s[i])
    ensures Filter(s, p) == s
    decreases |s|
  {
    if s != [] {
      FilterKeepsAll(s[1..], p);
    }
  }

  /** A filter that rejects exactly the element at index i removes just that one. */
  lemma {:induction false} FilterDropsOne<T>(s: seq<T>, i: nat, p: T -> bool)
    requires i < |s| && !p(s[i])
    requires forall j :: 0 <= j < |s| && j != i ==> p(s[j])
    ensures Filter(s, p) == s[..i] + s[i + 1..]
    decreases i
  {
    var rest := s[1..];
    if i == 0 {
      forall k | 0 <= k < |rest|
        ensures p(rest[k])
      {
        assert rest[k] == s[k + 1];
      }
      FilterKeepsAll(rest, p);
    } else {
      forall k | 0 <= k < |rest| && k != i - 1
        ensures p(rest[k])
      {
        assert rest[k] == s[k + 1];
      }
      assert rest[i - 1] == s[i];
      FilterDropsOne(rest, i - 1, p);
      assert Filter(s, p) == [s[0]] + Filter(rest, p);
      assert [s[0]] + rest[..i - 1] == s[..i];
      assert rest[i..] == s[i + 1..];
    }
  }

  /** `xs` and `ys` merged back together: position i takes the next element of `xs`
      when `pattern[i]` holds and the next element of `ys` otherwise. */
  function Interleave<T>(pattern: seq<bool>, xs: seq<T>, ys: seq<T>): seq<T>
    decreases |pattern|
  {
    if pattern == [] then []
    else if pattern[0] then
      (if xs == [] then [] else [xs[0]] + Interleave(pattern[1..], xs[1..], ys))
    else
      (if ys == [] then [] else [ys[0]] + Interleave(pattern[1..], xs, ys[1..]))
  }

  /** Splitting `s` by `p` and by its negation loses nothing and reorders nothing:
      merging the two parts along the pattern of `p` gives `s` back, and the two parts
      together have exactly the elements of `s`. */
  lemma FilterPartition<T>(s: seq<T>, p: T -> bool, q: T -> bool)
    requires forall x :: q(x) == !p(x)
    ensures Interleave(Map(s, p), Filter(s, p), Filter(s, q)) == s
    ensures |Filter(s, p)| + |Filter(s, q)| == |s|
    ensures multiset(Filter(s, p)) + multiset(Filter(s, q)) == multiset(s)
  {
    FilterMerge(s, p, q);
    FilterSplit(s, p, q);
  }

  /** Merging the two parts along the pattern of `p` gives `s` back. */
  lemma {:induction false} FilterMerge<T>(s: seq<T>, p: T -> bool, q: T -> bool)
    requires forall x :: q(x) == !p(x)
    ensures Interleave(Map(s, p), Filter(s, p), Filter(s, q)) == s
    decreases |s|
  {
    if s != [] {
      var head, tail := s[0], s[1..];
      FilterMerge(tail, p, q);
      assert Map(s, p) == [p(head)] + Map(tail, p);
      assert Map(s, p)[1..] == Map(tail, p);
      if p(head) {
        assert Filter(s, p) == [head] + Filter(tail, p);
        assert Filter(s, q) == Filter(tail, q);
      } else {
        assert Filter(s, q) == [head] + Filter(tail, q);
        assert Filter(s, p) == Filter(tail, p);
      }
      assert s == [head] + tail;
    }
  }

  /** The two parts together have exactly the elements of `s`, and as many. */
  lemma {:induction false} FilterSplit<T>(s: seq<T>, p: T -> bool, q: T -> bool)
    requires forall x :: q(x) == !p(x)
    ensures |Filter(s, p)| + |Filter(s, q)| == |s|
    ensures multiset(Filter(s, p)) + multiset(Filter(s, q)) == multiset(s)
    decreases |s|
  {
    if s != [] {
      var head, tail := s[0], s[1..];
      FilterSplit(tail, p, q);
      assert s == [head] + tail;
      if p(head) {
        assert Filter(s, p) == [head] + Filter(tail, p);
        assert Filter(s, q) == Filter(tail, q);
      } else {
        assert Filter(s, q) == [head] + Filter(tail, q);
        assert Filter(s, p) == Filter(tail, p);
      }
    }
  }

  /** Mapping distributes over concatenation. */
  lemma MapAppend<T, U>(a: seq<T>, b: seq<T>, f: T -> U)
    ensures Map(a + b, f) == Map(a, f) + Map(b, f)
  {
  }

  /** The same split, seen through a mapping `f` applied to both parts. */
  lemma {:induction false} FilterPartitionMapped<T, U>(s: seq<T>, p: T -> bool, q: T -> bool, f: T -> U)
    requires forall x :: q(x) == !p(x)
    ensures multiset(Map(Filter(s, p), f)) + multiset(Map(Filter(s, q), f)) == multiset(Map(s, f))
    decreases |s|
  {
    if s != [] {
      var head, tail := s[0], s[1..];
      FilterPartitionMapped(tail, p, q, f);
      assert s == [head] + tail;
      MapAppend([head], tail, f);
      var fp, fq := Filter(tail, p), Filter(tail, q);
      if p(head) {
        assert Filter(s, p) == [head] + fp;
        assert Filter(s, q) == fq;
        MapAppend([head], fp, f);
      } else {
        assert Filter(s, q) == [head] + fq;
        assert Filter(s, p) == fp;
        MapAppend([head], fq, f);
      }
    }
  }
}
