/** Array operations the JavaScript code uses: `filter`, `Array.from(new Set(xs))`,
    `slice`, and the order and duplicate properties they are judged by. */
module Sequences {

  predicate NoDuplicates<T(==)>(s: seq<T>) {
    forall i, j | 0 <= i < j < |s| :: s[i] != s[j]
  }

  /** `a` is `b` with some elements left out and the rest in their original order. */
  predicate IsSubsequence<T(==)>(a: seq<T>, b: seq<T>)
    decreases |b|
  {
    if a == [] then true
    else if b == [] then false
    else if a[0] == b[0] then IsSubsequence(a[1..], b[1..])
    else IsSubsequence(a, b[1..])
  }

  /** `xs.filter(keep)`. */
  function Filter<T(==)>(xs: seq<T>, keep: T -> bool): (r: seq<T>)
    ensures |r| <= |xs|
    ensures forall k | 0 <= k < |r| :: keep(r[k]) && r[k] in xs
    ensures forall x | x in xs && keep(x) :: x in r
    ensures IsSubsequence(r, xs)
  {
    if xs == [] then []
    else if keep(xs[0]) then [xs[0]] + Filter(xs[1..], keep)
    else Filter(xs[1..], keep)
  }

  /** One step of `filter`: the head is kept or dropped, then the tail is filtered. */
  lemma FilterCons<T>(x: T, tail: seq<T>, keep: T -> bool)
    ensures Filter([x] + tail, keep) == if keep(x) then [x] + Filter(tail, keep) else Filter(tail, keep)
  {
    assert ([x] + tail)[1..] == tail;
  }

  /** Putting `x` in front of either of two parts of `tail` gives two parts of `[x] + tail`. */
  lemma AddHead<T>(x: T, tail: seq<T>, a: seq<T>, b: seq<T>)
    requires multiset(a) + multiset(b) == multiset(tail)
    ensures multiset([x] + a) + multiset(b) == multiset([x] + tail)
    ensures multiset(a) + multiset([x] + b) == multiset([x] + tail)
  {
  }

  /** Two filters with complementary tests split `xs` between them: each element goes to
      exactly one side and none is lost. */
  lemma {:induction false} FilterPartition<T>(xs: seq<T>, keep: T -> bool, drop: T -> bool)
    requires forall x :: drop(x) == !keep(x)
    ensures multiset(Filter(xs, keep)) + multiset(Filter(xs, drop)) == multiset(xs)
  {
    if xs != [] {
      var x, tail := xs[0], xs[1..];
      FilterPartition(tail, keep, drop);
      assert xs == [x] + tail;
      FilterCons(x, tail, keep);
      FilterCons(x, tail, drop);
      AddHead(x, tail, Filter(tail, keep), Filter(tail, drop));
    }
  }

  /** The index of the first occurrence of `x` in `xs`. */
  function FirstIndex<T(==)>(xs: seq<T>, x: T): (i: nat)
    requires x in xs
    ensures i < |xs| && xs[i] == x && x !in xs[..i]
  {
    if xs[0] == x then 0 else FirstIndex(xs[1..], x) + 1
  }

  /** A value that occurs in a prefix has its first occurrence there. */
  lemma FirstIndexInPrefix<T>(xs: seq<T>, n: nat, x: T)
    requires n <= |xs| && x in xs[..n]
    ensures FirstIndex(xs[..n], x) == FirstIndex(xs, x) < n
  {
    var i := FirstIndex(xs[..n], x);
    assert xs[..i] == xs[..n][..i];
    assert xs[i] == x;
  }

  /** The elements of `r` appear in `r` in the order of their first occurrence in `xs`. */
  predicate InFirstOccurrenceOrder<T(==)>(r: seq<T>, xs: seq<T>)
    requires forall x | x in r :: x in xs
  {
    forall i, j | 0 <= i < j < |r| :: FirstIndex(xs, r[i]) < FirstIndex(xs, r[j])
  }

  /** An order of first occurrence in a prefix of `xs` is one in `xs`, and the value just
      after the prefix may follow, if it does not occur in the prefix. */
  lemma OrderFromPrefix<T>(xs: seq<T>, n: nat, r: seq<T>)
    requires n < |xs| && forall x | x in r :: x in xs[..n]
    requires InFirstOccurrenceOrder(r, xs[..n])
    ensures InFirstOccurrenceOrder(r, xs)
    ensures xs[n] !in xs[..n] ==> InFirstOccurrenceOrder(r + [xs[n]], xs)
  {
    forall k | 0 <= k < |r|
      ensures FirstIndex(xs[..n], r[k]) == FirstIndex(xs, r[k]) < n
    {
      FirstIndexInPrefix(xs, n, r[k]);
    }
    if xs[n] !in xs[..n] {
      assert FirstIndex(xs, xs[n]) == n;
      var r' := r + [xs[n]];
      forall i, j | 0 <= i < j < |r'|
        ensures FirstIndex(xs, r'[i]) < FirstIndex(xs, r'[j])
      {
        assert r'[i] == r[i];
        if j < |r| {
          assert r'[j] == r[j];
        }
      }
    }
  }

  /** `Array.from(new Set(xs))`: the first occurrence of each value, in order of first
      occurrence. */
  function Dedup<T(==)>(xs: seq<T>): (r: seq<T>)
    ensures NoDuplicates(r)
    ensures forall x | x in r :: x in xs
    ensures forall x | x in xs :: x in r
    ensures |xs| > 0 ==> |r| > 0 && r[0] == xs[0]
    ensures |r| <= |xs|
  {
    if xs == [] then []
    else
      var r := Dedup(xs[..|xs| - 1]);
      assert xs == xs[..|xs| - 1] + [xs[|xs| - 1]];
      if xs[|xs| - 1] in r then r else r + [xs[|xs| - 1]]
  }

  /** The values come out in the order of their first occurrence in `xs`. */
  lemma {:induction false} DedupOrder<T>(xs: seq<T>)
    ensures InFirstOccurrenceOrder(Dedup(xs), xs)
  {
    if xs != [] {
      var n := |xs| - 1;
      DedupOrder(xs[..n]);
      OrderFromPrefix(xs, n, Dedup(xs[..n]));
    }
  }

  /** Where `slice` starts or stops: a negative index counts from the end, and both are
      clamped to `[0, len]`. */
  function ClampIndex(k: int, len: nat): (r: nat)
    ensures r <= len
    ensures 0 <= k <= len ==> r == k
  {
    if k < 0 then (if len + k < 0 then 0 else len + k) else if k > len then len else k
  }

  /** `xs.slice(start, end)`. */
  function Slice<T>(xs: seq<T>, start: int, end: int): (r: seq<T>)
    ensures var from, to := ClampIndex(start, |xs|), ClampIndex(end, |xs|);
      && |r| == (if from < to then to - from else 0)
      && forall k | 0 <= k < |r| :: r[k] == xs[from + k]
    ensures 0 <= start <= end <= |xs| ==> r == xs[start..end]
  {
    var from, to := ClampIndex(start, |xs|), ClampIndex(end, |xs|);
    if from < to then xs[from..to] else []
  }
}
