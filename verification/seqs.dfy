/** Sequence operations shared by the whole model: the behaviour of the
    JavaScript array methods `filter`, `find`, `filter(...).length`,
    `Array.from(new Set(...))` and index-based removal, each with a contract
    that says what the result is in terms of the input. */
module Seqs {
  import opened Wrappers

  /** `a` is obtained from `b` by deleting zero or more elements, so the
      elements of `a` occur in `b` in the same relative order. */
  ghost predicate IsSubseq<T>(a: seq<T>, b: seq<T>)
    decreases |b|
  {
    if |b| == 0 then |a| == 0
    else (|a| > 0 && a[0] == b[0] && IsSubseq(a[1..], b[1..])) || IsSubseq(a, b[1..])
  }

  /** No element occurs twice. */
  ghost predicate NoDup<T>(xs: seq<T>) {
    forall i, j :: 0 <= i < j < |xs| ==> xs[i] != xs[j]
  }

  /** The number of elements satisfying `p` (`xs.filter(p).length`). */
  function Count<T>(xs: seq<T>, p: T -> bool): (n: nat)
    ensures n <= |xs|
  {
    if |xs| == 0 then 0 else (if p(xs[0]) then 1 else 0) + Count(xs[1..], p)
  }

  /** `xs.filter(p)`: the elements satisfying `p`, in their original order. */
  function Filter<T>(xs: seq<T>, p: T -> bool): (r: seq<T>)
    ensures |r| == Count(xs, p)
    ensures forall i :: 0 <= i < |r| ==> p(r[i])
    ensures forall i :: 0 <= i < |xs| && p(xs[i]) ==> xs[i] in r
    ensures IsSubseq(r, xs)
  {
    if |xs| == 0 then []
    else
      var rest := Filter(xs[1..], p);
      assert forall i :: 1 <= i < |xs| ==> xs[i] == xs[1..][i - 1];
      if p(xs[0]) then
        assert ([xs[0]] + rest)[1..] == rest;
        [xs[0]] + rest
      else
        rest
  }

  /** The index of the first element satisfying `p` (`findIndex`), or None. */
  function FindIndex<T>(xs: seq<T>, p: T -> bool): (r: Option<nat>)
    ensures r.Some? ==> r.value < |xs| && p(xs[r.value])
    ensures r.Some? ==> forall j :: 0 <= j < r.value ==> !p(xs[j])
    ensures r.None? <==> forall j :: 0 <= j < |xs| ==> !p(xs[j])
  {
    if |xs| == 0 then None
    else if p(xs[0]) then Some(0)
    else
      match FindIndex(xs[1..], p)
      case None => None
      case Some(k) => Some(k + 1)
  }

  /** `xs.find(p)`: the first element satisfying `p`, or None. */
  function Find<T>(xs: seq<T>, p: T -> bool): (r: Option<T>)
    ensures r.Some? ==> exists i :: 0 <= i < |xs| && xs[i] == r.value && p(r.value)
                                   && forall j :: 0 <= j < i ==> !p(xs[j])
    ensures r.None? <==> forall j :: 0 <= j < |xs| ==> !p(xs[j])
  {
    match FindIndex(xs, p)
    case None => None
    case Some(i) => Some(xs[i])
  }

  /** The position of the first occurrence of `x`. */
  function FirstIndex<T(==)>(xs: seq<T>, x: T): (k: nat)
    requires x in xs
    ensures k < |xs| && xs[k] == x
    ensures forall j :: 0 <= j < k ==> xs[j] != x
  {
    if xs[0] == x then 0 else 1 + FirstIndex(xs[1..], x)
  }

  /** `Array.from(new Set(xs))`: each distinct element once, in the order of
      its first occurrence. */
  function Distinct<T(==)>(xs: seq<T>): (r: seq<T>)
    ensures NoDup(r)
    ensures forall i :: 0 <= i < |r| ==> r[i] in xs
    ensures forall i :: 0 <= i < |xs| ==> xs[i] in r
    ensures forall i, j :: 0 <= i < j < |r| ==> FirstIndex(xs, r[i]) < FirstIndex(xs, r[j])
  {
    if |xs| == 0 then []
    else
      var front := xs[..|xs| - 1];
      var last := xs[|xs| - 1];
      var r := Distinct(front);
      SplitLast(xs);
      if last in r then
        DistinctKeep(xs, front, last, r);
        r
      else
        DistinctExtend(xs, front, last, r);
        r + [last]
  }

  /** What the distinct list of `front` satisfies. */
  ghost predicate DistinctOf<T>(r: seq<T>, xs: seq<T>) {
    && NoDup(r)
    && (forall i :: 0 <= i < |r| ==> r[i] in xs)
    && (forall i :: 0 <= i < |xs| ==> xs[i] in r)
    && (forall i, j :: 0 <= i < j < |r| ==> FirstIndex(xs, r[i]) < FirstIndex(xs, r[j]))
  }

  /** An element already seen adds nothing to the distinct list. */
  lemma DistinctKeep<T>(xs: seq<T>, front: seq<T>, last: T, r: seq<T>)
    requires xs == front + [last] && last in r
    requires DistinctOf(r, front)
    ensures DistinctOf(r, xs)
  {
    FirstIndexOfPrefix(front, last, r);
    assert forall i :: 0 <= i < |front| ==> xs[i] == front[i];
  }

  /** A new element goes at the end of the distinct list. */
  lemma DistinctExtend<T>(xs: seq<T>, front: seq<T>, last: T, r: seq<T>)
    requires xs == front + [last] && last !in r
    requires DistinctOf(r, front)
    ensures DistinctOf(r + [last], xs)
  {
    FirstIndexOfPrefix(front, last, r);
    var d := r + [last];
    assert last !in front;
    assert forall i :: 0 <= i < |front| ==> xs[i] == front[i];
    assert forall i :: 0 <= i < |r| ==> d[i] == r[i];
    forall i, j | 0 <= i < j < |d|
      ensures FirstIndex(xs, d[i]) < FirstIndex(xs, d[j])
    {
      assert FirstIndex(xs, d[i]) == FirstIndex(front, r[i]);
    }
  }

  lemma SplitLast<T>(xs: seq<T>)
    requires |xs| > 0
    ensures xs == xs[..|xs| - 1] + [xs[|xs| - 1]]
  {
  }

  /** A duplicate-free list is its own distinct list. */
  lemma {:induction false} DistinctOfNoDup<T>(xs: seq<T>)
    requires NoDup(xs)
    ensures Distinct(xs) == xs
  {
    if |xs| > 0 {
      var front := xs[..|xs| - 1];
      SplitLast(xs);
      assert forall i :: 0 <= i < |front| ==> front[i] == xs[i];
      DistinctOfNoDup(front);
    }
  }

  /** Removing a position in the first occurrence of `x` does not move it. */
  lemma FirstIndexOfPrefix<T>(front: seq<T>, last: T, r: seq<T>)
    requires forall x :: x in r ==> x in front
    ensures forall x :: x in r ==> FirstIndex(front + [last], x) == FirstIndex(front, x)
    ensures last !in front ==> FirstIndex(front + [last], last) == |front|
  {
    var xs := front + [last];
    forall x | x in r
      ensures FirstIndex(xs, x) == FirstIndex(front, x)
    {
      var k := FirstIndex(front, x);
      var k' := FirstIndex(xs, x);
      assert xs[k] == x;
      assert front[k'] == x || k' == |front|;
    }
    if last !in front {
      assert xs[|front|] == last;
      assert forall j :: 0 <= j < |front| ==> xs[j] == front[j];
    }
  }

  lemma ConsSlices<T>(xs: seq<T>, i: int)
    requires 0 < i < |xs|
    ensures [xs[0]] + (xs[1..][..i - 1] + xs[1..][i..]) == xs[..i] + xs[i + 1..]
  {
    assert xs[1..][..i - 1] == xs[1..i];
    assert xs[1..][i..] == xs[i + 1..];
    assert xs[..i] == [xs[0]] + xs[1..i];
  }

  /** `xs.filter((_, k) => k !== i)`: drops position `i` when it exists. */
  function RemoveAt<T>(xs: seq<T>, i: int): (r: seq<T>)
    ensures 0 <= i < |xs| ==> r == xs[..i] + xs[i + 1..]
    ensures !(0 <= i < |xs|) ==> r == xs
  {
    if |xs| == 0 then []
    else
      var rest := RemoveAt(xs[1..], i - 1);
      if i == 0 then
        assert rest == xs[1..];
        rest
      else if 0 < i < |xs| then
        ConsSlices(xs, i);
        [xs[0]] + rest
      else
        assert [xs[0]] + xs[1..] == xs;
        [xs[0]] + rest
  }

  // ---------------------------------------------------------------------
  // Lemmas about Count, Filter and Find.
  // ---------------------------------------------------------------------

  /** Filtering by a predicate every element satisfies changes nothing. */
  lemma {:induction false} FilterKeepsAll<T>(xs: seq<T>, p: T -> bool)
    requires forall i :: 0 <= i < |xs| ==> p(xs[i])
    ensures Filter(xs, p) == xs
  {
    if |xs| > 0 {
      FilterKeepsAll(xs[1..], p);
      assert [xs[0]] + xs[1..] == xs;
    }
  }

  /** Counting by a predicate no element satisfies gives 0. */
  lemma {:induction false} CountNone<T>(xs: seq<T>, p: T -> bool)
    requires forall i :: 0 <= i < |xs| ==> !p(xs[i])
    ensures Count(xs, p) == 0
  {
    if |xs| > 0 {
      CountNone(xs[1..], p);
    }
  }

  /** Counting by a predicate every element satisfies gives the length. */
  lemma {:induction false} CountAll<T>(xs: seq<T>, p: T -> bool)
    requires forall i :: 0 <= i < |xs| ==> p(xs[i])
    ensures Count(xs, p) == |xs|
  {
    if |xs| > 0 {
      CountAll(xs[1..], p);
    }
  }

  /** A weaker predicate counts at least as many elements. */
  lemma {:induction false} CountMonotone<T>(xs: seq<T>, p: T -> bool, q: T -> bool)
    requires forall i :: 0 <= i < |xs| && p(xs[i]) ==> q(xs[i])
    ensures Count(xs, p) <= Count(xs, q)
  {
    if |xs| > 0 {
      CountMonotone(xs[1..], p, q);
    }
  }

  /** Predicates that agree on every element count the same. */
  lemma {:induction false} CountSame<T>(xs: seq<T>, p: T -> bool, q: T -> bool)
    requires forall i :: 0 <= i < |xs| ==> p(xs[i]) == q(xs[i])
    ensures Count(xs, p) == Count(xs, q)
  {
    if |xs| > 0 {
      CountSame(xs[1..], p, q);
    }
  }

  /** Two predicates that never hold together count at most the length. */
  lemma {:induction false} CountDisjoint<T>(xs: seq<T>, p: T -> bool, q: T -> bool)
    requires forall i :: 0 <= i < |xs| ==> !(p(xs[i]) && q(xs[i]))
    ensures Count(xs, p) + Count(xs, q) <= |xs|
  {
    if |xs| > 0 {
      CountDisjoint(xs[1..], p, q);
    }
  }

  /** A predicate and its complement split the length between them. */
  lemma {:induction false} CountComplement<T>(xs: seq<T>, p: T -> bool, q: T -> bool)
    requires forall i :: 0 <= i < |xs| ==> q(xs[i]) == !p(xs[i])
    ensures Count(xs, p) + Count(xs, q) == |xs|
  {
    if |xs| > 0 {
      CountComplement(xs[1..], p, q);
    }
  }

  /** Counting is additive over concatenation. */
  lemma {:induction false} CountAppend<T>(a: seq<T>, b: seq<T>, p: T -> bool)
    ensures Count(a + b, p) == Count(a, p) + Count(b, p)
  {
    if |a| == 0 {
      assert a + b == b;
    } else {
      CountAppend(a[1..], b, p);
      assert (a + b)[1..] == a[1..] + b;
    }
  }

  /** Every element of a subsequence is an element of the whole. */
  lemma {:induction false} SubseqMembers<T>(a: seq<T>, b: seq<T>)
    requires IsSubseq(a, b)
    ensures forall i :: 0 <= i < |a| ==> a[i] in b
    decreases |b|
  {
    if |b| > 0 {
      if |a| > 0 && a[0] == b[0] && IsSubseq(a[1..], b[1..]) {
        SubseqMembers(a[1..], b[1..]);
        assert forall i :: 1 <= i < |a| ==> a[i] == a[1..][i - 1];
      } else {
        SubseqMembers(a, b[1..]);
      }
    }
  }

  /** `find` looks at the head first, then at the rest. */
  lemma FindCons<T>(xs: seq<T>, p: T -> bool)
    requires |xs| > 0
    ensures Find(xs, p) == if p(xs[0]) then Some(xs[0]) else Find(xs[1..], p)
  {
    if !p(xs[0]) {
      match FindIndex(xs[1..], p)
      case None =>
      case Some(k) => assert xs[1..][k] == xs[k + 1];
    }
  }

  /** When `q` implies `p`, searching the `p`-filtered sequence for `q`
      finds what searching the whole sequence finds. */
  lemma {:induction false} FindThroughFilter<T>(xs: seq<T>, p: T -> bool, q: T -> bool)
    requires forall i :: 0 <= i < |xs| && q(xs[i]) ==> p(xs[i])
    ensures Find(Filter(xs, p), q) == Find(xs, q)
  {
    if |xs| > 0 {
      var tail := xs[1..];
      assert forall i :: 0 <= i < |tail| ==> tail[i] == xs[i + 1];
      FindThroughFilter(tail, p, q);
      FindCons(xs, q);
      var rest := Filter(tail, p);
      if p(xs[0]) {
        var f := [xs[0]] + rest;
        assert Filter(xs, p) == f;
        assert f[0] == xs[0] && f[1..] == rest;
        FindCons(f, q);
      } else {
        assert Filter(xs, p) == rest;
      }
    }
  }
}
