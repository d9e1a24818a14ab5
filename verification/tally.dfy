/** Sums and counts over sequences, the aggregate every rule function uses
    (`sum(map(...))`, `sum(f_grid[indices])`, a count of agreeing pairs). */
module Tally {

  function Sum<T>(s: seq<T>, f: T -> int): int
  {
    if |s| == 0 then 0 else f(s[0]) + Sum(s[1..], f)
  }

  function Count<T>(s: seq<T>, p: T -> bool): (n: nat)
    ensures n <= |s|
  {
    if |s| == 0 then 0 else (if p(s[0]) then 1 else 0) + Count(s[1..], p)
  }

  /** Every index is a cell of the grid. */
  predicate Addresses(grid: seq<bool>, indices: seq<int>)
  {
    forall k :: 0 <= k < |indices| ==> 0 <= indices[k] < |grid|
  }

  /** The number of live cells of `grid` at the positions `indices`
      (numpy's `sum(grid[indices])` on a boolean grid). */
  function LiveAt(grid: seq<bool>, indices: seq<int>): (n: nat)
    requires Addresses(grid, indices)
    ensures n <= |indices|
  {
    if |indices| == 0 then 0
    else (if grid[indices[0]] then 1 else 0) + LiveAt(grid, indices[1..])
  }

  lemma {:induction false} SumConcat<T>(a: seq<T>, b: seq<T>, f: T -> int)
    ensures Sum(a + b, f) == Sum(a, f) + Sum(b, f)
    decreases |a|
  {
    if |a| == 0 {
      assert a + b == b;
    } else {
      assert (a + b)[1..] == a[1..] + b;
      SumConcat(a[1..], b, f);
    }
  }

  /** Taking one term out of the middle of a sum. */
  lemma SumRemove<T>(b: seq<T>, j: nat, f: T -> int)
    requires j < |b|
    ensures Sum(b, f) == f(b[j]) + Sum(b[..j] + b[j + 1..], f)
  {
    assert b == b[..j] + [b[j]] + b[j + 1..];
    SumConcat(b[..j] + [b[j]], b[j + 1..], f);
    SumConcat(b[..j], [b[j]], f);
    SumConcat(b[..j], b[j + 1..], f);
  }

  /** Taking one element out of a sequence takes it out of its multiset. */
  lemma MultisetSplit<T>(b: seq<T>, j: nat)
    requires j < |b|
    ensures multiset(b) == multiset(b[..j] + b[j + 1..]) + multiset{b[j]}
  {
    assert b == (b[..j] + [b[j]]) + b[j + 1..];
  }

  /** An element of `b` that `a` starts with, and what is left of `b`
      without it, which is then a permutation of the rest of `a`. */
  lemma MatchFirst<T>(a: seq<T>, b: seq<T>) returns (j: nat)
    requires |a| > 0 && multiset(a) == multiset(b)
    ensures j < |b| && b[j] == a[0]
    ensures multiset(a[1..]) == multiset(b[..j] + b[j + 1..])
  {
    assert a[0] in multiset(b);
    j :| 0 <= j < |b| && b[j] == a[0];
    var rest := b[..j] + b[j + 1..];
    MultisetSplit(b, j);
    MultisetSplit(a, 0);
    assert a[..0] + a[1..] == a[1..];
    forall y
      ensures multiset(a[1..])[y] == multiset(rest)[y]
    {
      assert multiset(a)[y] == multiset(a[1..])[y] + multiset{a[0]}[y];
      assert multiset(b)[y] == multiset(rest)[y] + multiset{a[0]}[y];
    }
  }

  /** A sum does not depend on the order of its terms. */
  lemma {:induction false} SumPermutation<T>(a: seq<T>, b: seq<T>, f: T -> int)
    requires multiset(a) == multiset(b)
    ensures Sum(a, f) == Sum(b, f)
    decreases |a|
  {
    if |a| == 0 {
      assert |b| == |multiset(b)| == 0;
    } else {
      var j := MatchFirst(a, b);
      SumRemove(b, j, f);
      SumPermutation(a[1..], b[..j] + b[j + 1..], f);
    }
  }

  /** A count is the sum of the indicator of its predicate. */
  lemma {:induction false} CountIsSum<T>(s: seq<T>, p: T -> bool, f: T -> int)
    requires forall x :: f(x) == if p(x) then 1 else 0
    ensures Count(s, p) == Sum(s, f)
    decreases |s|
  {
    if |s| > 0 {
      CountIsSum(s[1..], p, f);
    }
  }

  /** A count does not depend on the order of the counted elements. */
  lemma CountPermutation<T>(a: seq<T>, b: seq<T>, p: T -> bool)
    requires multiset(a) == multiset(b)
    ensures Count(a, p) == Count(b, p)
  {
    var f := (x: T) => if p(x) then 1 else 0;
    CountIsSum(a, p, f);
    CountIsSum(b, p, f);
    SumPermutation(a, b, f);
  }

  /** Everything is counted exactly when the predicate holds throughout. */
  lemma {:induction false} CountAll<T>(s: seq<T>, p: T -> bool)
    ensures Count(s, p) == |s| <==> forall k :: 0 <= k < |s| ==> p(s[k])
    decreases |s|
  {
    if |s| > 0 {
      CountAll(s[1..], p);
      assert forall k :: 1 <= k < |s| ==> s[k] == s[1..][k - 1];
    }
  }

  /** The live count at `indices` counts the indices whose cell is live. */
  lemma {:induction false} LiveAtIsCount(grid: seq<bool>, indices: seq<int>)
    requires Addresses(grid, indices)
    ensures LiveAt(grid, indices) == Count(indices, i => 0 <= i < |grid| && grid[i])
    decreases |indices|
  {
    if |indices| > 0 {
      LiveAtIsCount(grid, indices[1..]);
    }
  }
}
