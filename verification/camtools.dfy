/** Row-major coordinate arithmetic of src/camtools.py: the flat index of a
    coordinate tuple, its inverse, and component-wise addition. The strides
    and products defined here are shared by the plane and the configuration. */
module CamTools {
  import opened PySemantics

  /** Product of all components; the empty product is 1. */
  function Product(s: seq<int>): int
  {
    if |s| == 0 then 1 else s[0] * Product(s[1..])
  }

  predicate Positive(shape: seq<int>)
  {
    forall i :: 0 <= i < |shape| ==> shape[i] > 0
  }

  /** Every coordinate lies within its axis. */
  predicate InRange(c: seq<int>, shape: seq<int>)
  {
    |c| == |shape| && forall i :: 0 <= i < |c| ==> 0 <= c[i] < shape[i]
  }

  /** Row-major strides: component i is the product of the dimensions after
      axis i, the number of cells one step along axis i skips. */
  function Offsets(shape: seq<int>): (o: seq<int>)
    ensures |o| == |shape|
  {
    seq(|shape|, i requires 0 <= i < |shape| => Product(shape[i + 1..]))
  }

  /** Sum of pairwise products over the shorter of the two sequences
      (Python's `zip` truncation). */
  function Dot(a: seq<int>, b: seq<int>): int
  {
    if |a| == 0 || |b| == 0 then 0 else a[0] * b[0] + Dot(a[1..], b[1..])
  }

  /** The row-major flat index of `c` in a grid of the given shape, with no
      wrap-around. */
  function RowMajor(c: seq<int>, shape: seq<int>): int
  {
    Dot(c, Offsets(shape))
  }

  /** The strides camtools uses for `n` coordinates: `prod(shape[i+1:])`,
      where a slice past the end is empty and its product 1. */
  function CamStrides(shape: seq<int>, n: nat): seq<int>
  {
    seq(n, i requires 0 <= i < n => Product(shape[Min(i + 1, |shape|)..]))
  }

  /** camtools `flatten(coordinates, grid)`. */
  function Flatten(c: seq<int>, shape: seq<int>): (r: int)
    ensures |c| <= |shape| ==> r == Dot(c, Offsets(shape))
    ensures |c| == |shape| ==> r == RowMajor(c, shape)
  {
    assert |c| <= |shape| ==> Dot(c, CamStrides(shape, |c|)) == Dot(c, Offsets(shape)) by {
      if |c| <= |shape| {
        CamStridesArePrefix(shape, |c|);
        DotPrefix(c, Offsets(shape));
      }
    }
    Dot(c, CamStrides(shape, |c|))
  }

  /** camtools `unflatten(index, grid)`: repeated floor division by the
      strides, each step keeping the remainder. */
  function Unflatten(index: int, shape: seq<int>): (c: seq<int>)
    requires Positive(shape)
    ensures |c| == |shape|
    decreases |shape|
  {
    if |shape| == 0 then []
    else
      ProductPositive(shape[1..]);
      var stride := Product(shape[1..]);
      [index / stride] + Unflatten(index % stride, shape[1..])
  }

  /** camtools `comp_add`: component-wise sum, as long as the shorter input. */
  function CompAdd(a: seq<int>, b: seq<int>): (r: seq<int>)
    ensures |r| == Min(|a|, |b|)
    ensures forall i :: 0 <= i < |r| ==> r[i] == a[i] + b[i]
  {
    seq(Min(|a|, |b|), i requires 0 <= i < Min(|a|, |b|) => a[i] + b[i])
  }

  // ---------------------------------------------------------------------
  // Products and strides

  lemma {:induction false} ProductPositive(shape: seq<int>)
    requires Positive(shape)
    ensures Product(shape) > 0
  {
    if |shape| > 0 {
      ProductPositive(shape[1..]);
    }
  }

  lemma {:induction false} ProductConcat(a: seq<int>, b: seq<int>)
    ensures Product(a + b) == Product(a) * Product(b)
    decreases |a|
  {
    if |a| == 0 {
      assert a + b == b;
    } else {
      assert (a + b)[1..] == a[1..] + b;
      ProductConcat(a[1..], b);
    }
  }

  /** The strides of a shape start with the stride of its first axis and
      continue with the strides of the remaining axes. */
  lemma OffsetsCons(shape: seq<int>)
    requires |shape| > 0
    ensures Offsets(shape)[0] == Product(shape[1..])
    ensures Offsets(shape)[1..] == Offsets(shape[1..])
  {
    forall i | 0 <= i < |shape| - 1
      ensures Offsets(shape)[1..][i] == Offsets(shape[1..])[i]
    {
      assert shape[i + 2..] == shape[1..][i + 1..];
    }
  }

  /** Unfolding the flat index along the first axis. */
  lemma RowMajorCons(c: seq<int>, shape: seq<int>)
    requires |c| == |shape| > 0
    ensures RowMajor(c, shape) == c[0] * Product(shape[1..]) + RowMajor(c[1..], shape[1..])
  {
    OffsetsCons(shape);
  }

  /** The last stride is 1 and the first stride times the first dimension is
      the number of cells; e.g. (100, 100, 100) has strides [10000, 100, 1]. */
  lemma OffsetsEnds(shape: seq<int>)
    requires |shape| > 0
    ensures Offsets(shape)[|shape| - 1] == 1
    ensures Offsets(shape)[0] * shape[0] == Product(shape)
  {
    assert shape[|shape| - 1 + 1..] == [];
    assert Offsets(shape)[|shape| - 1] == Product([]);
    var rest := Product(shape[1..]);
    assert Offsets(shape)[0] == rest;
    assert Product(shape) == shape[0] * rest;
  }

  lemma OffsetsExample()
    ensures Offsets([100, 100, 100]) == [10000, 100, 1]
    ensures Offsets([100, 100]) == [100, 1]
  {
    var s := [100, 100, 100];
    assert s[1..] == [100, 100] && s[2..] == [100] && s[3..] == [];
    assert [100, 100][1..] == [100] && [100, 100][2..] == [];
    assert Product([100]) == 100;
    assert Product([100, 100]) == 10000;
    var o := Offsets(s);
    assert o[0] == 10000 && o[1] == 100 && o[2] == 1;
    var o2 := Offsets([100, 100]);
    assert o2[0] == 100 && o2[1] == 1;
  }

  /** The stride of an earlier axis is a multiple of the stride of a later
      one: offsets[i] = offsets[k-1] * product(shape[i+1..k]). */
  lemma OffsetsFactor(shape: seq<int>, i: nat, k: nat)
    requires i < k <= |shape|
    ensures Offsets(shape)[i] == Offsets(shape)[k - 1] * Product(shape[i + 1..k])
  {
    assert shape[i + 1..] == shape[i + 1..k] + shape[k..];
    ProductConcat(shape[i + 1..k], shape[k..]);
  }

  // ---------------------------------------------------------------------
  // Dot products

  lemma {:induction false} DotConcat(a: seq<int>, b: seq<int>, o: seq<int>)
    requires |a| + |b| <= |o|
    ensures Dot(a + b, o) == Dot(a, o) + Dot(b, o[|a|..])
    decreases |a|
  {
    if |a| == 0 {
      assert a + b == b;
    } else {
      assert (a + b)[1..] == a[1..] + b;
      assert o[1..][|a| - 1..] == o[|a|..];
      DotConcat(a[1..], b, o[1..]);
    }
  }

  /** Only the first |a| strides matter. */
  lemma {:induction false} DotPrefix(a: seq<int>, o: seq<int>)
    requires |a| <= |o|
    ensures Dot(a, o) == Dot(a, o[..|a|])
    decreases |a|
  {
    if |a| > 0 {
      assert o[..|a|][1..] == o[1..][..|a| - 1];
      DotPrefix(a[1..], o[1..]);
    }
  }

  lemma {:induction false} DotScale(a: seq<int>, o: seq<int>, p: seq<int>, s: int)
    requires |a| <= |o| && |o| == |p|
    requires forall i :: 0 <= i < |o| ==> o[i] == s * p[i]
    ensures Dot(a, o) == s * Dot(a, p)
    decreases |a|
  {
    if |a| > 0 {
      DotScale(a[1..], o[1..], p[1..], s);
    }
  }

  lemma {:induction false} DotAdd(a: seq<int>, b: seq<int>, o: seq<int>)
    requires |a| == |b| == |o|
    ensures Dot(CompAdd(a, b), o) == Dot(a, o) + Dot(b, o)
    decreases |a|
  {
    if |a| > 0 {
      assert CompAdd(a, b)[1..] == CompAdd(a[1..], b[1..]);
      DotAdd(a[1..], b[1..], o[1..]);
    }
  }

  /** Up to the number of axes, camtools' strides are the row-major ones. */
  lemma CamStridesArePrefix(shape: seq<int>, n: nat)
    requires n <= |shape|
    ensures CamStrides(shape, n) == Offsets(shape)[..n]
  {
    forall i | 0 <= i < n
      ensures CamStrides(shape, n)[i] == Offsets(shape)[..n][i]
    {
      assert Min(i + 1, |shape|) == i + 1;
    }
  }

  // ---------------------------------------------------------------------
  // Round trips

  /** Division with a positive divisor is determined by quotient and
      remainder. */
  lemma DivModUnique(q: int, r: int, d: int)
    requires d > 0 && 0 <= r < d
    ensures (q * d + r) / d == q && (q * d + r) % d == r
  {
    var n := q * d + r;
    var q' := n / d;
    var r' := n % d;
    assert n == q' * d + r';
    assert (q - q') * d == r' - r;
    MulAwayFromZero(q - q', d);
  }

  /** A non-zero multiple of a positive `d` is at least `d` away from 0. */
  lemma MulAwayFromZero(k: int, d: int)
    requires d > 0
    ensures k >= 1 ==> k * d >= d
    ensures k <= -1 ==> k * d <= -d
  {
    if k >= 1 {
      assert k * d == (k - 1) * d + d;
    } else if k <= -1 {
      assert k * d == (k + 1) * d - d;
    }
  }

  /** An in-range coordinate flattens into [0, product(shape)). */
  lemma MulLe(a: int, b: int, s: int)
    requires a <= b && s >= 0
    ensures a * s <= b * s
  {
    assert b * s == a * s + (b - a) * s;
  }

  lemma {:induction false} RowMajorBounds(c: seq<int>, shape: seq<int>)
    requires InRange(c, shape)
    ensures 0 <= RowMajor(c, shape) < Product(shape)
    decreases |shape|
  {
    if |shape| > 0 {
      RowMajorCons(c, shape);
      RowMajorBounds(c[1..], shape[1..]);
      var p := Product(shape[1..]);
      assert Product(shape) == shape[0] * p;
      MulLe(0, c[0], p);
      MulLe(c[0], shape[0] - 1, p);
      assert (shape[0] - 1) * p == shape[0] * p - p;
    }
  }


  /** `flatten(unflatten(i)) == i` for every index of a grid with at least
      one axis: the first coordinate absorbs any overflow. */
  lemma {:induction false} FlattenUnflatten(index: int, shape: seq<int>)
    requires Positive(shape) && |shape| > 0
    ensures RowMajor(Unflatten(index, shape), shape) == index
    ensures Flatten(Unflatten(index, shape), shape) == index
    decreases |shape|
  {
    var c := Unflatten(index, shape);
    ProductPositive(shape[1..]);
    var p := Product(shape[1..]);
    RowMajorCons(c, shape);
    assert c[0] == index / p && c[1..] == Unflatten(index % p, shape[1..]);
    if |shape| == 1 {
      assert RowMajor(c[1..], shape[1..]) == 0;
      assert p == 1;
    } else {
      FlattenUnflatten(index % p, shape[1..]);
    }
    DivMod(index, p);
  }

  /** The quotient and the remainder put the dividend back together. */
  lemma DivMod(n: int, d: int)
    requires d > 0
    ensures (n / d) * d + n % d == n
  {
  }

  /** An index below `m * d` has a quotient by `d` below `m`. */
  lemma QuotientBelow(n: int, d: int, m: int)
    requires d > 0 && 0 <= n < m * d
    ensures 0 <= n / d < m
  {
    var q := n / d;
    DivMod(n, d);
    MulAwayFromZero(q - m, d);
    MulAwayFromZero(q, d);
  }

  /** Every index inside the grid unflattens to an in-range coordinate. */
  lemma {:induction false} UnflattenInRange(index: int, shape: seq<int>)
    requires Positive(shape) && 0 <= index < Product(shape)
    ensures InRange(Unflatten(index, shape), shape)
    decreases |shape|
  {
    if |shape| > 0 {
      ProductPositive(shape[1..]);
      var p := Product(shape[1..]);
      var c := Unflatten(index, shape);
      assert c == [index / p] + Unflatten(index % p, shape[1..]);
      assert Product(shape) == shape[0] * p;
      QuotientBelow(index, p, shape[0]);
      UnflattenInRange(index % p, shape[1..]);
      assert c[1..] == Unflatten(index % p, shape[1..]);
    }
  }

  /** `unflatten(flatten(c)) == c` for every in-range coordinate. */
  lemma {:induction false} UnflattenFlatten(c: seq<int>, shape: seq<int>)
    requires Positive(shape) && InRange(c, shape)
    ensures Unflatten(RowMajor(c, shape), shape) == c
    ensures Unflatten(Flatten(c, shape), shape) == c
    decreases |shape|
  {
    if |shape| > 0 {
      ProductPositive(shape[1..]);
      var p := Product(shape[1..]);
      RowMajorCons(c, shape);
      RowMajorBounds(c[1..], shape[1..]);
      DivModUnique(c[0], RowMajor(c[1..], shape[1..]), p);
      UnflattenFlatten(c[1..], shape[1..]);
    }
  }

  /** Flattening is additive: the flat index of a coordinate sum is the sum
      of the flat indices. */
  lemma RowMajorCompAdd(a: seq<int>, b: seq<int>, shape: seq<int>)
    requires |a| == |b| == |shape|
    ensures RowMajor(CompAdd(a, b), shape) == RowMajor(a, shape) + RowMajor(b, shape)
  {
    DotAdd(a, b, Offsets(shape));
  }

  lemma CompAddCommutes(a: seq<int>, b: seq<int>)
    ensures CompAdd(a, b) == CompAdd(b, a)
  {
  }

  /** Adding the zero tuple of the same length changes nothing. */
  lemma CompAddZero(a: seq<int>, z: seq<int>)
    requires |z| == |a| && forall i :: 0 <= i < |z| ==> z[i] == 0
    ensures CompAdd(a, z) == a
  {
  }
}
