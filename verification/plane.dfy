/** The cell plane of src/plane.py: a flat bit sequence viewed as an N-D
    grid through row-major strides, indexed by a full coordinate tuple (one
    bit), a prefix tuple or an integer (an aligned block of bits), or a list
    of indices (element-wise). Wrap-around is on the flat index, modulo the
    number of bits, not per axis. */
module Planes {
  import opened PySemantics
  import opened CamTools
  import BitManip

  /** A plane: its shape and its bits. The source also stores the strides,
      which its constructor always sets to the strides of the shape. */
  datatype Plane = Plane(shape: seq<int>, bits: seq<bool>)
  {
    function Strides(): seq<int> { Offsets(shape) }
  }

  /** The three index forms: a tuple, an integer, and a (possibly nested)
      list of indices. */
  datatype Index = Coords(c: seq<int>) | Scalar(i: int) | Many(items: seq<Index>)

  /** What a read returns: a bit, a sub-plane, or one result per list
      element. */
  datatype Item = Bit(b: bool) | Sub(plane: Plane) | Items(values: seq<Item>)

  /** The bits after a write, and the exception that ended it if any; a list
      write that fails keeps the writes made before the failing element. */
  datatype Written = Written(bits: seq<bool>, error: Option<PyError>)

  /** A plane with positive dimensions holding one bit per cell. */
  predicate Valid(p: Plane)
  {
    Positive(p.shape) && |p.bits| == Product(p.shape)
  }


  // ---------------------------------------------------------------------
  // Construction

  /** The stride loop of `Plane.__init__`: walking the shape from its last
      axis, each stride is the running product of the axes after it. */
  method ComputeOffsets(shape: seq<int>) returns (offsets: seq<int>, prod: int)
    ensures |offsets| == |shape|
    ensures forall i :: 0 <= i < |shape| ==> offsets[i] == Product(shape[i + 1..])
    ensures prod == Product(shape)
  {
    offsets := [];
    prod := 1;
    var i := |shape|;
    while i > 0
      invariant 0 <= i <= |shape|
      invariant offsets == Offsets(shape)[i..]
      invariant prod == Product(shape[i..])
    {
      i := i - 1;
      assert shape[i..][1..] == shape[i + 1..];
      offsets := [prod] + offsets;
      prod := prod * shape[i];
    }
  }

  /** `Plane(shape, bits)`: supplied bits must number product(shape), and
      without them the plane starts all 0. */
  function New(shape: seq<int>, bits: Option<seq<bool>>): (r: Result<Plane, PyError>)
    ensures r.Err? <==> bits.Some? && |bits.value| != Product(shape)
    ensures r.Err? ==> r.error == ValueError
    ensures r.Ok? ==> r.value.shape == shape
    ensures r.Ok? && bits.Some? ==> r.value.bits == bits.value
    ensures r.Ok? && bits.None? ==> |r.value.bits| == Max(0, Product(shape))
    ensures r.Ok? && bits.None? ==> forall j :: 0 <= j < |r.value.bits| ==> !r.value.bits[j]
    ensures r.Ok? && Positive(shape) ==> Valid(r.value)
  {
    assert Positive(shape) ==> Product(shape) > 0 by {
      if Positive(shape) {
        ProductPositive(shape);
      }
    }
    match bits
    case Some(b) => if |b| != Product(shape) then Err(ValueError) else Ok(Plane(shape, b))
    case None => Ok(Plane(shape, FromBitString(BitManip.Zeros(Max(0, Product(shape))))))
  }

  /** A plane of the empty shape is not empty: the product of no axes is 1,
      so it holds one bit. */
  lemma NewEmptyShape()
    ensures New([], None) == Ok(Plane([], [false]))
  {
    assert Product([]) == 1;
    assert FromBitString(BitManip.Zeros(1)) == [false];
  }

  // ---------------------------------------------------------------------
  // Flat indices

  /** The flat position a tuple addresses: its dot product with the strides
      (over the shorter of the two), modulo the number of bits. */
  function TupleOffset(p: Plane, c: seq<int>): (o: nat)
    requires |p.bits| > 0
    ensures o < |p.bits|
  {
    Dot(c, p.Strides()) % |p.bits|
  }

  /** `Plane.flatten(coordinates)` */
  function Flatten(p: Plane, c: seq<int>): (r: Result<int, PyError>)
    ensures r.Err? <==> |c| != |p.shape| || |p.bits| == 0
    ensures r.Err? && |c| != |p.shape| ==> r.error == ValueError
    ensures r.Ok? ==> 0 <= r.value < |p.bits|
  {
    if |c| != |p.shape| then Err(ValueError)
    else if |p.bits| == 0 then Err(ZeroDivisionError)
    else Ok(TupleOffset(p, c))
  }

  /** On a valid plane, `flatten` is camtools' flat index wrapped modulo the
      number of cells, and inside the grid it does not wrap at all. */
  lemma FlattenWraps(p: Plane, c: seq<int>)
    requires Valid(p) && |c| == |p.shape|
    ensures |p.bits| > 0
    ensures Flatten(p, c) == Ok(CamTools.Flatten(c, p.shape) % |p.bits|)
    ensures InRange(c, p.shape) ==> Flatten(p, c) == Ok(RowMajor(c, p.shape))
  {
    ProductPositive(p.shape);
    var x := Dot(c, p.Strides());
    assert Flatten(p, c) == Ok(x % |p.bits|);
    if InRange(c, p.shape) {
      RowMajorBounds(c, p.shape);
      DivModUnique(0, x, |p.bits|);
    }
  }

  // ---------------------------------------------------------------------
  // Reading

  /** `Plane.__getitem__(index)` */
  function GetItem(p: Plane, idx: Index): (r: Result<Item, PyError>)
    ensures idx.Coords? ==> (r.Ok? <==> |p.bits| > 0 && |idx.c| == |p.shape|)
    ensures idx.Coords? && r.Ok? ==> r.value == Bit(p.bits[TupleOffset(p, idx.c)])
    ensures idx.Coords? && |p.bits| == 0 ==> r == Err(ZeroDivisionError)
    ensures idx.Coords? && |p.bits| > 0 && |idx.c| > |p.shape| ==> r == Err(IndexError)
    ensures idx.Scalar? && |p.shape| == 1 ==> (r.Ok? <==> -|p.bits| <= idx.i < |p.bits|)
    ensures idx.Scalar? && |p.shape| == 1 && r.Ok? ==> r.value == Bit(p.bits[if idx.i < 0 then idx.i + |p.bits| else idx.i])
    ensures idx.Scalar? && |p.shape| == 0 ==> r == Err(IndexError)
    ensures idx.Scalar? && |p.shape| > 1 && r.Ok? ==> r.value.Sub? && r.value.plane.shape == p.shape[1..]
    ensures idx.Many? ==> (r.Ok? <==> forall k :: 0 <= k < |idx.items| ==> GetItem(p, idx.items[k]).Ok?)
    ensures idx.Many? && r.Ok? ==> r.value.Items? && |r.value.values| == |idx.items|
    decreases idx
  {
    match idx
    case Coords(c) =>
      if |p.bits| == 0 then Err(ZeroDivisionError)
      else if |c| == |p.shape| then Ok(Bit(p.bits[TupleOffset(p, c)]))
      else if PyIndex(|c| - 1, |p.shape|).None? then Err(IndexError)
      // The prefix form slices an undefined name `bits`.
      else Err(NameError)
    case Scalar(i) =>
      if |p.shape| == 1 then
        (match PyIndex(i, |p.bits|)
         case None => Err(IndexError)
         case Some(j) => Ok(Bit(p.bits[j])))
      else if |p.shape| == 0 then Err(IndexError)
      else if |p.bits| == 0 then Err(ZeroDivisionError)
      else
        var delta := p.Strides()[0];
        var offset := (i * delta) % |p.bits|;
        (match New(p.shape[1..], Some(Slice(p.bits, offset, offset + delta)))
         case Ok(q) => Ok(Sub(q))
         case Err(e) => Err(e))
    case Many(items) =>
      match GetAll(p, items)
      case Ok(values) => Ok(Items(values))
      case Err(e) => Err(e)
  }

  /** A list read: one result per element, in order, or the first
      element's exception. */
  function GetAll(p: Plane, items: seq<Index>): (r: Result<seq<Item>, PyError>)
    ensures r.Ok? <==> forall k :: 0 <= k < |items| ==> GetItem(p, items[k]).Ok?
    ensures r.Ok? ==> |r.value| == |items|
    ensures r.Ok? ==> forall k :: 0 <= k < |items| ==> GetItem(p, items[k]) == Ok(r.value[k])
    decreases items
  {
    if |items| == 0 then Ok([])
    else
      match GetItem(p, items[0])
      case Err(e) => Err(e)
      case Ok(x) =>
        (match GetAll(p, items[1..])
         case Err(e) => Err(e)
         case Ok(xs) =>
           assert forall k :: 1 <= k < |items| ==> items[k] == items[1..][k - 1];
           Ok([x] + xs))
  }

  // ---------------------------------------------------------------------
  // Writing

  /** `Plane.__setitem__(index, value)` */
  function SetItem(p: Plane, idx: Index, v: bool): (w: Written)
    ensures |w.bits| == |p.bits|
    ensures idx.Scalar? && |p.shape| == 1 ==> (w.error.None? <==> -|p.bits| <= idx.i < |p.bits|)
    ensures idx.Scalar? && |p.shape| == 1 && w.error.None? ==>
      w.bits == p.bits[(if idx.i < 0 then idx.i + |p.bits| else idx.i) := v]
    ensures idx.Scalar? && |p.shape| == 1 && w.error.Some? ==> w == Written(p.bits, Some(IndexError))
    ensures idx.Scalar? && |p.shape| == 0 ==> w == Written(p.bits, Some(IndexError))
    ensures idx.Coords? && |p.bits| == 0 ==> w == Written(p.bits, Some(ZeroDivisionError))
    ensures idx.Coords? && |p.bits| > 0 && |idx.c| > |p.shape| ==> w == Written(p.bits, Some(IndexError))
    ensures idx.Coords? && |p.bits| > 0 && |idx.c| == 0 ==> w == Written(p.bits[0 := v], None)
    decreases idx
  {
    match idx
    case Coords(c) =>
      if |p.bits| == 0 then Written(p.bits, Some(ZeroDivisionError))
      else if |c| == |p.shape| then Written(p.bits[TupleOffset(p, c) := v], None)
      else
        (match PyIndex(|c| - 1, |p.shape|)
         case None => Written(p.bits, Some(IndexError))
         case Some(k) =>
           var offset := TupleOffset(p, c);
           // The empty tuple addresses offset 0 with the last stride, 1.
           assert |c| == 0 ==> Fill(p.bits, offset, offset + p.Strides()[k], v) == p.bits[0 := v] by {
             if |c| == 0 {
               OffsetsEnds(p.shape);
               assert offset == 0 && p.Strides()[k] == 1;
               FillFirst(p.bits, v);
             }
           }
           Written(Fill(p.bits, offset, offset + p.Strides()[k], v), None))
    case Scalar(i) =>
      if |p.shape| == 1 then
        (match PyIndex(i, |p.bits|)
         case None => Written(p.bits, Some(IndexError))
         case Some(j) => Written(p.bits[j := v], None))
      else if |p.shape| == 0 then Written(p.bits, Some(IndexError))
      else if |p.bits| == 0 then Written(p.bits, Some(ZeroDivisionError))
      else
        var delta := p.Strides()[0];
        var offset := (i * delta) % |p.bits|;
        Written(Fill(p.bits, offset, offset + delta, v), None)
    case Many(items) => SetAll(p, items, v)
  }

  /** Writing `bits[0:1] = v` sets the first bit. */
  lemma FillFirst(bits: seq<bool>, v: bool)
    requires |bits| > 0
    ensures Fill(bits, 0, 1, v) == bits[0 := v]
  {
  }

  /** A list write: the elements are written one after another, and the
      first failing element ends the write. */
  function SetAll(p: Plane, items: seq<Index>, v: bool): (w: Written)
    ensures |w.bits| == |p.bits|
    decreases items
  {
    if |items| == 0 then Written(p.bits, None)
    else
      var first := SetItem(p, items[0], v);
      if first.error.Some? then first
      else SetAll(Plane(p.shape, first.bits), items[1..], v)
  }

  /** A list write is the write of its first part followed by the write of
      the rest on the result, so the writes made before a failing element
      stay in the bits. */
  lemma {:induction false} SetAllConcat(p: Plane, a: seq<Index>, b: seq<Index>, v: bool)
    requires SetAll(p, a, v).error.None?
    ensures SetAll(p, a + b, v) == SetAll(Plane(p.shape, SetAll(p, a, v).bits), b, v)
    decreases |a|
  {
    if |a| == 0 {
      assert a + b == b;
    } else {
      assert (a + b)[0] == a[0] && (a + b)[1..] == a[1..] + b;
      SetAllConcat(Plane(p.shape, SetItem(p, a[0], v).bits), a[1..], b, v);
    }
  }

  /** On a one-axis plane of two cells, writing [0, 5] sets cell 0 and then
      fails with IndexError, leaving cell 0 set. */
  lemma ListWriteKeepsEarlierWrites()
    ensures SetAll(Plane([2], [false, false]), [Scalar(0), Scalar(5)], true) ==
      Written([true, false], Some(IndexError))
  {
    var p := Plane([2], [false, false]);
    assert SetItem(p, Scalar(0), true) == Written([true, false], None);
    var q := Plane([2], [true, false]);
    assert SetItem(q, Scalar(5), true) == Written([true, false], Some(IndexError));
    assert [Scalar(0), Scalar(5)][1..] == [Scalar(5)];
    assert [Scalar(5)][1..] == [];
  }

  // ---------------------------------------------------------------------
  // Randomisation

  /** `Plane.randomize()` with the random draw as a parameter: the bits
      become the binary numeral of the draw, zero-filled to one bit per cell.
      A plane with no axes is left alone, and one with no cells has no draw
      to make (`randrange(0, 0)` raises ValueError). As written, the draw is
      below the number of cells n (the local named `max_unsigned` is the
      product of the shape), so only the last bits can be set. */
  function Randomize(p: Plane, draw: int): (r: Result<Plane, PyError>)
    requires |p.shape| > 0 && Product(p.shape) > 0 ==> 0 <= draw < Product(p.shape)
    ensures |p.shape| == 0 ==> r == Ok(p)
    ensures r.Err? <==> |p.shape| > 0 && Product(p.shape) <= 0
    ensures r.Ok? ==> r.value.shape == p.shape
    ensures r.Ok? && |p.shape| > 0 ==> |r.value.bits| == Product(p.shape)
    ensures r.Ok? && |p.shape| > 0 ==> BitManip.Value(ToBitString(r.value.bits)) == draw
  {
    if |p.shape| > 0 && Product(p.shape) > 0 then
      BitManip.BelowPow2(Product(p.shape));
      RandomizeIntended(p, draw)
    else RandomizeIntended(p, draw)
  }

  /** `randomize()` with the draw from `randrange(0, 2**n)`, every value n
      bits can hold, as the name `max_unsigned` and bitmanip's
      `max_unsigned(n)` suggest. */
  function RandomizeIntended(p: Plane, draw: int): (r: Result<Plane, PyError>)
    requires |p.shape| > 0 && Product(p.shape) > 0 ==> 0 <= draw <= BitManip.MaxUnsigned(Product(p.shape))
    ensures |p.shape| == 0 ==> r == Ok(p)
    ensures r.Err? <==> |p.shape| > 0 && Product(p.shape) <= 0
    ensures r.Ok? ==> r.value.shape == p.shape
    ensures r.Ok? && |p.shape| > 0 ==> |r.value.bits| == Product(p.shape)
    ensures r.Ok? && |p.shape| > 0 ==> BitManip.Value(ToBitString(r.value.bits)) == draw
  {
    if |p.shape| == 0 then Ok(p)
    else if Product(p.shape) <= 0 then Err(ValueError)
    else
      var n := Product(p.shape);
      var s := BitManip.BitsOf(draw, n);
      BitManip.BitsOfWidth(draw, n);
      BitStringRoundTrip(s);
      Ok(Plane(p.shape, FromBitString(s)))
  }

  /** As written, every bit before the last |bin(draw)| - 2 is 0: the draw
      is below the number of cells, far below 2**n. */
  lemma RandomizeClearsLeadingBits(p: Plane, draw: int)
    requires |p.shape| > 0 && 0 <= draw < Product(p.shape)
    ensures Randomize(p, draw).Ok?
    ensures forall j :: 0 <= j < Product(p.shape) - |BitManip.Binary(draw)| ==> !Randomize(p, draw).value.bits[j]
  {
    var n := Product(p.shape);
    BitManip.BelowPow2(n);
    BitManip.BitsOfWidth(draw, n);
    BitManip.BitsOfShape(draw, n);
  }

  /** On a 100×100 plane the draw is below 10000 < 2**14, so the first 9986
      bits are always 0. */
  lemma RandomizeHundredByHundred(draw: int)
    requires 0 <= draw < 10000
    ensures Randomize(Plane([100, 100], []), draw).Ok?
    ensures forall j :: 0 <= j < 9986 ==> !Randomize(Plane([100, 100], []), draw).value.bits[j]
  {
    var p := Plane([100, 100], []);
    assert Product([100, 100]) == 10000 by {
      assert [100, 100][1..] == [100];
      assert [100][1..] == [];
    }
    assert BitManip.Pow2(14) == 16384 by {
      PowersOfTwo();
    }
    BitManip.BinaryFits(draw, 14);
    RandomizeClearsLeadingBits(p, draw);
  }

  lemma PowersOfTwo()
    ensures BitManip.Pow2(7) == 128
    ensures BitManip.Pow2(14) == 16384
  {
    assert BitManip.Pow2(1) == 2;
    assert BitManip.Pow2(2) == 4;
    assert BitManip.Pow2(3) == 8;
    assert BitManip.Pow2(4) == 16;
    assert BitManip.Pow2(5) == 32;
    assert BitManip.Pow2(6) == 64;
    assert BitManip.Pow2(7) == 128;
    assert BitManip.Pow2(8) == 256;
    assert BitManip.Pow2(9) == 512;
    assert BitManip.Pow2(10) == 1024;
    assert BitManip.Pow2(11) == 2048;
    assert BitManip.Pow2(12) == 4096;
    assert BitManip.Pow2(13) == 8192;
  }

  /** With the intended draw every bit pattern of the plane's size is
      reachable: the draw that is the pattern's value gives the pattern. */
  lemma RandomizeIntendedReachesAll(p: Plane, bits: seq<bool>)
    requires |p.shape| > 0 && Product(p.shape) > 0 && |bits| == Product(p.shape)
    ensures 0 <= BitManip.Value(ToBitString(bits)) <= BitManip.MaxUnsigned(Product(p.shape))
    ensures RandomizeIntended(p, BitManip.Value(ToBitString(bits))) == Ok(Plane(p.shape, bits))
  {
    var s := ToBitString(bits);
    BitManip.ValueBelow(s);
    BitManip.BitsOfValue(s);
    assert FromBitString(s) == bits;
  }

  /** As written, the plane of all ones (the value 2**n - 1) is never
      drawn. */
  lemma RandomizeMissesAllOnes(p: Plane, draw: int)
    requires |p.shape| > 0 && 0 <= draw < Product(p.shape)
    ensures Randomize(p, draw).Ok?
    ensures Randomize(p, draw).value.bits != seq(Product(p.shape), _ => true)
  {
    var n := Product(p.shape);
    var ones := seq(n, _ => true);
    BitManip.BelowPow2(n);
    assert ToBitString(ones) == BitManip.Binary(BitManip.MaxUnsigned(n));
    BitManip.ValueOfBinary(BitManip.MaxUnsigned(n));
  }

  /** `bitarray(s)` for a string of '0'/'1' characters. */
  function FromBitString(s: string): (b: seq<bool>)
    ensures |b| == |s|
  {
    seq(|s|, i requires 0 <= i < |s| => s[i] == '1')
  }

  function ToBitString(b: seq<bool>): (s: string)
    ensures |s| == |b|
  {
    seq(|b|, i requires 0 <= i < |b| => if b[i] then '1' else '0')
  }

  lemma BitStringRoundTrip(s: string)
    requires BitManip.IsBitString(s)
    ensures ToBitString(FromBitString(s)) == s
  {
  }

  // ---------------------------------------------------------------------
  // Arithmetic used by the block lemmas

  /** Scaling the dividend and the divisor scales the remainder. */
  lemma ModScaled(m: int, s: int, l: int)
    requires s > 0 && l > 0
    ensures (s * m) % (l * s) == s * (m % l)
  {
    var q := m / l;
    var r := m % l;
    assert m == l * q + r;
    assert s * m == q * (l * s) + s * r;
    MulLe(r, l - 1, s);
    assert s * r < l * s;
    DivModUnique(q, s * r, l * s);
  }

  /** Adding less than what is left above a remainder adds to the
      remainder. */
  lemma ModAddSmall(x: int, r: int, l: int)
    requires l > 0 && 0 <= r && x % l + r < l
    ensures (x + r) % l == x % l + r
  {
    assert x == (x / l) * l + x % l;
    DivModUnique(x / l, x % l + r, l);
  }

  lemma OffsetsSuffix(shape: seq<int>, k: nat)
    requires k <= |shape|
    ensures Offsets(shape)[k..] == Offsets(shape[k..])
  {
    forall i | 0 <= i < |shape| - k
      ensures Offsets(shape)[k..][i] == Offsets(shape[k..])[i]
    {
      assert shape[k + i + 1..] == shape[k..][i + 1..];
    }
  }

  /** The flat index of a length-k prefix is a multiple of stride k-1 by
      the flat index of the prefix within the first k axes. */
  lemma PrefixDot(shape: seq<int>, c: seq<int>)
    requires 1 <= |c| <= |shape|
    ensures Dot(c, Offsets(shape)) == Offsets(shape)[|c| - 1] * RowMajor(c, shape[..|c|])
  {
    var k := |c|;
    var st := Offsets(shape);
    var s := st[k - 1];
    var m := Offsets(shape[..k]);
    var pre := st[..k];
    forall i | 0 <= i < k
      ensures pre[i] == s * m[i]
    {
      PrefixStride(shape, i, k);
    }
    DotPrefix(c, st);
    DotScale(c, pre, m, s);
  }

  lemma PrefixStride(shape: seq<int>, i: nat, k: nat)
    requires i < k <= |shape|
    ensures Offsets(shape)[i] == Offsets(shape)[k - 1] * Offsets(shape[..k])[i]
  {
    OffsetsFactor(shape, i, k);
    assert shape[..k][i + 1..] == shape[i + 1..k];
  }

  /** Whole multiples of s by less than l, taken modulo l*s, start on a
      multiple of s and leave room for s more. */
  lemma AlignedBlock(m: int, s: int, l: int)
    requires s > 0 && l > 0
    ensures (s * m) % (l * s) % s == 0
    ensures (s * m) % (l * s) + s <= l * s
  {
    ModScaled(m, s, l);
    MulLe(m % l + 1, l, s);
    DivModUnique(m % l, 0, s);
    assert (m % l) * s + 0 == s * (m % l);
  }

  /** The cells of a valid plane split into the blocks of its first k axes,
      each holding stride k-1 cells. */
  lemma BlockSplit(p: Plane, k: nat)
    requires Valid(p) && 1 <= k <= |p.shape|
    ensures Product(p.shape[..k]) > 0
    ensures p.Strides()[k - 1] > 0
    ensures |p.bits| == Product(p.shape[..k]) * p.Strides()[k - 1]
  {
    var shape := p.shape;
    assert shape[k - 1 + 1..] == shape[k..];
    assert Positive(shape[k..]);
    assert Positive(shape[..k]);
    ProductPositive(shape[k..]);
    ProductPositive(shape[..k]);
    assert shape == shape[..k] + shape[k..];
    ProductConcat(shape[..k], shape[k..]);
  }

  /** A prefix of length k addresses a block of stride k-1 bits that starts
      on a multiple of the stride and ends inside the plane. */
  lemma PrefixBlock(p: Plane, c: seq<int>)
    requires Valid(p) && 1 <= |c| <= |p.shape|
    ensures |p.bits| > 0
    ensures p.Strides()[|c| - 1] > 0
    ensures TupleOffset(p, c) % p.Strides()[|c| - 1] == 0
    ensures TupleOffset(p, c) + p.Strides()[|c| - 1] <= |p.bits|
  {
    var k := |c|;
    var s := p.Strides()[k - 1];
    var l := Product(p.shape[..k]);
    var m := RowMajor(c, p.shape[..k]);
    BlockSplit(p, k);
    MulLe(1, l, s);
    PrefixDot(p.shape, c);
    assert Dot(c, p.Strides()) == s * m;
    assert TupleOffset(p, c) == (s * m) % (l * s);
    AlignedBlock(m, s, l);
  }

  // ---------------------------------------------------------------------
  // Properties of reads and writes

  /** Writing a bit at a full tuple and reading that tuple gives the bit
      back; every other bit is unchanged. */
  lemma SetThenGetCoords(p: Plane, c: seq<int>, v: bool)
    requires |c| == |p.shape| && |p.bits| > 0
    ensures SetItem(p, Coords(c), v).error.None?
    ensures GetItem(Plane(p.shape, SetItem(p, Coords(c), v).bits), Coords(c)) == Ok(Bit(v))
    ensures forall j :: 0 <= j < |p.bits| && j != TupleOffset(p, c) ==>
      SetItem(p, Coords(c), v).bits[j] == p.bits[j]
  {
  }

  /** Writing at a length-k prefix (0 < k < N) sets exactly the aligned
      block of stride k-1 bits starting at the prefix's flat index. */
  lemma SetPrefixBlock(p: Plane, c: seq<int>, v: bool)
    requires Valid(p) && 1 <= |c| < |p.shape|
    ensures SetItem(p, Coords(c), v).error.None?
    ensures forall j :: 0 <= j < |p.bits| ==>
      SetItem(p, Coords(c), v).bits[j] ==
        if TupleOffset(p, c) <= j < TupleOffset(p, c) + p.Strides()[|c| - 1] then v else p.bits[j]
  {
    PrefixBlock(p, c);
  }

  /** On a plane of two or more axes, an integer index is the one-element
      prefix tuple. */
  lemma SetScalarIsPrefix(p: Plane, i: int, v: bool)
    requires |p.shape| > 1
    ensures SetItem(p, Scalar(i), v) == SetItem(p, Coords([i]), v)
  {
    if |p.bits| > 0 {
      assert Dot([i], p.Strides()) == i * p.Strides()[0];
    }
  }

  /** Writing at an integer index of a plane with two or more axes sets
      exactly the block of offsets[0] bits it addresses. */
  lemma SetScalarBlock(p: Plane, i: int, v: bool)
    requires Valid(p) && |p.shape| > 1
    ensures SetItem(p, Scalar(i), v).error.None?
    ensures forall j :: 0 <= j < |p.bits| ==>
      SetItem(p, Scalar(i), v).bits[j] ==
        if TupleOffset(p, [i]) <= j < TupleOffset(p, [i]) + p.Strides()[0] then v else p.bits[j]
  {
    SetScalarIsPrefix(p, i, v);
    SetPrefixBlock(p, [i], v);
  }

  /** Reading an integer index of a plane with two or more axes gives the
      row block as a plane of the remaining axes; after writing v there, it
      holds v throughout. */
  lemma ScalarWriteThenRead(p: Plane, i: int, v: bool)
    requires Valid(p) && |p.shape| > 1
    ensures GetItem(p, Scalar(i)).Ok?
    ensures GetItem(p, Scalar(i)).value.Sub?
    ensures GetItem(p, Scalar(i)).value.plane.shape == p.shape[1..]
    ensures var q := Plane(p.shape, SetItem(p, Scalar(i), v).bits);
      GetItem(q, Scalar(i)).Ok? && GetItem(q, Scalar(i)).value.Sub? &&
      forall j :: 0 <= j < |GetItem(q, Scalar(i)).value.plane.bits| ==> GetItem(q, Scalar(i)).value.plane.bits[j] == v
  {
    PrefixBlock(p, [i]);
    assert Dot([i], p.Strides()) == i * p.Strides()[0];
    OffsetsCons(p.shape);
    SetScalarBlock(p, i, v);
  }

  /** Reading an integer index of a valid plane with two or more axes gives
      the block of offsets[0] bits that starts at the index's wrapped flat
      offset, as a plane of the remaining axes. */
  lemma ScalarReadBlock(p: Plane, i: int)
    requires Valid(p) && |p.shape| > 1
    ensures |p.bits| > 0
    ensures TupleOffset(p, [i]) + p.Strides()[0] <= |p.bits|
    ensures GetItem(p, Scalar(i)) ==
      Ok(Sub(Plane(p.shape[1..], p.bits[TupleOffset(p, [i])..TupleOffset(p, [i]) + p.Strides()[0]])))
  {
    PrefixBlock(p, [i]);
    assert Dot([i], p.Strides()) == i * p.Strides()[0];
    OffsetsCons(p.shape);
  }

  /** After writing v at a prefix tuple, every full tuple that extends it
      with in-range coordinates reads v. */
  lemma PrefixWriteThenFullRead(p: Plane, c: seq<int>, d: seq<int>, v: bool)
    requires Valid(p) && 1 <= |c| < |p.shape|
    requires InRange(d, p.shape[|c|..])
    ensures GetItem(Plane(p.shape, SetItem(p, Coords(c), v).bits), Coords(c + d)) == Ok(Bit(v))
  {
    var k := |c|;
    var st := p.Strides();
    var s := st[k - 1];
    PrefixBlock(p, c);
    SetPrefixBlock(p, c, v);
    DotConcat(c, d, st);
    OffsetsSuffix(p.shape, k);
    RowMajorBounds(d, p.shape[k..]);
    assert p.shape[k - 1 + 1..] == p.shape[k..];
    ModAddSmall(Dot(c, st), RowMajor(d, p.shape[k..]), |p.bits|);
  }

  /** A list write of full tuples sets exactly the addressed bits. */
  lemma {:induction false} SetManyCoords(p: Plane, items: seq<Index>, v: bool)
    requires |p.bits| > 0
    requires forall k :: 0 <= k < |items| ==> items[k].Coords? && |items[k].c| == |p.shape|
    ensures SetItem(p, Many(items), v).error.None?
    ensures forall j :: 0 <= j < |p.bits| ==>
      SetItem(p, Many(items), v).bits[j] == if Addressed(p, items, j) then v else p.bits[j]
    decreases |items|
  {
    if |items| > 0 {
      var q := Plane(p.shape, SetItem(p, items[0], v).bits);
      var o := TupleOffset(p, items[0].c);
      assert forall k :: 0 <= k < |items| - 1 ==> items[1..][k] == items[k + 1];
      assert forall c :: TupleOffset(q, c) == TupleOffset(p, c);
      SetManyCoords(q, items[1..], v);
      forall j | 0 <= j < |p.bits|
        ensures Addressed(p, items, j) <==> j == o || Addressed(q, items[1..], j)
      {
        if Addressed(q, items[1..], j) {
          var k :| 0 <= k < |items[1..]| && TupleOffset(q, items[1..][k].c) == j;
          assert TupleOffset(p, items[k + 1].c) == j;
        }
        if Addressed(p, items, j) && j != o {
          var k :| 0 <= k < |items| && TupleOffset(p, items[k].c) == j;
          assert k > 0;
          assert TupleOffset(q, items[1..][k - 1].c) == j;
        }
      }
    }
  }

  /** Some tuple of the list addresses flat position j. */
  predicate Addressed(p: Plane, items: seq<Index>, j: int)
    requires |p.bits| > 0
    requires forall k :: 0 <= k < |items| ==> items[k].Coords?
  {
    exists k :: 0 <= k < |items| && TupleOffset(p, items[k].c) == j
  }

  /** A tuple shorter than the plane's dimension cannot be read: the source
      slices an undefined name. */
  lemma PartialReadFails(p: Plane, c: seq<int>)
    requires |c| < |p.shape| && |p.bits| > 0
    ensures GetItem(p, Coords(c)) == Err(NameError)
  {
  }

  /** The prefix read as evidently intended: the aligned block of bits as a
      plane of the remaining axes. */
  function ReadPrefixIntended(p: Plane, c: seq<int>): (r: Result<Item, PyError>)
    requires 1 <= |c| < |p.shape| && |p.bits| > 0
  {
    var offset := TupleOffset(p, c);
    var shift := p.Strides()[|c| - 1];
    match New(p.shape[|c|..], Some(Slice(p.bits, offset, offset + shift)))
    case Ok(q) => Ok(Sub(q))
    case Err(e) => Err(e)
  }

  /** With the intended prefix read, writing v at a prefix and reading the
      prefix gives a plane of the remaining axes holding v throughout. */
  lemma PrefixWriteThenReadIntended(p: Plane, c: seq<int>, v: bool)
    requires Valid(p) && 1 <= |c| < |p.shape|
    ensures |p.bits| > 0
    ensures var q := Plane(p.shape, SetItem(p, Coords(c), v).bits);
      ReadPrefixIntended(q, c).Ok? && ReadPrefixIntended(q, c).value.Sub? &&
      ReadPrefixIntended(q, c).value.plane.shape == p.shape[|c|..] &&
      forall j :: 0 <= j < |ReadPrefixIntended(q, c).value.plane.bits| ==> ReadPrefixIntended(q, c).value.plane.bits[j] == v
  {
    PrefixBlock(p, c);
    SetPrefixBlock(p, c, v);
    assert p.shape[|c| - 1 + 1..] == p.shape[|c|..];
  }

  // ---------------------------------------------------------------------
  // Examples

  lemma Dot2(a: int, b: int, x: int, y: int)
    ensures Dot([a, b], [x, y]) == a * x + b * y
  {
    assert [a, b][1..] == [b];
    assert [x, y][1..] == [y];
    assert Dot([b], [y]) == b * y + Dot([b][1..], [y][1..]);
  }

  lemma Dot3(a: int, b: int, c: int, x: int, y: int, z: int)
    ensures Dot([a, b, c], [x, y, z]) == a * x + b * y + c * z
  {
    assert [a, b, c][1..] == [b, c];
    assert [x, y, z][1..] == [y, z];
    Dot2(b, c, y, z);
  }

  /** The flat indices of a 100x100 grid: a negative coordinate wraps to
      the far end, and an overflowing column bleeds into the next row. */
  lemma FlattenExamples2D(p: Plane)
    requires p.shape == [100, 100] && |p.bits| == 10000
    ensures Flatten(p, [0, 0]) == Ok(0)
    ensures Flatten(p, [-1, 0]) == Ok(9900)
    ensures Flatten(p, [1, 1]) == Ok(101)
    ensures Flatten(p, [0, 100]) == Flatten(p, [1, 0]) == Ok(100)
  {
    OffsetsExample();
    assert p.Strides() == [100, 1];
    Dot2(0, 0, 100, 1);
    Dot2(-1, 0, 100, 1);
    Dot2(1, 1, 100, 1);
    Dot2(0, 100, 100, 1);
    Dot2(1, 0, 100, 1);
    DivModUnique(-1, 9900, 10000);
  }

  /** The flat indices of a 100x100x100 grid. */
  lemma FlattenExamples3D(p: Plane)
    requires p.shape == [100, 100, 100] && |p.bits| == 1000000
    ensures Flatten(p, [-1, 0, 0]) == Ok(990000)
    ensures Flatten(p, [1, 1, 1]) == Ok(10101)
  {
    OffsetsExample();
    assert p.Strides() == [10000, 100, 1];
    Dot3(-1, 0, 0, 10000, 100, 1);
    Dot3(1, 1, 1, 10000, 100, 1);
    DivModUnique(-1, 990000, 1000000);
  }
}
