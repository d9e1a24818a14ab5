/** The helpers of src/util.py that differ from their twins: `flatten`,
    computed with a running product from the last axis, and the
    `next_state` closure of util's `CAMParser._mcell`, which reads the
    neighbourhood from flat indices. util's `CAMParser.__init__` and
    `_numasc` are those of `CamParser`. */
module Util {
  import opened PySemantics
  import opened CamTools
  import opened Tally
  import CamParser

  /** util `flatten(coordinates, grid)`. The strides come from the first
      |coordinates| axes only, and a coordinate tuple longer than the shape
      fails with IndexError on `grid.shape[i]`. */
  method Flatten(c: seq<int>, shape: seq<int>) returns (r: Option<int>)
    ensures r.None? <==> |c| > |shape|
    ensures r.Some? ==> r.value == RowMajor(c, shape[..|c|])
    ensures |c| == |shape| ==> r == Some(CamTools.Flatten(c, shape))
    ensures InRange(c, shape) ==> r.Some? && 0 <= r.value < Product(shape)
  {
    var index := 0;
    var gridprod := 1;
    var i := |c|;
    while i > 0
      invariant 0 <= i <= |c|
      invariant i < |c| ==> |c| <= |shape|
      invariant i < |c| ==> index == RowMajor(c[i..], shape[i..|c|])
      invariant i < |c| ==> gridprod == Product(shape[i..|c|])
      invariant i == |c| ==> index == 0 && gridprod == 1
    {
      i := i - 1;
      index := index + c[i] * gridprod;
      if i >= |shape| {
        return None;
      }
      RowMajorCons(c[i..], shape[i..|c|]);
      assert c[i..][1..] == c[i + 1..];
      assert shape[i..|c|][1..] == shape[i + 1..|c|];
      gridprod := gridprod * shape[i];
    }
    assert c[0..] == c;
    if |c| == |shape| {
      assert shape[..|c|] == shape;
    }
    if InRange(c, shape) {
      assert shape[..|c|] == shape;
      RowMajorBounds(c, shape);
    }
    return Some(index);
  }

  /** util's `next_state(f_index, f_grid, indices, states)`: the total is
      the number of live cells of the flat grid at `indices`, and the focus
      is the cell at `f_index`. It computes the same function as
      cam_parser's closure, which is given the focus bit and the total by
      the neighbourhood instead. */
  function NextStateAt(rule: CamParser.Rule, fIndex: nat, grid: seq<bool>, indices: seq<int>): (r: int)
    requires fIndex < |grid|
    requires Addresses(grid, indices)
    ensures r == CamParser.NextState(rule, grid[fIndex], LiveAt(grid, indices))
  {
    var total := LiveAt(grid, indices);
    if grid[fIndex] then (if total in rule.survive then 1 else 0)
    else (if total in rule.birth then 1 else 0)
  }
}
