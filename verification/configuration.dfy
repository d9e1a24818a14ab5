/** The configuration of src/configuration.py: the expected states of a
    neighbourhood and the flat offsets of its cells, kept in parallel, and
    the `passes` check that applies a validity function to the wrapped flat
    indices of a focus cell's neighbourhood. */
module Configurations {
  import opened PySemantics
  import opened CamTools
  import Util
  import Planes

  /** `next_state`: a fixed state, or a function of the focus index, the
      flat grid, the neighbour indices and the expected states. */
  datatype NextState =
    | Fixed(state: int)
    | Computed(f: (int, seq<bool>, seq<int>, seq<int>) --> int)

  /** The expected states and the flat offsets, entry k of each coming from
      entry k of the offsets mapping. */
  datatype Configuration = Configuration(nextState: NextState, states: seq<int>, offsets: seq<int>)

  /** A validity function: given the focus index, the flat grid, the
      neighbour indices and the expected states, does the neighbourhood
      pass? */
  type Validity = (int, seq<bool>, seq<int>, seq<int>) --> bool

  /** `Configuration(grid, next_state, offsets)` for a grid of the given
      shape, the mapping given as its (key, state) entries in iteration
      order. Each key is flattened with util's `flatten`, which fails on a
      key with more coordinates than the grid has axes. */
  method New(shape: seq<int>, nextState: NextState, entries: seq<(seq<int>, int)>)
    returns (r: Result<Configuration, PyError>)
    ensures r.Err? <==> exists k :: 0 <= k < |entries| && |entries[k].0| > |shape|
    ensures r.Err? ==> r.error == IndexError
    ensures r.Ok? ==> r.value.nextState == nextState
    ensures r.Ok? ==> |r.value.states| == |entries| && |r.value.offsets| == |entries|
    ensures r.Ok? ==> forall k :: 0 <= k < |entries| ==>
      r.value.states[k] == entries[k].1 &&
      r.value.offsets[k] == RowMajor(entries[k].0, shape[..|entries[k].0|])
  {
    var states := [];
    var offsets := [];
    var i := 0;
    while i < |entries|
      invariant 0 <= i <= |entries|
      invariant |states| == i && |offsets| == i
      invariant forall k :: 0 <= k < i ==> |entries[k].0| <= |shape|
      invariant forall k :: 0 <= k < i ==>
        states[k] == entries[k].1 && offsets[k] == RowMajor(entries[k].0, shape[..|entries[k].0|])
    {
      var f := Util.Flatten(entries[i].0, shape);
      if f.None? {
        return Err(IndexError);
      }
      states := states + [entries[i].1];
      offsets := offsets + [f.value];
      i := i + 1;
    }
    return Ok(Configuration(nextState, states, offsets));
  }

  /** A full-length key's stored offset is camtools' flat index of it. */
  lemma OffsetOfFullKey(key: seq<int>, shape: seq<int>)
    requires |key| == |shape|
    ensures RowMajor(key, shape[..|key|]) == CamTools.Flatten(key, shape)
  {
    assert shape[..|key|] == shape;
  }

  /** `(f_index + self.offsets) % grid.size`, element by element. numpy's
      integer remainder by 0 is 0. */
  function Indices(cfg: Configuration, fIndex: int, size: nat): (idx: seq<int>)
    ensures |idx| == |cfg.offsets|
    ensures size > 0 ==> forall k :: 0 <= k < |idx| ==> 0 <= idx[k] < size
    ensures size == 0 ==> forall k :: 0 <= k < |idx| ==> idx[k] == 0
  {
    seq(|cfg.offsets|, k requires 0 <= k < |cfg.offsets| =>
      if size == 0 then 0 else (fIndex + cfg.offsets[k]) % size)
  }

  /** Each wrapped index differs from the unwrapped one by a whole number of
      grids, so offsets that differ by a multiple of the grid size address
      the same cell. */
  lemma IndicesWrap(cfg: Configuration, fIndex: int, size: nat, k: nat, m: int)
    requires size > 0 && k < |cfg.offsets|
    ensures (fIndex + cfg.offsets[k] - Indices(cfg, fIndex, size)[k]) % size == 0
    ensures Indices(cfg, fIndex, size)[k] ==
      Indices(Configuration(cfg.nextState, cfg.states, cfg.offsets[k := cfg.offsets[k] + m * size]), fIndex, size)[k]
  {
    var x := fIndex + cfg.offsets[k];
    DivModUnique(x / size, x % size, size);
    DivModUnique(x / size, 0, size);
    assert x - x % size == (x / size) * size;
    DivModUnique(x / size + m, x % size, size);
    assert x + m * size == (x / size + m) * size + x % size;
  }

  /** `passes(f_index, grid, vfunc)`: the success flag from the validity
      function, and the next state, whether or not it passed. */
  function Passes(cfg: Configuration, fIndex: int, grid: seq<bool>, vfunc: Validity): (r: (bool, int))
    requires vfunc.requires(fIndex, grid, Indices(cfg, fIndex, |grid|), cfg.states)
    requires cfg.nextState.Computed? ==>
      cfg.nextState.f.requires(fIndex, grid, Indices(cfg, fIndex, |grid|), cfg.states)
    ensures r.0 == vfunc(fIndex, grid, Indices(cfg, fIndex, |grid|), cfg.states)
    ensures cfg.nextState.Fixed? ==> r.1 == cfg.nextState.state
    ensures cfg.nextState.Computed? ==>
      r.1 == cfg.nextState.f(fIndex, grid, Indices(cfg, fIndex, |grid|), cfg.states)
  {
    var indices := Indices(cfg, fIndex, |grid|);
    var success := vfunc(fIndex, grid, indices, cfg.states);
    match cfg.nextState
    case Computed(f) => (success, f(fIndex, grid, indices, cfg.states))
    case Fixed(state) => (success, state)
  }

  /** The next state does not depend on the validity function: a failing
      configuration still reports it. */
  lemma NextStateIgnoresSuccess(cfg: Configuration, fIndex: int, grid: seq<bool>, v1: Validity, v2: Validity)
    requires v1.requires(fIndex, grid, Indices(cfg, fIndex, |grid|), cfg.states)
    requires v2.requires(fIndex, grid, Indices(cfg, fIndex, |grid|), cfg.states)
    requires cfg.nextState.Computed? ==>
      cfg.nextState.f.requires(fIndex, grid, Indices(cfg, fIndex, |grid|), cfg.states)
    ensures Passes(cfg, fIndex, grid, v1).1 == Passes(cfg, fIndex, grid, v2).1
  {
  }

  /** The wrapped index of a full-length key is the plane's flat index of
      the focus cell's coordinates moved by the key: the neighbour in the
      plane, with the plane's flat wrap-around. */
  lemma NeighbourIndex(p: Planes.Plane, cfg: Configuration, fIndex: int, key: seq<int>, k: nat)
    requires Planes.Valid(p) && |p.shape| > 0
    requires k < |cfg.offsets| && |key| == |p.shape|
    requires cfg.offsets[k] == RowMajor(key, p.shape[..|key|])
    ensures Planes.Flatten(p, CompAdd(Unflatten(fIndex, p.shape), key)) ==
      Ok(Indices(cfg, fIndex, |p.bits|)[k])
  {
    ProductPositive(p.shape);
    assert p.shape[..|key|] == p.shape;
    var u := Unflatten(fIndex, p.shape);
    FlattenUnflatten(fIndex, p.shape);
    RowMajorCompAdd(u, key, p.shape);
  }
}
