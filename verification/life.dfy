/** The rule functions of the Game of Life and High Life: src/life.py's
    `game_of_life(cell, neighbors)`, examples/life.py's
    `game_of_life(coordinate, grid, neighbors)` and examples/highlife.py's
    `high_life(f_index, f_grid, indices, states)`. */
module Life {
  import opened PySemantics
  import opened Tally
  import opened CamParser
  import opened Rulesets
  import Util
  import Configurations

  /** The configuration states a next-state function returns. */
  const OFF := 0
  const ON := 1

  /** The number of live residents. */
  function LiveNeighbours(neighbors: seq<Resident>): (n: nat)
    ensures n <= |neighbors|
  {
    Count(neighbors, (x: Resident) => x.0)
  }

  /** src/life.py `game_of_life`: the total is the sum of `int(x[0].value)`
      over the neighbours. */
  function GameOfLife(alive: bool, neighbors: seq<Resident>): (r: bool)
    ensures alive ==> (r <==> 2 <= LiveNeighbours(neighbors) <= 3)
    ensures !alive ==> (r <==> LiveNeighbours(neighbors) == 3)
  {
    CountIsSum(neighbors, (x: Resident) => x.0, (x: Resident) => BoolToInt(x.0));
    var total := Sum(neighbors, (x: Resident) => BoolToInt(x.0));
    if alive then
      if total < 2 || total > 3 then false else true
    else total == 3
  }

  /** The Game of Life is the rule both "B3/S23" and "23/3" parse to. */
  lemma GameOfLifeIsParsedLife(alive: bool, neighbors: seq<Resident>)
    ensures Parse(LifeRle).Ok? && Parse(LifeMCell).Ok?
    ensures BoolToInt(GameOfLife(alive, neighbors)) == NextState(Parse(LifeRle).value, alive, LiveNeighbours(neighbors))
    ensures BoolToInt(GameOfLife(alive, neighbors)) == NextState(Parse(LifeMCell).value, alive, LiveNeighbours(neighbors))
  {
    ParseLifeRle();
    ParseLifeMCell();
    GameOfLifeIsRule(alive, neighbors);
  }

  lemma GameOfLifeIsRule(alive: bool, neighbors: seq<Resident>)
    ensures BoolToInt(GameOfLife(alive, neighbors)) == NextState(Rule([2, 3], [3]), alive, LiveNeighbours(neighbors))
  {
  }

  /** Only the live count matters, so the order of the neighbours does
      not. */
  lemma GameOfLifeIgnoresOrder(alive: bool, a: seq<Resident>, b: seq<Resident>)
    requires multiset(a) == multiset(b)
    ensures GameOfLife(alive, a) == GameOfLife(alive, b)
  {
    CountPermutation(a, b, (x: Resident) => x.0);
  }

  /** examples/life.py `game_of_life`: the total sums the second component
      of each neighbour, the expected state. */
  function ExampleGameOfLife<C>(coordinate: C, grid: C -> bool, neighbors: seq<Resident>): (r: bool)
    ensures BoolToInt(r) == NextState(Rule([2, 3], [3]), grid(coordinate), Sum(neighbors, (x: Resident) => x.1))
  {
    var total := Sum(neighbors, (x: Resident) => x.1);
    if grid(coordinate) then
      if total < 2 || total > 3 then false else true
    else total == 3
  }

  /** With the same focus state and the same total, the two versions
      agree. */
  lemma ExampleAgreesOnTotal<C>(coordinate: C, grid: C -> bool, neighbors: seq<Resident>, others: seq<Resident>)
    requires Sum(neighbors, (x: Resident) => x.1) == LiveNeighbours(others)
    ensures ExampleGameOfLife(coordinate, grid, neighbors) == GameOfLife(grid(coordinate), others)
  {
  }

  lemma {:induction false} SumAgreeing(neighbors: seq<Resident>)
    requires forall k :: 0 <= k < |neighbors| ==> Agrees(neighbors[k])
    ensures Sum(neighbors, (x: Resident) => x.1) == Sum(neighbors, (x: Resident) => BoolToInt(x.0))
  {
    if |neighbors| > 0 {
      SumAgreeing(neighbors[1..]);
    }
  }

  /** When every neighbour's expected state is its actual value, the
      example counts the live neighbours and agrees with src/life.py. */
  lemma ExampleAgreesWhenExpectedIsActual<C>(coordinate: C, grid: C -> bool, neighbors: seq<Resident>)
    requires forall k :: 0 <= k < |neighbors| ==> Agrees(neighbors[k])
    ensures ExampleGameOfLife(coordinate, grid, neighbors) == GameOfLife(grid(coordinate), neighbors)
  {
    SumAgreeing(neighbors);
    CountIsSum(neighbors, (x: Resident) => x.0, (x: Resident) => BoolToInt(x.0));
  }

  /** Otherwise they can differ: a dead focus with three live neighbours
      expected dead is born by src/life.py but not by the example. */
  lemma ExampleCountsExpectedStates(grid: int -> bool)
    requires !grid(0)
    ensures GameOfLife(false, [(true, 0), (true, 0), (true, 0)])
    ensures !ExampleGameOfLife(0, grid, [(true, 0), (true, 0), (true, 0)])
  {
    var n: seq<Resident> := [(true, 0), (true, 0), (true, 0)];
    assert n[1..] == [(true, 0), (true, 0)];
    assert n[1..][1..] == [(true, 0)];
    assert n[1..][1..][1..] == [];
  }

  lemma ExampleIgnoresOrder<C>(coordinate: C, grid: C -> bool, a: seq<Resident>, b: seq<Resident>)
    requires multiset(a) == multiset(b)
    ensures ExampleGameOfLife(coordinate, grid, a) == ExampleGameOfLife(coordinate, grid, b)
  {
    SumPermutation(a, b, (x: Resident) => x.1);
  }

  /** `satisfies` with the example rule is the example rule. */
  lemma SatisfiesWithExample<C>(coordinate: C, grid: C -> bool, neighbors: seq<Resident>)
    requires forall k :: 0 <= k < |neighbors| ==> Agrees(neighbors[k])
    ensures Parse(LifeRle).Ok?
    ensures BoolToInt(Satisfies(coordinate, grid, neighbors, ExampleGameOfLife)) ==
      NextState(Parse(LifeRle).value, grid(coordinate), LiveNeighbours(neighbors))
  {
    ParseLifeRle();
    ExampleAgreesWhenExpectedIsActual(coordinate, grid, neighbors);
    GameOfLifeIsRule(grid(coordinate), neighbors);
  }

  /** examples/highlife.py `high_life` as written: a dead focus gets OFF on
      both paths, including for the totals 3, 6 and 8 its B368/S23 header
      names as births. */
  function HighLife(fIndex: int, grid: seq<bool>, indices: seq<int>, states: seq<int>): (r: int)
    requires 0 <= fIndex < |grid| && Addresses(grid, indices)
    ensures r == OFF || r == ON
    ensures !grid[fIndex] ==> r == OFF
    ensures grid[fIndex] ==> r == Util.NextStateAt(Rule([2, 3], [3, 6, 8]), fIndex, grid, indices)
  {
    var total := LiveAt(grid, indices);
    if !grid[fIndex] then
      if total == 3 || total == 6 || total == 8 then OFF else OFF
    else if total == 2 || total == 3 then ON
    else OFF
  }

  /** High Life as its header names it, B368/S23. */
  function HighLifeIntended(fIndex: int, grid: seq<bool>, indices: seq<int>, states: seq<int>): (r: int)
    requires 0 <= fIndex < |grid| && Addresses(grid, indices)
    ensures r == Util.NextStateAt(Rule([2, 3], [3, 6, 8]), fIndex, grid, indices)
  {
    var total := LiveAt(grid, indices);
    if !grid[fIndex] then
      if total == 3 || total == 6 || total == 8 then ON else OFF
    else if total == 2 || total == 3 then ON
    else OFF
  }

  /** A dead focus with three live neighbours: the rule "B368/S23" parses
      to gives birth, the function as written does not. */
  lemma HighLifeMissesBirth()
    ensures Util.NextStateAt(Rule([2, 3], [3, 6, 8]), 0, [false, true, true, true], [1, 2, 3]) == ON
    ensures HighLife(0, [false, true, true, true], [1, 2, 3], []) == OFF
  {
    var grid := [false, true, true, true];
    assert LiveAt(grid, [1, 2, 3]) == 3 by {
      assert [1, 2, 3][1..] == [2, 3];
      assert [2, 3][1..] == [3];
      assert [3][1..] == [];
    }
  }

  /** The intended function is the rule "B368/S23" parses to. */
  lemma HighLifeIntendedIsParsed(fIndex: nat, grid: seq<bool>, indices: seq<int>, states: seq<int>)
    requires fIndex < |grid| && Addresses(grid, indices)
    ensures Parse(HighLifeNotation).Ok?
    ensures HighLifeIntended(fIndex, grid, indices, states) == Util.NextStateAt(Parse(HighLifeNotation).value, fIndex, grid, indices)
  {
    ParseHighLife();
  }

  /** Only the count of live neighbours matters, so listing them in another
      order changes nothing. */
  lemma HighLifeIgnoresOrder(fIndex: nat, grid: seq<bool>, a: seq<int>, b: seq<int>, states: seq<int>)
    requires fIndex < |grid| && Addresses(grid, a) && multiset(a) == multiset(b)
    ensures Addresses(grid, b)
    ensures HighLife(fIndex, grid, a, states) == HighLife(fIndex, grid, b, states)
    ensures HighLifeIntended(fIndex, grid, a, states) == HighLifeIntended(fIndex, grid, b, states)
  {
    forall k | 0 <= k < |b|
      ensures 0 <= b[k] < |grid|
    {
      assert b[k] in multiset(a);
    }
    LiveAtIsCount(grid, a);
    LiveAtIsCount(grid, b);
    CountPermutation(a, b, i => 0 <= i < |grid| && grid[i]);
  }

  /** High Life as a configuration's computed next state: `passes` reports
      its value on the wrapped neighbour indices of a focus cell. */
  lemma HighLifeConfiguration(states: seq<int>, offsets: seq<int>, fIndex: nat, grid: seq<bool>, vfunc: Configurations.Validity)
    requires fIndex < |grid|
    requires vfunc.requires(fIndex, grid,
      Configurations.Indices(Configurations.Configuration(Configurations.Computed(HighLifeIntended), states, offsets), fIndex, |grid|), states)
    ensures var cfg := Configurations.Configuration(Configurations.Computed(HighLifeIntended), states, offsets);
      var indices := Configurations.Indices(cfg, fIndex, |grid|);
      Addresses(grid, indices) &&
      Configurations.Passes(cfg, fIndex, grid, vfunc).1 == Util.NextStateAt(Rule([2, 3], [3, 6, 8]), fIndex, grid, indices)
  {
  }
}
