# A cellular-automaton simulator, modelled in Dafny

This project models the integer, sequence and string logic under a Python
cellular-automaton simulator (CAM):

- **the cell plane** (`Plane`). A flat bit sequence is viewed as an N-D grid
  through row-major strides. It is read and written through one of three index
  forms:
  - a full coordinate tuple, which addresses one bit;
  - a prefix tuple or an integer, which addresses an aligned block of bits;
  - a possibly nested list of indices, applied element by element.

  Wrap-around is on the flat index, modulo the number of bits, and not per
  axis.
- **the coordinate helpers.** These are camtools' `flatten`, `unflatten` and
  `comp_add`, plus util's `flatten` with its running product.
- **the Life-like rule-string parser** (`CAMParser`, in both of its copies).
  It reads MCell notation `x/y` and RLE notation `By/Sx` and builds the
  `next_state` function of the resulting rule.
- **a configuration**. It holds the expected states and the flattened offsets
  of a neighbourhood, in parallel. Its `passes` check applies a validity
  function to the wrapped flat indices of a focus cell's neighbours.
- **the ruleset predicates** `matches`, `tolerate` and `satisfies`, over the
  residents of a focus cell. Each resident is a pair of the cell's actual
  value and its expected state.
- **the bit helpers** `max_unsigned`, `bits_of` and `cycle`.
- **the rule functions**:
  - the Game of Life of src/life.py;
  - the Game of Life of examples/life.py;
  - the High Life rule of examples/highlife.py.

Python exceptions become the `Err` side of a `Result`. These are `ValueError`,
`IndexError`, `NameError`, `ZeroDivisionError`, and the parser's refusal
reasons. Python's clamping of slice bounds and its negative indexing are
modelled in `PySemantics`.

A plane write is a function from the old bits to the new ones. A list write
that fails part-way keeps the writes made before the failing element, as the
in-place Python code does.

The plane does not store its strides. The constructor always sets them to the
strides of the shape, so the model computes them from the shape.
`Planes.ComputeOffsets` models the constructor's stride loop and is proved to
compute the same strides.

src/configuration.py calls `util.flatten` and numpy without importing either.
The model gives them their evident meaning:
- the flattening is util's `flatten`;
- `%` on the offset array is numpy's elementwise remainder, which is 0 for a
  remainder by 0.

`rs.Configuration.ON`/`OFF` are defined in code that is not part of this
model. They are taken as 1 and 0.

The two copies of `CAMParser` have a format classification and a `_numasc`
that differ only in the exception they raise:
- src/util.py raises `InvalidFormat`;
- src/cam_parser.py raises `ValueError`.

Both are modelled by one `CamParser.Parse` that returns a refusal reason. The
`next_state` closures the two copies build differ:
- util's reads the focus bit and the live count from the flat grid at
  `f_index` and `indices` (`Util.NextStateAt`);
- cam_parser's is given them by the neighbourhood (`CamParser.NextState`).

`Util.NextStateAt` is proved to compute cam_parser's next state from the bits
it reads. The copies also attach the rule to the ruleset differently, which is
not modelled (see "Left out").

examples/life.py's `game_of_life` sums the *second* component of each
neighbour, which is the expected state. Its comment says that component is
ignored. The model keeps the code's behaviour:
- `Life.ExampleAgreesWhenExpectedIsActual` shows it agrees with src/life.py
  when every expected state equals the actual value;
- `Life.ExampleCountsExpectedStates` shows an input where the two differ.

## Model

| member | source | states |
|---|---|---|
| BitManip.MaxUnsigned | src/bitmanip.py:6-10 | For n ≥ 1, max_unsigned(n) is written as n ones in binary |
| BitManip.BinaryFits | src/bitmanip.py:6-10 | For n ≥ 1, a value's binary numeral fits in n digits exactly when the value is at most max_unsigned(n) = 2^n − 1 |
| BitManip.Binary | src/bitmanip.py:17 | `bin(v)[2:]` is a 0/1 string with no leading zero, and it is "0" exactly for v = 0 |
| BitManip.ValueOfBinary | src/bitmanip.py:17 | The numeral `bin(v)[2:]` denotes v in base 2 |
| BitManip.ValueIgnoresLeadingZeros | src/bitmanip.py:18-19 | Padding a numeral with zeros on the left keeps its value |
| BitManip.BitsOfShape | src/bitmanip.py:13-21 | For v ≥ 0, bits_of(v, size) is a 0/1 string of length max(size, len of v's numeral). It is the unpadded numeral when size is not larger, and otherwise zeros followed by the numeral |
| BitManip.BitsOf | src/bitmanip.py:13-21 | For v ≥ 0, bits_of(v, size) is a 0/1 string of length max(size, len of v's numeral) that reads back as v in base 2 |
| BitManip.BitsOfValue | src/bitmanip.py:13-21 | Every 0/1 string s of length n ≥ 1, leading zeros included, is bits_of(value(s), n) |
| BitManip.BitsOfWidth | src/bitmanip.py:6-21 | For n ≥ 1 and 0 ≤ v ≤ max_unsigned(n), bits_of(v, n) is exactly n characters |
| BitManip.BelowPow2 | src/bitmanip.py:6-10 | n ≤ max_unsigned(n), so every draw below n fits in n bits |
| BitManip.Cycle | src/bitmanip.py:23-27 | For 0 ≤ k < \|s\|, cycle(s, k) has length \|s\|−1, keeps s[..k] and shifts s[k+1..] down by one. For k ≥ \|s\| it returns s |
| BitManip.CycleRemovesOne | src/bitmanip.py:27 | Putting s[k] back at k restores s, so cycle removes exactly one occurrence of s[k] |
| CamTools.OffsetsEnds | src/plane.py:53-57 | The last stride is 1, and the first stride times the first axis is the number of cells |
| CamTools.OffsetsExample | src/plane.py:53-57 | The strides of (100,100,100) are [10000,100,1] and those of (100,100) are [100,1] |
| CamTools.Flatten | src/camtools.py:8-16 | For at most as many coordinates as axes, camtools' flatten is Σ c_i·product(shape[i+1:]) with the plane's strides and no wrap. For a full tuple it is the row-major index |
| CamTools.Unflatten | src/camtools.py:19-29 | unflatten returns exactly len(shape) components |
| CamTools.FlattenUnflatten | src/camtools.py:8-29 | For a positive, non-empty shape, flatten(unflatten(i)) = i for every integer i |
| CamTools.UnflattenInRange | src/camtools.py:23-28 | For 0 ≤ i < product(shape), component k of unflatten(i) lies in [0, shape_k) |
| CamTools.UnflattenFlatten | src/camtools.py:8-29 | unflatten(flatten(c)) = c when every c_k lies in [0, shape_k) |
| CamTools.RowMajorBounds | src/camtools.py:12-16 | In-range coordinates flatten into [0, product(shape)) |
| CamTools.CompAdd | src/camtools.py:32-36 | comp_add is as long as the shorter input, as zip truncates, and component i is a_i + b_i |
| CamTools.CompAddCommutes | src/camtools.py:36 | comp_add is commutative |
| CamTools.CompAddZero | src/camtools.py:36 | Adding an all-zero tuple of the same length is the identity |
| CamTools.RowMajorCompAdd | src/camtools.py:32-36 | The flat index of a component-wise sum is the sum of the flat indices |
| Util.Flatten | src/util.py:13-25 | util's flatten fails with IndexError exactly when there are more coordinates than axes. Otherwise it is the row-major index over the first len(c) axes, which is camtools' flatten for a full tuple. In-range coordinates land in [0, product(shape)) |
| Util.NextStateAt | src/util.py:94-99 | util's next_state is the parser's next state for the focus bit at f_index and the number of live cells at `indices` |
| CamParser.SortedOfOrdered | src/cam_parser.py:64 | A non-decreasing string sorts to itself |
| CamParser.NumAsc | src/cam_parser.py:59-66 | _numasc(s) holds iff every character is a digit and s is non-decreasing |
| CamParser.NumAscAcceptsRepeatsAndNine | src/cam_parser.py:59-66 | _numasc accepts the empty string, repeated digits and 9, so "distinct digits 0–8" is not enforced |
| CamParser.NumAscRejects | src/cam_parser.py:63-66 | _numasc refuses a descending string and a non-digit |
| CamParser.SlashIndex | src/cam_parser.py:39 | The split point is the first '/' of the string, or its length when there is none |
| CamParser.ClassifyMCellComplete | src/cam_parser.py:38-39 | Every "digits/digits" string is recognised as MCell, with its two groups |
| CamParser.ClassifyRleComplete | src/cam_parser.py:45-46 | Every "B digits /S digits" string is recognised as RLE, with its two groups |
| CamParser.Classify | src/cam_parser.py:23-24 | Whatever is recognised as MCell is two digit groups joined by '/'. Whatever is recognised as RLE is "B", a digit group, "/S" and a digit group |
| CamParser.FormatsDisjoint | src/util.py:39-40 | A string starting with 'B' is never MCell, so it can only be read as RLE |
| CamParser.Parse | src/cam_parser.py:38-53 | "No supported format" exactly when neither format matches. An accepted rule has ascending digit groups 0–9, and writing them back in the MCell or RLE form gives the input string |
| CamParser.ParseMCell | src/cam_parser.py:38-43 | "x/y" gives survive = x and birth = y when both groups ascend, and refuses it as non-ascending MCell otherwise |
| CamParser.ParseRle | src/cam_parser.py:45-50 | "By/Sx" gives birth = y and survive = x when both groups ascend, and refuses it as non-ascending RLE otherwise |
| CamParser.RleMatchesMCell | src/util.py:54-66 | "By/Sx" and "x/y" are accepted together and give the same rule |
| CamParser.ParseUnsupported | src/cam_parser.py:52-53 | A string without '/' is refused as "no supported format" |
| CamParser.ParseSwappedHalves | src/cam_parser.py:52-53 | "S23/B3" matches neither format and is refused |
| CamParser.ParseDescendingMCell | src/cam_parser.py:38-43 | "32/3" matches the MCell format but is refused with a ValueError because "32" descends |
| CamParser.ParseDescendingRle | src/cam_parser.py:45-50 | "B3/S32" matches the RLE format but is refused with a ValueError because "32" descends |
| CamParser.ParseLifeRle | src/cam_parser.py:45-50 | "B3/S23" parses to survive [2,3], birth [3] |
| CamParser.ParseLifeMCell | src/cam_parser.py:76 | "23/3" parses to the same rule |
| CamParser.ParseSeeds | examples/seeds.py:16 | "B2/S" (empty S) parses to survive [], birth [2] |
| CamParser.ParseLifeWithoutDeath | examples/life_without_death.py:16 | "B3/S012345678" parses |
| CamParser.ParseReplicator | examples/replicator.py:16 | "B1357/S1357" parses |
| CamParser.ParseMorley | examples/morley.py:16 | "B368/S245" parses to survive [2,4,5], birth [3,6,8] |
| CamParser.ParseHighLife | examples/highlife.py:2 | "B368/S23" parses to survive [2,3], birth [3,6,8] |
| CamParser.NextState | src/cam_parser.py:79-83 | The next state is 0 or 1. For a live focus it is 1 iff the total is a survive digit, and for a dead focus iff it is a birth digit |
| Planes.ComputeOffsets | src/plane.py:53-57 | The constructor's loop gives offsets[i] = product(shape[i+1:]), and its running product ends at product(shape) |
| Planes.New | src/plane.py:59-66 | Supplied bits of any length other than product(shape) raise ValueError and are otherwise kept. The default is max(0, product) zero bits, and a positive shape gives one bit per cell |
| Planes.NewEmptyShape | src/plane.py:40-66 | The docstring says an empty shape holds nothing, but the product of no axes is 1, so the default plane of () holds one 0 bit |
| Planes.Flatten | src/plane.py:159-173 | flatten fails exactly when the tuple length is not N (ValueError) or the plane has no bits. Its value lies in [0, len(bits)) |
| Planes.FlattenWraps | src/plane.py:169-173 | On a valid plane, flatten is camtools' flatten modulo len(bits), and in-range coordinates do not wrap |
| Planes.FlattenExamples2D | src/plane.py:169-173 | On 100×100: (0,0) ↦ 0, (−1,0) ↦ 9900, (1,1) ↦ 101, and (0,100) and (1,0) both ↦ 100 |
| Planes.FlattenExamples3D | src/plane.py:169-173 | On 100×100×100: (−1,0,0) ↦ 990000 and (1,1,1) ↦ 10101 |
| Planes.GetItem | src/plane.py:72-111 | A tuple read succeeds iff the tuple has N components and the plane has bits, and then it is the bit at the wrapped flat offset. On empty bits a tuple read raises ZeroDivisionError, and a tuple longer than N raises IndexError. An integer read on one axis succeeds iff the index is in [−len, len), and gives the bit at that index, counted from the end when negative. On no axes it raises IndexError, and on N > 1 a success is a plane of the remaining axes. A list read succeeds iff every element read does, with one result per element |
| Planes.ScalarReadBlock | src/plane.py:108-111 | An integer read on a valid plane of N > 1 axes gives the block of offsets[0] bits starting at the index's wrapped flat offset, inside the bits, as a plane of the remaining axes |
| Planes.SetItem | src/plane.py:113-142 | No write changes the number of bits. An integer write on one axis succeeds iff the index is in [−len, len), and sets only the bit at that index, counted from the end when negative; otherwise it raises IndexError and changes nothing. On no axes an integer write raises IndexError. A tuple write on empty bits raises ZeroDivisionError, and one longer than N raises IndexError; neither changes a bit. The empty tuple on a non-empty plane writes only bit 0, since it addresses offset 0 with the last stride, 1 |
| Planes.SetThenGetCoords | src/plane.py:124-127 | Writing v at a full tuple and reading that tuple gives v, and every other bit is unchanged |
| Planes.PrefixBlock | src/plane.py:125-130 | A length-k prefix addresses a block of offsets[k−1] bits that starts on a multiple of that stride and ends inside the bits |
| Planes.SetPrefixBlock | src/plane.py:128-130 | A write at a length-k prefix (0 < k < N) sets exactly that block to v and leaves every other bit |
| Planes.SetScalarIsPrefix | src/plane.py:139-142 | On a plane of two or more axes, an integer index writes exactly as the one-element prefix tuple |
| Planes.SetScalarBlock | src/plane.py:139-142 | An integer write on N > 1 sets exactly the block of offsets[0] bits at (i·offsets[0]) mod len(bits) |
| Planes.ScalarWriteThenRead | src/plane.py:108-111 | An integer read on N > 1 gives a plane of the remaining axes. After writing v at that integer, it holds v throughout |
| Planes.PrefixWriteThenFullRead | src/plane.py:124-130 | After writing v at a prefix, every full tuple that extends it with in-range coordinates reads v |
| Planes.SetManyCoords | src/plane.py:132-135 | A list write of full tuples sets exactly the addressed bits to v and leaves the others |
| Planes.SetAllConcat | src/plane.py:132-135 | A list write is the write of its first part followed by the write of the rest on the result, so earlier writes stay when a later element fails |
| Planes.ListWriteKeepsEarlierWrites | src/plane.py:132-138 | On a two-cell line, writing [0, 5] sets cell 0, fails with IndexError at 5, and keeps cell 0 set |
| Planes.GetAll | src/plane.py:98-102 | A list read succeeds iff every element's read does, and it then gives one result per element, in order: the k-th result is the read of the k-th element |
| Planes.PartialReadFails | src/plane.py:91-93 | Reading a tuple shorter than N fails with NameError |
| Planes.PrefixWriteThenReadIntended | src/plane.py:91-93 | With the read fixed to slice the plane's own bits, a prefix read after writing v gives a plane of the remaining axes holding v throughout |
| Planes.Randomize | src/plane.py:154-157 | A plane with no axes is unchanged. Otherwise there is a ValueError exactly when there are no cells to draw from. Else the bits number product(shape) and read in base 2 as the draw, which lies below the cell count |
| Planes.RandomizeClearsLeadingBits | src/plane.py:155-157 | As written, every bit before the last len(bin(draw)) − 2 is 0 |
| Planes.RandomizeHundredByHundred | src/plane.py:155-157 | On a 100×100 plane the first 9986 bits are always 0 |
| Planes.RandomizeMissesAllOnes | src/plane.py:155-157 | As written, the all-ones plane is never produced |
| Planes.RandomizeIntended | src/plane.py:144-157 | With the draw from [0, 2^n − 1], the plane keeps its shape, has n bits, and reads back as the draw |
| Planes.RandomizeIntendedReachesAll | src/plane.py:144-157 | With the intended draw, every n-bit pattern is produced by the draw equal to its value |
| Configurations.New | src/configuration.py:32-39 | The states and flat offsets are parallel and as long as the mapping, in its order. Offset k is the row-major index of key k over its first axes. IndexError exactly when a key has more coordinates than the grid has axes |
| Configurations.OffsetOfFullKey | src/configuration.py:36 | The stored offset of a full-length key is camtools' flatten of it |
| Configurations.Indices | src/configuration.py:53 | Every wrapped neighbour index lies in [0, grid.size), even for negative offsets |
| Configurations.IndicesWrap | src/configuration.py:53 | A wrapped index differs from f_index + offset by a multiple of grid.size, and moving an offset by whole grids changes nothing |
| Configurations.Passes | src/configuration.py:41-61 | The success flag is exactly vfunc on (f_index, flat grid, indices, states). A fixed next state is returned as is, and a callable one is called on the same arguments |
| Configurations.NextStateIgnoresSuccess | src/configuration.py:58-61 | The reported next state is the same whatever the validity function says |
| Configurations.NeighbourIndex | src/configuration.py:53 | The wrapped index of a full-length key is the plane's flatten of comp_add(unflatten(f_index), key): the neighbour, with the flat wrap-around |
| Rulesets.Matches | src/ruleset.py:30-42 | matches is true iff every resident agrees (True with 1, False with 0), and an empty list matches |
| Rulesets.MatchesIsFullCount | src/ruleset.py:38-42 | The early exit gives the same answer as counting agreements and comparing the count with the length |
| Rulesets.Tolerate | src/ruleset.py:45-58 | tolerate fails with ZeroDivisionError exactly on no residents. Otherwise it holds iff agreeing ≥ tolerance·len, with an inclusive boundary |
| Rulesets.TolerateOneIsMatches | src/ruleset.py:30-58 | tolerate at 1 gives the answer of matches |
| Rulesets.TolerateZeroPasses | src/ruleset.py:52-58 | Every tolerance up to 0 passes |
| Rulesets.TolerateMonotone | src/ruleset.py:58 | Passing at a tolerance means passing at every lower one |
| Rulesets.TolerateHalfExample | tests/configuration_test.py:58-62 | Two of four agreeing pass at 0.5, and one of four does not |
| Rulesets.TolerateIgnoresOrder | src/ruleset.py:52-58 | Reordering the residents changes neither tolerate nor matches |
| Life.GameOfLife | src/life.py:5-21 | A live focus survives iff 2 ≤ live ≤ 3. A dead focus is born iff exactly 3 neighbours are live. The count uses only each resident's cell value |
| Life.GameOfLifeIsParsedLife | src/life.py:5-21 | game_of_life is the next state of the rule both "B3/S23" and "23/3" parse to |
| Life.GameOfLifeIsRule | src/life.py:12-21 | game_of_life is the next state of survive [2,3], birth [3] on the live-neighbour count |
| Life.GameOfLifeIgnoresOrder | src/life.py:12 | Permuting the neighbours does not change the result |
| Life.ExampleGameOfLife | examples/life.py:7-23 | The example's game_of_life is the next state of survive [2,3], birth [3] on the sum of the neighbours' expected states |
| Life.SatisfiesWithExample | src/ruleset.py:61-70 | satisfies, with the example's game_of_life as its function, on residents whose expected state is their actual value, is the next state of the rule "B3/S23" parses to |
| Life.ExampleAgreesOnTotal | examples/life.py:7-23 | With the same focus state and total, the example's game_of_life gives src/life.py's answer. A live focus survives iff 2 ≤ total ≤ 3, and a dead one is born iff the total is 3 |
| Life.ExampleAgreesWhenExpectedIsActual | examples/life.py:14 | When each neighbour's expected state is its actual value, the example counts live neighbours and agrees with src/life.py |
| Life.ExampleCountsExpectedStates | examples/life.py:11-14 | The total sums the second component. A dead focus with three live neighbours expected dead is born by src/life.py and not by the example |
| Life.ExampleIgnoresOrder | examples/life.py:14-23 | Permuting the neighbours does not change the example's result |
| Life.HighLife | examples/highlife.py:16-25 | As written, high_life is ON or OFF. A live focus follows the B368/S23 rule on the live count at `indices`, and a dead focus is OFF for every total |
| Life.HighLifeMissesBirth | examples/highlife.py:18-20 | A dead focus with three live neighbours: the rule B368/S23 gives ON, and high_life gives OFF |
| Life.HighLifeIntendedIsParsed | examples/highlife.py:1-2 | The corrected high_life is the next state of the rule "B368/S23" parses to |
| Life.HighLifeIntended | examples/highlife.py:16-25 | The corrected high_life is the next state of survive [2,3], birth [3,6,8] on the live count at `indices` |
| Life.HighLifeIgnoresOrder | examples/highlife.py:17 | Only the number of live cells at `indices` matters, so their order does not |
| Life.HighLifeConfiguration | src/configuration.py:58-59 | As a configuration's computed next state, corrected High Life is reported on the focus cell's wrapped neighbour indices |

## Left out

- The random source of `Plane.randomize`: the draw is a parameter, required to lie in [0, product(shape)) as `randrange` guarantees.
- `Plane.matrix` (a numpy reshape for display), the `dirty` flag, and index types other than tuples, lists and integers.
- The parser's construction of the Moore neighbourhood and of the ruleset (`Configuration.moore`, `addConfiguration`, `Ruleset(...)`): that code is not part of this model.
- `neighborhood.neighbors(...)`: it is not part of this model, so `Ruleset`'s residents are an input sequence.
- `*args` passed through `passes`, `vfunc` and `next_state`: they are never read by the modelled code.
- IEEE floating point in `tolerate`: the share is an exact `real`, so rounding at the boundary is not modelled.
- numpy's `int32` products in camtools: integers are unbounded, so overflow on very large shapes is not modelled.
- Unicode digits accepted by `\d`/`isnumeric`, and `$` matching before a trailing newline: only ASCII digits are digits.
- The offsets mapping of `Configuration.__init__` is given as its entries in iteration order, and the grid as its shape.
- Life.HighLife: requires the focus index and the neighbour indices to be positions of the grid. The focus and neighbours always come from the grid, and Python's negative indexing is not modelled there.
- Util.NextStateAt: requires the focus index and the neighbour indices to be positions of the grid, for the same reason.
- Life.ExampleGameOfLife: the grid is a lookup function from coordinates to bits.
- CamTools.Unflatten: positive shapes only. The Python loop runs on any shape, but a zero axis makes it divide by zero and a negative axis is no grid.
- How each parser copy attaches its rule: util's `addConfiguration(cam.master, ...)` and cam_parser's `Configuration(..., plane=cam.master, ...)` appended to the ruleset. Both build objects that are not part of this model.
- Rulesets.Satisfies: its contract only says it calls the custom function. What such a call means is stated by Life.SatisfiesWithExample.
- Rulesets.Tolerate: the documented range 0 ≤ tolerance ≤ 1 is not required, because the code does not check it.
- Planes.SetItem: its own contract states the length, the integer write on zero or one axis, the failing tuple writes and the empty tuple. The successful writes of the other forms are stated by lemmas that assume success: SetThenGetCoords (full tuples), SetPrefixBlock (non-empty prefix tuples on a valid plane), SetScalarBlock (integers on N > 1, valid plane) and SetManyCoords (lists of full tuples). Prefix and integer writes on a plane whose bit count differs from the product of its shape, and a list write mixing index forms, are left to the general definition.
- src/display.py, src/bitplane.py, src/cell_plane.py, src/cam.py, src/neighborhood.py and src/exceptions.py: UI, numpy wrappers and stubs with no logic to model.

## Findings

| source | as written | input that shows it | evidently intended | confidence | as-written member | corrected member |
|---|---|---|---|---|---|---|
| examples/highlife.py:18-20 | A dead focus with 3, 6 or 8 live neighbours returns OFF, as does every other dead focus, so nothing is ever born | a dead focus with three live neighbours: grid [0,1,1,1], f_index 0, indices [1,2,3] | return ON, the B368 birth of the header "B368/S23" | high, not executed | Life.HighLifeMissesBirth | Life.HighLifeIntendedIsParsed |
| src/plane.py:93 | A prefix-tuple read slices `bits`, a name that is not defined there, so it raises NameError | any tuple shorter than N on a non-empty plane, e.g. (0,) on a 100×100 plane | slice `self.bits[offset:offset+shift]` and return it as a plane of the remaining axes | high, not executed | Planes.PartialReadFails | Planes.PrefixWriteThenReadIntended |
| src/plane.py:155-157 | The draw comes from `randrange(0, max_unsigned)` with `max_unsigned` the product of the shape, the cell count n, and is zero-filled to n bits, so only the last ⌈log2 n⌉ bits can be set | a 100×100 plane: every draw is below 10000 < 2^14, so bits 0..9985 are always 0 | draw from `randrange(0, 2**n)` so that every n-bit pattern can occur, as "random values" in the docstring and the name `max_unsigned` say | high, not executed | Planes.RandomizeClearsLeadingBits | Planes.RandomizeIntendedReachesAll |
