/** The predicates of src/ruleset.py over a focus cell's residents: each
    resident pairs the actual value of a neighbouring cell with the state
    the neighbourhood expects of it. */
module Rulesets {
  import opened PySemantics
  import opened Tally

  /** (actual value of the cell, expected state) */
  type Resident = (bool, int)

  /** `resident[0].value == resident[1]`, where Python compares True with 1
      and False with 0. */
  predicate Agrees(x: Resident)
  {
    BoolToInt(x.0) == x.1
  }

  function Agreements(residents: seq<Resident>): (n: nat)
    ensures n <= |residents|
  {
    Count(residents, Agrees)
  }

  /** `Ruleset.matches`: the scan stops at the first resident that
      disagrees. */
  function Matches(residents: seq<Resident>): (r: bool)
    ensures r <==> forall k :: 0 <= k < |residents| ==> Agrees(residents[k])
  {
    if |residents| == 0 then true
    else if !Agrees(residents[0]) then false
    else Matches(residents[1..])
  }

  /** The early exit gives the answer of counting: everything matches
      exactly when every resident agrees. */
  lemma MatchesIsFullCount(residents: seq<Resident>)
    ensures Matches(residents) <==> Agreements(residents) == |residents|
  {
    CountAll(residents, Agrees);
  }

  /** `Ruleset.tolerate`: the share of agreeing residents is at least the
      tolerance. The share is a division by the number of residents. */
  function Tolerate(residents: seq<Resident>, tolerance: real): (r: Result<bool, PyError>)
    ensures r.Err? <==> |residents| == 0
    ensures r.Err? ==> r.error == ZeroDivisionError
    ensures r.Ok? ==> (r.value <==> Agreements(residents) as real >= tolerance * |residents| as real)
  {
    if |residents| == 0 then Err(ZeroDivisionError)
    else
      var n := |residents| as real;
      var a := Agreements(residents) as real;
      assert a / n * n == a;
      Ok(a / n >= tolerance)
  }

  /** A tolerance of 1 asks for every resident to agree, as `matches`
      does. */
  lemma TolerateOneIsMatches(residents: seq<Resident>)
    requires |residents| > 0
    ensures Tolerate(residents, 1.0) == Ok(Matches(residents))
  {
    MatchesIsFullCount(residents);
  }

  /** No tolerance up to 0 can fail. */
  lemma TolerateZeroPasses(residents: seq<Resident>, tolerance: real)
    requires |residents| > 0 && tolerance <= 0.0
    ensures Tolerate(residents, tolerance) == Ok(true)
  {
  }

  /** Passing at a tolerance means passing at every lower one. */
  lemma TolerateMonotone(residents: seq<Resident>, lower: real, higher: real)
    requires |residents| > 0 && lower <= higher
    requires Tolerate(residents, higher) == Ok(true)
    ensures Tolerate(residents, lower) == Ok(true)
  {
    var n := |residents| as real;
    assert lower * n <= higher * n;
  }

  /** Two of four agreeing residents pass at 0.5, one of four does not; the
      boundary is inclusive. */
  lemma TolerateHalfExample()
    ensures Tolerate([(true, 1), (true, 1), (false, 1), (false, 1)], 0.5) == Ok(true)
    ensures Tolerate([(true, 1), (false, 1), (false, 1), (false, 1)], 0.5) == Ok(false)
  {
    var two: seq<Resident> := [(true, 1), (true, 1), (false, 1), (false, 1)];
    var one: seq<Resident> := [(true, 1), (false, 1), (false, 1), (false, 1)];
    assert Agreements(two) == 2 by {
      assert two[1..][1..] == [(false, 1), (false, 1)];
      assert Count([(false, 1), (false, 1)], Agrees) == 0 by {
        assert [(false, 1), (false, 1)][1..] == [(false, 1)];
      }
    }
    assert Agreements(one) == 1 by {
      assert one[1..] == [(false, 1), (false, 1), (false, 1)];
      assert one[1..][1..] == [(false, 1), (false, 1)];
      assert Count([(false, 1), (false, 1)], Agrees) == 0 by {
        assert [(false, 1), (false, 1)][1..] == [(false, 1)];
      }
    }
  }

  /** Agreement counts do not depend on the order of the residents. */
  lemma TolerateIgnoresOrder(a: seq<Resident>, b: seq<Resident>, tolerance: real)
    requires multiset(a) == multiset(b)
    ensures |a| == |b|
    ensures Tolerate(a, tolerance) == Tolerate(b, tolerance)
    ensures Matches(a) == Matches(b)
  {
    assert |a| == |multiset(a)| == |multiset(b)| == |b|;
    CountPermutation(a, b, Agrees);
    MatchesIsFullCount(a);
    MatchesIsFullCount(b);
  }

  /** `Ruleset.satisfies`: the custom function's verdict on the focus cell,
      the grid and the residents. */
  function Satisfies<C, G>(cell: C, grid: G, residents: seq<Resident>, validFunc: (C, G, seq<Resident>) -> bool): (r: bool)
    ensures r == validFunc(cell, grid, residents)
  {
    validFunc(cell, grid, residents)
  }
}
