/** The Life-like rule-string parser of src/cam_parser.py (and its twin
    `CAMParser` in src/util.py): MCell notation "x/y" and RLE notation
    "By/Sx", where x lists the live-neighbour counts under which a live cell
    survives and y those under which a dead cell is born. The regular
    expressions of the source are replaced by a hand-written classifier. */
module CamParser {
  import opened PySemantics

  predicate IsDigit(ch: char) { '0' <= ch <= '9' }

  predicate AllDigits(s: string) { forall i :: 0 <= i < |s| ==> IsDigit(s[i]) }

  /** Each character is at least its predecessor. */
  predicate NonDecreasing(s: string) { forall i :: 0 < i < |s| ==> s[i - 1] <= s[i] }

  /** The position of the first '/', or |s| when there is none. */
  function SlashIndex(s: string): (k: nat)
    ensures k <= |s|
    ensures k < |s| ==> s[k] == '/'
    ensures forall j :: 0 <= j < k ==> s[j] != '/'
  {
    if |s| == 0 || s[0] == '/' then 0 else 1 + SlashIndex(s[1..])
  }

  // What a notation string looks like: the MCell form (digits, '/',
  // digits, end of string), the RLE form ('B', digits, "/S", digits, end of
  // string), each with its two digit groups, or neither.
  datatype Notation =
    | MCell(survive: string, birth: string)
    | Rle(birth: string, survive: string)
    | Unsupported

  function Classify(s: string): (n: Notation)
    ensures n.MCell? ==> AllDigits(n.survive) && AllDigits(n.birth) && s == n.survive + "/" + n.birth
    ensures n.Rle? ==> AllDigits(n.birth) && AllDigits(n.survive) && s == "B" + n.birth + "/S" + n.survive
  {
    var k := SlashIndex(s);
    if k < |s| && AllDigits(s[..k]) && AllDigits(s[k + 1..]) then
      assert s == s[..k] + [s[k]] + s[k + 1..];
      MCell(s[..k], s[k + 1..])
    else if 1 <= k < |s| - 1 && s[0] == 'B' && s[k + 1] == 'S'
         && AllDigits(s[1..k]) && AllDigits(s[k + 2..]) then
      assert s == [s[0]] + s[1..k] + [s[k], s[k + 1]] + s[k + 2..];
      Rle(s[1..k], s[k + 2..])
    else
      Unsupported
  }

  /** Why a notation is refused; util.py raises these as InvalidFormat and
      cam_parser.py as ValueError. */
  datatype Reason = NonAscendingMCell | NonAscendingRle | NoSupportedFormat

  /** The neighbour counts under which a live cell survives and a dead cell
      is born. */
  datatype Rule = Rule(survive: seq<int>, birth: seq<int>)

  /** `sorted(value)` on characters: insertion into an ordered string. */
  function Insert(ch: char, s: string): (r: string)
    ensures |r| == |s| + 1
    ensures |s| == 0 ==> r == [ch]
    ensures |s| > 0 ==> r[0] == ch || r[0] == s[0]
    ensures NonDecreasing(s) ==> NonDecreasing(r)
  {
    if |s| == 0 || ch <= s[0] then [ch] + s else [s[0]] + Insert(ch, s[1..])
  }

  function Sorted(s: string): (r: string)
    ensures |r| == |s| && NonDecreasing(r)
  {
    if |s| == 0 then [] else Insert(s[0], Sorted(s[1..]))
  }

  /** `_numasc(value)`: every character is numeric and sorting the string
      leaves it unchanged. */
  function NumAsc(value: string): (r: bool)
    ensures r <==> AllDigits(value) && NonDecreasing(value)
  {
    assert NonDecreasing(value) ==> Sorted(value) == value by {
      if NonDecreasing(value) {
        SortedOfOrdered(value);
      }
    }
    AllDigits(value) && Sorted(value) == value
  }

  /** `list(map(int, x))` */
  function DigitValues(s: string): (d: seq<int>)
    requires AllDigits(s)
    ensures |d| == |s| && forall i :: 0 <= i < |s| ==> 0 <= d[i] <= 9
    ensures NonDecreasing(s) ==> Ascending(d)
  {
    seq(|s|, i requires 0 <= i < |s| => s[i] as int - '0' as int)
  }

  /** Digits from 0 to 9, each at least its predecessor: the digit groups a
      rule string may hold. */
  predicate Ascending(d: seq<int>)
  {
    (forall i :: 0 <= i < |d| ==> 0 <= d[i] <= 9) &&
    forall i :: 0 < i < |d| ==> d[i - 1] <= d[i]
  }

  /** The rule string digits of a list of digits. */
  function DigitText(d: seq<int>): (s: string)
    requires forall i :: 0 <= i < |d| ==> 0 <= d[i] <= 9
    ensures |s| == |d| && AllDigits(s)
  {
    seq(|d|, i requires 0 <= i < |d| => (d[i] + '0' as int) as char)
  }

  /** Writing the parsed digits back gives the digit group read. */
  lemma DigitTextOfValues(s: string)
    requires AllDigits(s)
    ensures DigitText(DigitValues(s)) == s
  {
    var t := DigitText(DigitValues(s));
    forall i | 0 <= i < |s|
      ensures t[i] == s[i]
    {
      assert DigitValues(s)[i] == s[i] as int - '0' as int;
    }
  }

  /** `CAMParser.__init__` without the construction of the ruleset: MCell is
      tried first, then RLE; an RLE string passes its S and B groups to
      `_mcell` in MCell order. */
  function Parse(notation: string): (r: Result<Rule, Reason>)
    ensures r == Err(NoSupportedFormat) <==> Classify(notation).Unsupported?
    ensures r.Ok? ==> Ascending(r.value.survive) && Ascending(r.value.birth)
    ensures r.Ok? ==>
      notation == DigitText(r.value.survive) + "/" + DigitText(r.value.birth) ||
      notation == "B" + DigitText(r.value.birth) + "/S" + DigitText(r.value.survive)
  {
    var c := Classify(notation);
    assert c.MCell? ==> DigitText(DigitValues(c.survive)) == c.survive && DigitText(DigitValues(c.birth)) == c.birth by {
      if c.MCell? {
        DigitTextOfValues(c.survive);
        DigitTextOfValues(c.birth);
      }
    }
    assert c.Rle? ==> DigitText(DigitValues(c.survive)) == c.survive && DigitText(DigitValues(c.birth)) == c.birth by {
      if c.Rle? {
        DigitTextOfValues(c.survive);
        DigitTextOfValues(c.birth);
      }
    }
    match Classify(notation)
    case MCell(x, y) =>
      if NumAsc(x) && NumAsc(y) then Ok(Rule(DigitValues(x), DigitValues(y)))
      else Err(NonAscendingMCell)
    case Rle(b, s) =>
      if NumAsc(b) && NumAsc(s) then Ok(Rule(DigitValues(s), DigitValues(b)))
      else Err(NonAscendingRle)
    case Unsupported => Err(NoSupportedFormat)
  }

  /** The `next_state` closure `_mcell` builds: a live focus survives when
      the neighbourhood total is one of the survive digits, a dead focus is
      born when it is one of the birth digits. */
  function NextState(rule: Rule, alive: bool, total: int): (r: int)
    ensures r == 0 || r == 1
    ensures alive ==> (r == 1 <==> total in rule.survive)
    ensures !alive ==> (r == 1 <==> total in rule.birth)
  {
    if alive then (if total in rule.survive then 1 else 0)
    else (if total in rule.birth then 1 else 0)
  }

  // ---------------------------------------------------------------------
  // The digit-group check

  /** An ordered string sorts to itself. */
  lemma {:induction false} SortedOfOrdered(s: string)
    requires NonDecreasing(s)
    ensures Sorted(s) == s
    decreases |s|
  {
    if |s| > 0 {
      assert NonDecreasing(s[1..]);
      SortedOfOrdered(s[1..]);
    }
  }

  /** The "distinct digits from 0 to 8" of the doc comment is not enforced:
      repeated digits and the digit 9 pass. */
  lemma NumAscAcceptsRepeatsAndNine()
    ensures NumAsc("") && NumAsc("33") && NumAsc("9")
  {
  }

  lemma NumAscRejects()
    ensures !NumAsc("32") && !NumAsc("2a")
  {
    assert !IsDigit("2a"[1]);
  }

  // ---------------------------------------------------------------------
  // The classifier against the two notations

  lemma SlashIndexOf(x: string, y: string)
    requires forall i :: 0 <= i < |x| ==> x[i] != '/'
    ensures SlashIndex(x + "/" + y) == |x|
  {
    var s := x + "/" + y;
    assert s[|x|] == '/';
    assert forall j :: 0 <= j < |x| ==> s[j] == x[j];
  }

  /** Every "x/y" with digit groups classifies as MCell with those groups. */
  lemma ClassifyMCellComplete(x: string, y: string)
    requires AllDigits(x) && AllDigits(y)
    ensures Classify(x + "/" + y) == MCell(x, y)
  {
    var s := x + "/" + y;
    SlashIndexOf(x, y);
    assert s[..|x|] == x && s[|x| + 1..] == y;
  }

  /** Every "By/Sx" with digit groups classifies as RLE with those groups. */
  lemma ClassifyRleComplete(y: string, x: string)
    requires AllDigits(y) && AllDigits(x)
    ensures Classify("B" + y + "/S" + x) == Rle(y, x)
  {
    var s := "B" + y + "/S" + x;
    assert s == ("B" + y) + "/" + ("S" + x);
    SlashIndexOf("B" + y, "S" + x);
    var k := |y| + 1;
    assert s[..k][0] == 'B';
    assert s[1..k] == y && s[k + 2..] == x;
  }

  /** The two notations never overlap: a string starting with 'B' can only
      be RLE. */
  lemma FormatsDisjoint(s: string)
    requires |s| > 0 && s[0] == 'B'
    ensures !Classify(s).MCell?
  {
    var k := SlashIndex(s);
    assert k < |s| ==> k > 0;
    assert 0 < k <= |s| ==> s[..k][0] == 'B';
  }

  // ---------------------------------------------------------------------
  // Parsing

  /** An ascending "x/y" gives survive = x and birth = y. */
  lemma ParseMCell(x: string, y: string)
    requires AllDigits(x) && AllDigits(y)
    ensures Parse(x + "/" + y) ==
      if NonDecreasing(x) && NonDecreasing(y) then Ok(Rule(DigitValues(x), DigitValues(y)))
      else Err(NonAscendingMCell)
  {
    ClassifyMCellComplete(x, y);
  }

  /** An ascending "By/Sx" gives birth = y and survive = x. */
  lemma ParseRle(y: string, x: string)
    requires AllDigits(y) && AllDigits(x)
    ensures Parse("B" + y + "/S" + x) ==
      if NonDecreasing(y) && NonDecreasing(x) then Ok(Rule(DigitValues(x), DigitValues(y)))
      else Err(NonAscendingRle)
  {
    ClassifyRleComplete(y, x);
  }

  /** "By/Sx" and "x/y" describe the same rule: both parse, to the same
      rule, or both are refused. */
  lemma RleMatchesMCell(x: string, y: string)
    requires AllDigits(x) && AllDigits(y)
    ensures Parse("B" + y + "/S" + x).Ok? <==> Parse(x + "/" + y).Ok?
    ensures Parse("B" + y + "/S" + x).Ok? ==> Parse("B" + y + "/S" + x) == Parse(x + "/" + y)
  {
    ParseMCell(x, y);
    ParseRle(y, x);
  }

  /** A string of neither shape is refused with "No supported format". */
  lemma ParseUnsupported(s: string)
    requires !(exists k :: 0 <= k < |s| && s[k] == '/')
    ensures Parse(s) == Err(NoSupportedFormat)
  {
  }

  lemma DigitValuesOf(s: string, d: seq<int>)
    requires AllDigits(s) && |d| == |s|
    requires forall i :: 0 <= i < |s| ==> d[i] == s[i] as int - '0' as int
    ensures DigitValues(s) == d
  {
  }

  /** A concrete RLE test vector: `s` spells "By/Sx" and parses to the rule
      whose digit lists are `survive` and `birth`. */
  lemma ParseRleVector(s: string, y: string, x: string, birth: seq<int>, survive: seq<int>)
    requires s == "B" + y + "/S" + x
    requires AllDigits(y) && AllDigits(x) && NonDecreasing(y) && NonDecreasing(x)
    requires DigitValues(y) == birth && DigitValues(x) == survive
    ensures Parse(s) == Ok(Rule(survive, birth))
  {
    ParseRle(y, x);
  }

  // The rule strings of the simulator's examples ("B3/S23", "23/3", ...),
  // each written as its digit groups and separators.

  const LifeRle: string := "B" + "3" + "/S" + "23"
  const LifeMCell: string := "23" + "/" + "3"
  const Seeds: string := "B" + "2" + "/S" + ""
  const LifeWithoutDeath: string := "B" + "3" + "/S" + "012345678"
  const Replicator: string := "B" + "1357" + "/S" + "1357"
  const Morley: string := "B" + "368" + "/S" + "245"
  const HighLifeNotation: string := "B" + "368" + "/S" + "23"
  const DescendingMCell: string := "32" + "/" + "3"
  const DescendingRle: string := "B" + "3" + "/S" + "32"
  const SwappedHalves: string := "S23" + "/" + "B3"

  /** Conway's Life, "B3/S23". */
  lemma ParseLifeRle()
    ensures Parse(LifeRle) == Ok(Rule([2, 3], [3]))
  {
    DigitValuesOf("3", [3]);
    DigitValuesOf("23", [2, 3]);
    ParseRleVector(LifeRle, "3", "23", [3], [2, 3]);
  }

  /** Conway's Life in MCell notation, "23/3". */
  lemma ParseLifeMCell()
    ensures Parse(LifeMCell) == Ok(Rule([2, 3], [3]))
  {
    DigitValuesOf("3", [3]);
    DigitValuesOf("23", [2, 3]);
    ParseMCell("23", "3");
  }

  /** Seeds, "B2/S": the S group is empty. */
  lemma ParseSeeds()
    ensures Parse(Seeds) == Ok(Rule([], [2]))
  {
    DigitValuesOf("2", [2]);
    DigitValuesOf("", []);
    ParseRleVector(Seeds, "2", "", [2], []);
  }

  /** Life without Death, "B3/S012345678". */
  lemma ParseLifeWithoutDeath()
    ensures Parse(LifeWithoutDeath) == Ok(Rule([0, 1, 2, 3, 4, 5, 6, 7, 8], [3]))
  {
    DigitValuesOf("3", [3]);
    DigitValuesOf("012345678", [0, 1, 2, 3, 4, 5, 6, 7, 8]);
    ParseRleVector(LifeWithoutDeath, "3", "012345678", [3], [0, 1, 2, 3, 4, 5, 6, 7, 8]);
  }

  /** Replicator, "B1357/S1357". */
  lemma ParseReplicator()
    ensures Parse(Replicator) == Ok(Rule([1, 3, 5, 7], [1, 3, 5, 7]))
  {
    DigitValuesOf("1357", [1, 3, 5, 7]);
    ParseRleVector(Replicator, "1357", "1357", [1, 3, 5, 7], [1, 3, 5, 7]);
  }

  /** Morley, "B368/S245". */
  lemma ParseMorley()
    ensures Parse(Morley) == Ok(Rule([2, 4, 5], [3, 6, 8]))
  {
    DigitValuesOf("368", [3, 6, 8]);
    DigitValuesOf("245", [2, 4, 5]);
    ParseRleVector(Morley, "368", "245", [3, 6, 8], [2, 4, 5]);
  }

  /** High Life, "B368/S23". */
  lemma ParseHighLife()
    ensures Parse(HighLifeNotation) == Ok(Rule([2, 3], [3, 6, 8]))
  {
    DigitValuesOf("368", [3, 6, 8]);
    DigitValuesOf("23", [2, 3]);
    ParseRleVector(HighLifeNotation, "368", "23", [3, 6, 8], [2, 3]);
  }

  /** A descending group is refused in MCell notation, "32/3"... */
  lemma ParseDescendingMCell()
    ensures Parse(DescendingMCell) == Err(NonAscendingMCell)
  {
    assert !NonDecreasing("32") by {
      assert "32"[0] > "32"[1];
    }
    ParseMCell("32", "3");
  }

  /** ...and in RLE notation, "B3/S32". */
  lemma ParseDescendingRle()
    ensures Parse(DescendingRle) == Err(NonAscendingRle)
  {
    assert !NonDecreasing("32") by {
      assert "32"[0] > "32"[1];
    }
    ParseRle("3", "32");
  }

  /** "S23/B3" is neither form: its first group is not digits and it does
      not start with 'B'. */
  lemma ParseSwappedHalves()
    ensures Parse(SwappedHalves) == Err(NoSupportedFormat)
  {
    SlashIndexOf("S23", "B3");
    assert SlashIndex(SwappedHalves) == 3;
    assert !IsDigit(SwappedHalves[..3][0]);
  }
}
