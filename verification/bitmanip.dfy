/** Bit helpers of src/bitmanip.py: the largest unsigned value of a width,
    zero-padded binary strings, and removal of one element of a sequence. */
module BitManip {
  import opened PySemantics

  function Pow2(n: nat): (r: nat)
    ensures r >= 1
  {
    if n == 0 then 1 else 2 * Pow2(n - 1)
  }

  /** `2**bit_count - 1`: the numeral of `bit_count` ones, the largest value
      that many bits hold. */
  function MaxUnsigned(bitCount: nat): (m: nat)
    ensures bitCount >= 1 ==> |Binary(m)| == bitCount
    ensures bitCount >= 1 ==> forall i :: 0 <= i < bitCount ==> Binary(m)[i] == '1'
  {
    if bitCount >= 1 then OnesBinary(bitCount, Pow2(bitCount) - 1); Pow2(bitCount) - 1
    else 0
  }

  predicate IsBit(c: char) { c == '0' || c == '1' }

  predicate IsBitString(s: string) { forall i :: 0 <= i < |s| ==> IsBit(s[i]) }

  function BitChar(b: nat): char
    requires b < 2
  {
    if b == 0 then '0' else '1'
  }

  /** The digits of `bin(v)` after its "0b" prefix: the binary numeral of
      `v` without leading zeros ("0" for zero). */
  function Binary(v: nat): (s: string)
    ensures |s| >= 1 && IsBitString(s)
    ensures s[0] == '1' || s == "0"
    ensures v == 0 <==> s == "0"
  {
    if v < 2 then [BitChar(v)] else Binary(v / 2) + [BitChar(v % 2)]
  }

  /** Python's `bin(v)`, sign included. */
  function Bin(v: int): string
  {
    if v >= 0 then "0b" + Binary(v) else "-0b" + Binary(-v)
  }

  function Zeros(n: nat): (z: string)
    ensures |z| == n && forall i :: 0 <= i < n ==> z[i] == '0'
  {
    seq(n, _ => '0')
  }

  /** `2**n - 1` is written with `n` ones. */
  lemma {:induction false} OnesBinary(n: nat, v: nat)
    requires n >= 1 && v == Pow2(n) - 1
    ensures |Binary(v)| == n
    ensures forall i :: 0 <= i < n ==> Binary(v)[i] == '1'
  {
    if n >= 2 {
      assert v / 2 == Pow2(n - 1) - 1 && v % 2 == 1;
      OnesBinary(n - 1, v / 2);
      assert Binary(v) == Binary(v / 2) + ['1'];
    }
  }

  /** `bits_of(value, size)`: `bin(value)[2:]` padded with zeros on the left
      up to `size` characters. For a non-negative value the result is a
      '0'/'1' string of at least `size` characters that reads back as the
      value. */
  function BitsOf(value: int, size: int): (s: string)
    ensures value >= 0 ==> IsBitString(s) && |s| == Max(size, |Binary(value)|)
    ensures value >= 0 ==> Value(s) == value
  {
    var base := Bin(value)[2..];
    assert value >= 0 ==> Value(if size > |base| then Zeros(size - |base|) + base else base) == value by {
      if value >= 0 {
        assert base == Binary(value);
        ValueOfBinary(value);
        if size > |base| {
          ValueIgnoresLeadingZeros(size - |base|, base);
        }
      }
    }
    if size > |base| then Zeros(size - |base|) + base else base
  }

  /** The number a string of '0'/'1' digits denotes in base 2. */
  function Value(s: string): nat
  {
    if |s| == 0 then 0
    else 2 * Value(s[..|s| - 1]) + (if s[|s| - 1] == '1' then 1 else 0)
  }

  lemma {:induction false} ValueOfBinary(v: nat)
    ensures Value(Binary(v)) == v
    decreases v
  {
    if v >= 2 {
      var s := Binary(v);
      assert s[..|s| - 1] == Binary(v / 2);
      ValueOfBinary(v / 2);
    }
  }

  lemma {:induction false} ValueOfZeros(n: nat)
    ensures Value(Zeros(n)) == 0
  {
    if n > 0 {
      assert Zeros(n)[..n - 1] == Zeros(n - 1);
      ValueOfZeros(n - 1);
    }
  }

  /** Leading zeros do not change the value. */
  lemma {:induction false} ValueIgnoresLeadingZeros(n: nat, s: string)
    ensures Value(Zeros(n) + s) == Value(s)
    decreases |s|
  {
    if |s| == 0 {
      assert Zeros(n) + s == Zeros(n);
      ValueOfZeros(n);
    } else {
      var t := Zeros(n) + s;
      assert t[..|t| - 1] == Zeros(n) + s[..|s| - 1];
      ValueIgnoresLeadingZeros(n, s[..|s| - 1]);
    }
  }

  /** For a non-negative value, only zeros are added in front of its binary
      numeral, so the length is the larger of `size` and the numeral's. */
  lemma BitsOfShape(value: nat, size: int)
    ensures size <= |Binary(value)| ==> BitsOf(value, size) == Binary(value)
    ensures size > |Binary(value)| ==> BitsOf(value, size) == Zeros(size - |Binary(value)|) + Binary(value)
  {
    assert Bin(value)[2..] == Binary(value);
  }


  /** A value fits in `n >= 1` bits exactly when it is at most
      `max_unsigned(n)`. */
  lemma {:induction false} BinaryFits(v: nat, n: nat)
    requires n >= 1
    ensures |Binary(v)| <= n <==> v <= MaxUnsigned(n)
    decreases v
  {
    if v >= 2 {
      assert |Binary(v)| == |Binary(v / 2)| + 1;
      if n >= 2 {
        BinaryFits(v / 2, n - 1);
      }
    }
  }

  /** `bits_of(v, n)` is exactly `n` characters wide for every `v` in
      [0, max_unsigned(n)]. */
  lemma BitsOfWidth(v: nat, n: nat)
    requires n >= 1 && v <= MaxUnsigned(n)
    ensures |BitsOf(v, n)| == n
  {
    BinaryFits(v, n);
    BitsOfShape(v, n);
  }

  /** `n < 2**n`, so every draw below `n` fits in `n` bits. */
  lemma {:induction false} BelowPow2(n: nat)
    ensures n <= MaxUnsigned(n)
  {
    if n > 0 {
      BelowPow2(n - 1);
    }
  }

  /** A string of `n` bits holds at most `2**n - 1`. */
  lemma {:induction false} ValueBelow(s: string)
    ensures Value(s) <= MaxUnsigned(|s|)
    decreases |s|
  {
    if |s| > 0 {
      ValueBelow(s[..|s| - 1]);
    }
  }

  /** Bit strings of one length with one value are the same string. */
  lemma {:induction false} ValueInjective(a: string, b: string)
    requires IsBitString(a) && IsBitString(b) && |a| == |b|
    requires Value(a) == Value(b)
    ensures a == b
    decreases |a|
  {
    var n := |a|;
    if n > 0 {
      assert a[n - 1] == b[n - 1];
      ValueInjective(a[..n - 1], b[..n - 1]);
      assert a == a[..n - 1] + [a[n - 1]];
      assert b == b[..n - 1] + [b[n - 1]];
    }
  }

  /** `bits_of` at a string's own width gives every bit string back, leading
      zeros included. */
  lemma BitsOfValue(s: string)
    requires IsBitString(s) && |s| >= 1
    ensures BitsOf(Value(s), |s|) == s
  {
    ValueBelow(s);
    BinaryFits(Value(s), |s|);
    ValueInjective(BitsOf(Value(s), |s|), s);
  }

  /** `cycle(itr, offset)`: `itr[:offset] + itr[offset+1:]`. */
  function Cycle<T>(s: seq<T>, offset: int): (r: seq<T>)
    ensures 0 <= offset < |s| ==> |r| == |s| - 1 && r[..offset] == s[..offset] && r[offset..] == s[offset + 1..]
    ensures offset >= |s| ==> r == s
  {
    SliceTo(s, offset) + SliceFrom(s, offset + 1)
  }

  /** Putting the removed element back where it was restores the sequence,
      so `cycle` drops exactly one occurrence of `s[offset]`. */
  lemma CycleRemovesOne<T>(s: seq<T>, offset: int)
    requires 0 <= offset < |s|
    ensures Cycle(s, offset)[..offset] + [s[offset]] + Cycle(s, offset)[offset..] == s
    ensures multiset(Cycle(s, offset)) + multiset{s[offset]} == multiset(s)
  {
    var r := Cycle(s, offset);
    assert s == s[..offset] + [s[offset]] + s[offset + 1..];
    assert r == r[..offset] + r[offset..];
  }
}
