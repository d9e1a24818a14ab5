/** The parts of Python's value semantics the simulator leans on: optional
    and failing results, the exceptions the modelled code raises, and the
    clamping rules of sequence indexing and slicing. */
module PySemantics {

  datatype Option<+T> = None | Some(value: T)

  datatype Result<+T, +E> = Ok(value: T) | Err(error: E)

  /** The built-in exceptions the modelled code can raise. */
  datatype PyError = ValueError | IndexError | NameError | ZeroDivisionError

  function Max(a: int, b: int): int { if a < b then b else a }

  /** `int(b)` for a bool: True is 1 and False is 0. */
  function BoolToInt(b: bool): int { if b then 1 else 0 }

  function Min(a: int, b: int): int { if a < b then a else b }

  /** Where a slice bound `i` lands in a sequence of length `n`: a negative
      bound counts from the end, and every bound is clamped into [0, n]. */
  function SliceBound(i: int, n: nat): (b: nat)
    ensures b <= n
  {
    if i < 0 then Max(0, n + i) else Min(i, n)
  }

  /** `s[lo:hi]` */
  function Slice<T>(s: seq<T>, lo: int, hi: int): seq<T>
  {
    var a := SliceBound(lo, |s|);
    var b := SliceBound(hi, |s|);
    if a <= b then s[a..b] else []
  }

  /** `s[:hi]` */
  function SliceTo<T>(s: seq<T>, hi: int): seq<T>
  {
    s[..SliceBound(hi, |s|)]
  }

  /** `s[lo:]` */
  function SliceFrom<T>(s: seq<T>, lo: int): seq<T>
  {
    s[SliceBound(lo, |s|)..]
  }

  /** The position `s[i]` reads in a sequence of length `n`, or None where
      Python raises IndexError. */
  function PyIndex(i: int, n: nat): (r: Option<nat>)
    ensures r.Some? ==> r.value < n
  {
    if 0 <= i < n then Some(i)
    else if i < 0 && 0 <= n + i then Some(n + i)
    else None
  }

  /** `bits[lo:hi] = v` with a single bit `v`: every position of the
      (clamped) slice takes the value `v`. */
  function Fill(bits: seq<bool>, lo: int, hi: int, v: bool): (r: seq<bool>)
    ensures |r| == |bits|
  {
    var a := SliceBound(lo, |bits|);
    var b := SliceBound(hi, |bits|);
    seq(|bits|, j requires 0 <= j < |bits| => if a <= j < b then v else bits[j])
  }
}
