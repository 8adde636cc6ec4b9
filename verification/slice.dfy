/**
 Python's list slicing `xs[lo:hi]` with arbitrary integer bounds: a negative
 bound counts from the end, and every bound is then clamped to the list.
 */
module PySlice {

  function Max(a: int, b: int): int { if a < b then b else a }

  function Min(a: int, b: int): int { if a < b then a else b }

  /** The position a slice bound `i` denotes in a list of length `n`. */
  function Bound(i: int, n: nat): (r: nat)
    ensures r <= n
  {
    if i < 0 then (if i + n < 0 then 0 else i + n)
    else if i > n then n
    else i
  }

  /** Python's `s[lo:hi]`. */
  function Slice<T>(s: seq<T>, lo: int, hi: int): (r: seq<T>)
    ensures |r| <= |s|
  {
    var a := Bound(lo, |s|);
    var b := Bound(hi, |s|);
    if a < b then s[a..b] else []
  }

  /**
   How the slice reads its bounds: in-range bounds select exactly that
   range, bounds past the end clamp to the end, and crossed bounds give the
   empty list.
   */
  lemma SliceSpec<T>(s: seq<T>, lo: int, hi: int)
    ensures 0 <= lo <= hi <= |s| ==> Slice(s, lo, hi) == s[lo..hi]
    ensures 0 <= lo <= |s| < hi ==> Slice(s, lo, hi) == s[lo..]
    ensures 0 <= hi <= lo ==> Slice(s, lo, hi) == []
    ensures -|s| <= lo < 0 && 0 <= hi <= |s| ==> Slice(s, lo, hi) == Slice(s, lo + |s|, hi)
    ensures 0 <= lo <= |s| && -|s| <= hi < 0 ==> Slice(s, lo, hi) == Slice(s, lo, hi + |s|)
  {
  }

  /** Every slice is a contiguous run of the list it was taken from. */
  lemma SliceContiguous<T>(s: seq<T>, lo: int, hi: int)
    ensures exists a, b :: 0 <= a <= b <= |s| && Slice(s, lo, hi) == s[a..b]
  {
    var a := Bound(lo, |s|);
    var b := Bound(hi, |s|);
    if a < b {
      assert Slice(s, lo, hi) == s[a..b];
    } else {
      assert Slice(s, lo, hi) == s[a..a];
    }
  }
}
