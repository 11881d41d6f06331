/** Small shared vocabulary: optional values, results, grid cells and integer helpers. */
module Common {

  /** A value that may be absent (Python's None, JavaScript's undefined). */
  datatype Option<+T> = None | Some(value: T)

  /** The outcome of an operation that can fail with an error value. */
  datatype Result<+T, +E> = Ok(value: T) | Err(error: E)

  /** A cell of an offset hex grid, addressed by column and row. */
  datatype Cell = Cell(col: int, row: int)

  function Abs(x: int): nat
  {
    if x < 0 then -x else x
  }

  function Max(a: int, b: int): int
  {
    if a < b then b else a
  }

  function Min(a: int, b: int): int
  {
    if a < b then a else b
  }

  /** Sum of a sequence of integers. */
  function Sum(s: seq<int>): int
  {
    if s == [] then 0 else Sum(s[..|s| - 1]) + s[|s| - 1]
  }

  /** Every element of `s` lies in the closed range [lo, hi]. */
  predicate AllIn(s: seq<int>, lo: int, hi: int)
  {
    forall i :: 0 <= i < |s| ==> lo <= s[i] <= hi
  }

  lemma {:induction false} SumBounds(s: seq<int>, lo: int, hi: int)
    requires AllIn(s, lo, hi)
    ensures |s| * lo <= Sum(s) <= |s| * hi
  {
    if s != [] {
      var init := s[..|s| - 1];
      assert AllIn(init, lo, hi) by {
        forall i | 0 <= i < |init| ensures lo <= init[i] <= hi { assert init[i] == s[i]; }
      }
      SumBounds(init, lo, hi);
      assert |s| * lo == |init| * lo + lo && |s| * hi == |init| * hi + hi;
    }
  }

  /** No element occurs twice. */
  predicate NoDuplicates<T(==)>(s: seq<T>)
  {
    forall i, j :: 0 <= i < j < |s| ==> s[i] != s[j]
  }

  /** The last `n` entries of `s`, oldest first: Python's `s[-n:]` for n > 0. */
  function KeepLast<T>(s: seq<T>, n: nat): (r: seq<T>)
    ensures |r| == Min(|s|, n)
    ensures r == s[|s| - |r|..]
  {
    if |s| > n then s[|s| - n..] else s
  }

  /** Appending to a sequence of at most `n` entries and keeping the last `n` drops at most the oldest one. */
  lemma KeepLastBounded<T>(s: seq<T>, x: T, n: nat)
    requires |s| <= n && n >= 1
    ensures |KeepLast(s + [x], n)| <= n
    ensures KeepLast(s + [x], n)[|KeepLast(s + [x], n)| - 1] == x
    ensures |s| == n ==> KeepLast(s + [x], n) == s[1..] + [x]
    ensures |s| < n ==> KeepLast(s + [x], n) == s + [x]
  {
  }
}
