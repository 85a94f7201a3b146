/** Small facts about integer multiplication and division, and runs of consecutive integers. */
module Arith {

  lemma MulLeft(a: int, b: int, c: nat)
    requires a <= b
    ensures a * c <= b * c
  {
  }

  lemma MulSucc(a: int, c: int)
    ensures (a + 1) * c == a * c + c
  {
  }

  lemma MulNat(a: nat, c: nat)
    ensures 0 <= a * c
  {
  }

  lemma MulCancel(a: int, b: int, c: nat)
    requires a * c < b * c
    ensures a < b
  {
    if b <= a {
      MulLeft(b, a, c);
    }
  }

  lemma PositiveFactors(w: nat, h: nat, b: nat)
    requires 0 < w * h * b
    ensures 0 < w && 0 < h && 0 < b
  {
  }

  /** Euclidean division of a natural number by a positive one. */
  lemma DivMod(n: nat, d: nat)
    requires 0 < d
    ensures n == (n / d) * d + n % d && 0 <= n % d < d && 0 <= n / d
  {
  }

  /** Division with a remainder has only one solution. */
  lemma DivModUnique(n: int, d: int, q: int, r: int)
    requires 0 < d && 0 <= r < d && n == q * d + r
    ensures n / d == q && n % d == r
  {
    var q', r' := n / d, n % d;
    assert n == q' * d + r';
    assert (q - q') * d == r' - r;
    if q > q' {
      MulLeft(1, q - q', d);
    } else if q < q' {
      MulLeft(1, q' - q, d);
    }
  }

  /** For a positive divisor, `a * q <= n` exactly when `a <= n / q`. */
  lemma DivLowerBound(n: int, q: int, a: int)
    requires 0 < q
    ensures a * q <= n <==> a <= n / q
  {
    var d, r := n / q, n % q;
    assert n == d * q + r && 0 <= r < q;
    if a <= d {
      MulLeft(a, d, q);
    } else {
      MulLeft(d + 1, a, q);
      MulSucc(d, q);
    }
  }

  /** The positions `lo, lo+1, ..., hi-1`, in that order. */
  function Interval(lo: int, hi: int): (s: seq<int>)
    requires lo <= hi
    ensures |s| == hi - lo && forall k :: 0 <= k < |s| ==> s[k] == lo + k
  {
    seq(hi - lo, k => lo + k)
  }

  lemma IntervalAppend(lo: int, mid: int, hi: int)
    requires lo <= mid <= hi
    ensures Interval(lo, mid) + Interval(mid, hi) == Interval(lo, hi)
  {
  }

  lemma IntervalSnoc(lo: int, hi: int)
    requires lo <= hi
    ensures Interval(lo, hi) + [hi] == Interval(lo, hi + 1)
  {
  }
}
