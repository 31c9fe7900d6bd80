/**
 * `humanReadableFilesize` (main.go:57-67), which `main` uses to report the
 * amount written: sizes below 1024 are printed as plain bytes, larger ones
 * divided by the largest power of 1024 that leaves a quotient of at least 1,
 * with the matching prefix from "kMGTPE". The size is a Go `int64`.
 */
module Filesize {

  const Unit: int := 1024
  const MinInt64: int := -0x8000_0000_0000_0000
  const MaxInt64: int := 0x7fff_ffff_ffff_ffff
  const Prefixes: string := "kMGTPE"

  /** How a size is printed: `"%d B"`, or `"%.1f %cB"` of `size / div` with prefix `Prefixes[exp]`. */
  datatype Readable = Plain | Scaled(div: int, exp: nat)

  function Pow(k: nat): (p: nat)
    ensures p >= 1
  {
    if k == 0 then 1 else Unit * Pow(k - 1)
  }

  /**
   * main.go:57-67: chooses how to print `size`. Plain bytes exactly below
   * 1024; otherwise `div` is `1024^(exp+1)`, the quotient lies in
   * [1, 1024), and `exp` indexes "kMGTPE" within bounds.
   */
  method Humanize(size: int) returns (r: Readable)
    requires MinInt64 <= size <= MaxInt64
    ensures r.Plain? <==> size < Unit
    ensures r.Scaled? ==> r.div == Pow(r.exp + 1) && r.div <= size < r.div * Unit
    ensures r.Scaled? ==> r.exp < |Prefixes|
  {
    if size < Unit {
      return Plain;
    }
    var div, exp := Unit, 0;
    var n := size / Unit;
    while n >= Unit
      invariant div == Pow(exp + 1) && div <= size
      invariant n == size / div && n >= 1
    {
      DivTwice(size, div, Unit);
      div := div * Unit;
      exp := exp + 1;
      n := n / Unit;
    }
    QuotientBounds(size, div, n);
    ExpBound(exp, size);
    return Scaled(div, exp);
  }

  /** `(a / b) / c == a / (b * c)` for positive divisors, and `b * c <= a` when that quotient is positive. */
  lemma DivTwice(a: nat, b: nat, c: nat)
    requires b > 0 && c > 0
    ensures a / b / c == a / (b * c)
    ensures a / b / c >= 1 ==> b * c <= a
  {
    var q, r := a / b, a % b;
    var q2, r2 := q / c, q % c;
    Regroup(a, b, c, q, r, q2, r2);
    DivOf(a, b * c, q2, b * r2 + r);
    if q2 >= 1 {
      MulLe(b * c, 1, q2);
    }
  }

  /** Two divisions in a row as one: `a = (b * c) * q2 + (b * r2 + r)` with the remainder below `b * c`. */
  lemma Regroup(a: nat, b: nat, c: nat, q: nat, r: nat, q2: nat, r2: nat)
    requires a == b * q + r && r < b
    requires q == c * q2 + r2 && r2 < c
    ensures a == (b * c) * q2 + (b * r2 + r)
    ensures b * r2 + r < b * c
  {
    assert b * q == (b * c) * q2 + b * r2;
    MulGap(b, r2, c);
  }

  lemma MulLe(a: nat, x: nat, y: nat)
    requires x <= y
    ensures a * x <= a * y
  {
    assert a * y == a * x + a * (y - x);
  }

  lemma MulGap(a: nat, x: nat, y: nat)
    requires x < y
    ensures a * x + a <= a * y
  {
    MulLe(a, x + 1, y);
  }

  /** Division is determined by the quotient-remainder decomposition. */
  lemma DivOf(a: nat, d: nat, q: nat, r: nat)
    requires d > 0 && a == d * q + r && r < d
    ensures a / d == q
  {
    var q0, r0 := a / d, a % d;
    if q0 < q {
      MulGap(d, q0, q);
      assert false;
    } else if q0 > q {
      MulGap(d, q, q0);
      assert false;
    }
  }

  /** A quotient in [1, 1024) puts the size between `div` and `1024 * div`. */
  lemma QuotientBounds(size: nat, div: nat, n: nat)
    requires div > 0 && n == size / div && 1 <= n < Unit
    ensures div <= size < div * Unit
  {
    assert size == div * n + size % div;
    MulLe(div, 1, n);
    MulGap(div, n, Unit);
  }

  /** Only powers up to 1024^6 fit in an `int64`, so `exp` stays below 6. */
  lemma ExpBound(exp: nat, size: int)
    requires Pow(exp + 1) <= size <= MaxInt64
    ensures exp < |Prefixes|
  {
    if exp >= 6 {
      PowMono(7, exp + 1);
      assert false;
    }
  }

  lemma {:induction false} PowMono(j: nat, k: nat)
    requires j <= k
    ensures Pow(j) <= Pow(k)
  {
    if j < k {
      PowMono(j, k - 1);
    }
  }

  /**
   * The bounds `Humanize` promises pin the scale down: two exponents whose
   * powers both bracket the size are equal.
   */
  lemma ScaleUnique(size: int, e1: nat, e2: nat)
    requires Pow(e1 + 1) <= size < Pow(e1 + 1) * Unit
    requires Pow(e2 + 1) <= size < Pow(e2 + 1) * Unit
    ensures e1 == e2
  {
    if e1 < e2 {
      PowMono(e1 + 2, e2 + 1);
      assert false;
    } else if e2 < e1 {
      PowMono(e2 + 2, e1 + 1);
      assert false;
    }
  }

  /** The unit printed after the number: "B", or the prefix then "B". */
  function Symbol(r: Readable): (s: string)
    requires r.Scaled? ==> r.exp < |Prefixes|
    ensures |s| == (if r.Plain? then 1 else 2) && s[|s| - 1] == 'B'
    ensures r.Scaled? ==> s[0] == Prefixes[r.exp]
  {
    match r
    case Plain => "B"
    case Scaled(_, exp) => [Prefixes[exp], 'B']
  }
}
