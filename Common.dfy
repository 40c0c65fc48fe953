/** Values and integer arithmetic shared by the page models: an optional
    value, sums of score lists, and JavaScript's `%`, `Math.floor`,
    `Math.ceil` and `Math.round` applied to a quotient of integers. */
module Common {

  /** A value that may be absent (`null` or `undefined`). */
  datatype Option<+T> = None | Some(value: T)

  /** `xs.reduce((acc, x) => acc + x, 0)`, folding from the left. */
  function Sum(xs: seq<int>): int
  {
    if |xs| == 0 then 0 else Sum(xs[..|xs| - 1]) + xs[|xs| - 1]
  }

  /** JavaScript's `a % b` for a positive divisor: the remainder takes the
      sign of the dividend. */
  function JsRemainder(a: int, b: int): (r: int)
    requires b > 0
    ensures a >= 0 ==> 0 <= r < b
    ensures a == b * FloorDiv(a, b) + r || a < 0
  {
    if a >= 0 then a % b else -((-a) % b)
  }

  /** `Math.floor(a / b)` for a positive divisor, which is Euclidean division. */
  function FloorDiv(a: int, b: int): (q: int)
    requires b > 0
    ensures b * q <= a < b * (q + 1)
  {
    a / b
  }

  /** `Math.ceil(a / b)` for a positive divisor: the least integer not below a/b. */
  function CeilDiv(a: int, b: int): (r: int)
    requires b > 0
    ensures b * (r - 1) < a <= b * r
  {
    -((-a) / b)
  }

  /** `Math.round(a / b)` for a positive divisor. JavaScript rounds halves
      towards positive infinity, so the result is floor(a/b + 1/2), which is
      the Euclidean quotient of 2a + b by 2b. */
  function RoundDiv(a: int, b: int): (r: int)
    requires b > 0
    ensures 2 * b * r <= 2 * a + b < 2 * b * (r + 1)
  {
    (2 * a + b) / (2 * b)
  }

  /** The integer characterisation of RoundDiv is Math.round on the exact quotient. */
  lemma RoundDivIsRoundOfQuotient(a: int, b: int)
    requires b > 0
    ensures (RoundDiv(a, b) as real) <= (a as real) / (b as real) + 0.5 < (RoundDiv(a, b) as real) + 1.0
  {
    var r := RoundDiv(a, b);
    BoundsAsReal(a, b, r);
    HalfBounds(a as real, b as real, r as real);
  }

  /** The integer bounds of RoundDiv, cast to reals. */
  lemma BoundsAsReal(a: int, b: int, r: int)
    requires 2 * b * r <= 2 * a + b < 2 * b * (r + 1)
    ensures 2.0 * (b as real) * (r as real) <= 2.0 * (a as real) + (b as real) < 2.0 * (b as real) * ((r as real) + 1.0)
  {
    var lo, hi := 2 * b * r, 2 * b * (r + 1);
    assert lo as real <= (2 * a + b) as real < hi as real;
    IntProductAsReal(2 * b, r);
    IntProductAsReal(2 * b, r + 1);
  }

  /** Dividing 2BR <= 2A + B < 2B(R + 1) by 2B. */
  lemma HalfBounds(A: real, B: real, R: real)
    requires B > 0.0
    requires 2.0 * B * R <= 2.0 * A + B < 2.0 * B * (R + 1.0)
    ensures R <= A / B + 0.5 < R + 1.0
  {
    var q := A / B;
    QuotientTimes(A, B);
    assert (q + 0.5) * B == A + 0.5 * B;
    assert R * B == 0.5 * (2.0 * B * R);
    assert (R + 1.0) * B == 0.5 * (2.0 * B * (R + 1.0));
    CancelPositive(R, q + 0.5, B);
    CancelPositiveStrict(q + 0.5, R + 1.0, B);
  }

  /** A quotient by a positive divisor of a value in [N·lo, N·hi] lies in [lo, hi]. */
  lemma QuotientBetween(S: real, N: real, lo: real, hi: real)
    requires N > 0.0 && N * lo <= S <= N * hi
    ensures lo <= S / N <= hi
  {
    QuotientTimes(S, N);
    assert lo * N <= (S / N) * N <= hi * N;
    CancelPositive(lo, S / N, N);
    CancelPositive(S / N, hi, N);
  }

  lemma IntProductAsReal(x: int, y: int)
    ensures (x * y) as real == (x as real) * (y as real)
  {
  }

  lemma QuotientTimes(a: real, b: real)
    requires b > 0.0
    ensures (a / b) * b == a
  {
  }

  lemma CancelPositive(x: real, y: real, c: real)
    requires c > 0.0 && x * c <= y * c
    ensures x <= y
  {
    assert (y - x) * c == y * c - x * c;
  }

  lemma CancelPositiveStrict(x: real, y: real, c: real)
    requires c > 0.0 && x * c < y * c
    ensures x < y
  {
    assert (y - x) * c == y * c - x * c;
  }

  /** RoundDiv is monotone in its dividend. */
  lemma RoundDivMonotone(a1: int, a2: int, b: int)
    requires b > 0 && a1 <= a2
    ensures RoundDiv(a1, b) <= RoundDiv(a2, b)
  {
  }

  /** An exact multiple rounds to its cofactor. */
  lemma RoundDivExact(k: int, b: int)
    requires b > 0
    ensures RoundDiv(k * b, b) == k
  {
    assert 2 * (k * b) + b == (2 * b) * k + b;
    DivUnique(2 * (k * b) + b, 2 * b, k, b);
  }

  /** Euclidean division has a unique quotient. */
  lemma DivUnique(n: int, d: int, q: int, r: int)
    requires d > 0 && 0 <= r < d && n == d * q + r
    ensures n / d == q
  {
    var q', r' := n / d, n % d;
    assert n == d * q' + r' && 0 <= r' < d;
    assert d * (q - q') == r' - r;
    if q > q' {
      MulAtLeast(d, q - q');
    } else if q < q' {
      MulAtLeast(d, q' - q);
    }
  }

  lemma MulAtLeast(d: int, x: int)
    requires d > 0 && x >= 1
    ensures d * x >= d
  {
    assert d * x == d + d * (x - 1);
  }

  /** A sum of values in [lo, hi] lies between |xs| * lo and |xs| * hi. */
  lemma {:induction false} SumBounds(xs: seq<int>, lo: int, hi: int)
    requires forall i :: 0 <= i < |xs| ==> lo <= xs[i] <= hi
    ensures |xs| * lo <= Sum(xs) <= |xs| * hi
  {
    if |xs| > 0 {
      var n := |xs|;
      SumBounds(xs[..n - 1], lo, hi);
      assert lo <= xs[n - 1] <= hi;
      assert n * lo == (n - 1) * lo + lo;
      assert n * hi == (n - 1) * hi + hi;
    }
  }

  /** A sum of non-negative values is non-negative. */
  lemma {:induction false} SumNonNegative(xs: seq<int>)
    requires forall i :: 0 <= i < |xs| ==> xs[i] >= 0
    ensures Sum(xs) >= 0
  {
    if |xs| > 0 {
      SumNonNegative(xs[..|xs| - 1]);
    }
  }

  /** Summing k copies of one value gives k times that value. */
  lemma {:induction false} SumConstant(xs: seq<int>, v: int)
    requires forall i :: 0 <= i < |xs| ==> xs[i] == v
    ensures Sum(xs) == |xs| * v
  {
    if |xs| > 0 {
      SumConstant(xs[..|xs| - 1], v);
    }
  }

  /** Sum distributes over concatenation. */
  lemma {:induction false} SumAppend(xs: seq<int>, ys: seq<int>)
    ensures Sum(xs + ys) == Sum(xs) + Sum(ys)
  {
    if |ys| > 0 {
      SumAppend(xs, ys[..|ys| - 1]);
      assert (xs + ys)[..|xs + ys| - 1] == xs + ys[..|ys| - 1];
    } else {
      assert xs + ys == xs;
    }
  }
}
