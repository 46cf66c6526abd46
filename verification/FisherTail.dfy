/** The one-sided Fisher-exact tail of the regression gate, over exact binomials and reals
    instead of `lgamma` and doubles. */
module FisherTail {

  /** Binomial coefficient by Pascal's rule; 0 outside 0..n, where the source's `lnChoose` is -Infinity. */
  function Choose(n: nat, k: int): nat {
    if n == 0 then (if k == 0 then 1 else 0)
    else Choose(n - 1, k - 1) + Choose(n - 1, k)
  }

  function Factorial(n: nat): nat {
    if n == 0 then 1 else n * Factorial(n - 1)
  }

  lemma {:induction false} ChoosePositive(n: nat, k: int)
    ensures Choose(n, k) > 0 <==> 0 <= k <= n
  {
    if n > 0 {
      ChoosePositive(n - 1, k - 1);
      ChoosePositive(n - 1, k);
    }
  }

  lemma AbsorptionStep(n: int, k: int, x: int, y: int, z: int)
    requires (k + 1) * z == (n - 1 - k) * y && k * y == (n - k) * x
    ensures (k + 1) * (y + z) == (n - k) * (x + y)
  {
    assert (k + 1) * (y + z) == (k + 1) * y + (k + 1) * z;
    assert (n - k) * (x + y) == (n - k) * x + (n - k) * y;
  }

  /** Choosing k+1 by extending a choice of k: both sides count the pairs. */
  lemma {:induction false} Absorption(n: nat, k: int)
    ensures (k + 1) * Choose(n, k + 1) == (n - k) * Choose(n, k)
  {
    if n > 0 {
      Absorption(n - 1, k);
      Absorption(n - 1, k - 1);
      AbsorptionStep(n, k, Choose(n - 1, k - 1), Choose(n - 1, k), Choose(n - 1, k + 1));
    } else {
      assert Choose(0, k + 1) == 0 || k == -1;
    }
  }

  /** The source computes n!/(k!(n-k)!) through `lgamma`; Pascal's rule gives the same number. */
  lemma {:induction false} ChooseIsFactorialRatio(n: nat, k: nat)
    requires k <= n
    ensures Choose(n, k) * (Factorial(k) * Factorial(n - k)) == Factorial(n)
    decreases k
  {
    if k == 0 {
      ChooseZero(n);
    } else {
      ChooseIsFactorialRatio(n, k - 1);
      Absorption(n, k - 1);
      assert Factorial(n - k + 1) == (n - k + 1) * Factorial(n - k);
      FactorialStep(n, k, Choose(n, k - 1), Choose(n, k), Factorial(k - 1), Factorial(n - k));
    }
  }

  lemma FactorialStep(n: int, k: int, x: int, y: int, f: int, g: int)
    requires k * y == (n - k + 1) * x
    ensures y * ((k * f) * g) == x * (f * ((n - k + 1) * g))
  {
    assert y * ((k * f) * g) == (k * y) * (f * g);
    assert x * (f * ((n - k + 1) * g)) == ((n - k + 1) * x) * (f * g);
  }

  lemma {:induction false} ChooseZero(n: nat)
    ensures Choose(n, 0) == 1
  {
    if n > 0 {
      ChooseZero(n - 1);
      ChoosePositive(n - 1, -1);
    }
  }

  // ---------------------------------------------------------------------------------------------
  // The 2x2 table: n candidate runs, m baseline runs, t passes in total, k of them the candidate's.

  function Cell(n: nat, m: nat, t: int, k: int): nat {
    Choose(n, k) * Choose(m, t - k)
  }

  /** Tables in which the candidate has at most c passes. */
  function Tail(n: nat, m: nat, t: int, c: int): nat
    decreases if c < 0 then 0 else c + 1
  {
    if c < 0 then 0 else Tail(n, m, t, c - 1) + Cell(n, m, t, c)
  }

  /** Extending every table of t passes by one more pass, in the candidate or in the baseline. */
  lemma ExtendCell(n: nat, m: nat, t: int, k: int)
    ensures (n + m - t) * Cell(n, m, t, k) == (k + 1) * Cell(n, m, t + 1, k + 1) + (t + 1 - k) * Cell(n, m, t + 1, k)
  {
    Absorption(n, k);
    Absorption(m, t - k);
    ExtendCellStep(n - k, m - (t - k), k + 1, t - k + 1, Choose(n, k), Choose(m, t - k), Choose(n, k + 1),
                   Choose(m, t - k + 1));
  }

  lemma ExtendCellStep(u: int, v: int, p: int, q: int, a: int, b: int, a': int, b': int)
    requires p * a' == u * a && q * b' == v * b
    ensures (u + v) * (a * b) == p * (a' * b) + q * (a * b')
  {
    assert (u + v) * (a * b) == (u * a) * b + a * (v * b);
    assert (p * a') * b == p * (a' * b) && a * (q * b') == q * (a * b');
  }

  /** The counting identity behind both monotonicity results: of the one-pass extensions of the tables with at most
      c candidate passes, exactly (c+1)*Cell(c+1) leave the tail. */
  lemma {:induction false} ExtendTail(n: nat, m: nat, t: int, c: int)
    requires c >= -1
    ensures (n + m - t) * Tail(n, m, t, c) == (t + 1) * Tail(n, m, t + 1, c) + (c + 1) * Cell(n, m, t + 1, c + 1)
    decreases c + 1
  {
    if c >= 0 {
      ExtendTail(n, m, t, c - 1);
      ExtendCell(n, m, t, c);
      ExtendTailStep(n + m - t, t, c, Tail(n, m, t, c - 1), Tail(n, m, t + 1, c - 1),
                     Cell(n, m, t, c), Cell(n, m, t + 1, c), Cell(n, m, t + 1, c + 1));
    }
  }

  lemma ExtendTailStep(q: int, t: int, c: int, a: int, a': int, x: int, y: int, z: int)
    requires q * a == (t + 1) * a' + c * y && q * x == (c + 1) * z + (t + 1 - c) * y
    ensures q * (a + x) == (t + 1) * (a' + y) + (c + 1) * z
  {
    assert q * (a + x) == q * a + q * x;
    assert (t + 1 - c) * y == (t + 1) * y - c * y;
    assert (t + 1) * (a' + y) == (t + 1) * a' + (t + 1) * y;
  }

  /** Vandermonde: the feasible tables are exactly the choices of t runs among all n+m. */
  lemma {:induction false} Vandermonde(n: nat, m: nat, t: nat)
    ensures Tail(n, m, t, t) == Choose(n + m, t)
  {
    if t == 0 {
      ChooseZero(n);
      ChooseZero(m);
      ChooseZero(n + m);
      assert Tail(n, m, 0, -1) == 0;
    } else {
      Vandermonde(n, m, t - 1);
      ExtendTail(n, m, t - 1, t - 1);
      Absorption(n + m, t - 1);
      VandermondeStep(t, Tail(n, m, t, t - 1), Cell(n, m, t, t), Choose(n + m, t));
    }
  }

  lemma VandermondeStep(t: int, a: int, x: int, y: int)
    requires t > 0 && t * a + t * x == t * y
    ensures a + x == y
  {
    assert t * (a + x) == t * a + t * x;
    CancelFactor(t, a + x, y);
  }

  lemma CancelFactor(k: int, x: int, y: int)
    requires k > 0
    ensures k * x == k * y ==> x == y
    ensures k * x <= k * y ==> x <= y
  {
    if x < y { assert k * x < k * y; } else if y < x { assert k * y < k * x; }
  }

  lemma {:induction false} TailGrows(n: nat, m: nat, t: int, c: int, d: int)
    requires c <= d
    ensures Tail(n, m, t, c) <= Tail(n, m, t, d)
    decreases d - c
  {
    if c < d { TailGrows(n, m, t, c, d - 1); }
  }

  /** Tables whose baseline holds at least j passes, summed on the baseline cell. */
  function UpperTail(m: nat, n: nat, t: int, j: int): nat
    decreases m + 1 - j
  {
    if j > m then 0 else Choose(m, j) * Choose(n, t - j) + UpperTail(m, n, t, j + 1)
  }

  /** The lower tail on the candidate cell is the upper tail on the baseline cell. */
  lemma {:induction false} LowerTailIsUpperTail(n: nat, m: nat, t: int, c: int)
    requires c >= -1
    ensures Tail(n, m, t, c) == UpperTail(m, n, t, t - c)
    decreases c + 1
  {
    if c == -1 {
      EmptyUpperTail(m, n, t, t + 1);
    } else {
      LowerTailIsUpperTail(n, m, t, c - 1);
      assert t - (c - 1) == t - c + 1 && t - (t - c) == c;
      if t - c > m {
        ChoosePositive(m, t - c);
      } else {
        assert Choose(m, t - c) * Choose(n, c) == Cell(n, m, t, c);
      }
    }
  }

  /** A baseline cell above the total would need a negative number of candidate passes. */
  lemma {:induction false} EmptyUpperTail(m: nat, n: nat, t: int, j: int)
    requires j > t
    ensures UpperTail(m, n, t, j) == 0
    decreases m + 1 - j
  {
    if j <= m {
      EmptyUpperTail(m, n, t, j + 1);
      ChoosePositive(n, t - j);
    }
  }

  // ---------------------------------------------------------------------------------------------
  // The p-value.

  /** A k-of-n count as `parseFraction` admits it. */
  predicate Counts(pass: int, n: int) {
    0 <= pass <= n
  }

  /** P(candidate passes <= cPass | margins). */
  function DropP(bPass: nat, bN: nat, cPass: nat, cN: nat): real
    requires Counts(bPass, bN) && Counts(cPass, cN)
  {
    ChoosePositive(bN + cN, bPass + cPass);
    Ratio(Tail(cN, bN, bPass + cPass, cPass), Choose(bN + cN, bPass + cPass))
  }

  function Ratio(x: nat, y: nat): real
    requires y > 0
  {
    x as real / y as real
  }

  lemma AddRatios(x: nat, x': nat, y: nat)
    requires y > 0
    ensures Ratio(x, y) + Ratio(x', y) == Ratio(x + x', y)
  {}

  /** Cells below the loop's start are infeasible. */
  lemma {:induction false} TailBelowStart(n: nat, m: nat, t: int, c: int)
    requires c < t - m
    ensures Tail(n, m, t, c) == 0
    decreases if c < 0 then 0 else c + 1
  {
    if c >= 0 {
      TailBelowStart(n, m, t, c - 1);
      ChoosePositive(m, t - c);
    }
  }

  method FisherDropP(bPass: nat, bN: nat, cPass: nat, cN: nat) returns (p: real)
    requires Counts(bPass, bN) && Counts(cPass, cN)
    ensures p == DropP(bPass, bN, cPass, cN)
    ensures 0.0 < p <= 1.0
  {
    var total, totalPass := bN + cN, bPass + cPass;
    ChoosePositive(total, totalPass);
    var denom := Choose(total, totalPass);
    p := 0.0;
    var kMin := if totalPass - bN > 0 then totalPass - bN else 0;
    if kMin > 0 { TailBelowStart(cN, bN, totalPass, kMin - 1); }
    var k := kMin;
    while k <= cPass
      invariant kMin <= k <= cPass + 1
      invariant p == Ratio(Tail(cN, bN, totalPass, k - 1), denom)
    {
      AddRatios(Tail(cN, bN, totalPass, k - 1), Cell(cN, bN, totalPass, k), denom);
      p := p + Ratio(Choose(cN, k) * Choose(bN, totalPass - k), denom);
      k := k + 1;
    }
    DropPIsProbability(bPass, bN, cPass, cN);
    p := if p < 1.0 then p else 1.0;
  }

  /** The exact p is a probability, never 0, so the final `Math.min(1, p)` only guards rounding; and it is 1 exactly
      when no worse candidate table exists: the candidate passed everything, or the baseline nothing. */
  lemma DropPIsProbability(bPass: nat, bN: nat, cPass: nat, cN: nat)
    requires Counts(bPass, bN) && Counts(cPass, cN)
    ensures 0.0 < DropP(bPass, bN, cPass, cN) <= 1.0
    ensures DropP(bPass, bN, cPass, cN) == 1.0 <==> cPass == cN || bPass == 0
  {
    var t := bPass + cPass;
    var tail, denom := Tail(cN, bN, t, cPass), Choose(bN + cN, t);
    Vandermonde(cN, bN, t);
    ChoosePositive(bN + cN, t);
    TailGrows(cN, bN, t, cPass, t);
    CellPositive(cN, bN, t, cPass);
    assert 0 < tail <= denom;
    if cPass == cN || bPass == 0 {
      TailSaturates(cN, bN, t, cPass, t);
    } else {
      CellPositive(cN, bN, t, cPass + 1);
      TailGrows(cN, bN, t, cPass + 1, t);
      assert tail < denom;
    }
    RatioAgainstOne(tail, denom);
  }

  lemma PositiveProduct(a: real, b: real)
    requires a > 0.0 && b > 0.0
    ensures a * b > 0.0
  {
  }

  lemma FactorAgainstOne(r: real, x: real, y: real)
    requires 0.0 < x <= y && r * y == x
    ensures 0.0 < r <= 1.0 && (r == 1.0 <==> x == y)
  {
    if r > 1.0 {
      PositiveProduct(r - 1.0, y);
    } else if r < 0.0 {
      PositiveProduct(-r, y);
    } else if r < 1.0 {
      PositiveProduct(1.0 - r, y);
    }
  }

  lemma RatioAgainstOne(x: nat, y: nat)
    requires 0 < x <= y
    ensures 0.0 < Ratio(x, y) <= 1.0
    ensures Ratio(x, y) == 1.0 <==> x == y
  {
    var r := Ratio(x, y);
    assert r * y as real == x as real;
    FactorAgainstOne(r, x as real, y as real);
  }

  lemma CellPositive(n: nat, m: nat, t: int, k: int)
    requires 0 <= k <= n && 0 <= t - k <= m
    ensures Cell(n, m, t, k) > 0
  {
    ChoosePositive(n, k);
    ChoosePositive(m, t - k);
  }

  lemma {:induction false} TailSaturates(n: nat, m: nat, t: int, c: nat, d: int)
    requires c <= d <= t && (c == n || c == t)
    ensures Tail(n, m, t, d) == Tail(n, m, t, c)
    decreases d
  {
    if c < d {
      TailSaturates(n, m, t, c, d - 1);
      ChoosePositive(n, d);
      assert Choose(n, d) == 0;
      assert Cell(n, m, t, d) == 0 * Choose(m, t - d) == 0;
    }
  }

  // ---------------------------------------------------------------------------------------------
  // Monotonicity, although the margin (the total of passes) moves with either argument.

  lemma CancelRealFactor(y: real, r: real, s: real)
    requires y > 0.0
    ensures r * y <= s * y ==> r <= s
  {
    if s < r { assert s * y < r * y; }
  }

  lemma RatioTimes(x: nat, y: nat, z: int)
    requires y > 0
    ensures (Ratio(x, y)) * (y * z) as real == (x * z) as real
  {
    var r := Ratio(x, y);
    assert r * y as real == x as real;
    assert (y * z) as real == y as real * z as real;
    assert r * (y as real * z as real) == (r * y as real) * z as real;
    assert x as real * z as real == (x * z) as real;
  }

  lemma CompareRatios(x1: nat, y1: nat, x2: nat, y2: nat)
    requires y1 > 0 && y2 > 0 && x1 * y2 <= x2 * y1
    ensures Ratio(x1, y1) <= Ratio(x2, y2)
  {
    RatioTimes(x1, y1, y2);
    RatioTimes(x2, y2, y1);
    assert y1 * y2 == y2 * y1 && y1 * y2 > 0;
    CancelRealFactor((y1 * y2) as real, Ratio(x1, y1), Ratio(x2, y2));
  }

  /** From u*y1 == v*y2, the ratios x1/y1 and x2/y2 compare as u*x1 and v*x2. */
  lemma CompareScaled(u: nat, v: nat, x1: nat, y1: nat, x2: nat, y2: nat)
    requires v > 0 && y1 > 0 && y2 > 0 && u * y1 == v * y2
    ensures u * x1 <= v * x2 ==> Ratio(x1, y1) <= Ratio(x2, y2)
    ensures u * x1 >= v * x2 ==> Ratio(x1, y1) >= Ratio(x2, y2)
  {
    ScaleCross(u, v, x1, y1, x2, y2);
    var l, r := x1 * y2, x2 * y1;
    if u * x1 <= v * x2 {
      MulMonotone(u * x1, v * x2, y1);
      CancelFactor(v, l, r);
      CompareRatios(x1, y1, x2, y2);
    }
    if u * x1 >= v * x2 {
      MulMonotone(v * x2, u * x1, y1);
      CancelFactor(v, r, l);
      CompareRatios(x2, y2, x1, y1);
    }
  }

  lemma MulMonotone(x: int, y: int, z: nat)
    requires x <= y
    ensures x * z <= y * z
  {}

  lemma ScaleCross(u: int, v: int, x1: int, y1: int, x2: int, y2: int)
    requires u * y1 == v * y2
    ensures v * (x1 * y2) == (u * x1) * y1
    ensures v * (x2 * y1) == (v * x2) * y1
  {
    calc {
      v * (x1 * y2);
      x1 * (v * y2);
      x1 * (u * y1);
      (u * x1) * y1;
    }
  }

  lemma OneMoreCandidatePass(bPass: nat, bN: nat, cPass: nat, cN: nat)
    requires Counts(bPass, bN) && cPass + 1 <= cN
    ensures DropP(bPass, bN, cPass, cN) <= DropP(bPass, bN, cPass + 1, cN)
  {
    var N, t := bN + cN, bPass + cPass;
    ExtendTail(cN, bN, t, cPass);
    Absorption(N, t);
    ChoosePositive(N, t);
    ChoosePositive(N, t + 1);
    CandidateStep(t, cPass, Tail(cN, bN, t + 1, cPass), Cell(cN, bN, t + 1, cPass + 1));
    CompareScaled(N - t, t + 1, Tail(cN, bN, t, cPass), Choose(N, t), Tail(cN, bN, t + 1, cPass + 1), Choose(N, t + 1));
  }

  lemma CandidateStep(t: int, c: int, a: int, z: int)
    requires c <= t && z >= 0
    ensures (t + 1) * a + (c + 1) * z <= (t + 1) * (a + z)
  {
    assert (t + 1) * (a + z) == (t + 1) * a + (t + 1) * z;
    assert (c + 1) * z + (t - c) * z == (t + 1) * z;
    assert (t - c) * z >= 0;
  }

  lemma OneMoreBaselinePass(bPass: nat, bN: nat, cPass: nat, cN: nat)
    requires bPass + 1 <= bN && Counts(cPass, cN)
    ensures DropP(bPass, bN, cPass, cN) >= DropP(bPass + 1, bN, cPass, cN)
  {
    var N, t := bN + cN, bPass + cPass;
    ExtendTail(cN, bN, t, cPass);
    Absorption(N, t);
    ChoosePositive(N, t);
    ChoosePositive(N, t + 1);
    CompareScaled(N - t, t + 1, Tail(cN, bN, t, cPass), Choose(N, t), Tail(cN, bN, t + 1, cPass), Choose(N, t + 1));
  }

  lemma {:induction false} DropPMonotoneInCandidate(bPass: nat, bN: nat, cPass: nat, cPass': nat, cN: nat)
    requires Counts(bPass, bN) && cPass <= cPass' <= cN
    ensures DropP(bPass, bN, cPass, cN) <= DropP(bPass, bN, cPass', cN)
    decreases cPass' - cPass
  {
    if cPass < cPass' {
      OneMoreCandidatePass(bPass, bN, cPass, cN);
      DropPMonotoneInCandidate(bPass, bN, cPass + 1, cPass', cN);
    }
  }

  lemma {:induction false} DropPAntitoneInBaseline(bPass: nat, bPass': nat, bN: nat, cPass: nat, cN: nat)
    requires bPass <= bPass' <= bN && Counts(cPass, cN)
    ensures DropP(bPass, bN, cPass, cN) >= DropP(bPass', bN, cPass, cN)
    decreases bPass' - bPass
  {
    if bPass < bPass' {
      OneMoreBaselinePass(bPass, bN, cPass, cN);
      DropPAntitoneInBaseline(bPass + 1, bPass', bN, cPass, cN);
    }
  }
}
