/**
  The step computation of Inversion::optimization, over real numbers.

  gmax = max_i |g_i| (starting from 0), gdot = sum_i g_i^2,
  lambda = 0.5 * residual / gdot, alpha = gamma / (lambda*gmax) when
  lambda*gmax > gamma and 1 otherwise, variation_i = alpha*lambda*g_i.
  `Inversion::optimization` does not guard the division by gdot, so a non-zero gdot is a
  precondition here.
*/
module StepLength {
  import opened RealArith

  function Abs(x: real): real
  {
    if x < 0.0 then -x else x
  }

  /** The largest magnitude in `g`, 0 for an all-zero or empty gradient. */
  function GMax(g: seq<real>): (m: real)
    ensures m >= 0.0
    ensures forall i :: 0 <= i < |g| ==> Abs(g[i]) <= m
    ensures m == 0.0 || exists i :: 0 <= i < |g| && Abs(g[i]) == m
    decreases |g|
  {
    if |g| == 0 then 0.0
    else
      var m := GMax(g[..|g| - 1]);
      var a := Abs(g[|g| - 1]);
      assert forall i :: 0 <= i < |g| - 1 ==> g[..|g| - 1][i] == g[i];
      if m < a then a else m
  }

  /** Sum of squares of `g`. */
  function GDot(g: seq<real>): (s: real)
    ensures s >= 0.0
    decreases |g|
  {
    if |g| == 0 then 0.0
    else
      var last := g[|g| - 1];
      SquareNonNegative(last);
      GDot(g[..|g| - 1]) + last * last
  }

  /** An all-zero gradient has gdot 0. */
  lemma {:induction false} AllZeroGDot(g: seq<real>)
    requires forall i :: 0 <= i < |g| ==> g[i] == 0.0
    ensures GDot(g) == 0.0
    decreases |g|
  {
    if |g| > 0 {
      var init := g[..|g| - 1];
      assert forall i :: 0 <= i < |init| ==> init[i] == g[i];
      AllZeroGDot(init);
      var last := g[|g| - 1];
      assert last * last == 0.0;
    }
  }

  /** A zero gdot forces every gradient entry to be zero. */
  lemma {:induction false} ZeroGDotAllZero(g: seq<real>)
    requires GDot(g) == 0.0
    ensures forall i :: 0 <= i < |g| ==> g[i] == 0.0
    decreases |g|
  {
    if |g| > 0 {
      var init := g[..|g| - 1];
      var last := g[|g| - 1];
      SquareNonNegative(last);
      assert GDot(init) == 0.0 && last * last == 0.0;
      SquareZero(last);
      ZeroGDotAllZero(init);
      assert forall i :: 0 <= i < |g| - 1 ==> g[i] == init[i];
    }
  }

  /** gdot is zero exactly when every gradient entry is zero. */
  lemma GDotZeroIffAllZero(g: seq<real>)
    ensures GDot(g) == 0.0 <==> forall i :: 0 <= i < |g| ==> g[i] == 0.0
  {
    if GDot(g) == 0.0 {
      ZeroGDotAllZero(g);
    } else if forall i :: 0 <= i < |g| ==> g[i] == 0.0 {
      AllZeroGDot(g);
    }
  }

  /** A gradient with a non-zero entry has a positive gmax. */
  lemma GMaxPositive(g: seq<real>)
    requires GDot(g) != 0.0
    ensures GMax(g) > 0.0
  {
    GDotZeroIffAllZero(g);
    var i :| 0 <= i < |g| && g[i] != 0.0;
    assert Abs(g[i]) > 0.0;
  }

  /** lambda = 0.5 * residual / gdot. */
  function StepLambda(residual: real, gdot: real): real
    requires gdot != 0.0
  {
    0.5 * residual / gdot
  }

  /**
    `Inversion::optimization` divides by gdot and, when lambda*gmax exceeds gamma, by
    lambda*gmax; neither division is guarded, so both divisors must be
    non-zero.
  */
  predicate Computable(gradient: seq<real>, residual: real, gamma: real)
  {
    GDot(gradient) != 0.0 &&
    var p := StepLambda(residual, GDot(gradient)) * GMax(gradient);
    p > gamma ==> p != 0.0
  }

  /** Both divisions are defined for every non-zero gradient unless the cap is negative and the residual zero. */
  lemma ComputableWhen(gradient: seq<real>, residual: real, gamma: real)
    requires GDot(gradient) != 0.0 && (gamma >= 0.0 || residual != 0.0)
    ensures Computable(gradient, residual, gamma)
  {
    GMaxPositive(gradient);
    var gmax := GMax(gradient);
    var lam := StepLambda(residual, GDot(gradient));
    if residual != 0.0 {
      assert lam != 0.0;
      NonZeroProduct(lam, gmax);
    }
  }

  /** alpha = gamma / (lambda*gmax) when lambda*gmax > gamma, otherwise 1. */
  function Alpha(lam: real, gmax: real, gamma: real): real
    requires lam * gmax > gamma ==> lam * gmax != 0.0
  {
    if lam * gmax > gamma then gamma / (lam * gmax) else 1.0
  }

  /**
    Reference relation of one step: gmax and gdot from their definitions,
    lambda and alpha from them, and every variation entry alpha*lambda*g_i.
  */
  predicate IsStep(gradient: seq<real>, residual: real, gamma: real,
                   gmax: real, gdot: real, lam: real, alpha: real, variation: seq<real>)
    requires Computable(gradient, residual, gamma)
  {
    && gmax == GMax(gradient)
    && gdot == GDot(gradient)
    && lam == StepLambda(residual, GDot(gradient))
    && alpha == Alpha(lam, gmax, gamma)
    && |variation| == |gradient|
    && forall i :: 0 <= i < |gradient| ==> variation[i] == alpha * lam * gradient[i]
  }

  /**
    Inversion::optimization: one pass over the gradient accumulates gmax
    and gdot, then every variation entry is alpha*lambda*g_i.
  */
  method Optimization(gradient: seq<real>, residual: real, maxVariation: real)
    returns (gmax: real, gdot: real, lam: real, alpha: real, variation: seq<real>)
    requires Computable(gradient, residual, maxVariation)
    ensures IsStep(gradient, residual, maxVariation, gmax, gdot, lam, alpha, variation)
  {
    gmax, gdot := GradientNorms(gradient);
    lam := StepLambda(residual, gdot);
    AlphaDefined(gradient, residual, maxVariation, gmax, lam);
    alpha := Alpha(lam, gmax, maxVariation);
    variation := Scaled(gradient, alpha, lam);
    StepFromParts(gradient, residual, maxVariation, gmax, gdot, lam, alpha, variation);
  }

  lemma StepFromParts(gradient: seq<real>, residual: real, gamma: real,
                      gmax: real, gdot: real, lam: real, alpha: real, variation: seq<real>)
    requires Computable(gradient, residual, gamma)
    requires gmax == GMax(gradient) && gdot == GDot(gradient)
    requires lam == StepLambda(residual, gdot) && alpha == Alpha(lam, gmax, gamma)
    requires variation == Scaled(gradient, alpha, lam)
    ensures IsStep(gradient, residual, gamma, gmax, gdot, lam, alpha, variation)
  {
  }

  lemma AlphaDefined(gradient: seq<real>, residual: real, gamma: real, gmax: real, lam: real)
    requires Computable(gradient, residual, gamma)
    requires gmax == GMax(gradient) && lam == StepLambda(residual, GDot(gradient))
    ensures lam * gmax > gamma ==> lam * gmax != 0.0
  {
  }

  /** The loop of optimization: the running max magnitude and sum of squares. */
  method GradientNorms(gradient: seq<real>) returns (gmax: real, gdot: real)
    ensures gmax == GMax(gradient) && gdot == GDot(gradient)
  {
    gmax := 0.0;
    gdot := 0.0;
    for index := 0 to |gradient|
      invariant gmax == GMax(gradient[..index])
      invariant gdot == GDot(gradient[..index])
    {
      PrefixMax(gradient, index);
      PrefixDot(gradient, index);
      if gmax < Abs(gradient[index]) {
        gmax := Abs(gradient[index]);
      }
      gdot := gdot + gradient[index] * gradient[index];
    }
    assert gradient[..|gradient|] == gradient;
  }

  /** Every entry of `g` multiplied by alpha*lambda. */
  function Scaled(g: seq<real>, alpha: real, lam: real): (v: seq<real>)
    ensures |v| == |g|
    ensures forall i :: 0 <= i < |g| ==> v[i] == alpha * lam * g[i]
  {
    seq(|g|, i requires 0 <= i < |g| => alpha * lam * g[i])
  }

  /** One more entry of the loop: the running max extends by |g[index]|. */
  lemma PrefixMax(g: seq<real>, index: nat)
    requires index < |g|
    ensures GMax(g[..index + 1]) == (if GMax(g[..index]) < Abs(g[index]) then Abs(g[index]) else GMax(g[..index]))
  {
    assert g[..index + 1][..index] == g[..index];
  }

  /** One more entry of the loop: the running sum of squares extends by g[index]^2. */
  lemma PrefixDot(g: seq<real>, index: nat)
    requires index < |g|
    ensures GDot(g[..index + 1]) == GDot(g[..index]) + g[index] * g[index]
  {
    var h := g[..index + 1];
    assert h[..|h| - 1] == g[..index];
  }

  lemma ScaledBound(c: real, a: real, m: real)
    requires c >= 0.0 && 0.0 <= a <= m
    ensures c * a <= c * m
  {
  }

  /**
    The scalar part of the cap: for lambda >= 0, gmax > 0 and gamma >= 0,
    alpha is in [0, 1], alpha*lambda*gmax never exceeds gamma, and equals it
    when the cap is active.
  */
  lemma AlphaBounds(alpha: real, lam: real, gmax: real, gamma: real)
    requires lam >= 0.0 && gmax > 0.0 && gamma >= 0.0
    requires alpha == Alpha(lam, gmax, gamma)
    ensures 0.0 <= alpha <= 1.0
    ensures gamma > 0.0 ==> alpha > 0.0
    ensures alpha * lam >= 0.0
    ensures alpha * lam * gmax <= gamma
    ensures lam * gmax > gamma ==> alpha * lam * gmax == gamma
  {
    var p := lam * gmax;
    assert p >= 0.0;
    if p > gamma {
      assert alpha * p == gamma;
      assert alpha * lam * gmax == alpha * p;
      assert alpha <= 1.0;
    } else {
      assert 1.0 * lam * gmax == p;
    }
  }

  /**
    The step cap: with a non-negative residual and cap gamma, alpha lies in
    [0, 1] (and is positive when gamma is), no variation entry exceeds gamma
    in magnitude, and when the cap is active the largest entry equals gamma
    exactly.
  */
  lemma StepIsCapped(gradient: seq<real>, residual: real, gamma: real,
                     gmax: real, gdot: real, lam: real, alpha: real, variation: seq<real>)
    requires residual >= 0.0 && gamma >= 0.0
    requires Computable(gradient, residual, gamma)
    requires IsStep(gradient, residual, gamma, gmax, gdot, lam, alpha, variation)
    ensures 0.0 <= alpha <= 1.0
    ensures gamma > 0.0 ==> alpha > 0.0
    ensures forall i :: 0 <= i < |gradient| ==> Abs(variation[i]) <= gamma
    ensures lam * gmax > gamma ==>
              exists i :: 0 <= i < |gradient| && Abs(variation[i]) == gamma
  {
    GMaxPositive(gradient);
    assert lam >= 0.0;
    CapFacts(variation, gradient, alpha, lam, gmax, gamma);
  }

  /** The cap, stated over the scalars of a step. */
  lemma CapFacts(variation: seq<real>, gradient: seq<real>, alpha: real, lam: real, gmax: real, gamma: real)
    requires lam >= 0.0 && gmax > 0.0 && gamma >= 0.0
    requires alpha == Alpha(lam, gmax, gamma)
    requires forall i :: 0 <= i < |gradient| ==> Abs(gradient[i]) <= gmax
    requires exists i :: 0 <= i < |gradient| && Abs(gradient[i]) == gmax
    requires |variation| == |gradient|
    requires forall i :: 0 <= i < |gradient| ==> variation[i] == alpha * lam * gradient[i]
    ensures 0.0 <= alpha <= 1.0
    ensures gamma > 0.0 ==> alpha > 0.0
    ensures forall i :: 0 <= i < |gradient| ==> Abs(variation[i]) <= gamma
    ensures lam * gmax > gamma ==>
              exists i :: 0 <= i < |gradient| && Abs(variation[i]) == gamma
  {
    AlphaBounds(alpha, lam, gmax, gamma);
    EntriesBounded(variation, gradient, alpha, lam, gmax, gamma);
    if lam * gmax > gamma {
      var i :| 0 <= i < |gradient| && Abs(gradient[i]) == gmax;
      EntryAttains(variation, gradient, alpha, lam, gmax, gamma, i);
    }
  }

  /** Entries alpha*lambda*g_i with |g_i| <= gmax and alpha*lambda*gmax <= gamma stay within gamma. */
  lemma EntriesBounded(variation: seq<real>, gradient: seq<real>, alpha: real, lam: real, gmax: real, gamma: real)
    requires |variation| == |gradient|
    requires alpha * lam >= 0.0
    requires alpha * lam * gmax <= gamma
    requires forall i :: 0 <= i < |gradient| ==> Abs(gradient[i]) <= gmax
    requires forall i :: 0 <= i < |gradient| ==> variation[i] == alpha * lam * gradient[i]
    ensures forall i :: 0 <= i < |gradient| ==> Abs(variation[i]) <= gamma
  {
    forall i | 0 <= i < |gradient|
      ensures Abs(variation[i]) <= gamma
    {
      AbsScale(alpha * lam, gradient[i]);
      ScaledBound(alpha * lam, Abs(gradient[i]), gmax);
    }
  }

  /** The entry of largest magnitude reaches alpha*lambda*gmax exactly. */
  lemma EntryAttains(variation: seq<real>, gradient: seq<real>, alpha: real, lam: real, gmax: real, gamma: real, i: int)
    requires 0 <= i < |gradient| == |variation|
    requires alpha * lam >= 0.0
    requires alpha * lam * gmax == gamma
    requires Abs(gradient[i]) == gmax
    requires variation[i] == alpha * lam * gradient[i]
    ensures Abs(variation[i]) == gamma
  {
    AbsScale(alpha * lam, gradient[i]);
  }

  lemma AbsScale(c: real, x: real)
    requires c >= 0.0
    ensures Abs(c * x) == c * Abs(x)
  {
    if x < 0.0 {
      assert c * x == -(c * (-x));
    }
  }

  /** The worked example: g = [1, -2, 3], gamma = 0.5, residual 7 gives [1/6, -1/3, 1/2]. */
  lemma CapExample(gmax: real, gdot: real, lam: real, alpha: real, variation: seq<real>)
    requires Computable([1.0, -2.0, 3.0], 7.0, 0.5)
    requires IsStep([1.0, -2.0, 3.0], 7.0, 0.5, gmax, gdot, lam, alpha, variation)
    ensures gdot == 14.0 && gmax == 3.0 && lam == 0.25 && alpha == 2.0 / 3.0
    ensures variation == [1.0 / 6.0, -1.0 / 3.0, 0.5]
  {
    ExampleSums();
    assert lam * gmax == 0.75;
    assert alpha == 2.0 / 3.0;
  }

  lemma ExampleSums()
    ensures GDot([1.0, -2.0, 3.0]) == 14.0 && GMax([1.0, -2.0, 3.0]) == 3.0
  {
    var g := [1.0, -2.0, 3.0];
    assert g[..2] == [1.0, -2.0] && g[..2][..1] == [1.0] && g[..2][..1][..0] == [];
    assert GDot([1.0]) == 1.0;
    assert GDot([1.0, -2.0]) == 5.0;
    assert GMax([1.0]) == 1.0;
    assert GMax([1.0, -2.0]) == 2.0;
  }

  /** The worked example's inputs satisfy the precondition of the step. */
  lemma CapExampleComputable()
    ensures Computable([1.0, -2.0, 3.0], 7.0, 0.5)
  {
    ExampleSums();
    ComputableWhen([1.0, -2.0, 3.0], 7.0, 0.5);
  }
}
